/** Escape decoding of string literals (the `StringExpression` constructor).

    The constructor replaces the two-character sequences backslash-n,
    backslash-t and backslash-r by newline, tab and carriage return, as three
    successive ordinal `String.Replace` calls in that order.  Every other
    character, backslashes included, is kept. */
module Escapes {

  const Backslash: char := '\\'

  /** `s.Replace([a, b], [rep])`: scan from the left, replace each
      non-overlapping occurrence of the pair `a b` by `rep`. */
  function ReplacePair(s: string, a: char, b: char, rep: char): (r: string)
    ensures |r| <= |s|
    ensures |s| - |r| <= |s| / 2
  {
    if |s| < 2 then s
    else if s[0] == a && s[1] == b then [rep] + ReplacePair(s[2..], a, b, rep)
    else [s[0]] + ReplacePair(s[1..], a, b, rep)
  }

  /** The stored value of a string literal whose source text (without the
      quotes) is `raw`. */
  function Decode(raw: string): (value: string)
    ensures |value| <= |raw|
  {
    DecodeLength(raw);
    ReplacePair(ReplacePair(ReplacePair(raw, Backslash, 'n', '\n'), Backslash, 't', '\t'), Backslash, 'r', '\r')
  }

  /** The character an escape letter stands for. */
  function Unescape(c: char): char
    requires c == 'n' || c == 't' || c == 'r'
  {
    if c == 'n' then '\n' else if c == 't' then '\t' else '\r'
  }

  predicate IsEscapeAt(s: string, i: int)
  {
    0 <= i && i + 1 < |s| && s[i] == Backslash && (s[i + 1] == 'n' || s[i + 1] == 't' || s[i + 1] == 'r')
  }

  /** Reference decoder: one scan from the left that replaces each escape it
      meets and copies every other character. */
  function DecodeOnePass(s: string): string
  {
    if |s| < 2 then s
    else if IsEscapeAt(s, 0) then [Unescape(s[1])] + DecodeOnePass(s[2..])
    else [s[0]] + DecodeOnePass(s[1..])
  }

  /** Number of escapes the reference decoder replaces. */
  function EscapeCount(s: string): nat
  {
    if |s| < 2 then 0
    else if IsEscapeAt(s, 0) then 1 + EscapeCount(s[2..])
    else EscapeCount(s[1..])
  }

  /** No occurrence of the pair `a b` in `s`. */
  predicate PairFree(s: string, a: char, b: char)
  {
    |s| < 2 || (!(s[0] == a && s[1] == b) && PairFree(s[1..], a, b))
  }

  predicate EscapeFree(s: string)
  {
    PairFree(s, Backslash, 'n') && PairFree(s, Backslash, 't') && PairFree(s, Backslash, 'r')
  }

  lemma {:induction false} PairFreeIff(s: string, a: char, b: char)
    ensures PairFree(s, a, b) <==> forall i :: 0 <= i < |s| - 1 ==> !(s[i] == a && s[i + 1] == b)
  {
    if |s| >= 2 {
      PairFreeIff(s[1..], a, b);
      assert forall i :: 1 <= i < |s| - 1 ==> s[i] == s[1..][i - 1];
    }
  }

  lemma ReplacePairHead(s: string, a: char, b: char, rep: char)
    requires s != []
    ensures ReplacePair(s, a, b, rep) != []
    ensures ReplacePair(s, a, b, rep)[0] == if |s| >= 2 && s[0] == a && s[1] == b then rep else s[0]
  {
  }

  /** A character that cannot start the pair is copied and the scan goes on. */
  lemma ReplacePairCons(x: char, t: string, a: char, b: char, rep: char)
    requires x != a || t == [] || t[0] != b
    ensures ReplacePair([x] + t, a, b, rep) == [x] + ReplacePair(t, a, b, rep)
  {
    if t != [] {
      assert ([x] + t)[1..] == t;
    }
  }

  /** After a replacement pass no pair is left, as long as the replacement
      character cannot itself form one. */
  lemma {:induction false} ReplacePairRemovesPair(s: string, a: char, b: char, rep: char)
    requires rep != a && rep != b
    ensures PairFree(ReplacePair(s, a, b, rep), a, b)
  {
    if |s| >= 2 {
      if s[0] == a && s[1] == b {
        ReplacePairRemovesPair(s[2..], a, b, rep);
        assert ([rep] + ReplacePair(s[2..], a, b, rep))[1..] == ReplacePair(s[2..], a, b, rep);
      } else {
        ReplacePairRemovesPair(s[1..], a, b, rep);
        ReplacePairHead(s[1..], a, b, rep);
        assert ([s[0]] + ReplacePair(s[1..], a, b, rep))[1..] == ReplacePair(s[1..], a, b, rep);
      }
    }
  }

  /** A replacement pass does not create an occurrence of another pair `a b'`. */
  lemma {:induction false} ReplacePairKeepsFree(s: string, a: char, b: char, rep: char, b': char)
    requires PairFree(s, a, b')
    requires rep != a && rep != b' && b != b'
    ensures PairFree(ReplacePair(s, a, b, rep), a, b')
  {
    if |s| >= 2 {
      if s[0] == a && s[1] == b {
        assert PairFree(s[2..], a, b');
        ReplacePairKeepsFree(s[2..], a, b, rep, b');
        assert ([rep] + ReplacePair(s[2..], a, b, rep))[1..] == ReplacePair(s[2..], a, b, rep);
      } else {
        ReplacePairKeepsFree(s[1..], a, b, rep, b');
        ReplacePairHead(s[1..], a, b, rep);
        assert ([s[0]] + ReplacePair(s[1..], a, b, rep))[1..] == ReplacePair(s[1..], a, b, rep);
      }
    }
  }

  /** A pass over a string without the pair changes nothing. */
  lemma {:induction false} ReplacePairIdentity(s: string, a: char, b: char, rep: char)
    requires PairFree(s, a, b)
    ensures ReplacePair(s, a, b, rep) == s
  {
    if |s| >= 2 {
      ReplacePairIdentity(s[1..], a, b, rep);
    }
  }

  /** The three passes compute the same string as the reference decoder: the
      order of the passes does not matter, because no replacement character
      can form a new escape. */
  lemma {:induction false} DecodeMatchesOnePass(s: string)
    ensures ReplacePair(ReplacePair(ReplacePair(s, Backslash, 'n', '\n'), Backslash, 't', '\t'), Backslash, 'r', '\r')
         == DecodeOnePass(s)
  {
    if |s| < 2 {
    } else if s[0] == Backslash && s[1] == 'n' {
      var u := ReplacePair(s[2..], Backslash, 'n', '\n');
      ReplacePairCons('\n', u, Backslash, 't', '\t');
      ReplacePairCons('\n', ReplacePair(u, Backslash, 't', '\t'), Backslash, 'r', '\r');
      DecodeMatchesOnePass(s[2..]);
    } else if s[0] == Backslash && s[1] == 't' {
      var u := ReplacePair(s[2..], Backslash, 'n', '\n');
      assert s[1..] == ['t'] + s[2..];
      ReplacePairCons('t', s[2..], Backslash, 'n', '\n');
      assert ReplacePair(s, Backslash, 'n', '\n') == [Backslash, 't'] + u;
      assert ([Backslash, 't'] + u)[2..] == u;
      ReplacePairCons('\t', ReplacePair(u, Backslash, 't', '\t'), Backslash, 'r', '\r');
      DecodeMatchesOnePass(s[2..]);
    } else if s[0] == Backslash && s[1] == 'r' {
      var u := ReplacePair(s[2..], Backslash, 'n', '\n');
      assert s[1..] == ['r'] + s[2..];
      ReplacePairCons('r', s[2..], Backslash, 'n', '\n');
      assert ReplacePair(s, Backslash, 'n', '\n') == [Backslash] + (['r'] + u);
      ReplacePairCons(Backslash, ['r'] + u, Backslash, 't', '\t');
      ReplacePairCons('r', u, Backslash, 't', '\t');
      var v := ReplacePair(u, Backslash, 't', '\t');
      assert [Backslash] + (['r'] + v) == [Backslash, 'r'] + v;
      assert ([Backslash, 'r'] + v)[2..] == v;
      DecodeMatchesOnePass(s[2..]);
    } else {
      var v := ReplacePair(s[1..], Backslash, 'n', '\n');
      ReplacePairHead(s[1..], Backslash, 'n', '\n');
      ReplacePairCons(s[0], s[1..], Backslash, 'n', '\n');
      assert [s[0]] + s[1..] == s;
      var w := ReplacePair(v, Backslash, 't', '\t');
      ReplacePairHead(v, Backslash, 't', '\t');
      ReplacePairCons(s[0], v, Backslash, 't', '\t');
      ReplacePairCons(s[0], w, Backslash, 'r', '\r');
      DecodeMatchesOnePass(s[1..]);
    }
  }

  /** Each replaced escape shortens the string by exactly one character. */
  lemma {:induction false} OnePassLength(s: string)
    ensures |DecodeOnePass(s)| == |s| - EscapeCount(s)
  {
    if |s| >= 2 {
      if IsEscapeAt(s, 0) {
        OnePassLength(s[2..]);
      } else {
        OnePassLength(s[1..]);
      }
    }
  }

  lemma DecodeLength(raw: string)
    ensures |ReplacePair(ReplacePair(ReplacePair(raw, Backslash, 'n', '\n'), Backslash, 't', '\t'), Backslash, 'r', '\r')|
         == |raw| - EscapeCount(raw)
  {
    DecodeMatchesOnePass(raw);
    OnePassLength(raw);
  }

  /** The stored value has no escape left in it. */
  lemma DecodeEscapeFree(raw: string)
    ensures EscapeFree(Decode(raw))
  {
    var x := ReplacePair(raw, Backslash, 'n', '\n');
    var y := ReplacePair(x, Backslash, 't', '\t');
    ReplacePairRemovesPair(raw, Backslash, 'n', '\n');
    ReplacePairRemovesPair(x, Backslash, 't', '\t');
    ReplacePairKeepsFree(x, Backslash, 't', '\t', 'n');
    ReplacePairRemovesPair(y, Backslash, 'r', '\r');
    ReplacePairKeepsFree(y, Backslash, 'r', '\r', 'n');
    ReplacePairKeepsFree(y, Backslash, 'r', '\r', 't');
  }

  /** A string without escapes is stored unchanged. */
  lemma DecodeEscapeFreeUnchanged(raw: string)
    requires EscapeFree(raw)
    ensures Decode(raw) == raw
  {
    ReplacePairIdentity(raw, Backslash, 'n', '\n');
    ReplacePairIdentity(raw, Backslash, 't', '\t');
    ReplacePairIdentity(raw, Backslash, 'r', '\r');
  }

  /** In particular a string without a backslash is stored unchanged. */
  lemma {:induction false} DecodeNoBackslash(raw: string)
    requires Backslash !in raw
    ensures Decode(raw) == raw
  {
    NoBackslashEscapeFree(raw);
    DecodeEscapeFreeUnchanged(raw);
  }

  lemma {:induction false} NoBackslashEscapeFree(s: string)
    requires Backslash !in s
    ensures EscapeFree(s)
  {
    if |s| >= 2 {
      assert s[0] in s;
      assert forall c :: c in s[1..] ==> c in s;
      NoBackslashEscapeFree(s[1..]);
    }
  }

  /** Decoding twice is decoding once. */
  lemma DecodeIdempotent(raw: string)
    ensures Decode(Decode(raw)) == Decode(raw)
  {
    DecodeEscapeFree(raw);
    DecodeEscapeFreeUnchanged(Decode(raw));
  }

  /** A backslash that does not start one of the three escapes is kept, and
      decoding resumes at the character after it (so in backslash, backslash,
      'n' the second backslash and the 'n' become a newline). */
  lemma OtherBackslashKept(raw: string)
    requires |raw| >= 2 && raw[0] == Backslash && !IsEscapeAt(raw, 0)
    ensures Decode(raw) == [Backslash] + Decode(raw[1..])
  {
    DecodeMatchesOnePass(raw);
    DecodeMatchesOnePass(raw[1..]);
  }

  /** An escape at the front becomes its control character. */
  lemma EscapeReplaced(raw: string)
    requires IsEscapeAt(raw, 0)
    ensures Decode(raw) == [Unescape(raw[1])] + Decode(raw[2..])
  {
    DecodeMatchesOnePass(raw);
    DecodeMatchesOnePass(raw[2..]);
  }
}
