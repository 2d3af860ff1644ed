/** The scope chain `VariableStack<T>`: a frame holds a dictionary from names
    to values and a link to the enclosing frame.

    The functions on `seq<map<string, T>>` are the reference view of a chain,
    innermost frame first; the class is proved against them. */
module Scopes {
  import opened Outcomes

  /** The binding of `key` in the innermost frame that has one. */
  function LookupIn<T>(frames: seq<map<string, T>>, key: string): Option<T>
  {
    if frames == [] then None
    else if key in frames[0] then Some(frames[0][key])
    else LookupIn(frames[1..], key)
  }

  /** The effect of defining `key` in the innermost frame: refused when that
      frame already binds it. */
  function DefineIn<T>(frames: seq<map<string, T>>, key: string, value: T): (r: (bool, seq<map<string, T>>))
    requires frames != []
    ensures |r.1| == |frames| && r.1[1..] == frames[1..]
  {
    if key in frames[0] then (false, frames) else (true, [frames[0][key := value]] + frames[1..])
  }

  /** Lookup finds the innermost frame binding the name. */
  lemma {:induction false} LookupInFinds<T>(frames: seq<map<string, T>>, key: string, v: T)
    ensures LookupIn(frames, key) == Some(v) <==>
      exists i :: 0 <= i < |frames| && key in frames[i] && frames[i][key] == v &&
        forall j :: 0 <= j < i ==> key !in frames[j]
  {
    if frames != [] && key !in frames[0] {
      LookupInFinds(frames[1..], key, v);
      if LookupIn(frames, key) == Some(v) {
        var i :| 0 <= i < |frames| - 1 && key in frames[1..][i] && frames[1..][i][key] == v &&
          forall j :: 0 <= j < i ==> key !in frames[1..][j];
        assert forall j :: 0 <= j < i + 1 ==> key !in frames[j] by {
          forall j | 0 <= j < i + 1 ensures key !in frames[j] {
            if j > 0 { assert frames[j] == frames[1..][j - 1]; }
          }
        }
      }
      if exists i :: 0 <= i < |frames| && key in frames[i] && frames[i][key] == v &&
           forall j :: 0 <= j < i ==> key !in frames[j] {
        var i :| 0 <= i < |frames| && key in frames[i] && frames[i][key] == v &&
          forall j :: 0 <= j < i ==> key !in frames[j];
        assert i > 0;
        assert key in frames[1..][i - 1];
        assert forall j :: 0 <= j < i - 1 ==> key !in frames[1..][j] by {
          forall j | 0 <= j < i - 1 ensures key !in frames[1..][j] {
            assert frames[1..][j] == frames[j + 1];
          }
        }
      }
    }
  }

  /** Lookup finds nothing exactly when no frame binds the name. */
  lemma {:induction false} LookupInMisses<T>(frames: seq<map<string, T>>, key: string)
    ensures LookupIn(frames, key).None? <==> forall i :: 0 <= i < |frames| ==> key !in frames[i]
  {
    if frames != [] && key !in frames[0] {
      LookupInMisses(frames[1..], key);
      assert forall i :: 1 <= i < |frames| ==> frames[i] == frames[1..][i - 1];
    }
  }

  /** Lookup finds something exactly when some frame binds the name. */
  lemma LookupInBound<T>(frames: seq<map<string, T>>, key: string)
    ensures LookupIn(frames, key).Some? <==> exists i :: 0 <= i < |frames| && key in frames[i]
  {
    LookupInMisses(frames, key);
  }

  /** Defining a name the innermost frame lacks succeeds, and the name then
      resolves to the new value. */
  lemma DefineThenLookup<T>(frames: seq<map<string, T>>, key: string, value: T)
    requires frames != [] && key !in frames[0]
    ensures DefineIn(frames, key, value).0
    ensures LookupIn(DefineIn(frames, key, value).1, key) == Some(value)
  {
  }

  /** Redefining a name of the innermost frame is refused and changes
      nothing. */
  lemma DefineRefused<T>(frames: seq<map<string, T>>, key: string, value: T)
    requires frames != [] && key in frames[0]
    ensures DefineIn(frames, key, value) == (false, frames)
    ensures LookupIn(DefineIn(frames, key, value).1, key) == Some(frames[0][key])
  {
  }

  /** Outer frames are not consulted: a name bound further out can be bound
      again in the innermost frame, and then hides the outer binding. */
  lemma DefineShadows<T>(frames: seq<map<string, T>>, key: string, value: T)
    requires |frames| >= 2 && key !in frames[0] && LookupIn(frames[1..], key).Some?
    ensures DefineIn(frames, key, value).0
    ensures LookupIn(DefineIn(frames, key, value).1, key) == Some(value)
    ensures LookupIn(DefineIn(frames, key, value).1[1..], key) == LookupIn(frames[1..], key)
  {
  }

  /** Defining a name changes the lookup of no other name, and no outer
      frame. */
  lemma DefineKeepsOthers<T>(frames: seq<map<string, T>>, key: string, value: T, other: string)
    requires frames != [] && other != key
    ensures LookupIn(DefineIn(frames, key, value).1, other) == LookupIn(frames, other)
    ensures DefineIn(frames, key, value).1[1..] == frames[1..]
  {
  }

  /** A frame pushed on `outer`, then given a binding that shadows an outer
      one: dropping the frame gives back the outer view unchanged. */
  lemma ShadowThenReturn<T>(outer: seq<map<string, T>>, key: string, value: T)
    ensures var inner := DefineIn([map[]] + outer, key, value);
      && inner.0
      && LookupIn(inner.1, key) == Some(value)
      && inner.1[1..] == outer
  {
  }

  class VariableStack<T> {
    /** The enclosing frame, null at the root.  Only the constructors set it. */
    const upper: VariableStack?<T>
    var scope: map<string, T>
    /** The dictionaries of the chain, innermost first. */
    ghost var frames: seq<map<string, T>>
    /** The frames of the chain, this one included. */
    ghost const Repr: set<VariableStack<T>>

    ghost predicate Valid()
      reads Repr
      decreases Repr
    {
      this in Repr && frames != [] && frames[0] == scope &&
      if upper == null then Repr == {this} && frames == [scope]
      else
        upper in Repr && this !in upper.Repr && Repr == {this} + upper.Repr &&
        upper.Valid() && frames[1..] == upper.frames
    }

    /** A root frame. */
    constructor ()
      ensures Valid() && upper == null && Repr == {this}
      ensures frames == [map[]]
    {
      upper := null;
      scope := map[];
      frames := [map[]];
      Repr := {this};
    }

    /** A frame inside `upper`. */
    constructor Nested(upper: VariableStack<T>)
      requires upper.Valid()
      ensures Valid() && this.upper == upper && Repr == {this} + upper.Repr
      ensures frames == [map[]] + upper.frames
    {
      this.upper := upper;
      scope := map[];
      frames := [map[]] + upper.frames;
      Repr := {this} + upper.Repr;
    }

    function Lookup(key: string): (r: Option<T>)
      requires Valid()
      reads Repr
      decreases Repr
      ensures r == LookupIn(frames, key)
    {
      if key in scope then Some(scope[key])
      else if upper == null then None
      else upper.Lookup(key)
    }

    function IsDefined(key: string): (b: bool)
      requires Valid()
      reads Repr
      ensures b <==> LookupIn(frames, key).Some?
      ensures b <==> exists i :: 0 <= i < |frames| && key in frames[i]
    {
      LookupInBound(frames, key);
      Lookup(key).Some?
    }

    method SetValue(key: string, value: T) returns (ok: bool)
      requires Valid()
      modifies this
      ensures Valid()
      ensures (ok, frames) == DefineIn(old(frames), key, value)
    {
      if key !in scope {
        scope := scope[key := value];
        frames := [scope] + frames[1..];
        return true;
      }
      return false;
    }

    function GetUpper(): (u: VariableStack?<T>)
      requires Valid()
      reads Repr
      ensures u == null <==> |frames| == 1
      ensures u != null ==> u.Valid() && u.Repr < Repr && this !in u.Repr && u.frames == frames[1..]
    {
      assert upper != null ==> upper.Valid() && upper.frames != [];
      upper
    }
  }
}
