/** Consequences of distinct ids: in a tree whose ids are distinct, the id of
    a node is in no other part of the tree.  The rules use these to know that
    a step writing one node's entry leaves another node's entry alone. */
module Ids {
  import opened Outcomes
  import opened Ast

  lemma DistinctLeft(x: multiset<NodeId>, y: multiset<NodeId>)
    requires Distinct(x + y)
    ensures Distinct(x)
  {
    forall k | k in x
      ensures x[k] == 1
    {
      assert (x + y)[k] == x[k] + y[k];
    }
  }

  lemma DistinctRight(x: multiset<NodeId>, y: multiset<NodeId>)
    requires Distinct(x + y)
    ensures Distinct(y)
  {
    forall k | k in y
      ensures y[k] == 1
    {
      assert (x + y)[k] == x[k] + y[k];
    }
  }

  /** An id of one part of a tree with distinct ids is in no other part. */
  lemma Apart(x: multiset<NodeId>, y: multiset<NodeId>, k: NodeId)
    requires Distinct(x + y) && k in x
    ensures k !in y
  {
    assert (x + y)[k] == x[k] + y[k];
  }

  /** Four parts of a multiset of distinct ids: an id of one part is in no
      later part. */
  lemma SeparateParts(a: multiset<NodeId>, b: multiset<NodeId>, c: multiset<NodeId>, d: multiset<NodeId>,
                      x: NodeId, y: NodeId, z: NodeId)
    requires Distinct(a + (b + c + d)) && x in a && y in b && z in c
    ensures x !in b && x !in c && y !in c && y !in d && z !in d
  {
    var m := a + (b + c + d);
    assert m[x] == a[x] + b[x] + c[x] + d[x];
    assert m[y] == a[y] + b[y] + c[y] + d[y];
    assert m[z] == a[z] + b[z] + c[z] + d[z];
  }

  lemma {:induction false} IdsSsHas(ss: seq<Stmt>, n: nat, i: nat)
    requires i < n <= |ss|
    ensures ss[i].id in IdsSs(ss, n)
    decreases n
  {
    if i < n - 1 {
      IdsSsHas(ss, n - 1, i);
    }
  }

  lemma {:induction false} IdsEsHas(es: seq<Expr>, n: nat, i: nat)
    requires i < n <= |es|
    ensures es[i].id in IdsEs(es, n)
    decreases n
  {
    if i < n - 1 {
      IdsEsHas(es, n - 1, i);
    }
  }

  lemma {:induction false} IdsArgsHas(ps: seq<FunctionArgument>, n: nat, i: nat)
    requires i < n <= |ps|
    ensures ps[i].id in IdsArgs(ps, n)
    decreases n
  {
    if i < n - 1 {
      IdsArgsHas(ps, n - 1, i);
    }
  }

  /** The ids of statement `i` are among those of any longer prefix. */
  lemma {:induction false} IdsSsPrefixHas(ss: seq<Stmt>, i: nat, n: nat, k: NodeId)
    requires i < n <= |ss| && k in IdsS(ss[i])
    ensures k in IdsSs(ss, n)
    decreases n
  {
    if i < n - 1 {
      IdsSsPrefixHas(ss, i, n - 1, k);
    }
  }

  /** A prefix of statements with distinct ids has distinct ids. */
  lemma {:induction false} DistinctPrefix(ss: seq<Stmt>, m: nat, n: nat)
    requires m <= n <= |ss| && Distinct(IdsSs(ss, n))
    ensures Distinct(IdsSs(ss, m))
    decreases n
  {
    if m < n {
      DistinctLeft(IdsSs(ss, n - 1), IdsS(ss[n - 1]));
      DistinctPrefix(ss, m, n - 1);
    }
  }

  /** In statements with distinct ids, an id of one statement is in no later
      statement. */
  lemma IdsSsApart(ss: seq<Stmt>, n: nat, i: nat, j: nat, k: NodeId)
    requires i < j < n <= |ss| && Distinct(IdsSs(ss, n)) && k in IdsS(ss[i])
    ensures k !in IdsS(ss[j])
  {
    DistinctPrefix(ss, j + 1, n);
    IdsSsPrefixHas(ss, i, j, k);
    Apart(IdsSs(ss, j), IdsS(ss[j]), k);
  }

  lemma NodeIdIn(n: Node)
    ensures NodeIdOf(n) in IdsN(n)
  {
  }

  /** The children of an `if` with distinct ids do not share them. */
  lemma IfIds(s: Stmt)
    requires s.IfStatement? && UniqueStmt(s)
    ensures s.condition.id !in IdsS(s.thenStatement)
    ensures s.id != s.condition.id && s.id != s.thenStatement.id
    ensures s.elseStatement.Some? ==>
      s.condition.id !in IdsS(s.elseStatement.value) && s.thenStatement.id !in IdsS(s.elseStatement.value)
  {
    if s.elseStatement.Some? {
      IfElseIds(s);
    } else {
      var c, t := IdsE(s.condition), IdsS(s.thenStatement);
      assert IdsS(s) == multiset{s.id} + (c + t + multiset{});
      SeparateParts(multiset{s.id}, c, t, multiset{}, s.id, s.condition.id, s.thenStatement.id);
    }
  }

  lemma IfElseIds(s: Stmt)
    requires s.IfStatement? && s.elseStatement.Some? && UniqueStmt(s)
    ensures s.condition.id !in IdsS(s.thenStatement)
    ensures s.id != s.condition.id && s.id != s.thenStatement.id
    ensures s.condition.id !in IdsS(s.elseStatement.value) && s.thenStatement.id !in IdsS(s.elseStatement.value)
  {
    var c, t, el := IdsE(s.condition), IdsS(s.thenStatement), IdsS(s.elseStatement.value);
    assert IdsS(s) == multiset{s.id} + (c + t + el);
    SeparateParts(multiset{s.id}, c, t, el, s.id, s.condition.id, s.thenStatement.id);
  }

  /** The children of a `while` with distinct ids do not share them. */
  lemma WhileIds(s: Stmt)
    requires s.WhileStatement? && UniqueStmt(s)
    ensures s.condition.id !in IdsS(s.body)
    ensures s.id != s.condition.id && s.id != s.body.id
  {
    var c, b := IdsE(s.condition), IdsS(s.body);
    assert IdsS(s) == multiset{s.id} + (c + b + multiset{});
    SeparateParts(multiset{s.id}, c, b, multiset{}, s.id, s.condition.id, s.body.id);
  }

  lemma BinOpIds(e: Expr)
    requires e.BinOpExpression? && UniqueExpr(e)
    ensures e.id !in IdsE(e.left) && e.id !in IdsE(e.right)
    ensures e.id != e.left.id && e.id != e.right.id
  {
    Apart(multiset{e.id}, ChildIdsE(e), e.id);
  }

  /** The ids of a definition: its own, its parameters' and its body's are
      distinct. */
  lemma FunctionDefinitionIds(s: Stmt)
    requires s.FunctionDefinitionStatement? && UniqueStmt(s)
    ensures Distinct(IdsArgs(s.parameters, |s.parameters|))
    ensures s.id != NodeIdOf(s.inner)
    ensures forall i :: 0 <= i < |s.parameters| ==> s.parameters[i].id != s.id && s.parameters[i].id !in IdsN(s.inner)
  {
    var a, b := IdsArgs(s.parameters, |s.parameters|), IdsN(s.inner);
    Apart(multiset{s.id}, ChildIdsS(s), s.id);
    NodeIdIn(s.inner);
    DistinctRight(multiset{s.id}, ChildIdsS(s));
    DistinctLeft(a, b);
    forall i | 0 <= i < |s.parameters|
      ensures s.parameters[i].id != s.id && s.parameters[i].id !in b
    {
      IdsArgsHas(s.parameters, |s.parameters|, i);
      Apart(a, b, s.parameters[i].id);
    }
  }
}
