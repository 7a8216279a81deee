/** Finite directed graphs as sets of edges: walks, cycles, and the sets that cannot avoid a cycle. */
module Walks {
  import opened Collections

  type Graph = set<(string, string)>

  ghost predicate IsWalk(g: Graph, p: seq<string>) {
    p != [] && forall i, j :: 0 <= i && j == i + 1 < |p| ==> (p[i], p[j]) in g
  }

  ghost predicate Connects(g: Graph, a: string, b: string, p: seq<string>) {
    IsWalk(g, p) && p[0] == a && p[|p| - 1] == b
  }

  ghost predicate OnCycle(g: Graph, n: string) {
    exists p :: |p| > 1 && Connects(g, n, n, p)
  }

  ghost predicate Acyclic(g: Graph) {
    forall n: string :: !OnCycle(g, n)
  }

  /** Some walk from `n` ends on a cycle; a node of a cycle does so with a walk of one node. */
  ghost predicate ReachesCycle(g: Graph, n: string) {
    exists p, c :: Connects(g, n, c, p) && OnCycle(g, c)
  }

  ghost function Reverse(g: Graph): Graph {
    set e | e in g :: (e.1, e.0)
  }

  ghost function Reversed(p: seq<string>): seq<string> {
    seq(|p|, i requires 0 <= i < |p| => p[|p| - 1 - i])
  }

  lemma ReverseEdge(g: Graph, a: string, b: string)
    ensures (a, b) in Reverse(g) <==> (b, a) in g
  {
    if (b, a) in g {
      var e := (b, a);
      assert (e.1, e.0) in Reverse(g);
    }
  }

  lemma ReverseWalk(g: Graph, a: string, b: string, p: seq<string>)
    requires Connects(g, a, b, p)
    ensures Connects(Reverse(g), b, a, Reversed(p))
  {
    var q := Reversed(p);
    forall i, j | 0 <= i && j == i + 1 < |q|
      ensures (q[i], q[j]) in Reverse(g)
    {
      assert (p[|p| - 1 - j], p[|p| - 1 - i]) in g;
      ReverseEdge(g, q[i], q[j]);
    }
  }

  lemma ReverseTwice(g: Graph)
    ensures Reverse(Reverse(g)) == g
  {
    forall e | e in g
      ensures e in Reverse(Reverse(g))
    {
      ReverseEdge(g, e.1, e.0);
      ReverseEdge(Reverse(g), e.0, e.1);
    }
  }

  /** A cycle read backwards is a cycle of the reversed graph. */
  lemma CycleReverses(g: Graph, n: string)
    ensures OnCycle(Reverse(g), n) <==> OnCycle(g, n)
  {
    if OnCycle(g, n) {
      var p :| |p| > 1 && Connects(g, n, n, p);
      ReverseWalk(g, n, n, p);
    }
    if OnCycle(Reverse(g), n) {
      var p :| |p| > 1 && Connects(Reverse(g), n, n, p);
      ReverseWalk(Reverse(g), n, n, p);
      ReverseTwice(g);
    }
  }

  lemma JoinWalks(g: Graph, a: string, b: string, c: string, p: seq<string>, q: seq<string>)
    requires Connects(g, a, b, p) && Connects(g, b, c, q)
    ensures Connects(g, a, c, p + q[1..])
  {
    var r := p + q[1..];
    forall i, j | 0 <= i && j == i + 1 < |r|
      ensures (r[i], r[j]) in g
    {
      if j >= |p| {
        assert (q[j - |p|], q[j - |p| + 1]) in g;
      }
    }
  }

  lemma CycleReachesItself(g: Graph, n: string)
    requires OnCycle(g, n)
    ensures ReachesCycle(g, n)
  {
    assert Connects(g, n, n, [n]);
  }

  lemma StepBackReachesCycle(g: Graph, a: string, b: string)
    requires (a, b) in g && ReachesCycle(g, b)
    ensures ReachesCycle(g, a)
  {
    var p, c :| Connects(g, b, c, p) && OnCycle(g, c);
    JoinWalks(g, a, b, c, [a, b], p);
  }

  /** A node that reaches a cycle has a successor that does. */
  lemma CycleContinues(g: Graph, n: string) returns (m: string)
    requires ReachesCycle(g, n)
    ensures (n, m) in g && ReachesCycle(g, m)
  {
    var p, c :| Connects(g, n, c, p) && OnCycle(g, c);
    if |p| > 1 {
      m := p[1];
      assert Connects(g, m, c, p[1..]);
    } else {
      var q :| |q| > 1 && Connects(g, n, n, q);
      m := q[1];
      assert Connects(g, m, n, q[1..]);
    }
  }

  ghost predicate SuccessorIn(g: Graph, s: set<string>, a: string) {
    exists b :: b in s && (a, b) in g
  }

  ghost predicate NoDeadEnd(g: Graph, s: set<string>) {
    forall a {:trigger SuccessorIn(g, s, a)} :: a in s ==> SuccessorIn(g, s, a)
  }

  /** A walk that can step back onto itself reaches a cycle. */
  lemma Lasso(g: Graph, path: seq<string>, b: string)
    requires IsWalk(g, path) && b in path && (path[|path| - 1], b) in g
    ensures ReachesCycle(g, path[0])
  {
    var i :| 0 <= i < |path| && path[i] == b;
    assert Connects(g, b, b, path[i..] + [b]);
    assert OnCycle(g, b);
    assert Connects(g, path[0], b, path[..i + 1]);
  }

  /** Every node of a finite set in which each node has a successor reaches a cycle. The walk
      `path` grows inside `s` without repeating a node, so it must run into itself. */
  lemma {:induction false} ClosedSetReachesCycle(g: Graph, s: set<string>, path: seq<string>)
    requires NoDeadEnd(g, s)
    requires IsWalk(g, path) && Distinct(path) && Elements(path) <= s
    ensures ReachesCycle(g, path[0])
    decreases |s| - |path|
  {
    DistinctSize(path);
    SubsetSize(Elements(path), s);
    var a := path[|path| - 1];
    assert a in Elements(path) && SuccessorIn(g, s, a);
    var b :| b in s && (a, b) in g;
    if b in path {
      Lasso(g, path, b);
    } else {
      var longer := path + [b];
      AppendElements(path, b);
      DistinctSize(longer);
      SubsetSize(Elements(longer), s);
      ClosedSetReachesCycle(g, s, longer);
    }
  }

  lemma MemberReachesCycle(g: Graph, s: set<string>, n: string)
    requires NoDeadEnd(g, s)
    requires n in s
    ensures ReachesCycle(g, n)
  {
    var path := [n];
    assert Elements(path) == {n};
    ClosedSetReachesCycle(g, s, path);
  }
}
