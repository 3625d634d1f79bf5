/** Finite directed graphs given by successor lists: paths, reachability, cycles. */
module Graphs {

  type Node = string

  // A node without an entry has no successors.
  type Graph = map<Node, seq<Node>>

  function Successors(g: Graph, v: Node): seq<Node> {
    if v in g then g[v] else []
  }

  predicate IsPath(g: Graph, p: seq<Node>) {
    |p| >= 1 && forall i :: 0 <= i < |p| - 1 ==> p[i + 1] in Successors(g, p[i])
  }

  predicate IsPathBetween(g: Graph, p: seq<Node>, a: Node, b: Node) {
    IsPath(g, p) && p[0] == a && p[|p| - 1] == b
  }

  ghost predicate Reaches(g: Graph, a: Node, b: Node) {
    exists p :: IsPathBetween(g, p, a, b)
  }

  predicate IsCycle(g: Graph, p: seq<Node>) {
    IsPath(g, p) && |p| >= 2 && p[0] == p[|p| - 1]
  }

  ghost predicate Acyclic(g: Graph) {
    forall p :: !IsCycle(g, p)
  }

  predicate ClosedIn(g: Graph, inner: set<Node>, outer: set<Node>) {
    forall v, d :: v in inner && d in Successors(g, v) ==> d in outer
  }

  // A path cannot leave a set closed under successors.
  lemma {:induction false} ClosedSetTrapsPaths(g: Graph, closed: set<Node>, p: seq<Node>)
    requires ClosedIn(g, closed, closed) && IsPath(g, p) && p[0] in closed
    ensures p[|p| - 1] in closed
  {
    if |p| > 1 {
      assert p[1] in Successors(g, p[0]);
      ClosedSetTrapsPaths(g, closed, p[1..]);
    }
  }

  lemma PrependEdge(g: Graph, v: Node, p: seq<Node>)
    requires IsPath(g, p) && p[0] in Successors(g, v)
    ensures IsPath(g, [v] + p)
  {
    var q := [v] + p;
    forall i | 0 <= i < |q| - 1
      ensures q[i + 1] in Successors(g, q[i])
    {
      if i > 0 {
        assert q[i + 1] == p[i] && q[i] == p[i - 1];
        assert p[i - 1 + 1] in Successors(g, p[i - 1]);
      }
    }
  }

  // A cycle read from any of its nodes: the walk from the node after p[i] back round to p[i].
  lemma RotateCycle(g: Graph, p: seq<Node>, i: nat)
    requires IsCycle(g, p) && i < |p| - 1
    ensures IsPathBetween(g, p[i + 1..] + p[1..i + 1], p[i + 1], p[i])
  {
    var front, back := p[i + 1..], p[1..i + 1];
    var q := front + back;
    forall k | 0 <= k < |q| - 1
      ensures q[k + 1] in Successors(g, q[k])
    {
      if k + 1 < |front| {
        assert q[k] == p[i + 1 + k] && q[k + 1] == p[i + 1 + k + 1];
      } else if k + 1 == |front| {
        assert q[k] == p[0] && q[k + 1] == p[0 + 1];
      } else {
        var m := k - |front|;
        assert q[k] == p[1 + m] && q[k + 1] == p[1 + m + 1];
      }
    }
  }

  // Giving nodes of an acyclic graph new successors closes a cycle exactly when one of the new successors leads
  // back to the node it was given to.
  lemma CycleThroughChangedNodes(g: Graph, changes: Graph)
    requires Acyclic(g)
    ensures !Acyclic(g + changes) <==> exists v, d :: v in changes && d in changes[v] && Reaches(g + changes, d, v)
  {
    var changed := g + changes;
    if !Acyclic(changed) {
      var p :| IsCycle(changed, p);
      if i :| 0 <= i < |p| - 1 && p[i] in changes {
        RotateCycle(changed, p, i);
        assert p[i + 1] in changes[p[i]];
        assert IsPathBetween(changed, p[i + 1..] + p[1..i + 1], p[i + 1], p[i]);
      } else {
        forall i | 0 <= i < |p| - 1
          ensures p[i + 1] in Successors(g, p[i])
        {
          assert p[i + 1] in Successors(changed, p[i]);
        }
        assert IsCycle(g, p);
      }
    }
    if v, d :| v in changes && d in changes[v] && Reaches(changed, d, v) {
      var p :| IsPathBetween(changed, p, d, v);
      PrependEdge(changed, v, p);
      assert IsCycle(changed, [v] + p);
    }
  }

  lemma CycleThroughChangedNode(g: Graph, v: Node, successors: seq<Node>)
    requires Acyclic(g)
    ensures !Acyclic(g[v := successors]) <==> exists d :: d in successors && Reaches(g[v := successors], d, v)
  {
    assert g[v := successors] == g + map[v := successors];
    CycleThroughChangedNodes(g, map[v := successors]);
  }

  lemma ReachesOn(g: Graph, a: Node, b: Node, c: Node)
    requires Reaches(g, a, b) && Reaches(g, b, c)
    ensures Reaches(g, a, c)
  {
    var p :| IsPathBetween(g, p, a, b);
    var q :| IsPathBetween(g, q, b, c);
    var r := p + q[1..];
    forall i | 0 <= i < |r| - 1
      ensures r[i + 1] in Successors(g, r[i])
    {
      if i < |p| - 1 {
        assert p[i + 1] in Successors(g, p[i]);
      } else {
        var k := i - (|p| - 1);
        assert q[k + 1] in Successors(g, q[k]) && r[i] == q[k];
      }
    }
    assert IsPathBetween(g, r, a, c);
  }

  // A walk from a to b is also one in another graph, or it leaves, before its end, a node whose successors differ.
  lemma WalkDiffers(g: Graph, h: Graph, a: Node, b: Node) returns (v: Node)
    requires Reaches(g, a, b) && !Reaches(h, a, b)
    ensures Reaches(g, a, v) && Reaches(g, v, b) && Successors(g, v) != [] && Successors(g, v) != Successors(h, v)
  {
    var p :| IsPathBetween(g, p, a, b);
    if i :| 0 <= i < |p| - 1 && Successors(g, p[i]) != Successors(h, p[i]) {
      v := p[i];
      assert p[i + 1] in Successors(g, p[i]);
      assert IsPathBetween(g, p[..i + 1], a, v);
      var rest := p[i..];
      forall k | 0 <= k < |rest| - 1
        ensures rest[k + 1] in Successors(g, rest[k])
      {
        assert p[i + k + 1] in Successors(g, p[i + k]);
      }
      assert IsPathBetween(g, rest, v, b);
    } else {
      forall i | 0 <= i < |p| - 1
        ensures p[i + 1] in Successors(h, p[i])
      {
        assert p[i + 1] in Successors(g, p[i]);
      }
      assert IsPathBetween(h, p, a, b);
    }
  }

  predicate Sink(g: Graph, s: set<Node>, v: Node) {
    v in s && forall d :: d in Successors(g, v) ==> d !in s
  }

  // A walk inside a finite set of an acyclic graph cannot go on for ever.
  lemma {:induction false} WalkToSink(g: Graph, s: set<Node>, p: seq<Node>) returns (v: Node)
    requires Acyclic(g) && IsPath(g, p) && forall i :: 0 <= i < |p| ==> p[i] in s
    requires forall i, j :: 0 <= i < j < |p| ==> p[i] != p[j]
    ensures Sink(g, s, v)
    decreases s - (set x | x in p)
  {
    var last := p[|p| - 1];
    if d :| d in Successors(g, last) && d in s {
      var q := p + [d];
      assert IsPath(g, q);
      if i :| 0 <= i < |p| && p[i] == d {
        var c := q[i..];
        forall k | 0 <= k < |c| - 1
          ensures c[k + 1] in Successors(g, c[k])
        {
          assert c[k] == q[i + k] && c[k + 1] == q[i + k + 1];
        }
        assert IsCycle(g, c);
      }
      assert (set x | x in q) == (set x | x in p) + {d};
      v := WalkToSink(g, s, q);
    } else {
      v := last;
    }
  }

  lemma AcyclicHasSink(g: Graph, s: set<Node>) returns (v: Node)
    requires Acyclic(g) && s != {}
    ensures Sink(g, s, v)
  {
    var start :| start in s;
    v := WalkToSink(g, s, [start]);
  }
}
