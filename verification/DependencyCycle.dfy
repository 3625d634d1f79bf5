/** The action plan's dependency check: a depth-first search that shares one seen set. */
module DependencyCycle {
  import opened Graphs

  function Nodes(g: Graph): set<Node> {
    g.Keys + set v, d | v in g && d in g[v] :: d
  }

  // The nested reaches function. The seen set is shared with the caller's other branches: it comes
  // back as an out-parameter and its members may still be on the caller's stack.
  method Search(g: Graph, start: Node, target: Node, seen: set<Node>, ghost universe: set<Node>)
    returns (found: bool, visited: set<Node>)
    requires start in universe && Nodes(g) <= universe && target !in seen
    ensures found ==> Reaches(g, start, target)
    ensures !found ==> start in visited && target !in visited && ClosedIn(g, visited - seen, visited)
    ensures seen <= visited <= seen + universe
    decreases universe - seen
  {
    if start == target {
      assert IsPathBetween(g, [start], start, target);
      return true, seen;
    }
    if start in seen {
      return false, seen;
    }
    visited := seen + {start};
    var deps := Successors(g, start);
    for i := 0 to |deps|
      invariant seen + {start} <= visited <= seen + universe && target !in visited
      invariant forall j :: 0 <= j < i ==> deps[j] in visited
      invariant ClosedIn(g, visited - seen - {start}, visited)
    {
      assert deps[i] in g[start];
      ghost var before := visited;
      found, visited := Search(g, deps[i], target, visited, universe);
      if found {
        var p :| IsPathBetween(g, p, deps[i], target);
        PrependEdge(g, start, p);
        assert IsPathBetween(g, [start] + p, start, target);
        return;
      }
      forall v, d | v in visited - seen - {start} && d in Successors(g, v)
        ensures d in visited
      {
        if v in before {
          assert v in before - seen - {start};
        } else {
          assert v in visited - before;
        }
      }
    }
    found := false;
  }

  // What the check looks for among the records it is given.
  ghost predicate LeadsBack(g: Graph, record: Node, proposed: seq<Node>) {
    exists d :: d in proposed && Reaches(g[record := proposed], d, record)
  }

  // _dependency_cycle over the stored dependencies of the records the user sees.
  method DependencyCycle(visible: Graph, record: Node, proposed: seq<Node>, sameTable: bool) returns (cycle: bool)
    ensures !sameTable ==> !cycle
    ensures sameTable ==> (cycle <==> LeadsBack(visible, record, proposed))
    ensures sameTable && Acyclic(visible) ==> (cycle <==> !Acyclic(visible[record := proposed]))
  {
    if Acyclic(visible) {
      CycleThroughChangedNode(visible, record, proposed);
    }
    if !sameTable {
      return false;
    }
    var g := visible[record := proposed];
    if record in proposed {
      assert IsPathBetween(g, [record], record, record);
      return true;
    }
    ghost var universe := Nodes(g);
    for i := 0 to |proposed|
      invariant forall j :: 0 <= j < i ==> !Reaches(g, proposed[j], record)
    {
      assert proposed[i] in g[record];
      var found, visited := Search(g, proposed[i], record, {}, universe);
      if found {
        return true;
      }
      if Reaches(g, proposed[i], record) {
        var p :| IsPathBetween(g, p, proposed[i], record);
        assert visited - {} == visited;
        ClosedSetTrapsPaths(g, visited, p);
      }
    }
    return false;
  }

  lemma FirstEdge(g: Graph, p: seq<Node>)
    requires IsPath(g, p) && |p| >= 2
    ensures p[1] in Successors(g, p[0])
  {
    assert p[0 + 1] in Successors(g, p[0]);
  }

  lemma DeadEndReachesNothing(g: Graph, a: Node, b: Node)
    requires a != b && Successors(g, a) == []
    ensures !Reaches(g, a, b)
  {
    forall p | IsPath(g, p) && p[0] == a
      ensures !IsPathBetween(g, p, a, b)
    {
      ClosedSetTrapsPaths(g, {a}, p);
    }
  }

  // Each action of a plan is checked against the stored dependencies alone, so two accepted actions can close a
  // cycle together.
  lemma TwoAcceptedActionsCanClose(visible: Graph)
    requires visible == map["a" := [], "b" := []]
    ensures Acyclic(visible)
    ensures Acyclic(visible["a" := ["b"]]) && Acyclic(visible["b" := ["a"]])
    ensures !Acyclic(visible["a" := ["b"]]["b" := ["a"]])
  {
    forall p
      ensures !IsCycle(visible, p)
    {
      if IsCycle(visible, p) {
        FirstEdge(visible, p);
      }
    }
    CycleThroughChangedNode(visible, "a", ["b"]);
    CycleThroughChangedNode(visible, "b", ["a"]);
    DeadEndReachesNothing(visible["a" := ["b"]], "b", "a");
    DeadEndReachesNothing(visible["b" := ["a"]], "a", "b");
    assert IsCycle(visible["a" := ["b"]]["b" := ["a"]], ["a", "b", "a"]);
  }

  // Any number of actions, each accepted on its own, close a cycle together exactly when a new dependency of one
  // of their records leads, through another of their records, back to the first.
  lemma AcceptedActionsTogether(visible: Graph, changes: Graph)
    requires Acyclic(visible) && forall r :: r in changes ==> !LeadsBack(visible, r, changes[r])
    ensures var all := visible + changes;
            !Acyclic(all) <==> exists r, s, d ::
              r in changes && s in changes && r != s && d in changes[r] && Reaches(all, d, s) && Reaches(all, s, r)
  {
    var all := visible + changes;
    CycleThroughChangedNodes(visible, changes);
    if r, d :| r in changes && d in changes[r] && Reaches(all, d, r) {
      var s := WalkDiffers(all, visible[r := changes[r]], d, r);
      assert s in changes && r != s;
    }
    if r, s, d :| r in changes && s in changes && r != s && d in changes[r] && Reaches(all, d, s) && Reaches(all, s, r) {
      ReachesOn(all, d, s, r);
    }
  }

  // ---------------------------------------------------------------- one action after the other

  datatype Change = Change(record: Node, dependencies: seq<Node>)

  function Applied(g: Graph, changes: seq<Change>): Graph {
    if changes == [] then g else
      var last := changes[|changes| - 1];
      Applied(g, changes[..|changes| - 1])[last.record := last.dependencies]
  }

  // The check of one action against what the ones before it left
  ghost predicate PassesInTurn(g: Graph, changes: seq<Change>, i: nat)
    requires i < |changes|
  {
    !LeadsBack(Applied(g, changes[..i]), changes[i].record, changes[i].dependencies)
  }

  ghost predicate AcyclicAt(g: Graph, changes: seq<Change>, n: nat)
    requires n <= |changes|
  {
    Acyclic(Applied(g, changes[..n]))
  }

  // Checking each action against what the ones before it left keeps the dependencies acyclic all along, and no
  // weaker check does.
  lemma {:induction false} CheckingInTurnIsExact(g: Graph, changes: seq<Change>, n: nat)
    requires Acyclic(g) && n <= |changes|
    ensures (forall i :: 0 <= i <= n ==> AcyclicAt(g, changes, i))
       <==> (forall i :: 0 <= i < n ==> PassesInTurn(g, changes, i))
  {
    if n == 0 {
      assert AcyclicAt(g, changes, 0);
    } else {
      CheckingInTurnIsExact(g, changes, n - 1);
      if AcyclicAt(g, changes, n - 1) {
        NextInTurn(g, changes, n - 1);
      }
    }
  }

  lemma NextInTurn(g: Graph, changes: seq<Change>, i: nat)
    requires i < |changes| && AcyclicAt(g, changes, i)
    ensures AcyclicAt(g, changes, i + 1) <==> PassesInTurn(g, changes, i)
  {
    OneMoreChange(g, changes, i);
    CycleThroughChangedNode(Applied(g, changes[..i]), changes[i].record, changes[i].dependencies);
  }

  lemma OneMoreChange(g: Graph, changes: seq<Change>, i: nat)
    requires i < |changes|
    ensures Applied(g, changes[..i + 1]) == Applied(g, changes[..i])[changes[i].record := changes[i].dependencies]
  {
    assert changes[..i + 1][..i] == changes[..i];
  }

  // ---------------------------------------------------------------- records the user does not see

  function Part(stored: Graph, seen: set<Node>): Graph {
    map v | v in stored && v in seen :: stored[v]
  }

  // An action accepted on what its user sees closes a cycle in the stored dependencies exactly when a new one
  // leads through a record hidden from that user back to the changed one.
  lemma HiddenRecordsDecide(stored: Graph, seen: set<Node>, record: Node, proposed: seq<Node>)
    requires Acyclic(stored) && record in seen && !LeadsBack(Part(stored, seen), record, proposed)
    ensures var changed := stored[record := proposed];
            !Acyclic(changed) <==> exists h, d ::
              h !in seen && d in proposed && Reaches(changed, d, h) && Reaches(changed, h, record)
  {
    var changed := stored[record := proposed];
    CycleThroughChangedNode(stored, record, proposed);
    if d :| d in proposed && Reaches(changed, d, record) {
      var h := WalkDiffers(changed, Part(stored, seen)[record := proposed], d, record);
      assert h !in seen;
    }
    if h, d :| h !in seen && d in proposed && Reaches(changed, d, h) && Reaches(changed, h, record) {
      ReachesOn(changed, d, h, record);
    }
  }

  // a is to wait for b, and b waits for a record the user does not see, which waits for a.
  lemma HiddenRecordCloses(stored: Graph)
    requires stored == map["a" := [], "b" := ["h"], "h" := ["a"]]
    ensures Acyclic(stored) && !LeadsBack(Part(stored, {"a", "b"}), "a", ["b"]) && !Acyclic(stored["a" := ["b"]])
  {
    forall p
      ensures !IsCycle(stored, p)
    {
      if IsCycle(stored, p) {
        NoWayBack(stored, p);
      }
    }
    var shown := Part(stored, {"a", "b"})["a" := ["b"]];
    forall d | d in ["b"]
      ensures !Reaches(shown, d, "a")
    {
      forall p | IsPath(shown, p) && p[0] == "b"
        ensures !IsPathBetween(shown, p, "b", "a")
      {
        ClosedSetTrapsPaths(shown, {"b", "h"}, p);
      }
    }
    assert IsCycle(stored["a" := ["b"]], ["a", "b", "h", "a"]);
  }

  lemma NoWayBack(stored: Graph, p: seq<Node>)
    requires stored == map["a" := [], "b" := ["h"], "h" := ["a"]] && IsPath(stored, p) && |p| >= 2
    ensures p[0] != p[|p| - 1]
  {
    FirstEdge(stored, p);
    assert IsPath(stored, p[1..]);
    ClosedSetTrapsPaths(stored, if p[0] == "b" then {"h", "a"} else {"a"}, p[1..]);
  }
}
