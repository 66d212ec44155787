// The incremental cycle detector of cycle_detector.hh: adjacency lists grown by PutEdge and a
// depth-first search over an explicit stack of iterator pairs.
module CycleDetector {
  import opened Digraph

  /** A pair of iterators into the edge list of `node`: the next edge to look at, and the end of the list. */
  datatype State = State(node: nat, next: nat)

  type EdgeMap = seq<seq<nat>>

  ghost function EdgesOf(edges: EdgeMap): (e: set<(nat, nat)>)
    ensures forall s: nat, d: nat :: (s, d) in e <==> s < |edges| && d in edges[s]
  {
    set s: nat, d: nat | s < |edges| && d in edges[s] :: (s, d)
  }

  ghost predicate NoEdgesFrom(edges: EdgeMap, node: nat) {
    node < |edges| ==> edges[node] == []
  }

  ghost predicate InRange(edges: EdgeMap, stk: seq<State>) {
    forall i :: 0 <= i < |stk| ==> stk[i].node < |edges| && stk[i].next <= |edges[stk[i].node]|
  }

  /** The edge at position k of v's list is still ahead of some iterator pair on the stack. */
  ghost predicate Pending(stk: seq<State>, v: nat, k: nat) {
    exists i :: 0 <= i < |stk| && stk[i].node == v && stk[i].next <= k
  }

  /** Nothing is left to do for an edge to t: it is not the goal and is expanded or has no edges of its own. */
  ghost predicate Settled(edges: EdgeMap, seen: set<nat>, goal: nat, t: nat) {
    t != goal && (t in seen || NoEdgesFrom(edges, t))
  }

  ghost predicate Searched(edges: EdgeMap, seen: set<nat>, stk: seq<State>, goal: nat) {
    forall v, k :: v in seen && v < |edges| && 0 <= k < |edges[v]| ==>
      Pending(stk, v, k) || Settled(edges, seen, goal, edges[v][k])
  }

  /** Once nothing is pending, no walk from an expanded node other than the goal ends at the goal. */
  lemma {:induction false} NothingPending(edges: EdgeMap, seen: set<nat>, goal: nat, w: seq<nat>, from: nat)
    requires Searched(edges, seen, [], goal)
    requires WalkFromTo<nat>(EdgesOf(edges), w, from, goal)
    ensures !(from in seen && from != goal)
    decreases |w|
  {
    if |w| > 1 && from in seen && from != goal {
      assert (w[0], w[1]) in EdgesOf(edges);
      var k :| 0 <= k < |edges[from]| && edges[from][k] == w[1];
      assert Settled(edges, seen, goal, edges[from][k]);
      assert WalkFromTo<nat>(EdgesOf(edges), w[1..], w[1], goal);
      NothingPending(edges, seen, goal, w[1..], w[1]);
      assert Reaches<nat>(EdgesOf(edges), w[1], goal);
      ReachesBetween<nat>(EdgesOf(edges), w[1], goal);
    }
  }

  ghost predicate AllReached(edges: EdgeMap, stk: seq<State>, from: nat) {
    forall i :: 0 <= i < |stk| ==> Reaches<nat>(EdgesOf(edges), from, stk[i].node)
  }

  lemma NotReached(edges: EdgeMap, seen: set<nat>, goal: nat, from: nat)
    requires Searched(edges, seen, [], goal) && from in seen && from != goal
    ensures !Reaches<nat>(EdgesOf(edges), from, goal)
  {
    if Reaches<nat>(EdgesOf(edges), from, goal) {
      var w :| WalkFromTo<nat>(EdgesOf(edges), w, from, goal);
      NothingPending(edges, seen, goal, w, from);
    }
  }

  /** Expanding t: all of its edges become pending. */
  lemma PushKeeps(edges: EdgeMap, seen: set<nat>, stk: seq<State>, goal: nat, t: nat)
    requires Searched(edges, seen, stk, goal)
    ensures Searched(edges, seen + {t}, stk + [State(t, 0)], goal)
  {
    var stk' := stk + [State(t, 0)];
    forall v, k | v in seen + {t} && v < |edges| && 0 <= k < |edges[v]|
      ensures Pending(stk', v, k) || Settled(edges, seen + {t}, goal, edges[v][k])
    {
      if v == t {
        assert stk'[|stk|] == State(t, 0);
      } else if Pending(stk, v, k) {
        var i :| 0 <= i < |stk| && stk[i].node == v && stk[i].next <= k;
        assert stk'[i] == stk[i];
      } else {
        assert Settled(edges, seen, goal, edges[v][k]);
      }
    }
  }

  lemma StartsPending(edges: EdgeMap, goal: nat, from: nat)
    requires from < |edges|
    ensures InRange(edges, [State(from, 0)]) && AllReached(edges, [State(from, 0)], from)
    ensures Searched(edges, {} + {from}, [State(from, 0)], goal)
  {
    ReachesSelf<nat>(EdgesOf(edges), from);
    assert [] + [State(from, 0)] == [State(from, 0)];
    PushKeeps(edges, {}, [], goal, from);
  }

  /** Moving an iterator past an edge whose target is settled. */
  lemma AdvanceKeeps(edges: EdgeMap, seen: set<nat>, stk: seq<State>, goal: nat, top: nat)
    requires Searched(edges, seen, stk, goal) && top < |stk|
    requires stk[top].node < |edges| && stk[top].next < |edges[stk[top].node]|
    requires Settled(edges, seen, goal, edges[stk[top].node][stk[top].next])
    ensures Searched(edges, seen, stk[top := State(stk[top].node, stk[top].next + 1)], goal)
  {
    var curr := stk[top];
    var stk' := stk[top := State(curr.node, curr.next + 1)];
    forall v, k | v in seen && v < |edges| && 0 <= k < |edges[v]|
      ensures Pending(stk', v, k) || Settled(edges, seen, goal, edges[v][k])
    {
      if Pending(stk, v, k) {
        var i :| 0 <= i < |stk| && stk[i].node == v && stk[i].next <= k;
        if i == top && curr.next == k {
        } else if i == top {
          assert stk'[i].node == v && stk'[i].next <= k;
        } else {
          assert stk'[i] == stk[i];
        }
      }
    }
  }

  /** Popping an iterator that has reached its end. */
  lemma PopKeeps(edges: EdgeMap, seen: set<nat>, stk: seq<State>, goal: nat, from: nat)
    requires Searched(edges, seen, stk, goal) && stk != [] && InRange(edges, stk) && AllReached(edges, stk, from)
    requires var curr := stk[|stk| - 1]; curr.node < |edges| && curr.next == |edges[curr.node]|
    ensures InRange(edges, stk[..|stk| - 1]) && AllReached(edges, stk[..|stk| - 1], from)
    ensures Searched(edges, seen, stk[..|stk| - 1], goal)
  {
    var stk' := stk[..|stk| - 1];
    forall v, k | v in seen && v < |edges| && 0 <= k < |edges[v]|
      ensures Pending(stk', v, k) || Settled(edges, seen, goal, edges[v][k])
    {
      if Pending(stk, v, k) {
        var i :| 0 <= i < |stk| && stk[i].node == v && stk[i].next <= k;
        assert stk'[i] == stk[i];
      }
    }
  }

  /** The nodes that have an edge list. */
  ghost function Listed(n: nat): (nodes: set<nat>)
    ensures forall v: nat :: v in nodes <==> v < n
  {
    if n == 0 then {} else Listed(n - 1) + {n - 1}
  }

  lemma FewerLeft(n: nat, before: set<nat>, after: set<nat>)
    requires exists v: nat :: v < n && v !in before && after == before + {v}
    ensures |Listed(n) - after| < |Listed(n) - before|
  {
    var v: nat :| v < n && v !in before && after == before + {v};
    assert Listed(n) - before == (Listed(n) - after) + {v};
  }

  class Detector {
    var edges: EdgeMap
    var stk: seq<State>
    var globalInEdges: set<nat>

    ghost predicate Valid()
      reads this
    {
      && (forall s :: 0 <= s < |edges| ==> forall i, j :: 0 <= i < j < |edges[s]| ==> edges[s][i] != edges[s][j])
      && forall d :: d in globalInEdges <==> exists s :: (s, d) in EdgesOf(edges)
    }

    ghost function Edges(): set<(nat, nat)>
      reads this
    {
      EdgesOf(edges)
    }

    constructor ()
      ensures Valid() && Edges() == {}
    {
      edges, stk, globalInEdges := [], [], {};
    }

    method PutEdge(src: nat, dst: nat)
      requires Valid()
      modifies this
      ensures Valid() && Edges() == old(Edges()) + {(src, dst)}
    {
      if src >= |edges| {
        edges := edges + seq(src + 1 - |edges|, i => []);
      }
      assert EdgesOf(edges) == old(Edges());
      ghost var before := edges;
      var i := 0;
      while i < |edges[src]|
        invariant 0 <= i <= |edges[src]| && dst !in edges[src][..i]
        invariant edges == before && globalInEdges == old(globalInEdges)
      {
        if edges[src][i] == dst {
          assert (src, dst) in EdgesOf(edges);
          return;
        }
        i := i + 1;
      }
      edges := edges[src := edges[src] + [dst]];
      globalInEdges := globalInEdges + {dst};
      assert EdgesOf(edges) == EdgesOf(before) + {(src, dst)};
    }

    /** Would an edge from src to dst close a cycle?  Exactly when dst already reaches src. */
    method EdgeMakesCycle(src: nat, dst: nat) returns (found: bool)
      requires Valid()
      modifies this`stk
      ensures Valid()
      ensures found <==> Reaches<nat>(Edges(), dst, src)
    {
      if src == dst {
        ReachesSelf<nat>(Edges(), dst);
        return true;
      }
      if dst >= |edges| || edges[dst] == [] {
        if Reaches<nat>(Edges(), dst, src) {
          ReachesBetween<nat>(Edges(), dst, src);
        }
        return false;
      }
      if src !in globalInEdges {
        if Reaches<nat>(Edges(), dst, src) {
          ReachesBetween<nat>(Edges(), dst, src);
        }
        return false;
      }
      found := Search(src, dst);
    }

    /** One run of the inner loop: walk the edge list on top of the stack until it ends or a new node is pushed. */
    method Scan(src: nat, dst: nat, seen: set<nat>) returns (found: bool, pushed: bool, visited: set<nat>)
      requires stk != [] && InRange(edges, stk) && AllReached(edges, stk, dst)
      requires Searched(edges, seen + {dst}, stk, src)
      modifies this`stk
      ensures found ==> Reaches<nat>(Edges(), dst, src)
      ensures !found ==> InRange(edges, stk) && AllReached(edges, stk, dst) && Searched(edges, visited + {dst}, stk, src)
      ensures !found && !pushed ==> visited == seen && |stk| == |old(stk)| && stk[|stk| - 1].next == |edges[stk[|stk| - 1].node]|
      ensures !found && pushed ==> exists v: nat :: v < |edges| && v !in seen && visited == seen + {v}
    {
      hide Reaches, Searched, Pending;
      pushed, visited := false, seen;
      var top := |stk| - 1;
      while stk[top].next < |edges[stk[top].node]| && !pushed
        invariant |stk| == if pushed then top + 2 else top + 1
        invariant InRange(edges, stk) && AllReached(edges, stk, dst) && Searched(edges, visited + {dst}, stk, src)
        invariant if pushed then exists v: nat :: v < |edges| && v !in seen && visited == seen + {v} else visited == seen
        decreases !pushed, |edges[stk[top].node]| - stk[top].next
      {
        var curr := stk[top];
        var val := edges[curr.node][curr.next];
        assert (curr.node, val) in Edges();
        assert Reaches<nat>(EdgesOf(edges), dst, curr.node);
        ReachesAlong<nat>(Edges(), dst, curr.node, val);
        if val == src {
          return true, pushed, visited;
        }
        if val < |edges| && edges[val] != [] && val !in visited {
          PushKeeps(edges, visited + {dst}, stk, src, val);
          assert visited + {val} + {dst} == visited + {dst} + {val};
          visited := visited + {val};
          stk := stk + [State(val, 0)];
          pushed := true;
        }
        AdvanceKeeps(edges, visited + {dst}, stk, src, top);
        stk := stk[top := State(curr.node, curr.next + 1)];
      }
      found := false;
    }

    /** Depth-first search from dst for src, with an explicit stack. */
    method Search(src: nat, dst: nat) returns (found: bool)
      requires src != dst && dst < |edges|
      modifies this`stk
      ensures found <==> Reaches<nat>(Edges(), dst, src)
    {
      hide Reaches, Searched, AllReached, EdgesOf;
      stk := [];
      stk := stk + [State(dst, 0)];
      assert stk == [State(dst, 0)];
      StartsPending(edges, src, dst);
      var visited: set<nat> := {};
      while stk != []
        invariant InRange(edges, stk) && AllReached(edges, stk, dst)
        invariant Searched(edges, visited + {dst}, stk, src)
        decreases |Listed(|edges|) - visited|, |stk|
      {
        ghost var visited0 := visited;
        var pushed: bool;
        found, pushed, visited := Scan(src, dst, visited);
        if found {
          return;
        }
        if pushed {
          FewerLeft(|edges|, visited0, visited);
        } else {
          PopKeeps(edges, visited + {dst}, stk, src, dst);
          stk := stk[..|stk| - 1];
        }
      }
      NotReached(edges, visited + {dst}, src, dst);
      found := false;
    }

    /** The importer's use of the detector: an edge that would close a cycle is skipped. */
    method StoreEdge(older: nat, newer: nat) returns (stored: bool)
      requires Valid() && Acyclic<nat>(Edges())
      modifies this
      ensures Valid() && Acyclic<nat>(Edges())
      ensures stored <==> Acyclic<nat>(old(Edges()) + {(older, newer)})
      ensures Edges() == if stored then old(Edges()) + {(older, newer)} else old(Edges())
      ensures !stored ==> Reaches<nat>(Edges(), newer, older)
    {
      hide Acyclic, Reaches;
      AddEdge<nat>(Edges(), older, newer);
      var cyclic := EdgeMakesCycle(older, newer);
      if !cyclic {
        PutEdge(older, newer);
      }
      stored := !cyclic;
    }

    /** Over any run the graph stays acyclic, and only edges that would close a cycle are missing from it. */
    method StoreEdges(requests: seq<(nat, nat)>)
      requires Valid() && Acyclic<nat>(Edges())
      modifies this
      ensures Valid() && Acyclic<nat>(Edges())
      ensures old(Edges()) <= Edges()
      ensures forall r :: r in requests ==> r in Edges() || Reaches<nat>(Edges(), r.1, r.0)
      ensures forall r :: r in Edges() ==> r in old(Edges()) || r in requests
    {
      hide Acyclic, Reaches;
      var i := 0;
      while i < |requests|
        invariant 0 <= i <= |requests|
        invariant Valid() && Acyclic<nat>(Edges()) && old(Edges()) <= Edges()
        invariant forall j :: 0 <= j < i ==> requests[j] in Edges() || Reaches<nat>(Edges(), requests[j].1, requests[j].0)
        invariant forall r :: r in Edges() ==> r in old(Edges()) || r in requests
      {
        ghost var before := Edges();
        var stored := StoreEdge(requests[i].0, requests[i].1);
        forall j | 0 <= j < i && Reaches<nat>(before, requests[j].1, requests[j].0)
          ensures Reaches<nat>(Edges(), requests[j].1, requests[j].0)
        {
          ReachesMonotone<nat>(before, Edges(), requests[j].1, requests[j].0);
        }
        i := i + 1;
      }
    }
  }
}
