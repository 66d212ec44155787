// Finite directed graphs: walks, reachability, and acyclicity in two equivalent forms.
// The cycle detector, the delta tables and the parent links of a path state all use it.
module Digraph {

  ghost predicate Walk<T(!new)>(e: set<(T, T)>, w: seq<T>) {
    && 0 < |w|
    && forall i, j :: 0 <= i && j == i + 1 && j < |w| ==> (w[i], w[j]) in e
  }

  ghost predicate WalkFromTo<T(!new)>(e: set<(T, T)>, w: seq<T>, x: T, y: T) {
    Walk(e, w) && w[0] == x && w[|w| - 1] == y
  }

  /** There is a walk of zero or more edges from x to y. */
  ghost predicate Reaches<T(!new)>(e: set<(T, T)>, x: T, y: T) {
    exists w :: WalkFromTo(e, w, x, y)
  }

  ghost predicate Acyclic<T(!new)>(e: set<(T, T)>) {
    forall x, y :: (x, y) in e ==> !Reaches(e, y, x)
  }

  /** Every edge goes down. */
  ghost predicate Ranked<T(!new)>(e: set<(T, T)>, rank: T -> nat) {
    forall x, y :: (x, y) in e ==> rank(y) < rank(x)
  }

  lemma ReachesSelf<T(!new)>(e: set<(T, T)>, x: T)
    ensures Reaches(e, x, x)
  {
    assert WalkFromTo(e, [x], x, x);
  }

  lemma ReachesStep<T(!new)>(e: set<(T, T)>, x: T, y: T, z: T)
    requires (x, y) in e && Reaches(e, y, z)
    ensures Reaches(e, x, z)
  {
    var w :| WalkFromTo(e, w, y, z);
    assert WalkFromTo(e, [x] + w, x, z);
  }

  lemma ReachesAlong<T(!new)>(e: set<(T, T)>, x: T, y: T, z: T)
    requires Reaches(e, x, y) && (y, z) in e
    ensures Reaches(e, x, z)
  {
    var w :| WalkFromTo(e, w, x, y);
    assert WalkFromTo(e, w + [z], x, z);
  }

  lemma ReachesMonotone<T(!new)>(e: set<(T, T)>, f: set<(T, T)>, x: T, y: T)
    requires e <= f && Reaches(e, x, y)
    ensures Reaches(f, x, y)
  {
    var w :| WalkFromTo(e, w, x, y);
    assert WalkFromTo(f, w, x, y);
  }

  /** A walk between two different nodes leaves the first and enters the second. */
  lemma ReachesBetween<T(!new)>(e: set<(T, T)>, x: T, y: T)
    requires Reaches(e, x, y) && x != y
    ensures exists z :: (x, z) in e && Reaches(e, z, y)
    ensures exists z :: (z, y) in e && Reaches(e, x, z)
  {
    var w :| WalkFromTo(e, w, x, y);
    assert (w[0], w[1]) in e && WalkFromTo(e, w[1..], w[1], y);
    assert (w[|w| - 2], w[|w| - 1]) in e && WalkFromTo(e, w[..|w| - 1], x, w[|w| - 2]);
  }

  /** A set closed under the edges, once entered, is never left. */
  lemma {:induction false} ClosedWalk<T(!new)>(e: set<(T, T)>, s: set<T>, w: seq<T>, x: T, y: T)
    requires forall a, b :: (a, b) in e && a in s ==> b in s
    requires WalkFromTo(e, w, x, y) && x in s
    ensures y in s
    decreases |w|
  {
    if |w| > 1 {
      assert (w[0], w[1]) in e;
      assert WalkFromTo(e, w[1..], w[1], y);
      ClosedWalk(e, s, w[1..], w[1], y);
    }
  }

  lemma {:induction false} RankAlongWalk<T(!new)>(e: set<(T, T)>, rank: T -> nat, w: seq<T>)
    requires Ranked(e, rank) && Walk(e, w)
    ensures rank(w[|w| - 1]) <= rank(w[0])
    decreases |w|
  {
    if |w| > 1 {
      assert (w[0], w[1]) in e;
      RankAlongWalk(e, rank, w[1..]);
    }
  }

  lemma RankedAcyclic<T(!new)>(e: set<(T, T)>, rank: T -> nat)
    requires Ranked(e, rank)
    ensures Acyclic(e)
  {
    forall x, y | (x, y) in e
      ensures !Reaches(e, y, x)
    {
      if Reaches(e, y, x) {
        var w :| WalkFromTo(e, w, y, x);
        RankAlongWalk(e, rank, w);
      }
    }
  }

  /** Where the new edge closes no cycle, everything its head cannot reach is lifted above the head. */
  lemma RankWithEdge<T(!new)>(e: set<(T, T)>, rank: T -> nat, a: T, b: T) returns (lifted: T -> nat)
    requires Ranked(e, rank) && !Reaches(e, b, a)
    ensures Ranked(e + {(a, b)}, lifted)
  {
    lifted := x => if Reaches(e, b, x) then rank(x) else rank(x) + rank(b) + 1;
    ReachesSelf(e, b);
    forall x, y | (x, y) in e
      ensures lifted(y) < lifted(x)
    {
      if Reaches(e, b, x) {
        ReachesAlong(e, b, x, y);
      }
    }
  }

  lemma AcyclicSubset<T(!new)>(e: set<(T, T)>, f: set<(T, T)>)
    requires e <= f && Acyclic(f)
    ensures Acyclic(e)
  {
    forall x, y | (x, y) in e
      ensures !Reaches(e, y, x)
    {
      if Reaches(e, y, x) {
        ReachesMonotone(e, f, y, x);
      }
    }
  }

  /** The converse of RankedAcyclic: a finite graph without cycles can be ranked. */
  lemma {:induction false} AcyclicRanked<T(!new)>(e: set<(T, T)>) returns (rank: T -> nat)
    requires Acyclic(e)
    ensures Ranked(e, rank)
    decreases |e|
  {
    if e == {} {
      rank := x => 0;
    } else {
      var p :| p in e;
      var rest := e - {p};
      AcyclicSubset(rest, e);
      var below := AcyclicRanked(rest);
      if Reaches(rest, p.1, p.0) {
        ReachesMonotone(rest, e, p.1, p.0);
      }
      rank := RankWithEdge(rest, below, p.0, p.1);
      assert rest + {(p.0, p.1)} == e;
    }
  }

  /** The exact condition under which one more edge keeps a graph acyclic. */
  lemma AddEdge<T(!new)>(e: set<(T, T)>, a: T, b: T)
    requires Acyclic(e)
    ensures Acyclic(e + {(a, b)}) <==> !Reaches(e, b, a)
  {
    var f := e + {(a, b)};
    if Reaches(e, b, a) {
      ReachesMonotone(e, f, b, a);
      assert (a, b) in f;
    } else {
      var rank := AcyclicRanked(e);
      var lifted := RankWithEdge(e, rank, a, b);
      RankedAcyclic(f, lifted);
    }
  }
}
