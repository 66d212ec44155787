// The breadth-first search of get_version in database.cc: from the wanted version along the deltas, one step of
// every live path at a time, until a path ends in a version held in full or cached.
module VersionSearch {
  import opened Wrappers
  import opened Digraph
  import opened VersionTables

  type Path = seq<Id>

  predicate IsRoot(t: Tables, cached: set<Id>, id: Id) {
    id in cached || id in t.files
  }

  ghost predicate PathTo(t: Tables, p: Path, ident: Id) {
    Walk(t.Edges(), p) && p[0] == ident
  }

  ghost predicate TipIn(paths: seq<Path>, x: Id) {
    exists i :: 0 <= i < |paths| && Ends(paths[i], x)
  }

  ghost predicate Ends(p: Path, x: Id) {
    p != [] && p[|p| - 1] == x
  }

  /** The bases recorded for a version, in some order. */
  method Bases(t: Tables, tip: Id) returns (rows: seq<Id>)
    ensures forall b :: b in rows <==> (tip, b) in t.deltas
    ensures forall i, j :: 0 <= i < j < |rows| ==> rows[i] != rows[j]
  {
    var left := set k | k in t.deltas && k.0 == tip :: k.1;
    assert forall b :: (tip, b) in t.deltas <==> b in left;
    rows := [];
    while left != {}
      invariant forall b :: (tip, b) in t.deltas <==> b in left || b in rows
      invariant forall b :: b in left ==> b !in rows
      invariant forall i, j :: 0 <= i < j < |rows| ==> rows[i] != rows[j]
      decreases |left|
    {
      var b :| b in left;
      left := left - {b};
      rows := rows + [b];
    }
  }

  /** One more step on one path: a fault on a cycle, nothing at a node already seen, else a longer live path. */
  method ExtendPathIfNotCycle(p: Path, ext: Id, seen: set<Id>, next: seq<Path>)
    returns (cycle: bool, seen': set<Id>, next': seq<Path>)
    ensures cycle <==> ext in p
    ensures !cycle ==> seen' == seen + {ext}
    ensures !cycle ==> next' == if ext in seen then next else next + [p + [ext]]
  {
    seen', next' := seen, next;
    var i := 0;
    while i < |p|
      invariant 0 <= i <= |p| && ext !in p[..i]
    {
      if p[i] == ext {
        return true, seen', next';
      }
      i := i + 1;
    }
    cycle := false;
    if ext !in seen {
      next' := next + [p + [ext]];
      seen' := seen + {ext};
    }
  }

  /** The paths added to a list are one-step extensions of p, and each node added to seen ends one of them. */
  ghost predicate Extended(p: Path, rows: seq<Id>, seen: set<Id>, next: seq<Path>, seen': set<Id>, next': seq<Path>) {
    && next <= next'
    && seen <= seen'
    && (forall i :: |next| <= i < |next'| ==> |next'[i]| == |p| + 1 && p <= next'[i] && next'[i][|p|] in rows)
    && (forall x :: x in seen' && x !in seen ==> TipIn(next', x))
  }

  /** Every fork gets a copy of the path; the path itself takes the first row. */
  method ExtendAll(p: Path, rows: seq<Id>, seen: set<Id>, next: seq<Path>)
    returns (cycle: bool, seen': set<Id>, next': seq<Path>)
    requires rows != []
    ensures cycle <==> exists b :: b in rows && b in p
    ensures !cycle ==> forall b :: b in rows ==> b in seen'
    ensures !cycle ==> Extended(p, rows, seen, next, seen', next')
  {
    hide TipIn;
    seen', next' := seen, next;
    var k := 1;
    while k < |rows|
      invariant 1 <= k <= |rows|
      invariant forall j :: 1 <= j < k ==> rows[j] !in p && rows[j] in seen'
      invariant Extended(p, rows, seen, next, seen', next')
    {
      ghost var seen0, next0 := seen', next';
      cycle, seen', next' := ExtendPathIfNotCycle(p, rows[k], seen', next');
      if cycle {
        return;
      }
      ExtendedStep(p, rows, seen, next, seen0, next0, k);
      k := k + 1;
    }
    ghost var seen0, next0 := seen', next';
    cycle, seen', next' := ExtendPathIfNotCycle(p, rows[0], seen', next');
    if !cycle {
      ExtendedStep(p, rows, seen, next, seen0, next0, 0);
    }
  }

  lemma ExtendedStep(p: Path, rows: seq<Id>, seen: set<Id>, next: seq<Path>, seen0: set<Id>, next0: seq<Path>, k: nat)
    requires k < |rows| && Extended(p, rows, seen, next, seen0, next0)
    ensures Extended(p, rows, seen, next, seen0 + {rows[k]}, if rows[k] in seen0 then next0 else next0 + [p + [rows[k]]])
  {
    if rows[k] !in seen0 {
      var next' := next0 + [p + [rows[k]]];
      assert Ends(next'[|next0|], rows[k]);
      forall x | TipIn(next0, x)
        ensures TipIn(next', x)
      {
        var i :| 0 <= i < |next0| && Ends(next0[i], x);
        assert next'[i] == next0[i];
      }
    }
  }

  /** All live paths lead from the wanted version and have the same length. */
  ghost predicate Live(t: Tables, ident: Id, n: nat, paths: seq<Path>) {
    forall i :: 0 <= i < |paths| ==> PathTo(t, paths[i], ident) && |paths[i]| == n
  }

  /** Every path of fewer than n nodes ends in an expanded node; n nodes end there or at a tip. */
  ghost predicate Covered(t: Tables, ident: Id, n: nat, live: seq<Path>, done: set<Id>) {
    forall w: Path :: PathTo(t, w, ident) && |w| <= n ==> w[|w| - 1] in done || (|w| == n && TipIn(live, w[|w| - 1]))
  }

  /** Expanded nodes are no roots, and all their bases are expanded or tips. */
  ghost predicate Expanded(t: Tables, cached: set<Id>, live: seq<Path>, done: set<Id>) {
    && (forall x :: x in done ==> !IsRoot(t, cached, x))
    && (forall k :: k in t.deltas && k.0 in done ==> k.1 in done || TipIn(live, k.1))
  }

  ghost predicate SeenBefore(seen: set<Id>, live: seq<Path>, done: set<Id>) {
    forall x :: x in seen ==> x in done || TipIn(live, x)
  }

  lemma PathOneMore(t: Tables, p: Path, q: Path, ident: Id)
    requires PathTo(t, p, ident) && |q| == |p| + 1 && p <= q && (p[|p| - 1], q[|p|]) in t.Edges()
    ensures PathTo(t, q, ident)
  {
    forall i, j | 0 <= i && j == i + 1 && j < |q|
      ensures (q[i], q[j]) in t.Edges()
    {
      if j < |p| {
        assert (p[i], p[j]) in t.Edges();
      }
    }
  }

  lemma SuffixReaches(t: Tables, p: Path, i: nat)
    requires Walk(t.Edges(), p) && i < |p|
    ensures Reaches(t.Edges(), p[i], p[|p| - 1])
  {
    assert WalkFromTo(t.Edges(), p[i..], p[i], p[|p| - 1]);
  }

  /** On acyclic tables a path never runs back into itself. */
  lemma NoWayBack(t: Tables, p: Path, ident: Id, b: Id)
    requires Acyclic(t.Edges()) && PathTo(t, p, ident) && (p[|p| - 1], b) in t.Edges()
    ensures b !in p
  {
    if b in p {
      var i :| 0 <= i < |p| && p[i] == b;
      SuffixReaches(t, p, i);
    }
  }

  /** Where a path ends, something is stored. */
  lemma TipStored(t: Tables, p: Path, ident: Id)
    requires Based(t) && t.Stored(ident) && PathTo(t, p, ident)
    ensures t.Stored(p[|p| - 1])
  {
    if |p| > 1 {
      assert (p[|p| - 2], p[|p| - 1]) in t.Edges();
    }
  }

  /** What has been established about the first i live paths when none of their tips was a root. */
  ghost predicate Stepped(t: Tables, cached: set<Id>, live: seq<Path>, i: nat, seen: set<Id>) {
    forall j :: 0 <= j < i && j < |live| ==> TipStepped(t, cached, live[j], seen)
  }

  ghost predicate TipStepped(t: Tables, cached: set<Id>, p: Path, seen: set<Id>) {
    p != [] && !IsRoot(t, cached, p[|p| - 1]) && forall b :: (p[|p| - 1], b) in t.deltas ==> b in seen
  }

  /** One round: either some live path ends in a root, or every live path has been extended by one step. */
  method Round(t: Tables, cached: set<Id>, ghost ident: Id, ghost n: nat, live: seq<Path>, seen: set<Id>)
    returns (selected: Option<Path>, seen': set<Id>, next: seq<Path>)
    requires Based(t) && Acyclic(t.Edges()) && t.Stored(ident)
    requires 0 < n && Live(t, ident, n, live)
    ensures selected.Some? ==> PathTo(t, selected.value, ident) && |selected.value| == n && IsRoot(t, cached, selected.value[n - 1])
    ensures selected.None? ==> Live(t, ident, n + 1, next) && Stepped(t, cached, live, |live|, seen')
    ensures selected.None? ==> seen <= seen' && forall x :: x in seen' ==> x in seen || TipIn(next, x)
  {
    hide Based, Acyclic, TipIn, Walk;
    selected, seen', next := None, seen, [];
    var i := 0;
    while i < |live|
      invariant 0 <= i <= |live|
      invariant Live(t, ident, n + 1, next) && Stepped(t, cached, live, i, seen')
      invariant seen <= seen' && forall x :: x in seen' ==> x in seen || TipIn(next, x)
    {
      var pth := live[i];
      var tip := pth[|pth| - 1];
      if IsRoot(t, cached, tip) {
        return Some(pth), seen', next;
      }
      var rows := Bases(t, tip);
      TipStored(t, pth, ident);
      assert rows != [] by {
        var k :| k in t.deltas && k.0 == tip;
        assert (tip, k.1) in t.deltas;
      }
      forall b | b in rows
        ensures b !in pth
      {
        NoWayBack(t, pth, ident, b);
      }
      ghost var seen0, next0 := seen', next;
      var cycle;
      cycle, seen', next := ExtendAll(pth, rows, seen', next);
      RoundStep(t, cached, ident, n, live, i, tip, rows, seen0, next0, seen', next);
      i := i + 1;
    }
  }

  lemma RoundStep(t: Tables, cached: set<Id>, ident: Id, n: nat, live: seq<Path>, i: nat, tip: Id, rows: seq<Id>,
                  seen0: set<Id>, next0: seq<Path>, seen': set<Id>, next: seq<Path>)
    requires 0 < n && Live(t, ident, n, live) && i < |live| && Live(t, ident, n + 1, next0)
    requires Stepped(t, cached, live, i, seen0)
    requires Extended(live[i], rows, seen0, next0, seen', next)
    requires forall b :: b in rows ==> b in seen'
    requires PathTo(t, live[i], ident) && tip == live[i][|live[i]| - 1] && !IsRoot(t, cached, tip)
    requires forall b :: b in rows <==> (tip, b) in t.deltas
    ensures Live(t, ident, n + 1, next) && Stepped(t, cached, live, i + 1, seen')
    ensures forall x :: TipIn(next0, x) ==> TipIn(next, x)
  {
    hide Walk;
    forall j | 0 <= j < |next|
      ensures PathTo(t, next[j], ident) && |next[j]| == n + 1
    {
      if j < |next0| {
        assert next[j] == next0[j];
      } else {
        PathOneMore(t, live[i], next[j], ident);
      }
    }
    forall x | TipIn(next0, x)
      ensures TipIn(next, x)
    {
      var j :| 0 <= j < |next0| && Ends(next0[j], x);
      assert next[j] == next0[j];
    }
    forall j | 0 <= j < i
      ensures TipStepped(t, cached, live[j], seen')
    {
      assert TipStepped(t, cached, live[j], seen0);
    }
    assert TipStepped(t, cached, live[i], seen') by {
      forall b | (tip, b) in t.deltas
        ensures b in seen'
      {
        assert b in rows;
      }
    }
  }

  /** The tips of the live paths. */
  ghost function Tips(live: seq<Path>): (tips: set<Id>)
    ensures forall x :: x in tips <==> TipIn(live, x)
  {
    assert forall p :: p in live ==> exists i :: 0 <= i < |live| && live[i] == p;
    set p | p in live && p != [] :: p[|p| - 1]
  }

  /** After a round without a root, the tips count as expanded and the search has covered one step more. */
  lemma RoundCovers(t: Tables, cached: set<Id>, ident: Id, n: nat, live: seq<Path>, done: set<Id>, seen: set<Id>,
                    next: seq<Path>, seen': set<Id>)
    requires 0 < n && Covered(t, ident, n, live, done) && Expanded(t, cached, live, done) && SeenBefore(seen, live, done)
    requires Stepped(t, cached, live, |live|, seen')
    requires forall x :: x in seen' ==> x in seen || TipIn(next, x)
    ensures var done' := done + Tips(live);
      Covered(t, ident, n + 1, next, done') && Expanded(t, cached, next, done') && SeenBefore(seen', next, done')
  {
    var done' := done + Tips(live);
    forall k | k in t.deltas && k.0 in done'
      ensures k.1 in done' || TipIn(next, k.1)
    {
      if k.0 in Tips(live) {
        var i :| 0 <= i < |live| && Ends(live[i], k.0);
        assert TipStepped(t, cached, live[i], seen');
        assert (k.0, k.1) in t.deltas;
      }
    }
    forall x | x in Tips(live)
      ensures !IsRoot(t, cached, x)
    {
      var i :| 0 <= i < |live| && Ends(live[i], x);
      assert TipStepped(t, cached, live[i], seen');
    }
    forall w: Path | PathTo(t, w, ident) && |w| <= n + 1
      ensures w[|w| - 1] in done' || (|w| == n + 1 && TipIn(next, w[|w| - 1]))
    {
      if |w| == n + 1 {
        var v := w[..n];
        assert PathTo(t, v, ident);
        assert v[|v| - 1] in done';
        assert (w[n - 1], w[n]) in t.deltas;
      }
    }
  }

  /** While no root was found, something is left to extend: a path to a root exists, and it must leave the expanded nodes. */
  lemma StillLive(t: Tables, cached: set<Id>, rank: Id -> nat, ident: Id, n: nat, live: seq<Path>, done: set<Id>)
    requires Based(t) && Ranked(t.Edges(), rank) && t.Stored(ident)
    requires Covered(t, ident, n, live, done) && Expanded(t, cached, live, done) && 0 < n
    ensures live != []
  {
    if live == [] {
      var chain := ChainExists(t, rank, ident);
      assert PathTo(t, [ident], ident);
      assert ident in done;
      assert WalkFromTo(t.Edges(), chain, ident, chain[|chain| - 1]);
      ClosedWalk(t.Edges(), done, chain, ident, chain[|chain| - 1]);
    }
  }

  /** The selected path is a shortest one, although paths that enter nodes already seen are dropped. */
  method SelectPath(t: Tables, cached: set<Id>, ident: Id) returns (selected: Path)
    requires Based(t) && Acyclic(t.Edges()) && t.Stored(ident)
    ensures PathTo(t, selected, ident) && IsRoot(t, cached, selected[|selected| - 1])
    ensures forall w: Path :: PathTo(t, w, ident) && IsRoot(t, cached, w[|w| - 1]) ==> |selected| <= |w|
    ensures forall i :: 0 <= i < |selected| - 1 ==> !IsRoot(t, cached, selected[i])
  {
    hide Based, Acyclic, Covered, Expanded, SeenBefore, Stepped, TipIn, Ranked;
    ghost var rank := AcyclicRanked(t.Edges());
    var live := [[ident]];
    var seen: set<Id> := {};
    ghost var n, done := 1, {};
    Starts(t, cached, ident);
    while true
      invariant 0 < n && Live(t, ident, n, live)
      invariant Covered(t, ident, n, live, done) && Expanded(t, cached, live, done) && SeenBefore(seen, live, done)
      decreases rank(ident) + 2 - n
    {
      StillLive(t, cached, rank, ident, n, live, done);
      RankedPath(t, rank, live[0], ident);
      ghost var seen0, live0 := seen, live;
      var found, next;
      found, seen, next := Round(t, cached, ident, n, live, seen);
      if found.Some? {
        selected := found.value;
        Shortest(t, cached, ident, n, live0, done, selected);
        return;
      }
      RoundCovers(t, cached, ident, n, live0, done, seen0, next, seen);
      n, done := n + 1, done + Tips(live0);
      live := next;
    }
  }

  lemma Starts(t: Tables, cached: set<Id>, ident: Id)
    ensures Live(t, ident, 1, [[ident]]) && Covered(t, ident, 1, [[ident]], {})
    ensures Expanded(t, cached, [[ident]], {}) && SeenBefore({}, [[ident]], {})
  {
    assert Ends([[ident]][0], ident);
  }

  /** A path is no longer than the rank of its start allows. */
  lemma {:induction false} RankedPath(t: Tables, rank: Id -> nat, p: Path, ident: Id)
    requires Ranked(t.Edges(), rank) && PathTo(t, p, ident)
    ensures |p| <= rank(ident) + 1
    decreases |p|
  {
    if |p| > 1 {
      assert (p[0], p[1]) in t.Edges();
      RankedPath(t, rank, p[1..], p[1]);
    }
  }

  lemma Shortest(t: Tables, cached: set<Id>, ident: Id, n: nat, live: seq<Path>, done: set<Id>, selected: Path)
    requires Covered(t, ident, n, live, done) && Expanded(t, cached, live, done)
    requires PathTo(t, selected, ident) && |selected| == n
    ensures forall w: Path :: PathTo(t, w, ident) && IsRoot(t, cached, w[|w| - 1]) ==> n <= |w|
    ensures forall i :: 0 <= i < n - 1 ==> !IsRoot(t, cached, selected[i])
  {
    forall i | 0 <= i < n - 1
      ensures !IsRoot(t, cached, selected[i])
    {
      var v := selected[..i + 1];
      assert PathTo(t, v, ident);
      assert v[|v| - 1] in done;
    }
  }
}
