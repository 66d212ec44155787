/**
 The grid the O(NP) search of lcs.cc moves on.  Point (x, y) stands for "x elements
 of a consumed, y elements of b produced"; diagonal k holds the points with
 y - x == k.  The search may step past the last row or column, so the grid is
 unbounded and every move out there is an edit.
 */
module EditGrid {
  import opened EditDistance

  function Grid(a: seq<int>, b: seq<int>, x: nat, y: nat): nat {
    Dist(a[..Min(x, |a|)], b[..Min(y, |b|)]) + Max(0, x - |a|) + Max(0, y - |b|)
  }

  ghost predicate Match(a: seq<int>, b: seq<int>, x: nat, y: nat) {
    x < |a| && y < |b| && a[x] == b[y]
  }

  lemma GridEdges(a: seq<int>, b: seq<int>, x: nat, y: nat)
    ensures Grid(a, b, 0, y) == y && Grid(a, b, x, 0) == x
    ensures Grid(a, b, x, y) >= y - x && Grid(a, b, x, y) >= x - y
  {
    DistBounds(a[..Min(x, |a|)], b[..Min(y, |b|)]);
  }

  lemma GridWhole(a: seq<int>, b: seq<int>)
    ensures Grid(a, b, |a|, |b|) == Dist(a, b)
  {
    assert a[..|a|] == a && b[..|b|] == b;
  }

  lemma GridStep(a: seq<int>, b: seq<int>, x: nat, y: nat)
    ensures Grid(a, b, x + 1, y) == Grid(a, b, x, y) + 1 || Grid(a, b, x + 1, y) == Grid(a, b, x, y) - 1
    ensures Grid(a, b, x, y + 1) == Grid(a, b, x, y) + 1 || Grid(a, b, x, y + 1) == Grid(a, b, x, y) - 1
    ensures x >= |a| ==> Grid(a, b, x + 1, y) == Grid(a, b, x, y) + 1
    ensures y >= |b| ==> Grid(a, b, x, y + 1) == Grid(a, b, x, y) + 1
  {
    var a', b' := a[..Min(x, |a|)], b[..Min(y, |b|)];
    if x < |a| {
      assert Init(a[..x + 1]) == a';
      DistStep(a[..x + 1], b');
    }
    if y < |b| {
      assert Init(b[..y + 1]) == b';
      DistStep(a', b[..y + 1]);
    }
  }

  /** The two ways to arrive at (x + 1, y + 1): by a match, or by an edit. */
  lemma GridArrive(a: seq<int>, b: seq<int>, x: nat, y: nat)
    ensures Match(a, b, x, y) ==> Grid(a, b, x + 1, y + 1) == Grid(a, b, x, y)
    ensures !Match(a, b, x, y) ==>
              Grid(a, b, x + 1, y + 1) == 1 + Min(Grid(a, b, x, y + 1), Grid(a, b, x + 1, y))
  {
    if x < |a| && y < |b| {
      assert Init(a[..x + 1]) == a[..x] && Init(b[..y + 1]) == b[..y];
    } else {
      GridStep(a, b, x, y + 1);
      GridStep(a, b, x + 1, y);
    }
  }

  /** Distances never shrink along a diagonal. */
  lemma {:induction false} GridDiagonal(a: seq<int>, b: seq<int>, x: nat, y: nat, t: nat)
    ensures Grid(a, b, x, y) <= Grid(a, b, x + t, y + t)
    decreases t
  {
    if t > 0 {
      GridDiagonal(a, b, x, y, t - 1);
      GridArrive(a, b, x + t - 1, y + t - 1);
      GridStep(a, b, x + t - 1, y + t - 1);
    }
  }

  lemma {:induction false} GridDown(a: seq<int>, b: seq<int>, x: nat, x': nat, y: nat)
    requires x <= x'
    ensures Grid(a, b, x', y) <= Grid(a, b, x, y) + (x' - x)
    decreases x' - x
  {
    if x < x' {
      GridStep(a, b, x, y);
      GridDown(a, b, x + 1, x', y);
    }
  }

  // ------------------------------------------------------- furthest reaching

  /** Column z of diagonal k can be reached with at most bound edits. */
  ghost predicate Reach(a: seq<int>, b: seq<int>, k: int, z: int, bound: int) {
    0 <= z && k <= z && Grid(a, b, z - k, z) <= bound
  }

  /** y is the last column of diagonal k within the bound; -1 when there is none. */
  ghost predicate Furthest(a: seq<int>, b: seq<int>, k: int, y: int, bound: int) {
    && (y == -1 || Reach(a, b, k, y, bound))
    && forall z :: Reach(a, b, k, z, bound) ==> z <= y
  }

  lemma NothingReached(a: seq<int>, b: seq<int>, k: int, bound: int)
    requires k > bound || -k > bound
    ensures Furthest(a, b, k, -1, bound)
  {
    forall z | Reach(a, b, k, z, bound)
      ensures z <= -1
    {
      GridEdges(a, b, z - k, z);
    }
  }

  /** The better of the two neighbours is a legal place to start on diagonal k. */
  lemma RunStart(a: seq<int>, b: seq<int>, k: int, left: int, right: int, bound: int)
    requires Furthest(a, b, k - 1, left, bound - 1) && Furthest(a, b, k + 1, right, bound - 1)
    requires k <= bound && -k <= bound
    ensures Reach(a, b, k, Max(left + 1, right), bound)
  {
    if k > 0 {
      GridEdges(a, b, 0, k - 1);
      assert Reach(a, b, k - 1, k - 1, bound - 1);
    }
    var y := Max(left + 1, right);
    if right == y && right >= 0 {
      GridStep(a, b, right - (k + 1), right);
    } else if left >= 0 {
      GridStep(a, b, left - (k - 1), left);
    } else {
      GridEdges(a, b, -k, 0);
    }
  }

  /** Beyond the better neighbour, a diagonal is only ever reached by a match. */
  lemma BeyondNeighbours(a: seq<int>, b: seq<int>, k: int, left: int, right: int, bound: int, z: int)
    requires Furthest(a, b, k - 1, left, bound - 1) && Furthest(a, b, k + 1, right, bound - 1)
    requires Max(left + 1, right) < z && 0 < z && k < z
    ensures Reach(a, b, k, z, bound) ==> Match(a, b, z - 1 - k, z - 1) && Reach(a, b, k, z - 1, bound)
  {
    GridArrive(a, b, z - 1 - k, z - 1);
    var byDeletion := Reach(a, b, k + 1, z, bound - 1);
    var byInsertion := Reach(a, b, k - 1, z - 1, bound - 1);
  }

  lemma {:induction false} NothingBeyond(a: seq<int>, b: seq<int>, k: int, left: int, right: int, bound: int, r: int, z: int)
    requires Furthest(a, b, k - 1, left, bound - 1) && Furthest(a, b, k + 1, right, bound - 1)
    requires Max(left + 1, right) <= r && 0 <= r && k <= r && !Match(a, b, r - k, r)
    requires r < z
    ensures !Reach(a, b, k, z, bound)
    decreases z
  {
    BeyondNeighbours(a, b, k, left, right, bound, z);
    if z - 1 != r {
      NothingBeyond(a, b, k, left, right, bound, r, z - 1);
    }
  }

  /** A run that stops at its first mismatch has gone as far as the bound allows. */
  lemma RunEnd(a: seq<int>, b: seq<int>, k: int, left: int, right: int, bound: int, r: int)
    requires Furthest(a, b, k - 1, left, bound - 1) && Furthest(a, b, k + 1, right, bound - 1)
    requires Max(left + 1, right) <= r && Reach(a, b, k, r, bound) && !Match(a, b, r - k, r)
    ensures Furthest(a, b, k, r, bound)
  {
    forall z | Reach(a, b, k, z, bound)
      ensures z <= r
    {
      if r < z {
        NothingBeyond(a, b, k, left, right, bound, r, z);
      }
    }
  }

  // ----------------------------------------------------------------- corners

  /** A point that neither a deletion nor an insertion leaves more cheaply. */
  ghost predicate Corner(a: seq<int>, b: seq<int>, x: nat, y: nat) {
    Grid(a, b, x + 1, y) == Grid(a, b, x, y) + 1 && Grid(a, b, x, y + 1) == Grid(a, b, x, y) + 1
  }

  /** Whatever is reached on a diagonal, so is everything before it. */
  lemma ReachDown(a: seq<int>, b: seq<int>, k: int, z: int, z': int, bound: int)
    requires 0 <= z && k <= z
    ensures z <= z' && Reach(a, b, k, z', bound) ==> Reach(a, b, k, z, bound)
  {
    if z <= z' {
      GridDiagonal(a, b, z - k, z, z' - z);
    }
  }

  /** The run made on diagonal k with a corner's own cost as bound passes through it. */
  lemma CornerOnRun(a: seq<int>, b: seq<int>, k: int, left: int, right: int, bound: int, y: nat)
    requires Furthest(a, b, k - 1, left, bound - 1) && Furthest(a, b, k + 1, right, bound - 1)
    requires k <= y && Corner(a, b, y - k, y) && Grid(a, b, y - k, y) == bound
    ensures Max(left + 1, right) <= y
  {
    ReachDown(a, b, k - 1, y, left, bound - 1);
    ReachDown(a, b, k + 1, y + 1, right, bound - 1);
  }

  /** No recorded cost is below the true distance of a from that prefix of b. */
  ghost predicate Sound(a: seq<int>, b: seq<int>, cc: seq<int>) {
    forall y :: 0 <= y < |cc| ==> Grid(a, b, |a|, y) <= cc[y]
  }

  /** Every corner of diagonal k with cost k + 2q has been charged to its column. */
  ghost predicate Recorded(a: seq<int>, b: seq<int>, cc: seq<int>, k: int, q: int) {
    forall y :: 0 <= y < |cc| && k <= y && y - k <= |a| && Corner(a, b, y - k, y)
                && Grid(a, b, y - k, y) == k + 2 * q
                ==> cc[y] <= |a| - (y - k) + (k + 2 * q)
  }

  /** A full scan up to pLim has charged every corner left of the last diagonal. */
  ghost predicate Scanned(a: seq<int>, b: seq<int>, cc: seq<int>, pLim: int) {
    forall k, q :: 0 <= q <= pLim && -q <= k <= |b| - |a| ==> Recorded(a, b, cc, k, q)
  }

  /**
   Column y is settled by a scan up to pLim: deletions do not exceed the limit, and
   either b[y] does not help a, or a has few deletions compared with what is left of b.
   */
  ghost predicate Settled(a: seq<int>, b: seq<int>, pLim: int, y: nat) {
    && y <= |b|
    && Dist(a, b[..y]) <= y - |a| + 2 * pLim
    && (y == |b|
        || Dist(a, b[..y + 1]) == Dist(a, b[..y]) + 1
        || Dist(a, b[..y]) - (y - |a|) <= 2 * (|b| - y))
  }

  /** A least-cost edit to (|a|, y) may come straight down column y from row x. */
  ghost predicate Tight(a: seq<int>, b: seq<int>, x: nat, y: nat) {
    x <= |a| && Grid(a, b, x, y) + (|a| - x) == Grid(a, b, |a|, y)
  }

  lemma {:induction false} TightBelow(a: seq<int>, b: seq<int>, x: nat, x': nat, y: nat)
    requires Tight(a, b, x, y) && x <= x' <= |a|
    ensures Tight(a, b, x', y) && Grid(a, b, x' + 1, y) == Grid(a, b, x', y) + 1
    decreases x' - x
  {
    GridStep(a, b, x, y);
    if x < |a| {
      GridDown(a, b, x + 1, |a|, y);
    }
    if x < x' {
      TightBelow(a, b, x + 1, x', y);
    }
  }

  lemma {:induction false} HighestTight(a: seq<int>, b: seq<int>, x: nat, y: nat) returns (h: nat)
    requires Tight(a, b, x, y)
    ensures Tight(a, b, h, y) && (h == 0 || !Tight(a, b, h - 1, y))
    decreases x
  {
    h := x;
    if x > 0 && Tight(a, b, x - 1, y) {
      h := HighestTight(a, b, x - 1, y);
    }
  }

  /** If an insertion makes (x, y) cheaper, then so did the deletion leading to it. */
  lemma CheaperToTheRight(a: seq<int>, b: seq<int>, x: nat, y: nat)
    requires Grid(a, b, x, y + 1) == Grid(a, b, x, y) - 1
    ensures x > 0 && Grid(a, b, x - 1, y) == Grid(a, b, x, y) - 1
  {
    GridEdges(a, b, x, y);
    GridEdges(a, b, x, y + 1);
    GridArrive(a, b, x - 1, y);
    GridStep(a, b, x - 1, y);
  }

  /** In every settled column some corner on the scanned side is tight. */
  lemma SettledCorner(a: seq<int>, b: seq<int>, pLim: int, y: nat) returns (x: nat)
    requires |a| <= |b| && Settled(a, b, pLim, y)
    ensures Tight(a, b, x, y) && Corner(a, b, x, y) && y - x <= |b| - |a|
  {
    hide Dist;
    assert a[..|a|] == a;
    x := HighestTight(a, b, |a|, y);
    TightBelow(a, b, x, x, y);
    GridStep(a, b, x, y);
    if y - x <= |b| - |a| {
      if Grid(a, b, x, y + 1) == Grid(a, b, x, y) - 1 {
        CheaperToTheRight(a, b, x, y);
      }
    } else {
      x := SettledCornerBelow(a, b, pLim, x, y);
    }
  }

  lemma SettledCornerBelow(a: seq<int>, b: seq<int>, pLim: int, x: nat, y: nat) returns (x': nat)
    requires |a| <= |b| && Settled(a, b, pLim, y)
    requires Tight(a, b, x, y) && y - x > |b| - |a|
    ensures Tight(a, b, x', y) && Corner(a, b, x', y) && y - x' <= |b| - |a|
  {
    hide Dist;
    assert a[..|a|] == a;
    GridEdges(a, b, x, y);
    x' := y - (|b| - |a|);
    TightBelow(a, b, x, x', y);
    GridStep(a, b, x', y);
    GridStep(a, b, |a|, y);
    GridDown(a, b, x', |a|, y + 1);
  }

  /** After a full scan, what is recorded for a settled column is its exact distance. */
  lemma SettledExact(a: seq<int>, b: seq<int>, cc: seq<int>, pLim: int, y: nat)
    requires |a| <= |b| && |cc| == |b| + 1
    requires Sound(a, b, cc) && Scanned(a, b, cc, pLim) && Settled(a, b, pLim, y)
    ensures cc[y] == Dist(a, b[..y])
  {
    hide Dist, Corner, Sound, Scanned;
    var x := SettledCorner(a, b, pLim, y);
    assert a[..|a|] == a;
    CornerCharged(a, b, cc, pLim, x, y);
  }

  lemma CornerCharged(a: seq<int>, b: seq<int>, cc: seq<int>, pLim: int, x: nat, y: nat)
    requires |a| <= |b| && |cc| == |b| + 1 && y <= |b|
    requires Sound(a, b, cc) && Scanned(a, b, cc, pLim)
    requires Tight(a, b, x, y) && Corner(a, b, x, y) && y - x <= |b| - |a|
    requires Grid(a, b, |a|, y) <= y - |a| + 2 * pLim
    ensures cc[y] == Grid(a, b, |a|, y)
  {
    var k := y - x;
    var c := Common(a[..x], b[..y]);
    var q := x - c;
    GridEdges(a, b, x, y);
    assert Grid(a, b, x, y) == k + 2 * q;
    assert Recorded(a, b, cc, k, q);
    assert y - k == x;
  }
}
