/**
 Where divide_and_conquer of lcs.cc may cut b.  The recorded costs of the two halves
 never underestimate, so a cut whose costs add up to the optimum is exact on both
 sides; and such a cut always exists, so mid_split never runs off its vectors.
 */
module LcsSplit {
  import opened EditDistance
  import opened EditGrid

  /** What the two full scans leave behind for a cut of a at row m. */
  ghost predicate HalvesScanned(a: seq<int>, b: seq<int>, m: nat, pLim: int, cc: seq<int>, rr: seq<int>)
    requires m <= |a|
  {
    && |cc| == |b| + 1 && |rr| == |b| + 1
    && Sound(a[..m], b, cc)
    && Sound(Reverse(a[m..]), Reverse(b), rr)
    && (forall y :: 0 <= y <= |b| && Settled(a[..m], b, pLim, y) ==> cc[y] == Dist(a[..m], b[..y]))
    && (forall y :: 0 <= y <= |b| && Settled(Reverse(a[m..]), Reverse(b), pLim, y)
                    ==> rr[y] == Dist(Reverse(a[m..]), Reverse(b)[..y]))
  }

  /** A cut of b at y whose recorded costs add up to the optimum. */
  ghost predicate GoodCut(cc: seq<int>, rr: seq<int>, n: int, cost: int, y: int) {
    0 <= y <= n && |cc| == n + 1 && |rr| == n + 1 && cc[y] + rr[n - y] == cost
  }

  lemma ReversePrefix(a: seq<int>, b: seq<int>, y: nat)
    requires y <= |b|
    ensures Reverse(b)[..|b| - y] == Reverse(b[y..])
    ensures Dist(Reverse(a), Reverse(b)[..|b| - y]) == Dist(a, b[y..])
  {
    assert Reverse(b)[..|b| - y] == Reverse(b[y..]);
    DistReverse(a, b[y..]);
  }

  /** Costs are upper bounds, so a good cut has exact costs on both sides. */
  lemma GoodCutExact(a: seq<int>, b: seq<int>, m: nat, pLim: int, cc: seq<int>, rr: seq<int>, y: nat)
    requires m <= |a| && HalvesScanned(a, b, m, pLim, cc, rr)
    requires GoodCut(cc, rr, |b|, Dist(a, b), y)
    ensures cc[y] == Dist(a[..m], b[..y]) && rr[|b| - y] == Dist(a[m..], b[y..])
  {
    hide Dist, Settled;
    CostsAbove(a, b, m, pLim, cc, rr, y);
    SplitLowerBound(a, b, m, y);
  }

  lemma CostsAbove(a: seq<int>, b: seq<int>, m: nat, pLim: int, cc: seq<int>, rr: seq<int>, y: nat)
    requires m <= |a| && HalvesScanned(a, b, m, pLim, cc, rr) && y <= |b|
    ensures Dist(a[..m], b[..y]) <= cc[y] && Dist(a[m..], b[y..]) <= rr[|b| - y]
  {
    hide Dist, Settled;
    ReversePrefix(a[m..], b, y);
    GridColumn(a[..m], b, y);
    GridColumn(Reverse(a[m..]), Reverse(b), |b| - y);
  }

  lemma GridColumn(a: seq<int>, b: seq<int>, y: nat)
    requires y <= |b|
    ensures Grid(a, b, |a|, y) == Dist(a, b[..y])
  {
    assert a[..|a|] == a;
  }

  // ---------------------------------------------------- a good cut always exists

  /** An optimal cut whose right neighbour is not optimal. */
  lemma {:induction false} LastOptimal(a: seq<int>, b: seq<int>, m: nat, y: nat) returns (z: nat)
    requires OptimalSplit(a, b, m, y)
    ensures OptimalSplit(a, b, m, z) && (z == |b| || !OptimalSplit(a, b, m, z + 1))
    decreases |b| - y
  {
    z := y;
    if y < |b| && OptimalSplit(a, b, m, y + 1) {
      z := LastOptimal(a, b, m, y + 1);
    }
  }

  /** How the cost of each half moves when the cut moves by one. */
  lemma CutStep(a: seq<int>, b: seq<int>, m: nat, y: nat)
    requires m <= |a| && y < |b|
    ensures Dist(a[..m], b[..y + 1]) == Dist(a[..m], b[..y]) + 1 || Dist(a[..m], b[..y + 1]) == Dist(a[..m], b[..y]) - 1
    ensures Dist(a[m..], b[y + 1..]) == Dist(a[m..], b[y..]) + 1 || Dist(a[m..], b[y + 1..]) == Dist(a[m..], b[y..]) - 1
    ensures Dist(a, b) <= Dist(a[..m], b[..y]) + Dist(a[m..], b[y..])
    ensures Dist(a, b) <= Dist(a[..m], b[..y + 1]) + Dist(a[m..], b[y + 1..])
  {
    hide Dist;
    assert Init(b[..y + 1]) == b[..y];
    DistStep(a[..m], b[..y + 1]);
    DistReverse(a[m..], b[y..]);
    DistReverse(a[m..], b[y + 1..]);
    assert Init(Reverse(b[y..])) == Reverse(b[y + 1..]);
    DistStep(Reverse(a[m..]), Reverse(b[y..]));
    SplitLowerBound(a, b, m, y);
    SplitLowerBound(a, b, m, y + 1);
  }

  /** Move the cut left while that only moves cost from the right half to the left one. */
  lemma {:induction false} WalkLeft(a: seq<int>, b: seq<int>, m: nat, y: nat) returns (z: nat)
    requires OptimalSplit(a, b, m, y)
    ensures z <= y && OptimalSplit(a, b, m, z)
    ensures Dist(a[m..], b[z..]) == Dist(a[m..], b[y..]) - (y - z)
    ensures z > 0 ==> Dist(a[m..], b[z - 1..]) == Dist(a[m..], b[z..]) + 1
    decreases y
  {
    hide Dist;
    z := y;
    if y > 0 {
      CutStep(a, b, m, y - 1);
      if Dist(a[m..], b[y - 1..]) == Dist(a[m..], b[y..]) - 1 {
        z := WalkLeft(a, b, m, y - 1);
      }
    }
  }

  /** At an optimal cut, neither half deletes more than the whole does. */
  lemma HalfLimits(a: seq<int>, b: seq<int>, m: nat, pLim: int, y: nat)
    requires OptimalSplit(a, b, m, y) && Dist(a, b) == |b| - |a| + 2 * pLim
    ensures Dist(a[..m], b[..y]) <= y - m + 2 * pLim
    ensures Dist(a[m..], b[y..]) <= (|b| - y) - (|a| - m) + 2 * pLim
  {
    hide Dist;
    DistBounds(a[..m], b[..y]);
    DistBounds(a[m..], b[y..]);
  }

  lemma SettledRight(a: seq<int>, b: seq<int>, m: nat, pLim: int, y: nat)
    requires m <= |a| && y <= |b|
    requires Dist(a[m..], b[y..]) <= (|b| - y) - (|a| - m) + 2 * pLim
    requires || y == 0
             || Dist(a[m..], b[y - 1..]) == Dist(a[m..], b[y..]) + 1
             || Dist(a[m..], b[y..]) - ((|b| - y) - (|a| - m)) <= 2 * y
    ensures Settled(Reverse(a[m..]), Reverse(b), pLim, |b| - y)
  {
    hide Dist;
    ReversePrefix(a[m..], b, y);
    if y > 0 {
      ReversePrefix(a[m..], b, y - 1);
    }
  }

  lemma CutBySettled(a: seq<int>, b: seq<int>, m: nat, pLim: int, cc: seq<int>, rr: seq<int>, y: nat)
    requires m <= |a| && HalvesScanned(a, b, m, pLim, cc, rr) && OptimalSplit(a, b, m, y)
    requires Settled(a[..m], b, pLim, y) && Settled(Reverse(a[m..]), Reverse(b), pLim, |b| - y)
    ensures GoodCut(cc, rr, |b|, Dist(a, b), y)
  {
    hide Dist, Settled;
    ReversePrefix(a[m..], b, y);
  }

  /**
   Take the last of a stretch of optimal cuts and its leftmost companion.  If neither
   were settled on both sides, the two halves together would delete more than |b|.
   */
  lemma GoodCutExists(a: seq<int>, b: seq<int>, m: nat, pLim: int, cc: seq<int>, rr: seq<int>) returns (y: nat)
    requires m <= |a| <= |b| && HalvesScanned(a, b, m, pLim, cc, rr)
    requires Dist(a, b) == |b| - |a| + 2 * pLim
    ensures GoodCut(cc, rr, |b|, Dist(a, b), y)
  {
    hide Dist, HalvesScanned;
    var any := SplitExists(a, b, m);
    y := LastOptimal(a, b, m, any);
    var z := WalkLeft(a, b, m, y);
    HalfLimits(a, b, m, pLim, y);
    HalfLimits(a, b, m, pLim, z);
    DistBounds(a, b);
    if y < |b| {
      CutStep(a, b, m, y);
    }
    if Dist(a[..m], b[..z]) - (z - m) <= 2 * (|b| - z) {
      SettledRight(a, b, m, pLim, z);
      CutBySettled(a, b, m, pLim, cc, rr, z);
      y := z;
    } else {
      SettledRight(a, b, m, pLim, y);
      CutBySettled(a, b, m, pLim, cc, rr, y);
    }
  }

  /** The first cut that is met going outwards from the middle, on the lower side first. */
  ghost function MidCut(cc: seq<int>, rr: seq<int>, n: int, cost: int, rdx: int, cdx: int): int
    decreases rdx + 1
  {
    if rdx < 0 then 0
    else if GoodCut(cc, rr, n, cost, rdx) then rdx
    else if GoodCut(cc, rr, n, cost, cdx) then cdx
    else MidCut(cc, rr, n, cost, rdx - 1, cdx + 1)
  }

  /** Look for a good cut outwards from the middle of b. */
  method MidSplit(m: int, n: int, rr: array<int>, cc: array<int>, cost: int) returns (split: int)
    requires 0 <= n && exists y :: GoodCut(cc[..], rr[..], n, cost, y)
    ensures GoodCut(cc[..], rr[..], n, cost, split)
    ensures split == MidCut(cc[..], rr[..], n, cost, n / 2, 1 + n / 2)
  {
    var cdx, rdx := 1 + n / 2, n / 2;
    while true
      invariant MidCut(cc[..], rr[..], n, cost, n / 2, 1 + n / 2) == MidCut(cc[..], rr[..], n, cost, rdx, cdx)
      invariant cdx + rdx == 1 + 2 * (n / 2) && -1 <= rdx <= n / 2
      invariant forall y :: rdx < y < cdx ==> !GoodCut(cc[..], rr[..], n, cost, y)
      decreases rdx
    {
      ghost var y :| GoodCut(cc[..], rr[..], n, cost, y);
      assert rdx >= 0;
      if cost == cc[rdx] + rr[n - rdx] {
        return rdx;
      }
      assert !GoodCut(cc[..], rr[..], n, cost, rdx);
      if cost == cc[cdx] + rr[n - cdx] {
        return cdx;
      }
      assert !GoodCut(cc[..], rr[..], n, cost, cdx);
      rdx, cdx := rdx - 1, cdx + 1;
    }
  }
}
