/**
 The O(NP) furthest-reaching search of lcs.cc: subarrays that can be read backwards,
 the offset work vector, run and compare.
 */
module LcsSearch {
  import opened EditDistance
  import opened EditGrid

  /** A stretch of vec, read backwards when end < start. */
  datatype Subarray = Subarray(vec: seq<int>, base: int, start: int, end: int) {
    ghost predicate Valid() {
      0 <= base + Min(start, end) && base + Max(start, end) <= |vec|
    }

    function Size(): nat {
      if end < start then start - end else end - start
    }

    function Subset(s: int, e: int): Subarray {
      Subarray(vec, base + Min(start, end), s, e)
    }

    function At(idx: int): int
      requires Valid() && 0 <= idx < Size()
    {
      if end < start then vec[base + (start - (idx + 1))] else vec[base + (start + idx)]
    }

    ghost function View(): (s: seq<int>)
      requires Valid()
      ensures |s| == Size()
    {
      seq(Size(), i requires 0 <= i < Size() => At(i))
    }
  }

  /** A forward subset shows a slice, a backward one shows that slice reversed. */
  lemma SubsetView(a: Subarray, s: int, e: int)
    requires a.Valid() && a.start == 0 <= a.end
    requires 0 <= s <= a.end && 0 <= e <= a.end
    ensures a.Subset(s, e).Valid()
    ensures s <= e ==> a.Subset(s, e).View() == a.View()[s..e]
    ensures e <= s ==> a.Subset(s, e).View() == Reverse(a.View()[e..s])
  {
  }

  /** The vector of furthest columns, indexed by diagonals lo..hi. */
  class WorkVec {
    const lo: int
    const hi: int
    const vec: array<int>

    constructor (lo: int, hi: int)
      requires lo <= hi
      ensures this.lo == lo && this.hi == hi && fresh(vec) && vec.Length == hi - lo + 1
      ensures forall i :: 0 <= i < vec.Length ==> vec[i] == -1
    {
      this.lo, this.hi := lo, hi;
      vec := new int[hi - lo + 1](_ => -1);
    }

    ghost predicate Valid() {
      vec.Length == hi - lo + 1
    }

    function At(t: int): int
      requires Valid() && lo <= t <= hi
      reads vec
    {
      vec[t - lo]
    }
  }

  /** Charging a column keeps costs from rising. */
  ghost predicate Below(cc: seq<int>, cc': seq<int>) {
    |cc'| == |cc| && forall y :: 0 <= y < |cc| ==> cc'[y] <= cc[y]
  }

  lemma RecordedBelow(a: seq<int>, b: seq<int>, cc: seq<int>, cc': seq<int>, k: int, q: int)
    requires Below(cc, cc') && Recorded(a, b, cc, k, q)
    ensures Recorded(a, b, cc', k, q)
  {
  }

  /** Every column from y0 up to y that diagonal k passed through has been charged. */
  ghost predicate Passed(cc: seq<int>, k: int, m: int, cost: int, y0: int, y: int) {
    forall z :: y0 <= z < y && 0 <= z < |cc| && z - k <= m ==> cc[z] <= m - (z - k) + cost
  }

  lemma PassedNothing(cc: seq<int>, k: int, m: int, cost: int, y0: int)
    ensures Passed(cc, k, m, cost, y0, y0) && Below(cc, cc)
  {
  }

  ghost function ChargeSeq(cc: seq<int>, y: nat, xcst: int, cost: int): seq<int> {
    if y < |cc| && xcst >= 0 then cc[y := Min(xcst + cost, cc[y])] else cc
  }

  // ---- the search as a function: what it leaves in its two vectors ----

  ghost predicate Matches(a: seq<int>, b: seq<int>, x: int, y: int) {
    0 <= x < |a| && 0 <= y < |b| && a[x] == b[y]
  }

  /** Where following matches from (x, y) ends. */
  ghost function SlideEnd(a: seq<int>, b: seq<int>, x: int, y: int): int
    decreases |b| - y
  {
    if Matches(a, b, x, y) then SlideEnd(a, b, x + 1, y + 1) else y
  }

  /** The costs when every column passed from y on has been charged. */
  ghost function Charges(a: seq<int>, b: seq<int>, cc: seq<int>, k: int, cost: int, y: int): seq<int>
    decreases |b| - y
  {
    var cc' := if y < 0 then cc else ChargeSeq(cc, y, |a| - (y - k), cost);
    if Matches(a, b, y - k, y) then Charges(a, b, cc', k, cost, y + 1) else cc'
  }

  datatype Scan = Scan(fp: seq<int>, cc: seq<int>)

  ghost function ScanRun(s: Scan, a: seq<int>, b: seq<int>, lo: int, k: int, p: int): Scan {
    if !(lo < k && k + 1 - lo < |s.fp|) then s else
      var y := Max(s.fp[k - 1 - lo] + 1, s.fp[k + 1 - lo]);
      Scan(s.fp[k - lo := SlideEnd(a, b, y - k, y)], Charges(a, b, s.cc, k, k + 2 * p, y))
  }

  ghost function ScanLower(s: Scan, a: seq<int>, b: seq<int>, lo: int, k: int, p: int): Scan
    decreases |b| - |a| - k
  {
    if k >= |b| - |a| then s else ScanLower(ScanRun(s, a, b, lo, k, p), a, b, lo, k + 1, p)
  }

  ghost function ScanUpper(s: Scan, a: seq<int>, b: seq<int>, lo: int, k: int, p: int): Scan
    decreases k - (|b| - |a|)
  {
    if k <= |b| - |a| then s else ScanUpper(ScanRun(s, a, b, lo, k, p), a, b, lo, k - 1, p)
  }

  ghost function ScanRound(s: Scan, a: seq<int>, b: seq<int>, lo: int, p: int): Scan {
    var delta := |b| - |a|;
    ScanRun(ScanUpper(ScanLower(s, a, b, lo, -p, p), a, b, lo, delta + p, p), a, b, lo, delta, p)
  }

  /** All rounds from p on. */
  ghost function ScanAll(s: Scan, a: seq<int>, b: seq<int>, lo: int, p: int, pLim: int): Scan
    decreases pLim - p
  {
    if p > pLim then s else ScanAll(ScanRound(s, a, b, lo, p), a, b, lo, p + 1, pLim)
  }

  /** The costs that a full scan records. */
  ghost function ScanCosts(a: seq<int>, b: seq<int>, pLim: int, cc: seq<int>): seq<int> {
    var lo, hi := -(pLim + 1), pLim + 1 + (|b| - |a|);
    if hi < lo then cc else ScanAll(Scan(seq(hi - lo + 1, _ => -1), cc), a, b, lo, 0, pLim).cc
  }

  /** Record that column y can be finished by xcst deletions on top of cost. */
  method Charge(cc: array<int>, y: nat, xcst: int, cost: int)
    modifies cc
    ensures cc[..] == ChargeSeq(old(cc[..]), y, xcst, cost)
  {
    if y < cc.Length && xcst >= 0 {
      cc[y] := Min(xcst + cost, cc[y]);
    }
  }

  /** What one charge at (y - k, y) does to the recorded costs. */
  lemma ChargeKeeps(a: seq<int>, b: seq<int>, cc0: seq<int>, cc: seq<int>, k: int, cost: int, y0: int, y: nat)
    requires Below(cc0, cc) && Passed(cc, k, |a|, cost, y0, y)
    requires Reach(a, b, k, y, cost)
    requires Sound(a, b, cc0) ==> Sound(a, b, cc)
    ensures Below(cc0, ChargeSeq(cc, y, |a| - (y - k), cost))
    ensures Passed(ChargeSeq(cc, y, |a| - (y - k), cost), k, |a|, cost, y0, y + 1)
    ensures Sound(a, b, cc0) ==> Sound(a, b, ChargeSeq(cc, y, |a| - (y - k), cost))
  {
    if y - k <= |a| {
      GridDown(a, b, y - k, |a|, y);
    }
  }

  lemma SlideStep(a: seq<int>, b: seq<int>, cc: seq<int>, k: int, cost: int, y: nat)
    ensures SlideEnd(a, b, y - k, y) == if Matches(a, b, y - k, y) then SlideEnd(a, b, y - k + 1, y + 1) else y
    ensures Charges(a, b, cc, k, cost, y) == var cc' := ChargeSeq(cc, y, |a| - (y - k), cost);
      if Matches(a, b, y - k, y) then Charges(a, b, cc', k, cost, y + 1) else cc'
  {
  }

  /** A run that has stopped is as far as its bound allows and has charged its corners. */
  lemma RunDone(a: seq<int>, b: seq<int>, cc: seq<int>, k: int, p: int, bound: int, left: int, right: int, y: int)
    requires Furthest(a, b, k - 1, left, bound - 1) && Furthest(a, b, k + 1, right, bound - 1)
    requires Max(left + 1, right) <= y && Reach(a, b, k, y, bound) && !Match(a, b, y - k, y)
    requires Passed(cc, k, |a|, k + 2 * p, Max(left + 1, right), y + 1)
    ensures Furthest(a, b, k, y, bound)
    ensures bound == k + 2 * p ==> Recorded(a, b, cc, k, p)
  {
    RunEnd(a, b, k, left, right, bound, y);
    if bound == k + 2 * p {
      forall z | 0 <= z < |cc| && k <= z && z - k <= |a| && Corner(a, b, z - k, z) && Grid(a, b, z - k, z) == bound
        ensures cc[z] <= |a| - (z - k) + bound
      {
        CornerOnRun(a, b, k, left, right, bound, z);
        assert Reach(a, b, k, z, bound);
      }
    }
  }

  /** Follow matches down diagonal k from column y0, charging every column on the way. */
  method Slide(k: int, a: Subarray, m: int, b: Subarray, n: int, cc: array<int>, cost: int, y0: int, ghost bound: int)
    returns (y: int)
    requires a.Valid() && b.Valid() && m == a.Size() && n == b.Size()
    requires Reach(a.View(), b.View(), k, y0, bound) && bound <= cost
    modifies cc
    ensures y0 <= y && Reach(a.View(), b.View(), k, y, bound) && !Match(a.View(), b.View(), y - k, y)
    ensures Below(old(cc[..]), cc[..]) && Passed(cc[..], k, m, cost, y0, y + 1)
    ensures Sound(a.View(), b.View(), old(cc[..])) ==> Sound(a.View(), b.View(), cc[..])
    ensures y == SlideEnd(a.View(), b.View(), y0 - k, y0) && cc[..] == Charges(a.View(), b.View(), old(cc[..]), k, cost, y0)
  {
    hide Passed, Sound, Dist, Grid, ChargeSeq, SlideEnd, Charges;
    ghost var va, vb, cc0 := a.View(), b.View(), cc[..];
    y := y0;
    var x := y - k;
    PassedNothing(cc0, k, m, cost, y0);
    while true
      invariant y0 <= y && x == y - k && Reach(va, vb, k, y, bound)
      invariant Below(cc0, cc[..]) && Passed(cc[..], k, m, cost, y0, y)
      invariant Sound(va, vb, cc0) ==> Sound(va, vb, cc[..])
      invariant SlideEnd(va, vb, y0 - k, y0) == SlideEnd(va, vb, x, y)
      invariant Charges(va, vb, cc0, k, cost, y0) == Charges(va, vb, cc[..], k, cost, y)
      decreases Max(y0, n) - y
    {
      SlideStep(va, vb, cc[..], k, cost, y);
      ChargeKeeps(va, vb, cc0, cc[..], k, cost, y0, y);
      Charge(cc, y, m - x, cost);
      GridArrive(va, vb, x, y);
      if x < m && y < n && a.At(x) == b.At(y) {
        x, y := x + 1, y + 1;
      } else {
        break;
      }
    }
  }

  /**
   Extend diagonal k as far as matches allow, charging the columns passed on the way.
   The bound is what the point may truly cost; the code charges k + 2p, which is the
   bound itself up to the last diagonal and more than it beyond.
   */
  method Run(fp: WorkVec, k: int, a: Subarray, m: int, b: Subarray, n: int, cc: array<int>, p: int, ghost bound: int)
    returns (y: int)
    requires a.Valid() && b.Valid() && m == a.Size() && n == b.Size()
    requires fp.Valid() && fp.lo < k < fp.hi && cc != fp.vec
    requires Furthest(a.View(), b.View(), k - 1, fp.At(k - 1), bound - 1)
    requires Furthest(a.View(), b.View(), k + 1, fp.At(k + 1), bound - 1)
    requires k <= bound && -k <= bound && bound <= k + 2 * p
    modifies fp.vec, cc
    ensures Furthest(a.View(), b.View(), k, y, bound)
    ensures fp.vec[..] == old(fp.vec[..])[k - fp.lo := y]
    ensures Below(old(cc[..]), cc[..])
    ensures Sound(a.View(), b.View(), old(cc[..])) ==> Sound(a.View(), b.View(), cc[..])
    ensures bound == k + 2 * p ==> Recorded(a.View(), b.View(), cc[..], k, p)
    ensures Scan(fp.vec[..], cc[..]) == ScanRun(Scan(old(fp.vec[..]), old(cc[..])), a.View(), b.View(), fp.lo, k, p)
  {
    hide Passed, Sound, Dist, Grid, Furthest, Recorded, Below, SlideEnd, Charges;
    ghost var left, right := fp.At(k - 1), fp.At(k + 1);
    RunStart(a.View(), b.View(), k, left, right, bound);
    var cost := k + 2 * p;
    y := Max(fp.At(k - 1) + 1, fp.At(k + 1));
    assert y >= 0 && y - k >= 0;
    y := Slide(k, a, m, b, n, cc, cost, y, bound);
    RunDone(a.View(), b.View(), cc[..], k, p, bound, left, right, y);
    fp.vec[k - fp.lo] := y;
  }

  /** What diagonal k may cost in round p: beyond delta the way back is paid in advance. */
  function Bound(delta: int, k: int, p: int): int {
    if k <= delta then k + 2 * p else 2 * delta - k + 2 * p
  }

  /** Diagonals below upTo and above downTo are at round p, the others one round behind. */
  ghost predicate Front(a: seq<int>, b: seq<int>, fp: seq<int>, lo: int, p: int, upTo: int, downTo: int) {
    forall i :: 0 <= i < |fp| ==>
      Furthest(a, b, lo + i, fp[i], Bound(|b| - |a|, lo + i, if lo + i < upTo || lo + i > downTo then p else p - 1))
  }

  /** All corners of rounds before p, and those of round p below diagonal upTo, are charged. */
  ghost predicate Charged(a: seq<int>, b: seq<int>, cc: seq<int>, p: int, upTo: int) {
    forall k, q :: -q <= k <= |b| - |a| && (0 <= q < p || (q == p && k < upTo)) ==> Recorded(a, b, cc, k, q)
  }

  lemma ChargedBelow(a: seq<int>, b: seq<int>, cc: seq<int>, cc': seq<int>, p: int, upTo: int)
    requires Below(cc, cc') && Charged(a, b, cc, p, upTo)
    ensures Charged(a, b, cc', p, upTo)
  {
    forall k, q | -q <= k <= |b| - |a| && (0 <= q < p || (q == p && k < upTo))
      ensures Recorded(a, b, cc', k, q)
    {
      RecordedBelow(a, b, cc, cc', k, q);
    }
  }

  lemma ChargedNext(a: seq<int>, b: seq<int>, cc: seq<int>, cc': seq<int>, p: int, k: int)
    requires Below(cc, cc') && Charged(a, b, cc, p, k) && Recorded(a, b, cc', k, p)
    ensures Charged(a, b, cc', p, k + 1)
  {
    ChargedBelow(a, b, cc, cc', p, k);
  }

  /** Before any run, the work vector is right for the round before the first. */
  lemma FrontInitially(a: seq<int>, b: seq<int>, fp: seq<int>, lo: int)
    requires |a| <= |b| && forall i :: 0 <= i < |fp| ==> fp[i] == -1
    ensures Front(a, b, fp, lo, -1, lo + |fp|, lo)
  {
    forall i | 0 <= i < |fp|
      ensures Furthest(a, b, lo + i, fp[i], Bound(|b| - |a|, lo + i, -1))
    {
      NothingReached(a, b, lo + i, Bound(|b| - |a|, lo + i, -1));
    }
  }

  /** Diagonals that round p does not open hold nothing within its bound. */
  lemma FrontNextRound(a: seq<int>, b: seq<int>, fp: seq<int>, lo: int, p: int)
    requires |a| <= |b| && 0 <= p && Front(a, b, fp, lo, p - 1, lo + |fp|, lo)
    ensures Front(a, b, fp, lo, p, -p, |b| - |a| + p)
  {
    var delta := |b| - |a|;
    forall i | 0 <= i < |fp|
      ensures Furthest(a, b, lo + i, fp[i], Bound(delta, lo + i, if lo + i < -p || lo + i > delta + p then p else p - 1))
    {
      var j := lo + i;
      assert Furthest(a, b, j, fp[i], Bound(delta, j, p - 1));
      if j < -p || j > delta + p {
        NothingReached(a, b, j, Bound(delta, j, p - 1));
        NothingReached(a, b, j, Bound(delta, j, p));
      }
    }
  }

  /** One run brings its own diagonal to round p and leaves the others where they were. */
  lemma FrontRun(a: seq<int>, b: seq<int>, fp: seq<int>, lo: int, p: int, upTo: int, downTo: int, k: int, y: int)
    requires Front(a, b, fp, lo, p, upTo, downTo) && 0 <= k - lo < |fp|
    requires Furthest(a, b, k, y, Bound(|b| - |a|, k, p))
    requires upTo <= k <= downTo
    ensures k == upTo ==> Front(a, b, fp[k - lo := y], lo, p, upTo + 1, downTo)
    ensures k == downTo ==> Front(a, b, fp[k - lo := y], lo, p, upTo, downTo - 1)
  {
  }

  /** The two neighbours a run reads are one edit cheaper than its own bound. */
  lemma FrontNeighbours(a: seq<int>, b: seq<int>, fp: seq<int>, lo: int, p: int, upTo: int, downTo: int, k: int)
    requires |a| <= |b| && 0 <= p && Front(a, b, fp, lo, p, upTo, downTo) && 0 < k - lo < |fp| - 1
    requires var delta := |b| - |a|;
             || (k == upTo < delta <= downTo)
             || (k == downTo > delta && upTo == delta)
             || (k == upTo == downTo == delta)
    requires -p <= k <= |b| - |a| + p
    ensures Furthest(a, b, k - 1, fp[k - 1 - lo], Bound(|b| - |a|, k, p) - 1)
    ensures Furthest(a, b, k + 1, fp[k + 1 - lo], Bound(|b| - |a|, k, p) - 1)
    ensures k <= Bound(|b| - |a|, k, p) && -k <= Bound(|b| - |a|, k, p) <= k + 2 * p
    ensures k <= |b| - |a| ==> Bound(|b| - |a|, k, p) == k + 2 * p
  {
  }

  /** Past the end of b on the last diagonal means all of a has become all of b. */
  lemma FinalDiagonal(a: seq<int>, b: seq<int>, y: int, p: int)
    requires |a| <= |b| && Furthest(a, b, |b| - |a|, y, |b| - |a| + 2 * p)
    ensures |b| <= y <==> Dist(a, b) <= |b| - |a| + 2 * p
  {
    hide Dist;
    var delta := |b| - |a|;
    GridWhole(a, b);
    if |b| <= y {
      GridDiagonal(a, b, |a|, |b|, y - |b|);
      assert |a| + (y - |b|) == y - delta && |b| + (y - |b|) == y;
      assert Reach(a, b, delta, y, delta + 2 * p);
    }
    if Dist(a, b) <= delta + 2 * p {
      assert Reach(a, b, delta, |b|, delta + 2 * p);
    }
  }

  /**
   The search proper.  Without a full scan it stops as soon as b is exhausted on the
   last diagonal, and returns the least number of edits; with a full scan it goes on
   to pLim, so that the costs of every settled column come out exact.
   */
  method Compare(costs: array<int>, a: Subarray, m: int, b: Subarray, n: int, pLim: int, fullScan: bool)
    returns (distance: int)
    requires a.Valid() && b.Valid() && m == a.Size() && n == b.Size()
    requires m <= n && 0 <= pLim
    modifies costs
    ensures !fullScan ==> distance == Min(Dist(a.View(), b.View()), n - m + 2 * (pLim + 1))
    ensures Sound(a.View(), b.View(), old(costs[..])) ==> Sound(a.View(), b.View(), costs[..])
    ensures fullScan && costs.Length == n + 1 && Sound(a.View(), b.View(), old(costs[..])) ==>
              forall y :: 0 <= y <= n && Settled(a.View(), b.View(), pLim, y) ==> costs[y] == Dist(a.View(), b.View()[..y])
    ensures fullScan ==> costs[..] == ScanCosts(a.View(), b.View(), pLim, old(costs[..]))
  {
    hide Front, Furthest, Charged, Sound, Recorded, Settled, Scanned, ScanAll, ScanRound;
    ghost var va, vb := a.View(), b.View();
    var lo, hi := -(m + 1), 1 + n;
    if fullScan {
      lo, hi := -(pLim + 1), pLim + 1 + (n - m);
    }
    var fp := new WorkVec(lo, hi);
    ghost var costs0 := costs[..];

    var p := 0;
    var delta := n - m;
    ghost var s0 := Scan(fp.vec[..], costs[..]);
    assert fullScan ==> s0.fp == seq(hi - lo + 1, _ => -1);
    FrontInitially(va, vb, fp.vec[..], lo);
    ChargedInitially(va, vb, costs0);
    DistBounds(va, vb);
    ghost var c := Common(va, vb);

    while p <= pLim
      invariant 0 <= p <= pLim + 1
      invariant fp.lo == lo && fp.hi == hi && fp.Valid() && fresh(fp.vec)
      invariant Front(va, vb, fp.vec[..], lo, p - 1, hi + 1, lo)
      invariant Below(costs0, costs[..]) && (Sound(va, vb, costs0) ==> Sound(va, vb, costs[..]))
      invariant Charged(va, vb, costs[..], p, -p)
      invariant !fullScan ==> delta + 2 * p <= Dist(va, vb)
      invariant fullScan ==> ScanAll(Scan(fp.vec[..], costs[..]), va, vb, lo, p, pLim) == ScanAll(s0, va, vb, lo, 0, pLim)
    {
      AllStep(Scan(fp.vec[..], costs[..]), va, vb, lo, p, pLim);
      FrontNextRound(va, vb, fp.vec[..], lo, p);
      var fpval := Round(fp, a, m, b, n, costs, p);
      FinalDiagonal(va, vb, fpval, p);
      if !fullScan && n <= fpval {
        break;
      }
      p := p + 1;
    }
    distance := delta + 2 * p;
    AllStep(Scan(fp.vec[..], costs[..]), va, vb, lo, p, pLim);
    if fullScan && costs.Length == n + 1 && Sound(va, vb, costs0) {
      forall y | 0 <= y <= n && Settled(va, vb, pLim, y)
        ensures costs[y] == Dist(va, vb[..y])
      {
        ChargedScanned(va, vb, costs[..], pLim);
        SettledExact(va, vb, costs[..], pLim, y);
      }
    }
  }

  lemma AllStep(s: Scan, a: seq<int>, b: seq<int>, lo: int, p: int, pLim: int)
    ensures ScanAll(s, a, b, lo, p, pLim) == if p > pLim then s else ScanAll(ScanRound(s, a, b, lo, p), a, b, lo, p + 1, pLim)
  {
  }

  /** One round: the sweep from below, the sweep from above, then the last diagonal. */
  method Round(fp: WorkVec, a: Subarray, m: int, b: Subarray, n: int, costs: array<int>, p: int)
    returns (fpval: int)
    requires a.Valid() && b.Valid() && m == a.Size() && n == b.Size() && m <= n && 0 <= p
    requires fp.Valid() && costs != fp.vec && fp.lo < -p && n - m + p < fp.hi
    requires Front(a.View(), b.View(), fp.vec[..], fp.lo, p, -p, n - m + p)
    requires Charged(a.View(), b.View(), costs[..], p, -p)
    modifies fp.vec, costs
    ensures Front(a.View(), b.View(), fp.vec[..], fp.lo, p, fp.hi + 1, fp.lo)
    ensures Furthest(a.View(), b.View(), n - m, fpval, n - m + 2 * p)
    ensures Below(old(costs[..]), costs[..])
    ensures Sound(a.View(), b.View(), old(costs[..])) ==> Sound(a.View(), b.View(), costs[..])
    ensures Charged(a.View(), b.View(), costs[..], p + 1, -(p + 1))
    ensures Scan(fp.vec[..], costs[..]) == ScanRound(Scan(old(fp.vec[..]), old(costs[..])), a.View(), b.View(), fp.lo, p)
  {
    hide Front, Furthest, Charged, Sound, Recorded, Dist, ScanRun, ScanLower, ScanUpper;
    ghost var va, vb := a.View(), b.View();
    var delta := n - m;
    LowerSweep(fp, a, m, b, n, costs, p);
    UpperSweep(fp, a, m, b, n, costs, p);
    FrontNeighbours(va, vb, fp.vec[..], fp.lo, p, delta, delta, delta);
    ghost var before, beforeFp := costs[..], fp.vec[..];
    fpval := Run(fp, delta, a, m, b, n, costs, p, Bound(delta, delta, p));
    FrontRun(va, vb, beforeFp, fp.lo, p, delta, delta, delta, fpval);
    ChargedNext(va, vb, before, costs[..], p, delta);
    FrontAll(va, vb, fp.vec[..], fp.lo, p);
    ChargedRound(va, vb, costs[..], p);
  }

  lemma LowerStep(s: Scan, a: seq<int>, b: seq<int>, lo: int, k: int, p: int)
    ensures ScanLower(s, a, b, lo, k, p) ==
      if k >= |b| - |a| then s else ScanLower(ScanRun(s, a, b, lo, k, p), a, b, lo, k + 1, p)
  {
  }

  lemma UpperStep(s: Scan, a: seq<int>, b: seq<int>, lo: int, k: int, p: int)
    ensures ScanUpper(s, a, b, lo, k, p) ==
      if k <= |b| - |a| then s else ScanUpper(ScanRun(s, a, b, lo, k, p), a, b, lo, k - 1, p)
  {
  }

  lemma FrontAll(a: seq<int>, b: seq<int>, fp: seq<int>, lo: int, p: int)
    requires Front(a, b, fp, lo, p, |b| - |a| + 1, |b| - |a|)
    ensures Front(a, b, fp, lo, p, lo + |fp|, lo)
  {
  }

  lemma ChargedRound(a: seq<int>, b: seq<int>, cc: seq<int>, p: int)
    requires Charged(a, b, cc, p, |b| - |a| + 1)
    ensures Charged(a, b, cc, p + 1, -(p + 1))
  {
  }

  lemma ChargedScanned(a: seq<int>, b: seq<int>, cc: seq<int>, pLim: int)
    requires Charged(a, b, cc, pLim + 1, -(pLim + 1))
    ensures Scanned(a, b, cc, pLim)
  {
  }

  lemma ChargedInitially(a: seq<int>, b: seq<int>, cc: seq<int>)
    ensures Charged(a, b, cc, 0, 0) && Below(cc, cc)
  {
  }

  method LowerSweep(fp: WorkVec, a: Subarray, m: int, b: Subarray, n: int, costs: array<int>, p: int)
    requires a.Valid() && b.Valid() && m == a.Size() && n == b.Size() && m <= n && 0 <= p
    requires fp.Valid() && costs != fp.vec && fp.lo < -p && n - m + p < fp.hi
    requires Front(a.View(), b.View(), fp.vec[..], fp.lo, p, -p, n - m + p)
    requires Charged(a.View(), b.View(), costs[..], p, -p)
    modifies fp.vec, costs
    ensures Front(a.View(), b.View(), fp.vec[..], fp.lo, p, n - m, n - m + p)
    ensures Below(old(costs[..]), costs[..])
    ensures Sound(a.View(), b.View(), old(costs[..])) ==> Sound(a.View(), b.View(), costs[..])
    ensures Charged(a.View(), b.View(), costs[..], p, n - m)
    ensures Scan(fp.vec[..], costs[..]) == ScanLower(Scan(old(fp.vec[..]), old(costs[..])), a.View(), b.View(), fp.lo, -p, p)
  {
    hide Front, Furthest, Charged, Sound, Recorded, Dist, Bound, ScanRun, ScanLower;
    ghost var va, vb, costs0 := a.View(), b.View(), costs[..];
    ghost var s0 := Scan(fp.vec[..], costs[..]);
    var delta := n - m;
    var k := -p;
    while k < delta
      invariant -p <= k <= delta
      invariant ScanLower(Scan(fp.vec[..], costs[..]), va, vb, fp.lo, k, p) == ScanLower(s0, va, vb, fp.lo, -p, p)
      invariant Front(va, vb, fp.vec[..], fp.lo, p, k, delta + p)
      invariant Below(costs0, costs[..]) && (Sound(va, vb, costs0) ==> Sound(va, vb, costs[..]))
      invariant Charged(va, vb, costs[..], p, k)
    {
      FrontNeighbours(va, vb, fp.vec[..], fp.lo, p, k, delta + p, k);
      ghost var before, beforeFp := costs[..], fp.vec[..];
      LowerStep(Scan(fp.vec[..], costs[..]), va, vb, fp.lo, k, p);
      var y := Run(fp, k, a, m, b, n, costs, p, Bound(delta, k, p));
      FrontRun(va, vb, beforeFp, fp.lo, p, k, delta + p, k, y);
      ChargedNext(va, vb, before, costs[..], p, k);
      k := k + 1;
    }
    LowerStep(Scan(fp.vec[..], costs[..]), va, vb, fp.lo, k, p);
  }

  method UpperSweep(fp: WorkVec, a: Subarray, m: int, b: Subarray, n: int, costs: array<int>, p: int)
    requires a.Valid() && b.Valid() && m == a.Size() && n == b.Size() && m <= n && 0 <= p
    requires fp.Valid() && costs != fp.vec && fp.lo < -p && n - m + p < fp.hi
    requires Front(a.View(), b.View(), fp.vec[..], fp.lo, p, n - m, n - m + p)
    requires Charged(a.View(), b.View(), costs[..], p, n - m)
    modifies fp.vec, costs
    ensures Front(a.View(), b.View(), fp.vec[..], fp.lo, p, n - m, n - m)
    ensures Below(old(costs[..]), costs[..])
    ensures Sound(a.View(), b.View(), old(costs[..])) ==> Sound(a.View(), b.View(), costs[..])
    ensures Charged(a.View(), b.View(), costs[..], p, n - m)
    ensures Scan(fp.vec[..], costs[..]) == ScanUpper(Scan(old(fp.vec[..]), old(costs[..])), a.View(), b.View(), fp.lo, n - m + p, p)
  {
    hide Front, Furthest, Charged, Sound, Recorded, Dist, Bound, ScanRun, ScanUpper;
    ghost var va, vb, costs0 := a.View(), b.View(), costs[..];
    ghost var s0 := Scan(fp.vec[..], costs[..]);
    var delta := n - m;
    var k := delta + p;
    while k > delta
      invariant delta <= k <= delta + p
      invariant ScanUpper(Scan(fp.vec[..], costs[..]), va, vb, fp.lo, k, p) == ScanUpper(s0, va, vb, fp.lo, delta + p, p)
      invariant Front(va, vb, fp.vec[..], fp.lo, p, delta, k)
      invariant Below(costs0, costs[..]) && (Sound(va, vb, costs0) ==> Sound(va, vb, costs[..]))
      invariant Charged(va, vb, costs[..], p, delta)
    {
      FrontNeighbours(va, vb, fp.vec[..], fp.lo, p, delta, k, k);
      ghost var before, beforeFp := costs[..], fp.vec[..];
      UpperStep(Scan(fp.vec[..], costs[..]), va, vb, fp.lo, k, p);
      var y := Run(fp, k, a, m, b, n, costs, p, Bound(delta, k, p));
      FrontRun(va, vb, beforeFp, fp.lo, p, delta, k, k, y);
      ChargedBelow(va, vb, before, costs[..], p, delta);
      k := k - 1;
    }
    UpperStep(Scan(fp.vec[..], costs[..]), va, vb, fp.lo, k, p);
  }
}
