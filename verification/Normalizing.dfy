// normalize_extents of diff_patch.cc: the loop that moves changed extents up, and exactly when it keeps the lines; the
// loop that gathers the pieces of adjoining changed extents, which always does; and both together.
module Normalizing {
  import opened Wrappers
  import opened EditDistance
  import opened Lcs
  import opened Extents

  // ---- one exchange ----

  /** One exchange of the first normalizing loop: lengths and types change places, positions do not. */
  function Exchanged(x: seq<Extent>, j: nat): seq<Extent>
    requires 0 < j < |x|
  {
    x[j - 1 := x[j - 1].(len := x[j].len, ty := x[j].ty)][j := x[j].(len := x[j - 1].len, ty := x[j - 1].ty)]
  }

  /** When the first loop exchanges two neighbours. */
  ghost predicate ExchangeGuard(x: seq<Extent>, j: nat, a: seq<int>, b: seq<int>)
    requires |x| == |a| && AllInRange(x, b) && 0 < j < |x|
  {
    x[j - 1].ty.Preserved? && x[j].ty.Changed? && x[j].len > 0 && a[j] == b[x[j].pos + x[j].len - 1]
  }

  lemma ContentPair(x: seq<Extent>, j: nat, b: seq<int>)
    requires AllInRange(x, b) && 0 < j < |x|
    ensures AllInRange(x[..j - 1], b) && AllInRange(x[j + 1..], b)
    ensures Content(x, b) == Content(x[..j - 1], b) + (Lines(x[j - 1], b) + Lines(x[j], b)) + Content(x[j + 1..], b)
  {
    var l, m, r := x[..j - 1], [x[j - 1], x[j]], x[j + 1..];
    assert x == l + m + r;
    ContentSplit(l + m, r, b);
    ContentSplit(l, m, b);
    ContentPush([], x[j - 1], b);
    ContentPush([x[j - 1]], x[j], b);
    assert [x[j - 1]] + [x[j]] == m && [] + [x[j - 1]] == [x[j - 1]];
    assert Content([], b) == [];
  }

  /** Replacing two neighbours keeps the content exactly when their lines together stay the same. */
  lemma ContentReplace(x: seq<Extent>, y: seq<Extent>, j: nat, b: seq<int>)
    requires AllInRange(x, b) && AllInRange(y, b) && |x| == |y| && 0 < j < |x|
    requires forall i :: 0 <= i < |x| && i != j && i != j - 1 ==> y[i] == x[i]
    ensures Content(y, b) == Content(x, b) <==> Lines(y[j - 1], b) + Lines(y[j], b) == Lines(x[j - 1], b) + Lines(x[j], b)
  {
    ContentPair(x, j, b);
    ContentPair(y, j, b);
    assert y[..j - 1] == x[..j - 1] && y[j + 1..] == x[j + 1..];
    var l, r := Content(x[..j - 1], b), Content(x[j + 1..], b);
    var m, n := Lines(x[j - 1], b) + Lines(x[j], b), Lines(y[j - 1], b) + Lines(y[j], b);
    if l + n + r == l + m + r {
      assert |n| == |m|;
      assert n == (l + n + r)[|l|..|l| + |n|] && m == (l + m + r)[|l|..|l| + |m|];
    }
  }

  /** An exchange of adjoining extents keeps the lines exactly when the changed extent began with its own ancestor line. */
  lemma ExchangeExact(x: seq<Extent>, j: nat, a: seq<int>, b: seq<int>)
    requires AllTyped(x, a, b) && AllInRange(x, b) && 0 < j < |x| && ExchangeGuard(x, j, a, b)
    requires x[j].pos == x[j - 1].pos + 1
    ensures AllInRange(Exchanged(x, j), b)
    ensures Content(Exchanged(x, j), b) == Content(x, b) <==> b[x[j].pos] == a[j]
  {
    hide AllTyped, Content;
    var y := Exchanged(x, j);
    TypedPair(x, j, a, b);
    ContentReplace(x, y, j, b);
    SlideOne(b, x[j - 1].pos, x[j].len);
  }

  lemma TypedPair(x: seq<Extent>, j: nat, a: seq<int>, b: seq<int>)
    requires AllTyped(x, a, b) && 0 < j < |x|
    ensures |x| == |a| && Typed(x[j - 1], a[j - 1], b) && Typed(x[j], a[j], b)
  {
  }

  /** n lines from p on and then the second of them again, or one line and then n lines. */
  lemma SlideOne(b: seq<int>, p: nat, n: nat)
    requires 0 < n && p + 1 + n <= |b|
    ensures b[p..p + n] + b[p + 1..p + 2] == b[p..p + 1] + b[p + 1..p + 1 + n] <==> b[p + 1] == b[p + n]
  {
    assert b[p..p + 1] + b[p + 1..p + 1 + n] == b[p..p + n] + [b[p + n]];
    assert (b[p..p + n] + b[p + 1..p + 2])[n] == b[p + 1] && (b[p..p + n] + [b[p + n]])[n] == b[p + n];
  }

  // ---- the first loop ----

  /**
   The changed extent at j goes up as long as the line before it is preserved and its own last line is its ancestor
   line.  None is the failed check on that preserved line, or an index out of range.
   */
  function Bubble(x: seq<Extent>, a: seq<int>, b: seq<int>, j: nat): (r: Option<seq<Extent>>)
    requires |x| == |a| && j < |x|
    ensures r.Some? ==> |r.value| == |x|
    decreases j
  {
    if j == 0 || x[j - 1].ty != Preserved || x[j].ty != Changed then Some(x)
    else if x[j].pos + x[j].len == 0 || x[j].pos + x[j].len > |b| then None
    else if a[j] != b[x[j].pos + x[j].len - 1] then Some(x)
    else if x[j - 1].pos >= |b| || a[j - 1] != b[x[j - 1].pos] then None
    else Bubble(Exchanged(x, j), a, b, j - 1)
  }

  /** The first loop, up to an index. */
  function Gathered(x: seq<Extent>, a: seq<int>, b: seq<int>, n: nat): (r: Option<seq<Extent>>)
    requires |x| == |a| && n <= |x|
    ensures r.Some? ==> |r.value| == |x|
  {
    if n == 0 then Some(x) else
      var y :- Gathered(x, a, b, n - 1);
      Bubble(y, a, b, n - 1)
  }

  /** The first loop of normalize_extents. */
  method GatherUp(extents: seq<Extent>, a: seq<int>, b: seq<int>) returns (x: Option<seq<Extent>>)
    requires |extents| == |a|
    ensures x == Gathered(extents, a, b, |extents|)
  {
    var y := extents;
    var i := 0;
    while i < |y|
      invariant 0 <= i <= |y| == |extents| && Gathered(extents, a, b, i) == Some(y)
    {
      var j := i;
      ghost var before := y;
      while j > 0 && y[j - 1].ty == Preserved && y[j].ty == Changed
        invariant 0 <= j <= i < |y| == |extents| && Bubble(y, a, b, j) == Bubble(before, a, b, i)
        decreases j
      {
        var end := y[j].pos + y[j].len;
        if end == 0 || end > |b| {
          GatherFails(extents, a, b, i + 1, |extents|);
          return None;
        }
        if a[j] != b[end - 1] {
          break;
        }
        if y[j - 1].pos >= |b| || a[j - 1] != b[y[j - 1].pos] {
          GatherFails(extents, a, b, i + 1, |extents|);
          return None;
        }
        y := Exchanged(y, j);
        j := j - 1;
      }
      i := i + 1;
    }
    x := Some(y);
  }

  lemma {:induction false} GatherFails(x: seq<Extent>, a: seq<int>, b: seq<int>, n: nat, m: nat)
    requires n <= m <= |x| == |a| && Gathered(x, a, b, n) == None
    ensures Gathered(x, a, b, m) == None
    decreases m
  {
    if n < m {
      GatherFails(x, a, b, n, m - 1);
    }
  }

  /** A changed extent could still go up. */
  predicate CanRise(x: seq<Extent>, a: seq<int>, b: seq<int>, j: nat)
    requires 0 < j < |x| == |a|
  {
    && x[j - 1].ty == Preserved && x[j].ty == Changed
    && 0 < x[j].pos + x[j].len <= |b| && a[j] == b[x[j].pos + x[j].len - 1]
  }

  lemma {:induction false} BubbleHighest(x: seq<Extent>, a: seq<int>, b: seq<int>, j: nat, n: nat)
    requires j <= n < |x| == |a| && Bubble(x, a, b, j).Some?
    requires (forall k :: 0 < k < j ==> !CanRise(x, a, b, k)) && forall k :: j < k <= n ==> x[k].ty.Preserved?
    ensures forall k :: 0 < k <= n ==> !CanRise(Bubble(x, a, b, j).value, a, b, k)
    decreases j
  {
    if j > 0 && CanRise(x, a, b, j) {
      var z := Exchanged(x, j);
      forall k | 0 < k < j - 1
        ensures !CanRise(z, a, b, k)
      {
        assert !CanRise(x, a, b, k);
      }
      BubbleHighest(z, a, b, j - 1, n);
    }
  }

  /** After the loop every changed extent is as high up as it can go. */
  lemma {:induction false} GatheredHighest(x: seq<Extent>, a: seq<int>, b: seq<int>, n: nat)
    requires n <= |x| == |a| && Gathered(x, a, b, n).Some?
    ensures forall k :: 0 < k < n ==> !CanRise(Gathered(x, a, b, n).value, a, b, k)
  {
    hide Bubble, CanRise;
    if n > 0 {
      GatheredHighest(x, a, b, n - 1);
      BubbleHighest(Gathered(x, a, b, n - 1).value, a, b, n - 1, n - 1);
    }
  }

  // ---- where the changed extents land, read off the list before the loop ----

  /** Up from j, but not past bar, as long as the lines that a changed extent of this length would hold end alike. */
  function Landing(x: seq<Extent>, a: seq<int>, b: seq<int>, len: nat, j: nat, bar: nat): (f: nat)
    requires bar <= j < |x| == |a|
    ensures bar <= f <= j
    decreases j
  {
    if j > bar && 0 < x[j].pos + len <= |b| && a[j] == b[x[j].pos + len - 1] then Landing(x, a, b, len, j - 1, bar) else j
  }

  /** The lowest index a changed extent at n may still go up to: right behind a deleted line or where another has landed. */
  function Bar(x: seq<Extent>, a: seq<int>, b: seq<int>, n: nat): (r: nat)
    requires n <= |x| == |a|
    ensures r <= n
    decreases n, 0
  {
    if n == 0 then 0 else
      match x[n - 1].ty
      case Preserved => Bar(x, a, b, n - 1)
      case Deleted => n
      case Changed => LandsAt(x, a, b, n - 1) + 1
  }

  function LandsAt(x: seq<Extent>, a: seq<int>, b: seq<int>, c: nat): (f: nat)
    requires c < |x| == |a|
    ensures Bar(x, a, b, c) <= f <= c
    decreases c, 1
  {
    Landing(x, a, b, x[c].len, c, Bar(x, a, b, c))
  }

  predicate Moves(x: seq<Extent>, a: seq<int>, b: seq<int>, c: nat)
    requires c < |x| == |a|
  {
    x[c].ty == Changed && LandsAt(x, a, b, c) < c
  }

  /** The extent at c goes up past k. */
  predicate Passes(x: seq<Extent>, a: seq<int>, b: seq<int>, c: nat, k: nat)
    requires c < |x| == |a|
  {
    Moves(x, a, b, c) && LandsAt(x, a, b, c) < k <= c
  }

  /** By how many lines the first n extents push index k down in passing it. */
  ghost function Slip(x: seq<Extent>, a: seq<int>, b: seq<int>, n: nat, k: nat): int
    requires n <= |x| == |a|
  {
    if n == 0 then 0
    else Slip(x, a, b, n - 1, k) + if Passes(x, a, b, n - 1, k) then x[n - 1].len - 1 else 0
  }

  /** What index k holds in the end: one line, none, or as many as the extent that landed there. */
  ghost function FinalLen(x: seq<Extent>, a: seq<int>, b: seq<int>, n: nat, k: nat): nat
    requires n <= |x| == |a| && k < |x|
  {
    if n == 0 then x[k].len
    else if Moves(x, a, b, n - 1) && k == LandsAt(x, a, b, n - 1) then x[n - 1].len
    else if Moves(x, a, b, n - 1) && k == n - 1 then 1
    else FinalLen(x, a, b, n - 1, k)
  }

  /** Every extent that moves begins with its own ancestor line. */
  ghost predicate Own(x: seq<Extent>, a: seq<int>, b: seq<int>, n: nat)
    requires n <= |x| == |a|
  {
    forall c :: 0 <= c < n && Moves(x, a, b, c) ==> x[c].pos < |b| && b[x[c].pos] == a[c]
  }

  function Stretch(b: seq<int>, i: int, n: nat): seq<int> {
    if 0 <= i && i + n <= |b| then b[i..i + n] else []
  }

  /** The lines found at the position of k are the lines found as much further on as k was pushed down. */
  ghost predicate Agrees(x: seq<Extent>, a: seq<int>, b: seq<int>, k: nat)
    requires k < |x| == |a|
  {
    var len := FinalLen(x, a, b, |x|, k);
    x[k].len > 0 ==> Stretch(b, x[k].pos, len) == Stretch(b, x[k].pos + Slip(x, a, b, |x|, k), len)
  }

  ghost predicate Agree(x: seq<Extent>, a: seq<int>, b: seq<int>)
    requires |x| == |a|
  {
    forall k :: 0 <= k < |x| ==> Agrees(x, a, b, k)
  }

  // ---- the loop does what was read off ----

  /** The extent at c has gone up to f; positions stay where they are. */
  function Moved(y: seq<Extent>, f: nat, c: nat): seq<Extent>
    requires f < c < |y|
  {
    y[f := y[f].(len := y[c].len, ty := Changed)][c := y[c].(len := 1, ty := Preserved)]
  }

  ghost function Settled(x: seq<Extent>, a: seq<int>, b: seq<int>, n: nat): (y: seq<Extent>)
    requires n <= |x| == |a|
    ensures |y| == |x|
  {
    if n == 0 then x else
      var y := Settled(x, a, b, n - 1);
      if Moves(x, a, b, n - 1) then Moved(y, LandsAt(x, a, b, n - 1), n - 1) else y
  }

  /** What can be said of the list at any time, whatever its lines are. */
  ghost predicate Shape(x: seq<Extent>, n: nat, bar: nat, y: seq<Extent>) {
    && bar <= n <= |x| == |y|
    && (forall k :: 0 <= k < |x| ==> y[k].pos == x[k].pos && (y[k].len > 0 <==> x[k].len > 0))
    && (forall k :: n <= k < |x| ==> y[k] == x[k])
    && (forall k :: 0 <= k < |x| && y[k].ty.Preserved? ==> y[k].len == 1)
    && (forall k :: bar <= k < n ==> y[k].ty.Preserved?)
    && (bar > 0 ==> !y[bar - 1].ty.Preserved?)
  }

  lemma ShapeStays(x: seq<Extent>, n: nat, bar: nat, y: seq<Extent>)
    requires Shape(x, n, bar, y) && n < |x|
    ensures Shape(x, n + 1, if x[n].ty.Preserved? then bar else n + 1, y)
  {
  }

  lemma ShapeMoved(x: seq<Extent>, n: nat, bar: nat, y: seq<Extent>, f: nat)
    requires Shape(x, n, bar, y) && bar <= f < n < |x| && x[n].len > 0
    ensures Shape(x, n + 1, f + 1, Moved(y, f, n))
  {
  }

  lemma {:induction false} SettledShape(x: seq<Extent>, a: seq<int>, b: seq<int>, n: nat)
    requires n <= |x| && AllTyped(x, a, b)
    ensures Shape(x, n, Bar(x, a, b, n), Settled(x, a, b, n))
    decreases n
  {
    hide LandsAt, Shape, AllTyped;
    TypedInRange(x, a, b);
    if n == 0 {
      ShapeAtFirst(x, a, b);
    } else {
      SettledShape(x, a, b, n - 1);
      TypedAt(x, a, b, n - 1);
      ShapeStays(x, n - 1, Bar(x, a, b, n - 1), Settled(x, a, b, n - 1));
      if Moves(x, a, b, n - 1) {
        ShapeMoved(x, n - 1, Bar(x, a, b, n - 1), Settled(x, a, b, n - 1), LandsAt(x, a, b, n - 1));
      }
    }
  }

  lemma TypedAt(x: seq<Extent>, a: seq<int>, b: seq<int>, k: nat)
    requires AllTyped(x, a, b) && k < |x|
    ensures |x| == |a| && Typed(x[k], a[k], b)
  {
  }

  lemma ShapeAtFirst(x: seq<Extent>, a: seq<int>, b: seq<int>)
    requires AllTyped(x, a, b)
    ensures Shape(x, 0, 0, x)
  {
    assert forall k :: 0 <= k < |x| ==> Typed(x[k], a[k], b);
  }

  lemma {:induction false} SettledLen(x: seq<Extent>, a: seq<int>, b: seq<int>, n: nat, k: nat)
    requires n <= |x| && k < |x| && AllTyped(x, a, b)
    ensures Settled(x, a, b, n)[k].len == FinalLen(x, a, b, n, k)
    decreases n
  {
    hide LandsAt, AllTyped;
    if n > 0 {
      SettledLen(x, a, b, n - 1, k);
      SettledAhead(x, a, b, n - 1);
    }
  }

  /** What lies ahead is as it was. */
  lemma SettledAhead(x: seq<Extent>, a: seq<int>, b: seq<int>, n: nat)
    requires n < |x| && AllTyped(x, a, b)
    ensures Settled(x, a, b, n)[n] == x[n] && |x| == |a|
  {
    hide Settled, AllTyped, LandsAt;
    TypedInRange(x, a, b);
    SettledShape(x, a, b, n);
  }

  /** The preserved extents are what they say. */
  ghost predicate PreservedTyped(y: seq<Extent>, a: seq<int>, b: seq<int>) {
    |y| == |a| && forall k :: 0 <= k < |y| && y[k].ty.Preserved? ==> y[k].pos < |b| && b[y[k].pos] == a[k]
  }

  lemma {:induction false} SettledTyped(x: seq<Extent>, a: seq<int>, b: seq<int>, n: nat)
    requires n <= |x| && AllTyped(x, a, b) && Own(x, a, b, n)
    ensures PreservedTyped(Settled(x, a, b, n), a, b)
    decreases n
  {
    hide LandsAt, PreservedTyped, Shape;
    if n == 0 {
      TypedPreserved(x, a, b);
    } else {
      SettledTyped(x, a, b, n - 1);
      SettledShape(x, a, b, n - 1);
      if Moves(x, a, b, n - 1) {
        SamePositions(x, n - 1, Bar(x, a, b, n - 1), Settled(x, a, b, n - 1));
        TypedMoved(Settled(x, a, b, n - 1), a, b, LandsAt(x, a, b, n - 1), n - 1);
      }
    }
  }

  lemma TypedPreserved(x: seq<Extent>, a: seq<int>, b: seq<int>)
    requires AllTyped(x, a, b)
    ensures PreservedTyped(x, a, b)
  {
    assert forall k :: 0 <= k < |x| ==> Typed(x[k], a[k], b);
  }

  lemma SamePositions(x: seq<Extent>, n: nat, bar: nat, y: seq<Extent>)
    requires Shape(x, n, bar, y)
    ensures |y| == |x| && forall k :: 0 <= k < |x| ==> y[k].pos == x[k].pos
  {
  }

  lemma TypedMoved(y: seq<Extent>, a: seq<int>, b: seq<int>, f: nat, c: nat)
    requires PreservedTyped(y, a, b) && f < c < |y| && y[c].pos < |b| && b[y[c].pos] == a[c]
    ensures PreservedTyped(Moved(y, f, c), a, b)
  {
  }

  /** A changed extent below preserved ones that are what they say, down from an index. */
  ghost predicate Rising(x: seq<Extent>, a: seq<int>, b: seq<int>, y: seq<Extent>, j: nat, bar: nat) {
    && bar <= j < |x| == |y| == |a| && y[j].ty.Changed? && y[j].len > 0
    && (forall k :: bar <= k <= j ==> y[k].pos == x[k].pos && x[k].pos + y[j].len <= |b|)
    && (forall k :: bar <= k < j ==> y[k].ty.Preserved? && y[k].len == 1 && b[y[k].pos] == a[k])
    && (bar > 0 ==> !y[bar - 1].ty.Preserved?)
  }

  /** It goes through them and lands where it was to land. */
  lemma {:induction false} BubbleLands(x: seq<Extent>, a: seq<int>, b: seq<int>, y: seq<Extent>, j: nat, bar: nat)
    requires Rising(x, a, b, y, j, bar)
    ensures var f := Landing(x, a, b, y[j].len, j, bar);
      Bubble(y, a, b, j) == Some(if f < j then Moved(y, f, j) else y)
    decreases j
  {
    hide Bubble, Landing, Moved, Exchanged, Rising;
    RisingOnce(x, a, b, y, j, bar);
    if j > bar && a[j] == b[x[j].pos + y[j].len - 1] {
      MovedOneUp(y, j);
      BubbleLands(x, a, b, Exchanged(y, j), j - 1, bar);
    }
  }

  lemma RisingOnce(x: seq<Extent>, a: seq<int>, b: seq<int>, y: seq<Extent>, j: nat, bar: nat)
    requires Rising(x, a, b, y, j, bar)
    ensures bar <= j < |x| == |y| == |a| && 0 < x[j].pos + y[j].len <= |b| && y[j].ty.Changed?
    ensures var up := j > bar && a[j] == b[x[j].pos + y[j].len - 1];
      if up then
        && y[j - 1].ty.Preserved? && y[j - 1].len == 1 && Rising(x, a, b, Exchanged(y, j), j - 1, bar)
        && Bubble(y, a, b, j) == Bubble(Exchanged(y, j), a, b, j - 1)
        && Landing(x, a, b, y[j].len, j, bar) == Landing(x, a, b, y[j].len, j - 1, bar)
      else Bubble(y, a, b, j) == Some(y) && Landing(x, a, b, y[j].len, j, bar) == j
  {
  }

  /** An exchange with a preserved extent, and going on from there. */
  lemma MovedOneUp(y: seq<Extent>, j: nat)
    requires 0 < j < |y| && y[j].ty.Changed? && y[j - 1].ty.Preserved? && y[j - 1].len == 1
    ensures var z := Exchanged(y, j);
      && z == Moved(y, j - 1, j) && |z| == |y| && z[j - 1] == Extent(y[j - 1].pos, y[j].len, Changed)
      && forall k :: 0 <= k < j - 1 ==> z[k] == y[k]
    ensures forall f :: 0 <= f < j - 1 ==> Moved(Exchanged(y, j), f, j - 1) == Moved(y, f, j)
  {
    var z := Exchanged(y, j);
    assert z == Moved(y, j - 1, j);
    forall f | 0 <= f < j - 1
      ensures Moved(z, f, j - 1) == Moved(y, f, j)
    {
      assert z[f] == y[f] && z[j - 1].len == y[j].len && z[j - 1].pos == y[j - 1].pos;
      assert z[j] == Extent(y[j].pos, 1, Preserved);
    }
  }

  /** Above a changed extent, as far as it can go, everything is in place, so what it would hold is in range. */
  lemma RangeAbove(x: seq<Extent>, a: seq<int>, b: seq<int>, s: nat, c: nat, k: nat)
    requires AllTyped(x, a, b) && InPlace(x, s) && k <= c < |x| && x[c].ty.Changed? && x[k].len > 0
    ensures x[k].pos + x[c].len <= |b|
  {
    assert Typed(x[c], a[c], b);
    OffMonotone(x, k, c);
  }

  lemma {:induction false} OffMonotone(x: seq<Extent>, i: nat, k: nat)
    requires i <= k <= |x|
    ensures Off(x, i) <= Off(x, k)
    decreases k
  {
    if i < k {
      OffMonotone(x, i, k - 1);
    }
  }

  /** One turn of the loop, when what lies above is as it should be. */
  lemma OneTurn(x: seq<Extent>, a: seq<int>, b: seq<int>, s: nat, c: nat)
    requires c < |x| && AllTyped(x, a, b) && InPlace(x, s) && Own(x, a, b, c)
    ensures Bubble(Settled(x, a, b, c), a, b, c) == Some(Settled(x, a, b, c + 1))
  {
    hide LandsAt, AllTyped, InPlace, Own;
    SettledAhead(x, a, b, c);
    if x[c].ty.Changed? {
      TurnUp(x, a, b, s, c);
    }
  }

  lemma TurnUp(x: seq<Extent>, a: seq<int>, b: seq<int>, s: nat, c: nat)
    requires c < |x| && AllTyped(x, a, b) && InPlace(x, s) && Own(x, a, b, c) && x[c].ty.Changed?
    ensures |x| == |a| && var y, f := Settled(x, a, b, c), LandsAt(x, a, b, c);
      Bubble(y, a, b, c) == Some(if f < c then Moved(y, f, c) else y)
  {
    hide Landing, Settled, Bubble, Moved, InPlace, Own, Bar;
    var y, bar := Settled(x, a, b, c), Bar(x, a, b, c);
    SettledShape(x, a, b, c);
    SettledTyped(x, a, b, c);
    assert Typed(x[c], a[c], b);
    forall k | bar <= k <= c
      ensures x[k].pos + x[c].len <= |b|
    {
      RangeAbove(x, a, b, s, c, k);
    }
    BubbleLands(x, a, b, y, c, bar);
  }

  lemma {:induction false} GatherSettles(x: seq<Extent>, a: seq<int>, b: seq<int>, s: nat, n: nat)
    requires n <= |x| && AllTyped(x, a, b) && InPlace(x, s) && Own(x, a, b, n)
    ensures Gathered(x, a, b, n) == Some(Settled(x, a, b, n))
    decreases n
  {
    hide Bubble;
    if n > 0 {
      GatherSettles(x, a, b, s, n - 1);
      OneTurn(x, a, b, s, n - 1);
    }
  }

  // ---- offsets ----

  lemma {:induction false} OffMoved(y: seq<Extent>, f: nat, c: nat, k: nat)
    requires f < c < |y| && k <= |y| && y[f].len == 1
    ensures Off(Moved(y, f, c), k) == Off(y, k) + if f < k <= c then y[c].len - 1 else 0
    decreases k
  {
    if k > 0 {
      OffMoved(y, f, c, k - 1);
    }
  }

  /** Moving up pushes down what is passed, and nothing else. */
  lemma {:induction false} OffSettled(x: seq<Extent>, a: seq<int>, b: seq<int>, n: nat, k: nat)
    requires n <= |x| && k <= |x| && AllTyped(x, a, b)
    ensures Off(Settled(x, a, b, n), k) == Off(x, k) + Slip(x, a, b, n, k)
    decreases n
  {
    hide LandsAt, Shape, Off;
    if n > 0 {
      OffSettled(x, a, b, n - 1, k);
      SettledShape(x, a, b, n - 1);
      if Moves(x, a, b, n - 1) {
        var y, f := Settled(x, a, b, n - 1), LandsAt(x, a, b, n - 1);
        assert Typed(x[n - 1], a[n - 1], b);
        LandsOnLines(x, n - 1, Bar(x, a, b, n - 1), y, f);
        OffMoved(y, f, n - 1, k);
      }
    }
  }

  lemma LandsOnLines(x: seq<Extent>, n: nat, bar: nat, y: seq<Extent>, f: nat)
    requires Shape(x, n, bar, y) && bar <= f < n < |x|
    ensures x[f].len > 0 && y[f].pos == x[f].pos && y[f].len == 1 && y[n] == x[n]
  {
  }

  /** Where an extent's lines are in the content. */
  lemma {:induction false} ContentAt(y: seq<Extent>, b: seq<int>, k: nat)
    requires AllInRange(y, b) && k < |y|
    ensures Off(y, k) + y[k].len <= |Content(y, b)| == Off(y, |y|)
    ensures Content(y, b)[Off(y, k)..Off(y, k) + y[k].len] == Lines(y[k], b)
    decreases |y|
  {
    hide Off, InRange;
    var m := |y| - 1;
    var f := y[..m];
    assert forall i :: 0 <= i < m ==> f[i] == y[i];
    OffNext(y, m);
    ContentLength(y, b);
    ContentLength(f, b);
    OffSame(f, y, m);
    OffSame(f, y, if k < m then k else m);
    var l, r := Content(f, b), Lines(y[m], b);
    if k < m {
      ContentAt(f, b, k);
      FrontSlice(l, r, Off(y, k), y[k].len);
    } else {
      assert (l + r)[|l|..|l| + |r|] == r;
    }
  }

  lemma FrontSlice(l: seq<int>, r: seq<int>, i: nat, n: nat)
    requires i + n <= |l|
    ensures (l + r)[i..i + n] == l[i..i + n]
  {
  }

  /** The extent at k holds the lines at its place in the file. */
  ghost predicate AtPlace(y: seq<Extent>, b: seq<int>, s: nat, k: nat)
    requires AllInRange(y, b) && k < |y|
  {
    Lines(y[k], b) == Stretch(b, s + Off(y, k), y[k].len)
  }

  /** Extents that hold the lines at their places hold a stretch of the file. */
  lemma {:induction false} PlacesMakeContent(y: seq<Extent>, b: seq<int>, s: nat, n: nat)
    requires n <= |y| && AllInRange(y, b) && s + Off(y, n) <= |b|
    requires forall k :: 0 <= k < n ==> AtPlace(y, b, s, k)
    ensures Content(y[..n], b) == b[s..s + Off(y, n)]
    decreases n
  {
    hide AtPlace, Lines;
    if n > 0 {
      var m := n - 1;
      PlacesMakeContent(y, b, s, m);
      assert y[..n] == y[..m] + [y[m]];
      ContentPush(y[..m], y[m], b);
      AtPlaceSlice(y, b, s, m);
      SliceSplit(b, s, s + Off(y, m), s + Off(y, n));
    }
  }

  lemma AtPlaceSlice(y: seq<Extent>, b: seq<int>, s: nat, k: nat)
    requires AllInRange(y, b) && k < |y| && s + Off(y, k + 1) <= |b|
    ensures AtPlace(y, b, s, k) <==> Lines(y[k], b) == b[s + Off(y, k)..s + Off(y, k + 1)]
  {
  }

  /** A content is a stretch of the file exactly if every extent holds the lines at its place in it. */
  lemma ContentIs(y: seq<Extent>, b: seq<int>, s: nat)
    requires AllInRange(y, b) && s + Off(y, |y|) <= |b|
    ensures Content(y, b) == b[s..s + Off(y, |y|)] <==> forall k :: 0 <= k < |y| ==> AtPlace(y, b, s, k)
  {
    hide Content, Off, Lines, AtPlace, InRange;
    if Content(y, b) == b[s..s + Off(y, |y|)] {
      forall k | 0 <= k < |y|
        ensures AtPlace(y, b, s, k)
      {
        ContentAtPlace(y, b, s, k);
      }
    }
    if forall k :: 0 <= k < |y| ==> AtPlace(y, b, s, k) {
      PlacesMakeContent(y, b, s, |y|);
      assert y[..|y|] == y;
    }
  }

  lemma ContentAtPlace(y: seq<Extent>, b: seq<int>, s: nat, k: nat)
    requires AllInRange(y, b) && s + Off(y, |y|) <= |b| && k < |y|
    requires Content(y, b) == b[s..s + Off(y, |y|)]
    ensures AtPlace(y, b, s, k)
  {
    var w := Lines(y[k], b);
    hide *;
    ContentAt(y, b, k);
    OffNext(y, k);
    CutOut(Content(y, b), b, s, Off(y, |y|), Off(y, k), y[k].len, w);
    AtPlaceSlice(y, b, s, k);
  }

  lemma CutOut(l: seq<int>, b: seq<int>, s: nat, n: nat, i: nat, len: nat, w: seq<int>)
    requires s + n <= |b| && i + len <= n && l == b[s..s + n] && l[i..i + len] == w
    ensures w == b[s + i..s + i + len]
  {
    SliceWithin(b, s, n, i, len);
  }

  lemma OffNext(y: seq<Extent>, k: nat)
    requires k < |y|
    ensures Off(y, k + 1) == Off(y, k) + y[k].len
  {
  }

  lemma SliceWithin(b: seq<int>, s: nat, n: nat, i: nat, len: nat)
    requires s + n <= |b| && i + len <= n
    ensures b[s..s + n][i..i + len] == b[s + i..s + i + len]
  {
    var l, r := b[s..s + n][i..i + len], b[s + i..s + i + len];
    assert |l| == |r| == len;
    assert forall q :: 0 <= q < len ==> l[q] == b[s + i + q] == r[q];
  }

  lemma InPlaceContent(x: seq<Extent>, b: seq<int>, s: nat)
    requires InPlace(x, s) && AllInRange(x, b) && s + Off(x, |x|) <= |b|
    ensures Content(x, b) == b[s..s + Off(x, |x|)]
  {
    hide Content, InRange, InPlace, AtPlace, Off;
    forall k | 0 <= k < |x|
      ensures AtPlace(x, b, s, k)
    {
      PlacedLines(x, b, s, k);
    }
    ContentIs(x, b, s);
  }

  lemma PlacedLines(x: seq<Extent>, b: seq<int>, s: nat, k: nat)
    requires InPlace(x, s) && AllInRange(x, b) && s + Off(x, |x|) <= |b| && k < |x|
    ensures AtPlace(x, b, s, k)
  {
    hide InPlace, Lines;
    OffMonotone(x, k + 1, |x|);
    OffNext(x, k);
    AtPlaceSlice(x, b, s, k);
    if x[k].len == 0 {
      NoLength(x[k], b);
    } else {
      PlaceOf(x, s, k);
      LinesAre(x[k], b);
    }
  }

  lemma PlaceOf(x: seq<Extent>, s: nat, k: nat)
    requires InPlace(x, s) && k < |x| && x[k].len > 0
    ensures x[k].pos == s + Off(x, k)
  {
  }

  lemma LinesAre(e: Extent, b: seq<int>)
    requires InRange(e, b)
    ensures Lines(e, b) == b[e.pos..e.pos + e.len]
  {
  }

  lemma NoLength(e: Extent, b: seq<int>)
    requires InRange(e, b) && e.len == 0
    ensures Lines(e, b) == []
  {
  }

  /** The lines of extents in place are within the file. */
  lemma {:induction false} PlaceInRange(x: seq<Extent>, a: seq<int>, b: seq<int>, s: nat, n: nat)
    requires AllTyped(x, a, b) && InPlace(x, s) && n <= |x| && s <= |b|
    ensures s + Off(x, n) <= |b|
    decreases n
  {
    if n > 0 {
      PlaceInRange(x, a, b, s, n - 1);
      assert Typed(x[n - 1], a[n - 1], b);
    }
  }

  // ---- when the loop keeps the lines ----

  /** The loop goes through and its lines are the lines there were. */
  ghost predicate Keeps(x: seq<Extent>, a: seq<int>, b: seq<int>)
    requires |x| == |a| && AllInRange(x, b)
  {
    var r := Gathered(x, a, b, |x|);
    r.Some? && AllInRange(r.value, b) && Content(r.value, b) == Content(x, b)
  }

  lemma {:induction false} SettledInRange(x: seq<Extent>, a: seq<int>, b: seq<int>, s: nat, n: nat)
    requires n <= |x| && AllTyped(x, a, b) && InPlace(x, s)
    ensures AllInRange(Settled(x, a, b, n), b)
    decreases n
  {
    hide LandsAt, Shape;
    if n == 0 {
      TypedInRange(x, a, b);
    } else {
      SettledInRange(x, a, b, s, n - 1);
      SettledShape(x, a, b, n - 1);
      if Moves(x, a, b, n - 1) {
        var y, f := Settled(x, a, b, n - 1), LandsAt(x, a, b, n - 1);
        LandsOnLines(x, n - 1, Bar(x, a, b, n - 1), y, f);
        RangeAbove(x, a, b, s, n - 1, f);
        MovedInRange(y, f, n - 1, b);
      }
    }
  }

  lemma MovedInRange(y: seq<Extent>, f: nat, c: nat, b: seq<int>)
    requires AllInRange(y, b) && f < c < |y| && y[c].len > 0 && y[f].pos + y[c].len <= |b|
    ensures AllInRange(Moved(y, f, c), b)
  {
    assert InRange(y[c], b);
  }

  /** If every extent that moves begins with its own line, the lines are kept exactly if those of every index agree. */
  lemma KeptIfAgree(x: seq<Extent>, a: seq<int>, b: seq<int>, s: nat)
    requires AllTyped(x, a, b) && AllInRange(x, b) && InPlace(x, s) && s <= |b| && Own(x, a, b, |x|)
    ensures Keeps(x, a, b) <==> Agree(x, a, b)
  {
    hide Gathered, Settled, FinalLen, Content, InPlace, Shape, Off, Slip, AtPlace, Agree, Agrees, AllTyped, InRange;
    TypedInRange(x, a, b);
    var y, n := Settled(x, a, b, |x|), |x|;
    GatherSettles(x, a, b, s, n);
    SettledInRange(x, a, b, s, n);
    OffSettled(x, a, b, n, n);
    NoSlip(x, a, b, n);
    PlaceInRange(x, a, b, s, n);
    InPlaceContent(x, b, s);
    ContentIs(y, b, s);
    forall k | 0 <= k < n
      ensures AtPlace(y, b, s, k) <==> Agrees(x, a, b, k)
    {
      PlaceAgrees(x, a, b, s, k);
    }
    AgreeIs(x, a, b);
  }

  lemma AgreeIs(x: seq<Extent>, a: seq<int>, b: seq<int>)
    requires |x| == |a|
    ensures Agree(x, a, b) <==> forall k :: 0 <= k < |x| ==> Agrees(x, a, b, k)
  {
  }

  lemma PlaceAgrees(x: seq<Extent>, a: seq<int>, b: seq<int>, s: nat, k: nat)
    requires AllTyped(x, a, b) && InPlace(x, s) && k < |x| && AllInRange(Settled(x, a, b, |x|), b)
    ensures AtPlace(Settled(x, a, b, |x|), b, s, k) <==> Agrees(x, a, b, k)
  {
    hide Settled, FinalLen, Off, Slip;
    var y := Settled(x, a, b, |x|);
    SettledShape(x, a, b, |x|);
    SettledLen(x, a, b, |x|, k);
    OffSettled(x, a, b, |x|, k);
    assert InRange(y[k], b);
    if y[k].len == 0 {
      NoLength(y[k], b);
    }
  }

  /** Nothing passes the end. */
  lemma {:induction false} NoSlip(x: seq<Extent>, a: seq<int>, b: seq<int>, n: nat)
    requires n <= |x| == |a|
    ensures forall k: nat :: k >= n ==> Slip(x, a, b, n, k) == 0
    decreases n
  {
    if n > 0 {
      NoSlip(x, a, b, n - 1);
    }
  }

  /** An index that is preserved but does not hold its ancestor line stops everything below it. */
  lemma {:induction false} BubbleStops(y: seq<Extent>, a: seq<int>, b: seq<int>, j: nat, c: nat)
    requires c < j < |y| == |a| && y[c].ty.Preserved? && y[c].pos < |b| && b[y[c].pos] != a[c]
    ensures var r := Bubble(y, a, b, j); r.Some? ==> r.value[..c + 1] == y[..c + 1]
    decreases j
  {
    if j - 1 > c {
      BubbleStops(Exchanged(y, j), a, b, j - 1, c);
      assert Exchanged(y, j)[..c + 1] == y[..c + 1];
    }
  }

  lemma {:induction false} GatherStops(x: seq<Extent>, a: seq<int>, b: seq<int>, n: nat, c: nat)
    requires c < n <= |x| == |a| && Gathered(x, a, b, c + 1).Some?
    requires var z := Gathered(x, a, b, c + 1).value; z[c].ty.Preserved? && z[c].pos < |b| && b[z[c].pos] != a[c]
    ensures var r := Gathered(x, a, b, n); r.Some? ==> r.value[..c + 1] == Gathered(x, a, b, c + 1).value[..c + 1]
    decreases n
  {
    hide Bubble;
    if n > c + 1 {
      GatherStops(x, a, b, n - 1, c);
      var y := Gathered(x, a, b, n - 1);
      if y.Some? {
        var z := Gathered(x, a, b, c + 1).value;
        assert y.value[c] == y.value[..c + 1][c] == z[c];
        BubbleStops(y.value, a, b, n - 1, c);
      }
    }
  }

  /** Once an extent has moved that does not begin with its own line, a line is wrong for good. */
  lemma NotOwnLoses(x: seq<Extent>, a: seq<int>, b: seq<int>, s: nat, c: nat)
    requires AllTyped(x, a, b) && AllInRange(x, b) && InPlace(x, s)
    requires c < |x| && Own(x, a, b, c) && Moves(x, a, b, c) && (x[c].pos < |b| ==> b[x[c].pos] != a[c])
    ensures !Keeps(x, a, b)
  {
    hide Gathered, Content, Bubble, Settled, InPlace, Off, LandsAt, Own;
    assert Typed(x[c], a[c], b);
    OneTurnFrom(x, a, b, s, c);
    LeftBehind(x, a, b, c);
    var z := Settled(x, a, b, c + 1);
    GatherStops(x, a, b, |x|, c);
    var r := Gathered(x, a, b, |x|);
    if r.Some? && AllInRange(r.value, b) {
      WrongLine(x, a, b, c, r.value);
    }
  }

  /** What is left at c: its first line, where its last line was. */
  lemma LeftBehind(x: seq<Extent>, a: seq<int>, b: seq<int>, c: nat)
    requires c < |x| && AllTyped(x, a, b) && Moves(x, a, b, c)
    ensures Settled(x, a, b, c + 1)[c] == Extent(x[c].pos, 1, Preserved)
    ensures Off(Settled(x, a, b, c + 1), c) == Off(x, c) + x[c].len - 1
  {
    hide LandsAt, Settled, AllTyped, Slip;
    SettledAhead(x, a, b, c);
    SettledNext(x, a, b, c);
    OffSettled(x, a, b, c + 1, c);
    NoSlip(x, a, b, c);
    SlipNext(x, a, b, c, c);
  }

  lemma SlipNext(x: seq<Extent>, a: seq<int>, b: seq<int>, n: nat, k: nat)
    requires n < |x| == |a|
    ensures Slip(x, a, b, n + 1, k) == Slip(x, a, b, n, k) + if Passes(x, a, b, n, k) then x[n].len - 1 else 0
  {
  }

  lemma SettledNext(x: seq<Extent>, a: seq<int>, b: seq<int>, c: nat)
    requires c < |x| == |a| && Moves(x, a, b, c)
    ensures Settled(x, a, b, c + 1) == Moved(Settled(x, a, b, c), LandsAt(x, a, b, c), c)
  {
  }

  lemma WrongLine(x: seq<Extent>, a: seq<int>, b: seq<int>, c: nat, y: seq<Extent>)
    requires AllTyped(x, a, b) && AllInRange(x, b) && AllInRange(y, b) && c < |x| == |y| && Moves(x, a, b, c)
    requires x[c].pos < |b| && b[x[c].pos] != a[c] && x[c].len > 0
    requires y[..c + 1] == Settled(x, a, b, c + 1)[..c + 1]
    ensures Content(y, b) != Content(x, b)
  {
    hide Content, Settled, Off, Moves, AllTyped, InRange;
    TypedInRange(x, a, b);
    var z := Settled(x, a, b, c + 1);
    LeftBehind(x, a, b, c);
    assert forall i :: 0 <= i <= c ==> y[i] == y[..c + 1][i] == z[..c + 1][i] == z[i];
    OffSame(y, z, c);
    LandingGuard(x, a, b, c);
    var at := Off(y, c);
    ContentAt(y, b, c);
    assert Content(y, b)[at..at + 1][0] == b[x[c].pos];
    ContentAt(x, b, c);
    assert Content(x, b)[Off(x, c)..Off(x, c) + x[c].len][x[c].len - 1] == b[x[c].pos + x[c].len - 1];
    assert Content(x, b)[at] == a[c] && Content(y, b)[at] == b[x[c].pos];
  }

  lemma OneTurnFrom(x: seq<Extent>, a: seq<int>, b: seq<int>, s: nat, c: nat)
    requires c < |x| && AllTyped(x, a, b) && InPlace(x, s) && Own(x, a, b, c)
    ensures Gathered(x, a, b, c + 1) == Some(Settled(x, a, b, c + 1))
  {
    hide Bubble, Settled;
    GatherSettles(x, a, b, s, c);
    OneTurn(x, a, b, s, c);
  }

  lemma LandingGuard(x: seq<Extent>, a: seq<int>, b: seq<int>, c: nat)
    requires c < |x| == |a| && Moves(x, a, b, c)
    ensures 0 < x[c].pos + x[c].len <= |b| && a[c] == b[x[c].pos + x[c].len - 1]
  {
  }

  /** The first extent that moves without beginning with its own line. */
  lemma {:induction false} FirstNotOwn(x: seq<Extent>, a: seq<int>, b: seq<int>, n: nat) returns (c: nat)
    requires n <= |x| == |a| && !Own(x, a, b, n)
    ensures c < n && Own(x, a, b, c) && Moves(x, a, b, c) && !(x[c].pos < |b| && b[x[c].pos] == a[c])
    decreases n
  {
    hide Moves;
    if n > 0 && !Own(x, a, b, n - 1) {
      c := FirstNotOwn(x, a, b, n - 1);
    } else {
      c := n - 1;
    }
  }

  /**
   Exactly when the first loop keeps the lines: every extent that moves begins with its own ancestor line, and the lines
   at the position of every index are those as much further on as the index is pushed down.
   */
  lemma KeptExactly(x: seq<Extent>, a: seq<int>, b: seq<int>, s: nat)
    requires AllTyped(x, a, b) && AllInRange(x, b) && InPlace(x, s) && s <= |b|
    ensures Keeps(x, a, b) <==> Own(x, a, b, |x|) && Agree(x, a, b)
  {
    hide Keeps, Own, Agree, Moves;
    if Own(x, a, b, |x|) {
      KeptIfAgree(x, a, b, s);
    } else {
      var c := FirstNotOwn(x, a, b, |x|);
      NotOwnLoses(x, a, b, s, c);
    }
  }

  // ---- extents that do not get in each other's way ----

  /** No extent goes up to, or past, a place that another one has left. */
  ghost predicate Apart(x: seq<Extent>, a: seq<int>, b: seq<int>)
    requires |x| == |a|
  {
    forall c, d :: 0 <= c < d < |x| && Moves(x, a, b, c) && Moves(x, a, b, d) ==> c < LandsAt(x, a, b, d)
  }

  /** Then no index is passed twice. */
  lemma PassedOnce(x: seq<Extent>, a: seq<int>, b: seq<int>, c: nat, d: nat, k: nat)
    requires c < d < |x| == |a| && Apart(x, a, b)
    ensures !(Passes(x, a, b, c, k) && Passes(x, a, b, d, k))
  {
  }

  lemma {:induction false} SlipNone(x: seq<Extent>, a: seq<int>, b: seq<int>, n: nat, k: nat)
    requires n <= |x| == |a| && forall c :: 0 <= c < n ==> !Passes(x, a, b, c, k)
    ensures Slip(x, a, b, n, k) == 0
    decreases n
  {
    hide Passes;
    if n > 0 {
      SlipNone(x, a, b, n - 1, k);
    }
  }

  /** An index that is passed is pushed down by the one extent that passes it. */
  lemma {:induction false} SlipOnce(x: seq<Extent>, a: seq<int>, b: seq<int>, n: nat, c: nat, k: nat)
    requires c < n <= |x| == |a| && Apart(x, a, b) && Passes(x, a, b, c, k)
    ensures Slip(x, a, b, n, k) == x[c].len - 1
    decreases n
  {
    hide Passes, Apart;
    if n - 1 == c {
      forall d | 0 <= d < c
        ensures !Passes(x, a, b, d, k)
      {
        PassedOnce(x, a, b, d, c, k);
      }
      SlipNone(x, a, b, c, k);
    } else {
      PassedOnce(x, a, b, c, n - 1, k);
      SlipOnce(x, a, b, n - 1, c, k);
    }
  }

  /** Extents that do not get in each other's way lose no lines exactly if those that move begin with their own line. */
  lemma ApartKept(x: seq<Extent>, a: seq<int>, b: seq<int>, s: nat)
    requires AllTyped(x, a, b) && AllInRange(x, b) && InPlace(x, s) && s <= |b| && Apart(x, a, b)
    ensures Keeps(x, a, b) <==> Own(x, a, b, |x|)
  {
    hide Keeps, Own, Apart, AllTyped, InPlace, Agrees;
    TypedInRange(x, a, b);
    KeptExactly(x, a, b, s);
    if Own(x, a, b, |x|) {
      forall k | 0 <= k < |x|
        ensures Agrees(x, a, b, k)
      {
        ApartAgrees(x, a, b, s, k);
      }
    }
  }

  lemma ApartAgrees(x: seq<Extent>, a: seq<int>, b: seq<int>, s: nat, k: nat)
    requires AllTyped(x, a, b) && InPlace(x, s) && Apart(x, a, b) && Own(x, a, b, |x|) && k < |x|
    ensures |x| == |a| && Agrees(x, a, b, k)
  {
    hide Passes, Own, Apart, AllTyped, InPlace, Slip, FinalLen;
    TypedInRange(x, a, b);
    if c :| 0 <= c < |x| && Passes(x, a, b, c, k) {
      SlipOnce(x, a, b, |x|, c, k);
      if x[k].len > 0 {
        PassedLine(x, a, b, s, c, k);
      }
    } else {
      SlipNone(x, a, b, |x|, k);
    }
  }

  /** A line that was passed is found again right where it is pushed down to. */
  lemma PassedLine(x: seq<Extent>, a: seq<int>, b: seq<int>, s: nat, c: nat, k: nat)
    requires AllTyped(x, a, b) && InPlace(x, s) && Apart(x, a, b) && Own(x, a, b, |x|)
    requires c < |x| && k < |x| && x[k].len > 0 && Passes(x, a, b, c, k)
    ensures FinalLen(x, a, b, |x|, k) == 1
    ensures Stretch(b, x[k].pos, 1) == Stretch(b, x[k].pos + x[c].len - 1, 1)
  {
    hide FinalLen, AllTyped, InPlace, Apart, Own, Landing, Bar;
    TypedInRange(x, a, b);
    PassedIsOneLine(x, a, b, c, k);
    PassedGuard(x, a, b, x[c].len, c, Bar(x, a, b, c), k);
  }

  lemma PassedIsOneLine(x: seq<Extent>, a: seq<int>, b: seq<int>, c: nat, k: nat)
    requires AllTyped(x, a, b) && Apart(x, a, b) && Own(x, a, b, |x|)
    requires c < |x| && k < |x| && Passes(x, a, b, c, k)
    ensures FinalLen(x, a, b, |x|, k) == 1 && x[k].pos < |b| && b[x[k].pos] == a[k]
  {
    hide Settled, Passes, Own, Apart, AllTyped, LandsAt, FinalLen;
    TypedInRange(x, a, b);
    SettledLen(x, a, b, |x|, k);
    SettledShape(x, a, b, |x|);
    SettledTyped(x, a, b, |x|);
    PassedPreserved(x, a, b, |x|, c, k);
    assert Settled(x, a, b, |x|)[k].pos == x[k].pos;
  }

  lemma {:induction false} PassedGuard(x: seq<Extent>, a: seq<int>, b: seq<int>, len: nat, j: nat, bar: nat, k: nat)
    requires bar <= j < |x| == |a| && Landing(x, a, b, len, j, bar) < k <= j
    ensures 0 < x[k].pos + len <= |b| && a[k] == b[x[k].pos + len - 1]
    decreases j
  {
    if k < j {
      PassedGuard(x, a, b, len, j - 1, bar, k);
    }
  }

  /** What was passed once and is not passed or landed on again is a preserved line in the end. */
  lemma {:induction false} PassedPreserved(x: seq<Extent>, a: seq<int>, b: seq<int>, n: nat, c: nat, k: nat)
    requires c < n <= |x| && AllTyped(x, a, b) && Apart(x, a, b) && Passes(x, a, b, c, k)
    ensures k < |x| && Settled(x, a, b, n)[k].ty.Preserved?
    decreases n
  {
    hide LandsAt, AllTyped, Shape;
    if n > c + 1 {
      PassedPreserved(x, a, b, n - 1, c, k);
    } else {
      PassedBefore(x, a, b, c, k);
    }
  }

  lemma PassedBefore(x: seq<Extent>, a: seq<int>, b: seq<int>, c: nat, k: nat)
    requires c < |x| && AllTyped(x, a, b) && Passes(x, a, b, c, k)
    ensures k < c ==> Settled(x, a, b, c)[k].ty.Preserved?
  {
    hide Settled, AllTyped;
    SettledShape(x, a, b, c);
  }

  // ---- minimum scripts ----

  /** An extent's own part of the distance is no more than the edits it stands for; less if it holds its line unnoticed. */
  lemma OwnDistance(e: Extent, line: int, b: seq<int>)
    requires Typed(e, line, b)
    ensures Dist([line], Lines(e, b)) <= EditsFor(e, line, b)
    ensures e.ty.Changed? && b[e.pos] != line && line in Lines(e, b) ==> Dist([line], Lines(e, b)) + 2 <= EditsFor(e, line, b)
  {
    var l := Lines(e, b);
    DistBounds([line], l);
    match e.ty
    case Preserved =>
      assert l == [line];
      DistSelf([line]);
    case Deleted =>
      assert l == [];
    case Changed =>
      if line in l {
        var q :| 0 <= q < |l| && l[q] == line;
        OneLineWithin(line, l, q);
        CommonSubsequenceBound([line], [line], l);
      }
      assert b[e.pos] == l[0];
  }

  lemma {:induction false} OneLineWithin(line: int, l: seq<int>, q: nat)
    requires q < |l| && l[q] == line
    ensures Subsequence([line], l) && Subsequence([line], [line])
    decreases |l|
  {
    EmptyWithin([]);
    if q < |l| - 1 {
      OneLineWithin(line, Init(l), q);
    } else {
      EmptyWithin(Init(l));
    }
    assert Init([line]) == [];
  }

  lemma EmptyWithin(l: seq<int>)
    ensures Subsequence([], l)
  {
  }

  /** Extent by extent, the distance is at most the edits the extents stand for, by two less for an unnoticed line. */
  lemma {:induction false} DistanceOfExtents(x: seq<Extent>, a: seq<int>, b: seq<int>, n: nat)
    requires n <= |x| && AllTyped(x, a, b) && AllInRange(x, b)
    ensures Dist(a[..n], Content(x[..n], b)) <= EditsForAll(x, a, b, n)
    ensures (exists k :: 0 <= k < n && Unnoticed(x[k], a[k], b)) ==>
      Dist(a[..n], Content(x[..n], b)) + 2 <= EditsForAll(x, a, b, n)
    decreases n
  {
    hide Dist, Content, Unnoticed, EditsFor;
    if n == 0 {
      NothingApart(x, a, b);
    } else {
      DistanceOfExtents(x, a, b, n - 1);
      OneMoreExtent(x, a, b, n - 1);
    }
  }

  lemma NothingApart(x: seq<Extent>, a: seq<int>, b: seq<int>)
    ensures Dist(a[..0], Content(x[..0], b)) == 0
  {
  }

  lemma OneMoreExtent(x: seq<Extent>, a: seq<int>, b: seq<int>, m: nat)
    requires m < |x| && AllTyped(x, a, b) && AllInRange(x, b)
    ensures var d := Dist(a[..m + 1], Content(x[..m + 1], b)) - Dist(a[..m], Content(x[..m], b));
      && d <= EditsFor(x[m], a[m], b)
      && (Typed(x[m], a[m], b) && Unnoticed(x[m], a[m], b) ==> d + 2 <= EditsFor(x[m], a[m], b))
  {
    hide Dist, Content, EditsFor;
    OwnDistance(x[m], a[m], b);
    assert a[..m + 1] == a[..m] + [a[m]] && x[..m + 1] == x[..m] + [x[m]];
    ContentPush(x[..m], x[m], b);
    DistConcat(a[..m], [a[m]], Content(x[..m], b), Lines(x[m], b));
  }

  /** The ancestor line was deleted and put back in, but not as the first of the lines. */
  ghost predicate Unnoticed(e: Extent, line: int, b: seq<int>)
    requires Typed(e, line, b)
  {
    e.ty.Changed? && b[e.pos] != line && line in Lines(e, b)
  }

  /** The extents of a minimum script that move begin with their own line, so the loop does not fail a check. */
  lemma MinimumOwn(e: seq<int>, a: seq<int>, b: seq<int>, prefix: seq<int>, x: seq<Extent>, suffix: seq<int>)
    requires |e| == Dist(a, b) && Describes(a, b, prefix, x, suffix) && Accounted(a, b, prefix, x, suffix, |e|)
    ensures Own(x, a, b, |x|)
  {
    hide LandsAt, Dist, Moves, Unnoticed, EditsForAll, InPlace, Content;
    var n := |x|;
    var l := Content(x, b);
    DistanceOfExtents(x, a, b, n);
    assert x[..n] == x && a[..n] == a && [] + a == a && a + [] == a;
    DistConcat([], a, prefix, l);
    DistConcat(a, [], prefix + l, suffix);
    NothingBecomes(prefix);
    NothingBecomes(suffix);
    forall c | 0 <= c < n && Moves(x, a, b, c)
      ensures x[c].pos < |b| && b[x[c].pos] == a[c]
    {
      MovesUnnoticed(x, a, b, c);
    }
  }

  lemma MovesUnnoticed(x: seq<Extent>, a: seq<int>, b: seq<int>, c: nat)
    requires AllTyped(x, a, b) && c < |x| && Moves(x, a, b, c)
    ensures Typed(x[c], a[c], b) && x[c].pos < |b| && (Unnoticed(x[c], a[c], b) || b[x[c].pos] == a[c])
  {
    hide LandsAt;
    LandingGuard(x, a, b, c);
    assert Typed(x[c], a[c], b);
    assert Lines(x[c], b)[x[c].len - 1] == a[c];
  }

  lemma NothingBecomes(l: seq<int>)
    ensures Dist([], l) == |l|
  {
  }

  /** For a minimum script the loop keeps the lines exactly if those of every index agree, always if extents stay apart. */
  lemma MinimumKept(e: seq<int>, a: seq<int>, b: seq<int>, prefix: seq<int>, x: seq<Extent>, suffix: seq<int>)
    requires |e| == Dist(a, b) && Describes(a, b, prefix, x, suffix) && Accounted(a, b, prefix, x, suffix, |e|)
    ensures Keeps(x, a, b) <==> Agree(x, a, b)
    ensures Apart(x, a, b) ==> Keeps(x, a, b)
  {
    hide Keeps, Agree, Own, Apart;
    MinimumOwn(e, a, b, prefix, x, suffix);
    assert |prefix| <= |b|;
    KeptExactly(x, a, b, |prefix|);
    if Apart(x, a, b) {
      ApartKept(x, a, b, |prefix|);
    }
  }

  /**
   A minimum script whose extents lose a line: the second one goes up to the place the first has left, where its
   position is not that of its lines any more.
   */
  lemma LosingRun()
    ensures var a, b, e := [0, 0, 1, 2], [0, 0, 0, 1, 1, 2, 0], [3, 5, 7];
      var x := [Extent(0, 1, Preserved), Extent(1, 2, Changed), Extent(3, 2, Changed), Extent(5, 1, Preserved)];
      var y := [Extent(0, 2, Changed), Extent(1, 2, Changed), Extent(3, 1, Preserved), Extent(5, 1, Preserved)];
      && FullScript(e, a, b) && |e| == Dist(a, b)
      && Calculated(e, b, 4) == Some(Walk([], x, [0], 4, 7)) && Gathered(x, a, b, 4) == Some(y)
      && AllInRange(x, b) && AllInRange(y, b)
      && Content(x, b) == [0, 0, 0, 1, 1, 2] && Content(y, b) == [0, 0, 0, 0, 1, 2]
  {
    hide Calculated, Gathered, Content, Script, Dist;
    LosingScript();
    LosingExtents();
    LosingLoop();
    var b := [0, 0, 0, 1, 1, 2, 0];
    FourLines([Extent(0, 1, Preserved), Extent(1, 2, Changed), Extent(3, 2, Changed), Extent(5, 1, Preserved)], b);
    FourLines([Extent(0, 2, Changed), Extent(1, 2, Changed), Extent(3, 1, Preserved), Extent(5, 1, Preserved)], b);
  }

  lemma LosingScript()
    ensures var a, b, e := [0, 0, 1, 2], [0, 0, 0, 1, 1, 2, 0], [3, 5, 7]; FullScript(e, a, b) && |e| == Dist(a, b)
  {
    hide Dist;
    var a, b, e := [0, 0, 1, 2], [0, 0, 0, 1, 1, 2, 0], [3, 5, 7];
    assert e[1..] == [5, 7] && e[1..][1..] == [7] && [7][1..] == [];
    assert Script([], a, b, 4, 4, 7, 7);
    assert a[3..4] == b[5..6];
    assert Script([7], a, b, 3, 4, 5, 7);
    assert a[2..3] == b[3..4];
    assert Script([5, 7], a, b, 2, 4, 3, 7);
    assert a[0..2] == b[0..2];
    assert Script(e, a, b, 0, 4, 0, 7);
    ScriptAtLeastDist(e, a, b, 0, 4, 0, 7);
    assert a[0..4] == a && b[0..7] == b;
    DistBounds(a, b);
  }

  lemma LosingExtents()
    ensures var b, e := [0, 0, 0, 1, 1, 2, 0], [3, 5, 7];
      var x := [Extent(0, 1, Preserved), Extent(1, 2, Changed), Extent(3, 2, Changed), Extent(5, 1, Preserved)];
      Calculated(e, b, 4) == Some(Walk([], x, [0], 4, 7))
  {
    hide AfterEdit, AfterEdits;
    var b, e := [0, 0, 0, 1, 1, 2, 0], [3, 5, 7];
    var p := Extent(0, 1, Preserved);
    var w0 := Walk([], [], [], 0, 0);
    var w1 := Walk([], [p, Extent(1, 2, Changed)], [], 2, 3);
    var w2 := Walk([], [p, Extent(1, 2, Changed), Extent(3, 2, Changed)], [], 3, 5);
    var w3 := Walk([], [p, Extent(1, 2, Changed), Extent(3, 2, Changed), Extent(5, 1, Preserved)], [0], 4, 7);
    InsertWalked(w0, 3, b, 4, [p, Extent(1, 1, Preserved)]);
    InsertWalked(w1, 5, b, 4, w1.x + [Extent(3, 1, Preserved)]);
    InsertWalked(w2, 7, b, 4, w3.x);
    NoEdits(b, 4);
    AfterOneMore([], 3, b, 4);
    AfterOneMore([3], 5, b, 4);
    AfterOneMore([3, 5], 7, b, 4);
    assert [] + [3] == [3] && [3] + [5] == [3, 5] && [3, 5] + [7] == e;
    assert Widened([p, Extent(1, 1, Preserved)]) == w1.x && Widened(w1.x + [Extent(3, 1, Preserved)]) == w2.x;
    assert AfterEdits([3], b, 4) == Some(w1);
    assert AfterEdits([3, 5], b, 4) == Some(w2);
    assert w2.suffix + [b[6]] == w3.suffix;
    assert AfterEdits(e, b, 4) == Some(w3);
    assert Filled(w3, 0) == w3;
  }

  /** An insertion behind lines left alone, of which the extents are given. */
  lemma InsertWalked(w: Walk, edit: int, b: seq<int>, aLen: nat, x: seq<Extent>)
    requires w.bPos < edit - 1 < |b| && |w.prefix| == 0
    requires x == w.x + seq(edit - 1 - w.bPos, i requires 0 <= i < edit - 1 - w.bPos => Extent(w.bPos + i, 1, Preserved))
    ensures var aPos := w.aPos + edit - 1 - w.bPos;
      AfterEdit(w, edit, b, aLen) == Some(
        if aPos == aLen then Walk([], x, w.suffix + [b[edit - 1]], aPos, edit)
        else Walk([], Widened(x), w.suffix, aPos, edit))
  {
    var n := edit - 1 - w.bPos;
    assert w.prefix == [];
    assert Filled(w, n) == Walk([], x, w.suffix, w.aPos + n, edit - 1);
  }

  lemma NoEdits(b: seq<int>, aLen: nat)
    ensures AfterEdits([], b, aLen) == Some(Walk([], [], [], 0, 0))
  {
  }

  lemma AfterOneMore(edits: seq<int>, edit: int, b: seq<int>, aLen: nat)
    ensures AfterEdits(edits, b, aLen).None? ==> AfterEdits(edits + [edit], b, aLen).None?
    ensures AfterEdits(edits, b, aLen).Some? ==>
      AfterEdits(edits + [edit], b, aLen) == AfterEdit(AfterEdits(edits, b, aLen).value, edit, b, aLen)
  {
    assert (edits + [edit])[..|edits|] == edits;
  }

  lemma LosingLoop()
    ensures var a, b := [0, 0, 1, 2], [0, 0, 0, 1, 1, 2, 0];
      var x := [Extent(0, 1, Preserved), Extent(1, 2, Changed), Extent(3, 2, Changed), Extent(5, 1, Preserved)];
      var y := [Extent(0, 2, Changed), Extent(1, 2, Changed), Extent(3, 1, Preserved), Extent(5, 1, Preserved)];
      Gathered(x, a, b, 4) == Some(y)
  {
    var a, b := [0, 0, 1, 2], [0, 0, 0, 1, 1, 2, 0];
    var p := Extent(5, 1, Preserved);
    var x := [Extent(0, 1, Preserved), Extent(1, 2, Changed), Extent(3, 2, Changed), p];
    var z := [Extent(0, 2, Changed), Extent(1, 1, Preserved), Extent(3, 2, Changed), p];
    var y := [Extent(0, 2, Changed), Extent(1, 2, Changed), Extent(3, 1, Preserved), p];
    assert Gathered(x, a, b, 1) == Some(x);
    assert Exchanged(x, 1) == z;
    assert Gathered(x, a, b, 2) == Some(z);
    assert Exchanged(z, 2) == y;
    assert Bubble(y, a, b, 1) == Some(y);
    assert Gathered(x, a, b, 3) == Some(y);
  }

  lemma FourLines(x: seq<Extent>, b: seq<int>)
    requires |x| == 4 && AllInRange(x, b)
    ensures Content(x, b) == Lines(x[0], b) + Lines(x[1], b) + Lines(x[2], b) + Lines(x[3], b)
  {
    assert x[..3][..2] == x[..2] && x[..2][..1] == x[..1] && x[..1][..0] == [];
    assert Content(x[..1], b) == Lines(x[0], b);
    assert Content(x[..2], b) == Lines(x[0], b) + Lines(x[1], b);
    assert Content(x[..3], b) == Content(x[..2], b) + Lines(x[2], b);
  }

  // ---- the second loop ----

  /** A changed extent of several lines directly behind another changed extent. */
  predicate Loose(x: seq<Extent>, j: nat)
    requires 0 < j < |x|
  {
    x[j].ty == Changed && x[j - 1].ty == Changed && x[j].len > 1 && x[j - 1].pos + x[j - 1].len == x[j].pos
  }

  /** Every extent is within the file and holds as many lines as its type allows. */
  ghost predicate Sized(e: Extent, b: seq<int>) {
    InRange(e, b) &&
    match e.ty
    case Preserved => e.len == 1
    case Deleted => e.len == 0
    case Changed => e.len >= 1
  }

  ghost predicate AllSized(x: seq<Extent>, b: seq<int>) {
    forall i :: 0 <= i < |x| ==> Sized(x[i], b)
  }

  lemma TypedSized(x: seq<Extent>, a: seq<int>, b: seq<int>)
    requires AllTyped(x, a, b)
    ensures AllSized(x, b)
  {
    forall i | 0 <= i < |x|
      ensures Sized(x[i], b)
    {
      assert Typed(x[i], a[i], b);
    }
  }

  lemma SizedInRange(x: seq<Extent>, b: seq<int>)
    requires AllSized(x, b)
    ensures AllInRange(x, b)
  {
    assert forall i :: 0 <= i < |x| ==> Sized(x[i], b);
  }

  /** One piece goes to the extent before; what is left may turn out to be the ancestor line. */
  method ShiftOne(extents: seq<Extent>, j: nat, a: seq<int>, b: seq<int>) returns (x: seq<Extent>)
    requires 0 < j < |extents| == |a| && Loose(extents, j) && InRange(extents[j], b)
    ensures x == Shifted(extents, j, a, b)
  {
    x := extents;
    var piece := x[j].len - 1;
    x := x[j := x[j].(len := 1, pos := x[j].pos + piece)];
    x := x[j - 1 := x[j - 1].(len := x[j - 1].len + piece)];
    if b[x[j].pos] == a[j] {
      x := x[j := x[j].(ty := Preserved)];
    }
  }

  /** Then only the extent before may be loose. */
  lemma ShiftTightens(x: seq<Extent>, j: nat, i: nat, a: seq<int>, b: seq<int>)
    requires 0 < j <= i < |x| == |a| && Loose(x, j) && InRange(x[j], b) && (j < i ==> x[j + 1].len == 1)
    requires forall k :: 0 < k <= i && k != j ==> !Loose(x, k)
    ensures var y := Shifted(x, j, a, b);
      |y| == |x| && y[j].len == 1 && forall k :: 0 < k <= i && k != j - 1 ==> !Loose(y, k)
  {
    var y := Shifted(x, j, a, b);
    forall k | 0 < k <= i && k != j - 1
      ensures !Loose(y, k)
    {
      if k != j && k != j + 1 {
        assert !Loose(x, k);
      }
    }
  }

  /** The pieces of the extent at j, then of the one before it, go up as far as they can. */
  function Pull(x: seq<Extent>, a: seq<int>, b: seq<int>, j: nat): (y: seq<Extent>)
    requires j < |x| == |a|
    ensures |y| == |x|
    decreases j
  {
    if j == 0 || !Loose(x, j) || x[j].pos + x[j].len > |b| then x else Pull(Shifted(x, j, a, b), a, b, j - 1)
  }

  /** The second loop, up to an index. */
  function Pulled(x: seq<Extent>, a: seq<int>, b: seq<int>, n: nat): (y: seq<Extent>)
    requires n <= |x| == |a|
    ensures |y| == |x|
  {
    if n == 0 then x else Pull(Pulled(x, a, b, n - 1), a, b, n - 1)
  }

  /** An extent that the loop has left a single line is preserved if that is the ancestor line. */
  ghost predicate Marked(x: seq<Extent>, y: seq<Extent>, a: seq<int>, b: seq<int>) {
    && |y| == |x| == |a|
    && forall k :: 0 <= k < |y| && y[k].ty.Changed? && y[k].len == 1 && y[k] != x[k] ==> y[k].pos < |b| && b[y[k].pos] != a[k]
  }

  ghost predicate NoneLoose(x: seq<Extent>, n: nat) {
    n <= |x| && forall k :: 0 < k < n ==> !Loose(x, k)
  }

  lemma {:induction false} PullKeeps(x: seq<Extent>, y: seq<Extent>, a: seq<int>, b: seq<int>, j: nat, i: nat)
    requires j <= i < |y| == |a| && AllSized(y, b) && Marked(x, y, a, b)
    requires (j < i ==> y[j + 1].len == 1) && forall k :: 0 < k <= i && k != j ==> !Loose(y, k)
    ensures var z := Pull(y, a, b, j);
      && AllSized(z, b) && AllInRange(z, b) && AllInRange(y, b) && Content(z, b) == Content(y, b)
      && (AllTyped(y, a, b) ==> AllTyped(z, a, b)) && Marked(x, z, a, b) && NoneLoose(z, i + 1)
    decreases j
  {
    hide AllTyped, Content, AllSized, Loose, InRange, Shifted, Marked;
    SizedInRange(y, b);
    if j > 0 && Loose(y, j) {
      SizedRange(y, j, a, b);
      ShiftKeeps(y, j, a, b);
      ShiftTightens(y, j, i, a, b);
      ShiftMarks(x, y, j, a, b);
      PullKeeps(x, Shifted(y, j, a, b), a, b, j - 1, i);
    }
  }

  lemma ShiftMarks(x: seq<Extent>, y: seq<Extent>, j: nat, a: seq<int>, b: seq<int>)
    requires 0 < j < |y| && Marked(x, y, a, b) && Loose(y, j) && InRange(y[j], b) && AllSized(y, b)
    ensures Marked(x, Shifted(y, j, a, b), a, b)
  {
    assert Sized(y[j - 1], b);
  }

  lemma {:induction false} PulledKeeps(x: seq<Extent>, a: seq<int>, b: seq<int>, n: nat)
    requires n <= |x| == |a| && AllSized(x, b)
    ensures var y := Pulled(x, a, b, n);
      && AllSized(y, b) && AllInRange(y, b) && AllInRange(x, b) && Content(y, b) == Content(x, b)
      && (AllTyped(x, a, b) ==> AllTyped(y, a, b)) && Marked(x, y, a, b) && NoneLoose(y, n)
    decreases n
  {
    hide AllTyped, Content, AllSized, Loose, InRange, Pull;
    SizedInRange(x, b);
    if n > 0 {
      PulledKeeps(x, a, b, n - 1);
      PullKeeps(x, Pulled(x, a, b, n - 1), a, b, n - 1, n - 1);
    }
  }

  /** Where nothing is loose nothing is done. */
  lemma {:induction false} PulledNothing(x: seq<Extent>, a: seq<int>, b: seq<int>, n: nat)
    requires n <= |x| == |a| && NoneLoose(x, |x|)
    ensures Pulled(x, a, b, n) == x
    decreases n
  {
    if n > 0 {
      PulledNothing(x, a, b, n - 1);
    }
  }

  /** The second normalizing loop: pieces go to the changed extent they adjoin, until none is left that could. */
  method ShiftPieces(extents: seq<Extent>, a: seq<int>, b: seq<int>) returns (x: seq<Extent>)
    requires |extents| == |a| && AllSized(extents, b)
    ensures x == Pulled(extents, a, b, |extents|)
    ensures AllSized(x, b) && (AllTyped(extents, a, b) ==> AllTyped(x, a, b))
    ensures AllInRange(x, b) && AllInRange(extents, b) && Content(x, b) == Content(extents, b)
    ensures |x| == |a| && NoneLoose(x, |x|) && Marked(extents, x, a, b)
    ensures NoneLoose(extents, |extents|) ==> x == extents
  {
    hide AllTyped, Content, AllSized, Loose, InRange, Shifted, Marked, NoneLoose;
    x := extents;
    for i := 0 to |x|
      invariant |x| == |extents| && x == Pulled(extents, a, b, i)
    {
      PulledKeeps(extents, a, b, i);
      var j := i;
      ghost var before := x;
      while j > 0 && Loose(x, j)
        invariant 0 <= j <= i && |x| == |extents| && AllSized(x, b) && Pull(x, a, b, j) == Pull(before, a, b, i)
      {
        SizedRange(x, j, a, b);
        x := ShiftOne(x, j, a, b);
        j := j - 1;
      }
    }
    PulledKeeps(extents, a, b, |extents|);
    if NoneLoose(extents, |extents|) {
      PulledNothing(extents, a, b, |extents|);
    }
  }

  lemma SizedRange(x: seq<Extent>, j: nat, a: seq<int>, b: seq<int>)
    requires AllSized(x, b) && 0 < j < |x| == |a| && Loose(x, j)
    ensures x[j].len > 1 && InRange(x[j], b) && x[j].pos + x[j].len <= |b| && AllSized(Shifted(x, j, a, b), b)
  {
    SizedInRange(x, b);
    ShiftKeeps(x, j, a, b);
  }

  function Shifted(x: seq<Extent>, j: nat, a: seq<int>, b: seq<int>): seq<Extent>
    requires 0 < j < |x| == |a| && x[j].len > 1 && InRange(x[j], b)
  {
    var piece := x[j].len - 1;
    var pos := x[j].pos + piece;
    x[j - 1 := x[j - 1].(len := x[j - 1].len + piece)][j := Extent(pos, 1, if b[pos] == a[j] then Preserved else x[j].ty)]
  }

  lemma ShiftKeeps(x: seq<Extent>, j: nat, a: seq<int>, b: seq<int>)
    requires AllSized(x, b) && AllInRange(x, b) && 0 < j < |x| == |a|
    requires Loose(x, j)
    ensures var y := Shifted(x, j, a, b);
      && AllSized(y, b) && AllInRange(y, b) && Content(y, b) == Content(x, b)
      && (AllTyped(x, a, b) ==> AllTyped(y, a, b))
  {
    var y := Shifted(x, j, a, b);
    assert Sized(x[j - 1], b) && Sized(x[j], b);
    forall i | 0 <= i < |y|
      ensures Sized(y[i], b)
    {
      assert Sized(x[i], b);
    }
    if AllTyped(x, a, b) {
      forall i | 0 <= i < |y|
        ensures Typed(y[i], a[i], b)
      {
        assert Typed(x[i], a[i], b) && Sized(y[i], b);
      }
    }
    SizedInRange(y, b);
    ContentReplace(x, y, j, b);
  }

  // ---- both loops ----

  /** What the first loop keeps of any list in place, even of one that loses lines. */
  ghost predicate Tame(x: seq<Extent>, y: seq<Extent>, b: seq<int>) {
    && |y| == |x| && AllSized(y, b)
    && (forall k :: 0 <= k < |x| ==> y[k].pos == x[k].pos && (y[k].len > 0 <==> x[k].len > 0))
    && (forall j, k :: 0 <= j < k < |x| && x[j].len > 0 && x[k].len > 0 ==> x[j].pos <= x[k].pos)
  }

  lemma {:induction false} BubbleTame(x: seq<Extent>, y: seq<Extent>, a: seq<int>, b: seq<int>, j: nat)
    requires j < |x| == |a| && Tame(x, y, b) && Bubble(y, a, b, j).Some?
    ensures Tame(x, Bubble(y, a, b, j).value, b)
    decreases j
  {
    if Bubble(y, a, b, j).value != y {
      var z := Exchanged(y, j);
      assert Sized(y[j - 1], b) && Sized(y[j], b);
      assert x[j - 1].pos <= x[j].pos;
      forall k | 0 <= k < |z|
        ensures Sized(z[k], b)
      {
        assert Sized(y[k], b);
      }
      BubbleTame(x, z, a, b, j - 1);
    }
  }

  lemma {:induction false} GatherTame(x: seq<Extent>, a: seq<int>, b: seq<int>, s: nat, n: nat)
    requires n <= |x| && AllTyped(x, a, b) && InPlace(x, s) && Gathered(x, a, b, n).Some?
    ensures Tame(x, Gathered(x, a, b, n).value, b)
    decreases n
  {
    if n == 0 {
      TypedSized(x, a, b);
      forall j, k | 0 <= j < k < |x| && x[j].len > 0 && x[k].len > 0
        ensures x[j].pos <= x[k].pos
      {
        OffMonotone(x, j, k);
      }
    } else {
      GatherTame(x, a, b, s, n - 1);
      BubbleTame(x, Gathered(x, a, b, n - 1).value, a, b, n - 1);
    }
  }

  /** If every extent that moves begins with its own line, the types stay right. */
  lemma SettledAllTyped(x: seq<Extent>, a: seq<int>, b: seq<int>, n: nat)
    requires n <= |x| && AllTyped(x, a, b) && Own(x, a, b, n) && AllSized(Settled(x, a, b, n), b)
    ensures AllTyped(Settled(x, a, b, n), a, b)
  {
    var y := Settled(x, a, b, n);
    SettledTyped(x, a, b, n);
    forall i | 0 <= i < |y|
      ensures Typed(y[i], a[i], b)
    {
      assert Sized(y[i], b);
    }
  }

  function Normalized(x: seq<Extent>, a: seq<int>, b: seq<int>): Option<seq<Extent>>
    requires |x| == |a|
  {
    var y :- Gathered(x, a, b, |x|);
    Some(Pulled(y, a, b, |y|))
  }

  /** Both loops of normalize_extents.  None is the failed check of the first. */
  method NormalizeExtents(extents: seq<Extent>, a: seq<int>, b: seq<int>, ghost s: nat) returns (x: Option<seq<Extent>>)
    requires AllTyped(extents, a, b) && AllInRange(extents, b) && InPlace(extents, s) && s <= |b|
    ensures x == Normalized(extents, a, b)
    ensures x.Some? ==> AllSized(x.value, b) && AllInRange(x.value, b) && |x.value| == |a|
    ensures x.Some? && Content(x.value, b) == Content(extents, b) <==> Own(extents, a, b, |extents|) && Agree(extents, a, b)
    ensures x.Some? ==> NoneLoose(x.value, |x.value|)
    ensures Own(extents, a, b, |extents|) ==> x.Some? && AllTyped(x.value, a, b)
    ensures (forall i :: 0 <= i < |extents| ==> extents[i].ty.Preserved?) ==> x == Some(extents)
  {
    hide Gathered, Content, AllTyped, AllSized, Own, Agree, InPlace;
    TypedInRange(extents, a, b);
    var y := GatherUp(extents, a, b);
    FirstLoop(extents, a, b, s);
    AllPreserved(extents, a, b, |extents|);
    if y.None? {
      return None;
    }
    var z := ShiftPieces(y.value, a, b);
    x := Some(z);
  }

  /** The first loop on extents in place. */
  lemma FirstLoop(x: seq<Extent>, a: seq<int>, b: seq<int>, s: nat)
    requires AllTyped(x, a, b) && AllInRange(x, b) && InPlace(x, s) && s <= |b|
    ensures var r := Gathered(x, a, b, |x|);
      && (r.Some? ==> AllSized(r.value, b) && AllInRange(r.value, b))
      && (r.Some? && Content(r.value, b) == Content(x, b) <==> Own(x, a, b, |x|) && Agree(x, a, b))
      && (Own(x, a, b, |x|) ==> r.Some? && AllTyped(r.value, a, b))
  {
    hide Gathered, Content, AllTyped, AllSized, Own, Agree, InPlace;
    TypedInRange(x, a, b);
    KeptExactly(x, a, b, s);
    if Gathered(x, a, b, |x|).Some? {
      GatherTame(x, a, b, s, |x|);
      SizedInRange(Gathered(x, a, b, |x|).value, b);
    }
    if Own(x, a, b, |x|) {
      GatherSettles(x, a, b, s, |x|);
      SettledAllTyped(x, a, b, |x|);
    }
  }

  lemma {:induction false} AllPreserved(x: seq<Extent>, a: seq<int>, b: seq<int>, n: nat)
    requires n <= |x| == |a|
    ensures (forall i :: 0 <= i < |x| ==> x[i].ty.Preserved?) ==> Gathered(x, a, b, n) == Some(x)
  {
    if n > 0 {
      AllPreserved(x, a, b, n - 1);
    }
  }
}
