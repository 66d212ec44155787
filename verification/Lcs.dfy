/**
 The outer layer of lcs.cc: distance first, then the script, then its ordering, and
 from the ordered script the longest common subsequence.
 */
module Lcs {
  import opened EditDistance
  import opened EditGrid
  import opened LcsSearch
  import opened LcsScript

  /** A script from all of a to all of b. */
  ghost predicate FullScript(e: seq<int>, a: seq<int>, b: seq<int>) {
    Script(e, a, b, 0, |a|, 0, |b|)
  }

  /** The edits of a full script, in any order. */
  ghost predicate FullEditSet(e: seq<int>, a: seq<int>, b: seq<int>) {
    EditSet(e, a, b, 0, |a|, 0, |b|)
  }

  // ------------------------------------------------------------------- sorting

  ghost predicate Ascending(s: seq<int>) {
    forall i, j :: 0 <= i < j < |s| ==> s[i] <= s[j]
  }

  function InsertSorted(x: int, s: seq<int>): (r: seq<int>)
    requires Ascending(s)
    ensures Ascending(r) && multiset(r) == multiset(s) + multiset{x}
  {
    if s == [] || x <= s[0] then [x] + s
    else
      var t := InsertSorted(x, s[1..]);
      InsertBelow(x, s, t);
      [s[0]] + t
  }

  lemma InsertBelow(x: int, s: seq<int>, t: seq<int>)
    requires s != [] && Ascending(s) && s[0] < x
    requires Ascending(t) && multiset(t) == multiset(s[1..]) + multiset{x}
    ensures Ascending([s[0]] + t) && multiset([s[0]] + t) == multiset(s) + multiset{x}
  {
    assert s == [s[0]] + s[1..];
    forall i | 0 <= i < |t|
      ensures s[0] <= t[i]
    {
      assert t[i] in multiset(t);
      assert t[i] == x || t[i] in s[1..];
    }
  }

  /** What std::sort leaves in the vector. */
  function Sort(s: seq<int>): (r: seq<int>)
    ensures Ascending(r) && multiset(r) == multiset(s) && |r| == |s|
  {
    if s == [] then []
    else
      assert s == [s[0]] + s[1..];
      var r := InsertSorted(s[0], Sort(s[1..]));
      assert |multiset(r)| == |r|;
      assert |multiset(s)| == |s|;
      r
  }

  // ---------------------------------------------------------------- diff_to_edits

  /** The edits for a file and one that is no shorter, as a function of the two. */
  ghost function EditsOf(a: seq<int>, b: seq<int>): seq<int> {
    EtScript(a, 0, |a|, b, 0, |b|, (Dist(a, b) - (|b| - |a|)) / 2)
  }

  method DiffToEdits(a: Subarray, m: int, b: Subarray, n: int, pLim: int) returns (edits: array<int>)
    requires Whole(a) && Whole(b) && m == a.Size() && n == b.Size()
    requires m <= n && m <= pLim
    ensures fresh(edits)
    ensures FullScript(edits[..], a.View(), b.View()) && edits.Length == Dist(a.View(), b.View())
    ensures edits[..] == EditsOf(a.View(), b.View())
  {
    hide Dist, Script, Sound, Settled, EtScript;
    ghost var va, vb := a.View(), b.View();
    assert va[0..m] == va && vb[0..n] == vb;
    DistBounds(va, vb);
    var costs := new int[m + n](_ => 0);
    var editDistance := Compare(costs, a, m, b, n, pLim, false);
    edits := new int[editDistance](_ => 0);
    LimitFromCost(a, 0, m, b, 0, n, editDistance);
    ghost var w;
    var cost;
    cost, w := DiffToEt(a, 0, m, b, 0, n, edits, 0, 1, (editDistance - (n - m)) / 2);
    assert cost == editDistance;
    assert edits[..] == w;
  }

  // ------------------------------------------------------------------ order_edits

  /** sedits holds e in ascending order, with its deletions below split. */
  ghost predicate SortedEdits(sedits: seq<int>, e: seq<int>, split: nat) {
    && Ascending(sedits) && multiset(sedits) == multiset(e) && split <= |sedits|
    && (forall i :: 0 <= i < |sedits| ==> if i < split then sedits[i] < 0 else sedits[i] > 0)
  }

  /** Exactly the deletions up to ddx lie at or after adx, and so for insertions. */
  ghost predicate Pending(sedits: seq<int>, split: nat, ddx: int, idx: int, adx: int, bdx: int) {
    && -1 <= ddx < split <= idx <= |sedits|
    && (forall i :: 0 <= i < split ==> (i <= ddx <==> adx <= -1 - sedits[i]))
    && (forall i :: split <= i < |sedits| ==> (idx <= i <==> bdx <= sedits[i] - 1))
  }

  lemma SameElements(s: seq<int>, t: seq<int>)
    requires multiset(s) == multiset(t)
    ensures forall x :: x in s <==> x in t
    ensures |s| == |t|
  {
    assert forall x :: x in s <==> x in multiset(s);
    assert forall x :: x in t <==> x in multiset(t);
    assert |multiset(s)| == |s| && |multiset(t)| == |t|;
  }

  /** A row is deleted exactly when it is the next pending deletion. */
  lemma DeletionReady(sedits: seq<int>, e: seq<int>, split: nat, ddx: int, idx: int, adx: nat, bdx: nat, n: nat)
    requires SortedEdits(sedits, e, split) && Pending(sedits, split, ddx, idx, adx, bdx) && adx < n
    ensures adx in Deleted(e, n) <==> ddx >= 0 && adx >= -1 - sedits[ddx]
    ensures adx in Deleted(e, n) ==> sedits[ddx] == -1 - adx
  {
    SameElements(sedits, e);
    if adx in Deleted(e, n) {
      assert DeletionOf(adx) in e;
      var i :| 0 <= i < |sedits| && sedits[i] == -1 - adx;
      assert i <= ddx;
      assert sedits[i] <= sedits[ddx] by { if i < ddx { assert Ascending(sedits); } }
    }
    if ddx >= 0 && adx >= -1 - sedits[ddx] {
      assert sedits[ddx] in sedits;
      assert DeletionOf(adx) in e;
    }
  }

  lemma InsertionReady(sedits: seq<int>, e: seq<int>, split: nat, ddx: int, idx: int, adx: nat, bdx: nat, n: nat)
    requires SortedEdits(sedits, e, split) && Pending(sedits, split, ddx, idx, adx, bdx) && bdx < n
    ensures bdx in Inserted(e, n) <==> idx < |sedits| && bdx >= -1 + sedits[idx]
    ensures bdx in Inserted(e, n) ==> sedits[idx] == bdx + 1
  {
    SameElements(sedits, e);
    if bdx in Inserted(e, n) {
      assert InsertionOf(bdx) in e;
      var i :| 0 <= i < |sedits| && sedits[i] == bdx + 1;
      assert idx <= i;
      assert sedits[idx] <= sedits[i] by { if idx < i { assert Ascending(sedits); } }
    }
    if idx < |sedits| && bdx >= -1 + sedits[idx] {
      assert sedits[idx] in sedits;
      assert InsertionOf(bdx) in e;
    }
  }

  lemma PendingKeep(sedits: seq<int>, split: nat, ddx: int, idx: int, adx: nat, bdx: nat)
    requires Ascending(sedits) && Pending(sedits, split, ddx, idx, adx, bdx)
    requires ddx >= 0 ==> adx < -1 - sedits[ddx]
    requires idx < |sedits| ==> bdx < -1 + sedits[idx]
    ensures Pending(sedits, split, ddx, idx, adx + 1, bdx + 1)
  {
  }

  lemma StrictlyAscending(sedits: seq<int>, e: seq<int>)
    requires Ascending(sedits) && multiset(sedits) == multiset(e) && Distinct(e)
    ensures forall i, j :: 0 <= i < j < |sedits| ==> sedits[i] < sedits[j]
  {
    forall i, j | 0 <= i < j < |sedits|
      ensures sedits[i] < sedits[j]
    {
      if sedits[i] == sedits[j] {
        MultiplicityTwo(sedits, i, j);
        MultiplicityOne(e, sedits[i]);
      }
    }
  }

  lemma MultiplicityTwo(s: seq<int>, i: int, j: int)
    requires 0 <= i < j < |s| && s[i] == s[j]
    ensures multiset(s)[s[i]] >= 2
  {
    assert s == s[..i] + [s[i]] + s[i + 1..j] + [s[j]] + s[j + 1..];
  }

  lemma {:induction false} MultiplicityOne(s: seq<int>, x: int)
    requires Distinct(s)
    ensures multiset(s)[x] <= 1
  {
    if s != [] {
      MultiplicityOne(s[1..], x);
      assert s == [s[0]] + s[1..];
      if x == s[0] {
        assert x !in s[1..];
        assert x !in multiset(s[1..]);
      }
    }
  }

  /** Nothing is pending once both files have been passed beyond their last edit. */
  lemma NothingPending(sedits: seq<int>, split: nat, ddx: int, idx: int, adx: nat, bdx: nat)
    requires Ascending(sedits) && sedits != [] && Pending(sedits, split, ddx, idx, adx, bdx)
    requires forall i :: 0 <= i < |sedits| ==> if i < split then sedits[i] < 0 else sedits[i] > 0
    requires sedits[|sedits| - 1] <= bdx && Max(0, -sedits[0]) <= adx
    ensures ddx == -1 && idx == |sedits|
  {
  }

  lemma NoEdits(e: seq<int>, a: seq<int>, b: seq<int>)
    requires FullEditSet(e, a, b) && e == []
    ensures FullScript([], a, b)
  {
    KeptAll(a, Deleted(e, |a|), 0, |a|);
    KeptAll(b, Inserted(e, |b|), 0, |b|);
  }

  lemma SortedRange(sedits: seq<int>, e: seq<int>, split: nat, a: seq<int>, b: seq<int>)
    requires FullEditSet(e, a, b) && SortedEdits(sedits, e, split)
    ensures forall i :: 0 <= i < split ==> 0 <= -1 - sedits[i] < |a|
    ensures forall i :: split <= i < |sedits| ==> 0 <= sedits[i] - 1 < |b|
  {
    SameElements(sedits, e);
    assert forall i :: 0 <= i < |sedits| ==> sedits[i] in sedits;
  }

  lemma PendingInitially(sedits: seq<int>, e: seq<int>, a: seq<int>, b: seq<int>, split: nat)
    requires FullEditSet(e, a, b) && SortedEdits(sedits, e, split)
    ensures Pending(sedits, split, split - 1, split, 0, 0)
  {
    SortedRange(sedits, e, split, a, b);
  }

  lemma SameHeadAndTail(x: int, s: seq<int>, y: int, t: seq<int>)
    requires [x] + s == [y] + t
    ensures x == y && s == t
  {
    assert ([x] + s)[0] == x && ([x] + s)[1..] == s && ([y] + t)[1..] == t;
  }

  /** The four cases of the alignment loop, and what each leaves to be aligned. */
  lemma OrderStep(sedits: seq<int>, e: seq<int>, split: nat, ddx: int, idx: int, adx: nat, bdx: nat, a: seq<int>, b: seq<int>)
    requires FullEditSet(e, a, b) && SortedEdits(sedits, e, split) && Pending(sedits, split, ddx, idx, adx, bdx)
    requires adx <= |a| && bdx <= |b| && sedits != []
    requires Kept(a, Deleted(e, |a|), adx, |a|) == Kept(b, Inserted(e, |b|), bdx, |b|)
    requires bdx < sedits[|sedits| - 1] || adx < Max(0, -sedits[0])
    ensures var readyDel := ddx >= 0 && adx >= -1 - sedits[ddx];
            var readyIns := idx < |sedits| && bdx >= -1 + sedits[idx];
            var adx' := if readyDel || !readyIns then adx + 1 else adx;
            var bdx' := if readyIns || !readyDel then bdx + 1 else bdx;
            && adx' <= |a| && bdx' <= |b|
            && (readyDel ==> sedits[ddx] == -1 - adx) && (readyIns ==> sedits[idx] == bdx + 1)
            && (!readyDel && !readyIns ==> a[adx] == b[bdx])
            && Pending(sedits, split, if readyDel then ddx - 1 else ddx, if readyIns then idx + 1 else idx, adx', bdx')
            && Kept(a, Deleted(e, |a|), adx', |a|) == Kept(b, Inserted(e, |b|), bdx', |b|)
  {
    SortedRange(sedits, e, split, a, b);
    if adx < |a| { DeletionReady(sedits, e, split, ddx, idx, adx, bdx, |a|); }
    if bdx < |b| { InsertionReady(sedits, e, split, ddx, idx, adx, bdx, |b|); }
    var readyDel := ddx >= 0 && adx >= -1 - sedits[ddx];
    var readyIns := idx < |sedits| && bdx >= -1 + sedits[idx];
    StrictlyAscending(sedits, e);
    if !readyDel && !readyIns {
      assert adx < |a| && bdx < |b|;
      SameHeadAndTail(a[adx], Kept(a, Deleted(e, |a|), adx + 1, |a|), b[bdx], Kept(b, Inserted(e, |b|), bdx + 1, |b|));
      PendingKeep(sedits, split, ddx, idx, adx, bdx);
    }
  }

  /** The window of edits already written grows by the entries at its two ends. */
  lemma WindowGrows(sedits: seq<int>, written: seq<int>, ddx: int, idx: int, left: bool, right: bool)
    requires -1 <= ddx < idx <= |sedits| && (left ==> 0 <= ddx) && (right ==> idx < |sedits|)
    requires multiset(written) == multiset(sedits[ddx + 1..idx])
    ensures left && right ==> multiset(written + [sedits[ddx]] + [sedits[idx]]) == multiset(sedits[ddx..idx + 1])
    ensures left && !right ==> multiset(written + [sedits[ddx]]) == multiset(sedits[ddx..idx])
    ensures !left && right ==> multiset(written + [sedits[idx]]) == multiset(sedits[ddx + 1..idx + 1])
  {
    if left {
      assert sedits[ddx..idx] == [sedits[ddx]] + sedits[ddx + 1..idx];
      if right { assert sedits[ddx..idx + 1] == sedits[ddx..idx] + [sedits[idx]]; }
    } else if right {
      assert sedits[ddx + 1..idx + 1] == sedits[ddx + 1..idx] + [sedits[idx]];
    }
  }

  /** Beyond the last edit both files carry on alike. */
  lemma OrderTail(w: seq<int>, sedits: seq<int>, e: seq<int>, split: nat, a: seq<int>, b: seq<int>, adx: nat, bdx: nat)
    requires SortedEdits(sedits, e, split) && Pending(sedits, split, -1, |sedits|, adx, bdx)
    requires adx <= |a| && bdx <= |b| && Script(w, a, b, 0, adx, 0, bdx)
    requires Kept(a, Deleted(e, |a|), adx, |a|) == Kept(b, Inserted(e, |b|), bdx, |b|)
    ensures FullScript(w, a, b)
  {
    forall k | adx <= k < |a|
      ensures k !in Deleted(e, |a|)
    {
      DeletionLate(sedits, e, split, adx, bdx, k);
    }
    forall k | bdx <= k < |b|
      ensures k !in Inserted(e, |b|)
    {
      InsertionLate(sedits, e, split, adx, bdx, k);
    }
    KeptAll(a, Deleted(e, |a|), adx, |a|);
    KeptAll(b, Inserted(e, |b|), bdx, |b|);
    ScriptConcat(w, [], a, b, 0, adx, |a|, 0, bdx, |b|);
    assert w + [] == w;
  }

  lemma DeletionLate(sedits: seq<int>, e: seq<int>, split: nat, adx: nat, bdx: nat, k: nat)
    requires SortedEdits(sedits, e, split) && Pending(sedits, split, -1, |sedits|, adx, bdx) && adx <= k
    ensures DeletionOf(k) !in e
  {
    SameElements(sedits, e);
  }

  lemma InsertionLate(sedits: seq<int>, e: seq<int>, split: nat, adx: nat, bdx: nat, k: nat)
    requires SortedEdits(sedits, e, split) && Pending(sedits, split, -1, |sedits|, adx, bdx) && bdx <= k
    ensures InsertionOf(k) !in e
  {
    SameElements(sedits, e);
  }

  /** The first loop of order_edits: how many of the sorted edits are deletions. */
  method SortedDeletions(sedits: seq<int>, ghost e: seq<int>, ghost a: seq<int>, ghost b: seq<int>) returns (idx0: int)
    requires FullEditSet(e, a, b) && Ascending(sedits) && multiset(sedits) == multiset(e)
    ensures 0 <= idx0 <= |sedits| && SortedEdits(sedits, e, idx0)
  {
    hide Kept, Dist;
    SameElements(sedits, e);
    assert forall i :: 0 <= i < |sedits| ==> sedits[i] in sedits;
    idx0 := 0;
    while idx0 < |sedits| && sedits[idx0] < 0
      invariant 0 <= idx0 <= |sedits| && forall i :: 0 <= i < idx0 ==> sedits[i] < 0
    {
      idx0 := idx0 + 1;
    }
  }

  /** How far the alignment has got: `written` is a script of the two prefixes. */
  ghost predicate Aligned(sedits: seq<int>, e: seq<int>, split: nat, ddx: int, idx: int, adx: int, bdx: int,
                          a: seq<int>, b: seq<int>, written: seq<int>) {
    && 0 <= adx <= |a| && 0 <= bdx <= |b|
    && Pending(sedits, split, ddx, idx, adx, bdx)
    && Kept(a, Deleted(e, |a|), adx, |a|) == Kept(b, Inserted(e, |b|), bdx, |b|)
    && Script(written, a, b, 0, adx, 0, bdx)
    && multiset(written) == multiset(sedits[ddx + 1..idx])
  }

  lemma AlignedInitially(sedits: seq<int>, e: seq<int>, split: nat, a: seq<int>, b: seq<int>)
    requires FullEditSet(e, a, b) && SortedEdits(sedits, e, split)
    ensures Aligned(sedits, e, split, split - 1, split, 0, 0, a, b, [])
  {
    PendingInitially(sedits, e, a, b, split);
    assert sedits[split..split] == [];
  }

  /** The entries about to be looked at have the sign the branches test for. */
  lemma AlignedBounds(sedits: seq<int>, e: seq<int>, split: nat, ddx: int, idx: int, adx: int, bdx: int,
                    a: seq<int>, b: seq<int>, written: seq<int>)
    requires FullEditSet(e, a, b) && SortedEdits(sedits, e, split) && sedits != []
    requires Aligned(sedits, e, split, ddx, idx, adx, bdx, a, b, written)
    requires bdx < sedits[|sedits| - 1] || adx < Max(0, -sedits[0])
    ensures -1 <= ddx < split <= idx <= |sedits| && 0 <= adx && 0 <= bdx
    ensures ddx >= 0 ==> sedits[ddx] < 0
    ensures idx < |sedits| ==> sedits[idx] > 0
  {
  }

  lemma AlignedBoth(sedits: seq<int>, e: seq<int>, split: nat, ddx: int, idx: int, adx: int, bdx: int,
                    a: seq<int>, b: seq<int>, written: seq<int>)
    requires FullEditSet(e, a, b) && SortedEdits(sedits, e, split) && sedits != []
    requires Aligned(sedits, e, split, ddx, idx, adx, bdx, a, b, written)
    requires bdx < sedits[|sedits| - 1] || adx < Max(0, -sedits[0])
    requires 0 <= ddx < |sedits| && adx >= -1 - sedits[ddx] && 0 <= idx < |sedits| && bdx >= -1 + sedits[idx]
    ensures Aligned(sedits, e, split, ddx - 1, idx + 1, adx + 1, bdx + 1, a, b, written + [sedits[ddx]] + [sedits[idx]])
  {
    hide Script, Kept;
    OrderStep(sedits, e, split, ddx, idx, adx, bdx, a, b);
    WindowGrows(sedits, written, ddx, idx, true, true);
    ScriptDelete(written, a, b, 0, adx, 0, bdx);
    ScriptInsert(written + [sedits[ddx]], a, b, 0, adx + 1, 0, bdx);
  }

  lemma AlignedDelete(sedits: seq<int>, e: seq<int>, split: nat, ddx: int, idx: int, adx: int, bdx: int,
                    a: seq<int>, b: seq<int>, written: seq<int>)
    requires FullEditSet(e, a, b) && SortedEdits(sedits, e, split) && sedits != []
    requires Aligned(sedits, e, split, ddx, idx, adx, bdx, a, b, written)
    requires bdx < sedits[|sedits| - 1] || adx < Max(0, -sedits[0])
    requires 0 <= ddx < |sedits| && adx >= -1 - sedits[ddx] && 0 <= idx && (idx < |sedits| ==> bdx < -1 + sedits[idx])
    ensures Aligned(sedits, e, split, ddx - 1, idx, adx + 1, bdx, a, b, written + [sedits[ddx]])
  {
    hide Script, Kept;
    OrderStep(sedits, e, split, ddx, idx, adx, bdx, a, b);
    WindowGrows(sedits, written, ddx, idx, true, false);
    ScriptDelete(written, a, b, 0, adx, 0, bdx);
  }

  lemma AlignedInsert(sedits: seq<int>, e: seq<int>, split: nat, ddx: int, idx: int, adx: int, bdx: int,
                    a: seq<int>, b: seq<int>, written: seq<int>)
    requires FullEditSet(e, a, b) && SortedEdits(sedits, e, split) && sedits != []
    requires Aligned(sedits, e, split, ddx, idx, adx, bdx, a, b, written)
    requires bdx < sedits[|sedits| - 1] || adx < Max(0, -sedits[0])
    requires ddx < |sedits| && (ddx >= 0 ==> adx < -1 - sedits[ddx]) && 0 <= idx < |sedits| && bdx >= -1 + sedits[idx]
    ensures Aligned(sedits, e, split, ddx, idx + 1, adx, bdx + 1, a, b, written + [sedits[idx]])
  {
    hide Script, Kept;
    OrderStep(sedits, e, split, ddx, idx, adx, bdx, a, b);
    WindowGrows(sedits, written, ddx, idx, false, true);
    ScriptInsert(written, a, b, 0, adx, 0, bdx);
  }

  lemma AlignedMatch(sedits: seq<int>, e: seq<int>, split: nat, ddx: int, idx: int, adx: int, bdx: int,
                    a: seq<int>, b: seq<int>, written: seq<int>)
    requires FullEditSet(e, a, b) && SortedEdits(sedits, e, split) && sedits != []
    requires Aligned(sedits, e, split, ddx, idx, adx, bdx, a, b, written)
    requires bdx < sedits[|sedits| - 1] || adx < Max(0, -sedits[0])
    requires ddx < |sedits| && (ddx >= 0 ==> adx < -1 - sedits[ddx])
    requires 0 <= idx && (idx < |sedits| ==> bdx < -1 + sedits[idx])
    ensures Aligned(sedits, e, split, ddx, idx, adx + 1, bdx + 1, a, b, written)
  {
    hide Script, Kept, SortedEdits, EditSet, Deleted, Inserted, Ascending, Pending;
    OrderStep(sedits, e, split, ddx, idx, adx, bdx, a, b);
    ScriptMatch(written, a, b, 0, adx, 0, bdx);
  }

  lemma AlignedDone(sedits: seq<int>, e: seq<int>, split: nat, ddx: int, idx: int, adx: int, bdx: int,
                    a: seq<int>, b: seq<int>, written: seq<int>)
    requires SortedEdits(sedits, e, split) && sedits != []
    requires Aligned(sedits, e, split, ddx, idx, adx, bdx, a, b, written)
    requires sedits[|sedits| - 1] <= bdx && Max(0, -sedits[0]) <= adx
    ensures |written| == |sedits| && multiset(written) == multiset(e) && FullScript(written, a, b)
  {
    hide Script, Kept;
    NothingPending(sedits, split, ddx, idx, adx, bdx);
    assert sedits[0..|sedits|] == sedits;
    OrderTail(written, sedits, e, split, a, b, adx, bdx);
    SameElements(written, sedits);
  }

  /** The alignment of sorted edits as a function: a deletion goes before an insertion at the same place. */
  function LaidOut(s: seq<int>, ddx: int, idx: int, adx: int, bdx: int): seq<int>
    requires s != [] && -1 <= ddx < |s| && 0 <= idx <= |s|
    decreases Max(0, Max(0, -s[0]) - adx) + Max(0, s[|s| - 1] - bdx) + (ddx + 1) + (|s| - idx)
  {
    if bdx >= s[|s| - 1] && adx >= Max(0, -s[0]) then [] else
      var del := if ddx < 0 then 0 else s[ddx];
      var ins := if idx >= |s| then 0 else s[idx];
      if del < 0 && adx >= -1 - del && ins > 0 && bdx >= -1 + ins then
        [del, ins] + LaidOut(s, ddx - 1, idx + 1, adx + 1, bdx + 1)
      else if del < 0 && adx >= -1 - del then [del] + LaidOut(s, ddx - 1, idx, adx + 1, bdx)
      else if ins > 0 && bdx >= -1 + ins then [ins] + LaidOut(s, ddx, idx + 1, adx, bdx + 1)
      else LaidOut(s, ddx, idx, adx + 1, bdx + 1)
  }

  lemma LaidOutNext(s: seq<int>, ddx: int, idx: int, adx: int, bdx: int, w: seq<int>)
    requires s != [] && -1 <= ddx < |s| && 0 <= idx <= |s|
    ensures var del, ins := if ddx < 0 then 0 else s[ddx], if idx >= |s| then 0 else s[idx];
      w + LaidOut(s, ddx, idx, adx, bdx) ==
        if bdx >= s[|s| - 1] && adx >= Max(0, -s[0]) then w
        else if del < 0 && adx >= -1 - del && ins > 0 && bdx >= -1 + ins then
          (w + [del] + [ins]) + LaidOut(s, ddx - 1, idx + 1, adx + 1, bdx + 1)
        else if del < 0 && adx >= -1 - del then (w + [del]) + LaidOut(s, ddx - 1, idx, adx + 1, bdx)
        else if ins > 0 && bdx >= -1 + ins then (w + [ins]) + LaidOut(s, ddx, idx + 1, adx, bdx + 1)
        else w + LaidOut(s, ddx, idx, adx + 1, bdx + 1)
  {
  }

  /** How many entries at the front are deletions. */
  function Negatives(s: seq<int>): (n: nat)
    ensures n <= |s|
  {
    if s == [] || s[0] >= 0 then 0 else 1 + Negatives(s[1..])
  }

  lemma {:induction false} NegativesAre(s: seq<int>, n: nat)
    requires n <= |s| && (forall i :: 0 <= i < n ==> s[i] < 0) && forall i :: n <= i < |s| ==> s[i] >= 0
    ensures Negatives(s) == n
  {
    if n > 0 {
      NegativesAre(s[1..], n - 1);
    }
  }

  /** Edits in alignment order. */
  function InOrder(edits: seq<int>): seq<int> {
    var s := Sort(edits);
    if s == [] then [] else LaidOut(s, Negatives(s) - 1, Negatives(s), 0, 0)
  }

  /** Lay a set of edits out in alignment order. */
  method OrderEdits(edits: seq<int>, sign: int, ghost a: seq<int>, ghost b: seq<int>) returns (nedits: array<int>)
    requires FullEditSet(edits, a, b)
    ensures fresh(nedits)
    ensures FullScript(nedits[..], a, b) && multiset(nedits[..]) == multiset(edits) && nedits[..] == InOrder(edits)
  {
    hide Dist, Script, Kept, Deleted, Inserted, LaidOut, Sort, Negatives, Ascending;
    nedits := new int[|edits|](_ => 0);
    if |edits| == 0 {
      NoEdits(edits, a, b);
      assert nedits[..] == [];
      return;
    }
    var sedits := Sort(edits);
    var idx0 := SortedDeletions(sedits, edits, a, b);
    NegativesAre(sedits, idx0);
    LayOut(sedits, idx0, nedits, edits, a, b);
  }

  /** The main loop of order_edits, over the sorted edits. */
  method LayOut(sedits: seq<int>, idx0: int, nedits: array<int>, ghost edits: seq<int>, ghost a: seq<int>, ghost b: seq<int>)
    requires FullEditSet(edits, a, b) && 0 <= idx0 <= |sedits| && SortedEdits(sedits, edits, idx0)
    requires sedits != [] && nedits.Length == |sedits|
    modifies nedits
    ensures FullScript(nedits[..], a, b) && multiset(nedits[..]) == multiset(edits)
    ensures nedits[..] == LaidOut(sedits, idx0 - 1, idx0, 0, 0)
  {
    hide Dist, Script, Kept, Aligned, EditSet, Pending, SortedEdits, Ascending, Deleted, Inserted, LaidOut;
    var cost := |sedits|;
    var lenA, lenB := Max(0, -sedits[0]), sedits[cost - 1];
    var ddx, idx, ndx, adx, bdx := idx0 - 1, idx0, 0, 0, 0;
    ghost var written := [];
    AlignedInitially(sedits, edits, idx0, a, b);
    while bdx < lenB || adx < lenA
      invariant -1 <= ddx < idx0 <= idx <= cost && ndx == idx - ddx - 1 && 0 <= adx && 0 <= bdx
      invariant Aligned(sedits, edits, idx0, ddx, idx, adx, bdx, a, b, written)
      invariant nedits[..ndx] == written
      invariant written + LaidOut(sedits, ddx, idx, adx, bdx) == LaidOut(sedits, idx0 - 1, idx0, 0, 0)
      decreases Max(0, lenA - adx) + Max(0, lenB - bdx) + (cost - ndx)
    {
      AlignedBounds(sedits, edits, idx0, ddx, idx, adx, bdx, a, b, written);
      LaidOutNext(sedits, ddx, idx, adx, bdx, written);
      var del := if ddx < 0 then 0 else sedits[ddx];
      var ins := if idx >= cost then 0 else sedits[idx];
      if del < 0 && adx >= -1 - del && ins > 0 && bdx >= -1 + ins {
        AlignedBoth(sedits, edits, idx0, ddx, idx, adx, bdx, a, b, written);
        nedits[ndx] := del;
        nedits[ndx + 1] := ins;
        written := written + [del] + [ins];
        assert nedits[..ndx + 2] == written;
        ddx, idx, ndx, adx, bdx := ddx - 1, idx + 1, ndx + 2, adx + 1, bdx + 1;
      } else if del < 0 && adx >= -1 - del {
        AlignedDelete(sedits, edits, idx0, ddx, idx, adx, bdx, a, b, written);
        nedits[ndx] := del;
        written := written + [del];
        assert nedits[..ndx + 1] == written;
        ddx, ndx, adx := ddx - 1, ndx + 1, adx + 1;
      } else if ins > 0 && bdx >= -1 + ins {
        AlignedInsert(sedits, edits, idx0, ddx, idx, adx, bdx, a, b, written);
        nedits[ndx] := ins;
        written := written + [ins];
        assert nedits[..ndx + 1] == written;
        idx, ndx, bdx := idx + 1, ndx + 1, bdx + 1;
      } else {
        AlignedMatch(sedits, edits, idx0, ddx, idx, adx, bdx, a, b, written);
        adx, bdx := adx + 1, bdx + 1;
      }
    }
    AlignedDone(sedits, edits, idx0, ddx, idx, adx, bdx, a, b, written);
    LaidOutNext(sedits, ddx, idx, adx, bdx, written);
    assert nedits[..ndx] == nedits[..];
  }

  // ----------------------------------------------------------------- edits_to_lcs

  /** No deletion before position edx of e lies at or after row adx, and none after lies before. */
  ghost predicate Passing(e: seq<int>, edx: nat, adx: nat) {
    && edx <= |e|
    && (forall i :: 0 <= i < |e| && e[i] < 0 ==> (edx <= i <==> adx <= -1 - e[i]))
  }

  lemma PassingDeleted(e: seq<int>, edx: nat, adx: nat, n: nat)
    requires Passing(e, edx, adx) && DeletionsAscend(e) && adx < n && 0 !in e
    ensures edx == |e| ==> adx !in Deleted(e, n) && Passing(e, edx, adx + 1)
    ensures edx < |e| ==> e[edx] != 0
    ensures edx < |e| && e[edx] > 0 ==> Passing(e, edx + 1, adx)
    ensures edx < |e| && e[edx] < 0 ==> (adx in Deleted(e, n) <==> adx >= -1 - e[edx])
    ensures edx < |e| && e[edx] < 0 && adx < -1 - e[edx] ==> Passing(e, edx, adx + 1)
  {
    assert edx < |e| ==> e[edx] in e;
    if adx in Deleted(e, n) {
      assert DeletionOf(adx) in e;
      var i :| 0 <= i < |e| && e[i] == -1 - adx;
    }
    if edx < |e| && e[edx] < 0 && adx >= -1 - e[edx] {
      assert e[edx] in e;
      assert DeletionOf(adx) in e;
    }
  }

  lemma KeptGrows(s: seq<int>, gone: set<int>, i: nat)
    requires i < |s|
    ensures Kept(s, gone, 0, i + 1) == Kept(s, gone, 0, i) + (if i in gone then [] else [s[i]])
    ensures |Kept(s, gone, 0, i + 1)| <= |Kept(s, gone, 0, |s|)|
  {
    KeptSplit(s, gone, 0, i, i + 1);
    KeptSplit(s, gone, 0, i + 1, |s|);
    assert Kept(s, gone, i + 1, i + 1) == [];
  }

  /** Copy out what an ordered script leaves of a. */
  method EditsToLcs(edits: seq<int>, a: Subarray, m: int, n: int, ghost vb: seq<int>) returns (lcs: array<int>)
    requires Whole(a) && m == a.Size() && n == |vb| && FullScript(edits, a.View(), vb)
    ensures fresh(lcs)
    ensures lcs[..] == Kept(a.View(), Deleted(edits, m), 0, m)
    ensures 2 * lcs.Length == m + n - |edits|
  {
    hide Dist, Script, Kept, Deleted;
    ghost var va := a.View();
    ghost var gone := Deleted(edits, m);
    ScriptEditSet(edits, va, vb, 0, m, 0, n);
    var edx, sdx, adx := 0, 0, 0;
    lcs := new int[((m + n) - |edits|) / 2](_ => 0);
    KeptNothing(va, gone);
    while true
      invariant 0 <= adx <= m && Passing(edits, edx, adx)
      invariant 0 <= sdx <= lcs.Length && lcs[..sdx] == Kept(va, gone, 0, adx)
      decreases (m - adx) + (|edits| - edx)
    {
      var edit := if edx < |edits| then edits[edx] else 0;
      if adx >= m {
        break;
      }
      PassingDeleted(edits, edx, adx, m);
      KeptGrows(va, gone, adx);
      if edit > 0 {
        edx := edx + 1;
      } else if edit == 0 {
        lcs[sdx] := a.At(adx);
        sdx, adx := sdx + 1, adx + 1;
      } else if adx >= -1 - edit {
        PassingDelete(edits, edx, adx);
        edx, adx := edx + 1, adx + 1;
      } else {
        lcs[sdx] := a.At(adx);
        sdx, adx := sdx + 1, adx + 1;
      }
    }
    assert lcs[..sdx] == lcs[..];
  }

  lemma KeptNothing(s: seq<int>, gone: set<int>)
    ensures Kept(s, gone, 0, 0) == []
  {
  }

  lemma PassingDelete(e: seq<int>, edx: nat, adx: nat)
    requires Passing(e, edx, adx) && DeletionsAscend(e) && edx < |e| && e[edx] < 0 && adx >= -1 - e[edx]
    ensures Passing(e, edx + 1, adx + 1)
  {
  }

  // -------------------------------------------------------------- the entry points

  /** Among all scripts from a to b, none is shorter. */
  ghost predicate MinimumScript(e: seq<int>, a: seq<int>, b: seq<int>) {
    FullScript(e, a, b) && forall f :: FullScript(f, a, b) ==> |e| <= |f|
  }

  ghost predicate LongestCommon(s: seq<int>, a: seq<int>, b: seq<int>) {
    && Subsequence(s, a) && Subsequence(s, b)
    && forall t :: Subsequence(t, a) && Subsequence(t, b) ==> |t| <= |s|
  }

  lemma DistanceIsMinimum(e: seq<int>, a: seq<int>, b: seq<int>)
    requires FullScript(e, a, b) && |e| == Dist(a, b)
    ensures MinimumScript(e, a, b)
  {
    assert a[0..|a|] == a && b[0..|b|] == b;
    forall f | FullScript(f, a, b)
      ensures |e| <= |f|
    {
      ScriptAtLeastDist(f, a, b, 0, |a|, 0, |b|);
    }
  }

  /** What a minimum script keeps is a longest common subsequence. */
  lemma KeptIsLongest(e: seq<int>, a: seq<int>, b: seq<int>)
    requires FullScript(e, a, b) && |e| == Dist(a, b)
    ensures LongestCommon(Kept(a, Deleted(e, |a|), 0, |a|), a, b)
  {
    ScriptEditSet(e, a, b, 0, |a|, 0, |b|);
    var s := Kept(a, Deleted(e, |a|), 0, |a|);
    KeptSubsequence(a, Deleted(e, |a|), |a|);
    KeptSubsequence(b, Inserted(e, |b|), |b|);
    assert a[..|a|] == a && b[..|b|] == b;
    forall t | Subsequence(t, a) && Subsequence(t, b)
      ensures |t| <= |s|
    {
      CommonSubsequenceBound(t, a, b);
    }
  }

  lemma Permuted(e: seq<int>, f: seq<int>)
    requires multiset(e) == multiset(f)
    ensures |e| == |f|
  {
    SameElements(e, f);
  }

  ghost function AsSubarray(a: seq<int>): (s: Subarray)
    ensures Whole(s) && s.View() == a && s.Size() == |a|
  {
    Subarray(a, 0, 0, |a|)
  }

  /** The one script, of all minimum ones, that is computed for two files. */
  ghost function ScriptFor(a: seq<int>, b: seq<int>): seq<int> {
    if |b| < |a| then Negate(InOrder(EditsOf(b, a))) else InOrder(EditsOf(a, b))
  }

  method EditScript(a: seq<int>, b: seq<int>, pLim: int) returns (editsOut: seq<int>)
    requires pLim >= Min(|a|, |b|)
    ensures MinimumScript(editsOut, a, b) && |editsOut| == Dist(a, b)
    ensures editsOut == ScriptFor(a, b)
  {
    hide Dist, Script, EditSet, EditsOf, InOrder;
    var lenA, lenB := |a|, |b|;
    var sa, sb := Subarray(a, 0, 0, lenA), Subarray(b, 0, 0, lenB);
    assert sa == AsSubarray(a) && sb == AsSubarray(b);
    if lenB < lenA {
      var edits := DiffToEdits(sb, lenB, sa, lenA, pLim);
      ScriptEditSet(edits[..], b, a, 0, lenB, 0, lenA);
      var ordered := OrderEdits(edits[..], -1, b, a);
      Permuted(ordered[..], edits[..]);
      ghost var script := ordered[..];
      var i := 0;
      while i < ordered.Length
        invariant 0 <= i <= ordered.Length == |script|
        invariant forall j :: 0 <= j < ordered.Length ==> ordered[j] == if j < i then -script[j] else script[j]
      {
        ordered[i] := ordered[i] * -1;
        i := i + 1;
      }
      editsOut := ordered[..];
      assert editsOut == Negate(script);
      ScriptSwap(script, b, a, 0, lenB, 0, lenA);
      DistSymmetric(a, b);
    } else {
      var edits := DiffToEdits(sa, lenA, sb, lenB, pLim);
      ScriptEditSet(edits[..], a, b, 0, lenA, 0, lenB);
      var ordered := OrderEdits(edits[..], 1, a, b);
      Permuted(ordered[..], edits[..]);
      editsOut := ordered[..];
    }
    DistanceIsMinimum(editsOut, a, b);
  }

  method LongestCommonSubsequence(a: seq<int>, b: seq<int>, pLim: int) returns (lcs: seq<int>)
    requires pLim >= Min(|a|, |b|)
    ensures LongestCommon(lcs, a, b) && 2 * |lcs| == |a| + |b| - Dist(a, b)
  {
    hide Dist, Script, EditSet;
    var lenA, lenB := |a|, |b|;
    var sa, sb := Subarray(a, 0, 0, lenA), Subarray(b, 0, 0, lenB);
    assert sa == AsSubarray(a) && sb == AsSubarray(b);
    if lenB < lenA {
      var edits := DiffToEdits(sb, lenB, sa, lenA, pLim);
      ScriptEditSet(edits[..], b, a, 0, lenB, 0, lenA);
      var ordered := OrderEdits(edits[..], -1, b, a);
      Permuted(ordered[..], edits[..]);
      var out := EditsToLcs(ordered[..], sb, lenB, lenA, a);
      KeptIsLongest(ordered[..], b, a);
      DistSymmetric(a, b);
      lcs := out[..];
    } else {
      var edits := DiffToEdits(sa, lenA, sb, lenB, pLim);
      ScriptEditSet(edits[..], a, b, 0, lenA, 0, lenB);
      var ordered := OrderEdits(edits[..], 1, a, b);
      Permuted(ordered[..], edits[..]);
      var out := EditsToLcs(ordered[..], sa, lenA, lenB, b);
      KeptIsLongest(ordered[..], a, b);
      lcs := out[..];
    }
  }
}
