/**
 The divide-and-conquer of lcs.cc that writes a minimum edit script into one shared
 vector of signed positions.
 */
module LcsScript {
  import opened EditDistance
  import opened EditGrid
  import opened LcsSearch
  import opened LcsSplit

  /** s with the entries from position i on overwritten by w. */
  function Splice(s: seq<int>, i: nat, w: seq<int>): (r: seq<int>)
    requires i + |w| <= |s|
    ensures |r| == |s|
  {
    s[..i] + w + s[i + |w|..]
  }

  lemma SpliceAppend(s: seq<int>, i: nat, w: seq<int>, v: seq<int>)
    requires i + |w| + |v| <= |s|
    ensures Splice(Splice(s, i, w), i + |w|, v) == Splice(s, i, w + v)
  {
  }

  lemma SpliceNothing(s: seq<int>, i: nat)
    requires i <= |s|
    ensures Splice(s, i, []) == s
  {
  }

  lemma SpliceOne(s: seq<int>, i: nat, w: seq<int>, x: int)
    requires i + |w| < |s|
    ensures Splice(s, i, w)[i + |w| := x] == Splice(s, i, w + [x])
  {
  }

  /** Entries as they are written under a polarity: swapped roles negate them. */
  function Oriented(w: seq<int>, polarity: int): (r: seq<int>)
    ensures |r| == |w|
  {
    if polarity == 1 then w else Negate(w)
  }

  lemma OrientedAppend(w: seq<int>, v: seq<int>, polarity: int)
    ensures Oriented(w + v, polarity) == Oriented(w, polarity) + Oriented(v, polarity)
  {
    assert Negate(w + v) == Negate(w) + Negate(v);
  }

  lemma OrientedSwap(w: seq<int>, polarity: int)
    requires polarity == 1 || polarity == -1
    ensures Oriented(Negate(w), polarity) == Oriented(w, -polarity)
  {
    assert Negate(Negate(w)) == w;
  }

  /** The whole of a file, as the recursion always receives it. */
  ghost predicate Whole(a: Subarray) {
    a.Valid() && a.start == 0 <= a.end
  }

  ghost predicate Region(s: int, e: int, n: int) {
    0 <= s <= e <= n
  }

  /** pLim is the number of deletions a least-cost script of the region makes. */
  ghost predicate ExactLimit(a: Subarray, sa: int, ea: int, b: Subarray, sb: int, eb: int, pLim: int) {
    && Whole(a) && Whole(b) && Region(sa, ea, a.Size()) && Region(sb, eb, b.Size())
    && Dist(a.View()[sa..ea], b.View()[sb..eb]) == (eb - sb) - (ea - sa) + 2 * pLim
  }

  lemma ExactLimitBounds(a: Subarray, sa: int, ea: int, b: Subarray, sb: int, eb: int, pLim: int)
    requires ExactLimit(a, sa, ea, b, sb, eb, pLim)
    ensures 0 <= pLim <= ea - sa && 0 <= pLim + ((eb - sb) - (ea - sa))
  {
    DistBounds(a.View()[sa..ea], b.View()[sb..eb]);
  }

  /** An exact limit from an exact cost: insertions and deletions pair up. */
  lemma LimitFromCost(a: Subarray, sa: int, ea: int, b: Subarray, sb: int, eb: int, cost: int)
    requires Whole(a) && Whole(b) && Region(sa, ea, a.Size()) && Region(sb, eb, b.Size())
    requires cost == Dist(a.View()[sa..ea], b.View()[sb..eb])
    ensures 0 <= cost - ((eb - sb) - (ea - sa))
    ensures ExactLimit(a, sa, ea, b, sb, eb, (cost - ((eb - sb) - (ea - sa))) / 2)
  {
    var va, vb := a.View()[sa..ea], b.View()[sb..eb];
    DistBounds(va, vb);
    var c := Common(va, vb);
  }

  /** w is a script of the region with as few edits as the distance. */
  ghost predicate Optimal(w: seq<int>, a: Subarray, sa: int, ea: int, b: Subarray, sb: int, eb: int)
    requires Whole(a) && Whole(b) && Region(sa, ea, a.Size()) && Region(sb, eb, b.Size())
  {
    && Script(w, a.View(), b.View(), sa, ea, sb, eb)
    && |w| == Dist(a.View()[sa..ea], b.View()[sb..eb])
  }

  // ------------------------------------- the script as a function of the files

  /** All of the rows deleted, and all of the columns inserted. */
  function Deletions(i: int, ie: int): seq<int> {
    if i <= ie then seq(ie - i, k => -1 - (i + k)) else []
  }

  function Insertions(j: int, je: int): seq<int> {
    if j <= je then seq(je - j, k => j + k + 1) else []
  }

  /** Lines of a are found in b as early as possible; what lies between is inserted. */
  ghost function InsertOnlyScript(a: seq<int>, i: int, ie: int, b: seq<int>, j: int, je: int): seq<int>
    requires 0 <= i <= ie <= |a| && 0 <= j <= je <= |b|
    decreases je - j
  {
    if j >= je then []
    else if i >= ie then Insertions(j, je)
    else if a[i] == b[j] then InsertOnlyScript(a, i + 1, ie, b, j + 1, je)
    else [j + 1] + InsertOnlyScript(a, i, ie, b, j + 1, je)
  }

  /** How much is alike at the ends; the heads leave a line on either side. */
  ghost function TailLength(a: seq<int>, i: int, ie: int, b: seq<int>, j: int, je: int): (n: nat)
    requires 0 <= i <= ie <= |a| && 0 <= j <= je <= |b|
    ensures n <= ie - i && n <= je - j
    decreases ie - i
  {
    if i < ie && j < je && a[ie - 1] == b[je - 1] then 1 + TailLength(a, i, ie - 1, b, j, je - 1) else 0
  }

  ghost function HeadLength(a: seq<int>, i: int, ilast: int, b: seq<int>, j: int, jlast: int): (n: nat)
    requires 0 <= i && ilast < |a| && 0 <= j && jlast < |b|
    ensures n > 0 ==> i + n <= ilast && j + n <= jlast
    decreases ilast - i
  {
    if i < ilast && j < jlast && a[i] == b[j] then 1 + HeadLength(a, i + 1, ilast, b, j + 1, jlast) else 0
  }

  ghost function EtScript(a: seq<int>, sa: int, ea: int, b: seq<int>, sb: int, eb: int, pLim: int): seq<int>
    requires Region(sa, ea, |a|) && Region(sb, eb, |b|)
    decreases (ea - sa) + (eb - sb), 2
  {
    var t := TailLength(a, sa, ea, b, sb, eb);
    var h := HeadLength(a, sa, ea - 1 - t, b, sb, eb - 1 - t);
    var delta := (eb - t - sb) - (ea - t - sa);
    if delta < 0 then Negate(EzScript(b, sb + h, eb - t, a, sa + h, ea - t, delta + pLim))
    else EzScript(a, sa + h, ea - t, b, sb + h, eb - t, pLim)
  }

  ghost function EzScript(a: seq<int>, sa: int, ea: int, b: seq<int>, sb: int, eb: int, pLim: int): seq<int>
    requires Region(sa, ea, |a|) && Region(sb, eb, |b|)
    decreases (ea - sa) + (eb - sb), 1
  {
    if pLim == 0 then if ea - sa == eb - sb then [] else InsertOnlyScript(a, sa, ea, b, sb, eb)
    else if ea - sa <= pLim then Deletions(sa, ea) + Insertions(sb, eb)
    else DivideScript(a, sa, ea, b, sb, eb, pLim)
  }

  ghost function DivideScript(a: seq<int>, sa: int, ea: int, b: seq<int>, sb: int, eb: int, pLim: int): seq<int>
    requires Region(sa, ea, |a|) && Region(sb, eb, |b|)
    decreases (ea - sa) + (eb - sb), 0
  {
    var midA, lenB := (sa + ea) / 2, eb - sb;
    if !(sa < midA < ea) then [] else
      var (split, estC, estR) := CutFor(a[sa..ea], b[sb..eb], midA - sa, pLim, 2 * pLim + (lenB - (ea - sa)));
      if !(0 <= split <= lenB) then [] else
        EtScript(a, sa, midA, b, sb, sb + split, (estC - (split - (midA - sa))) / 2)
        + EtScript(a, midA, ea, b, sb + split, eb, (estR - ((lenB - split) - (ea - midA))) / 2)
  }

  // -------------------------------------------------------------- the easy cases

  lemma ScriptMatch(w: seq<int>, a: seq<int>, b: seq<int>, i: nat, ie: nat, j: nat, je: nat)
    requires Script(w, a, b, i, ie, j, je) && ie < |a| && je < |b| && a[ie] == b[je]
    ensures Script(w, a, b, i, ie + 1, j, je + 1)
  {
    assert a[ie..ie + 1] == [a[ie]] && b[je..je + 1] == [b[je]];
    assert Script([], a, b, ie, ie + 1, je, je + 1);
    ScriptInRange(w, a, b, i, ie, j, je);
    ScriptConcat(w, [], a, b, i, ie, ie + 1, j, je, je + 1);
    assert w + [] == w;
  }

  lemma ScriptInsert(w: seq<int>, a: seq<int>, b: seq<int>, i: nat, ie: nat, j: nat, je: nat)
    requires Script(w, a, b, i, ie, j, je) && je < |b|
    ensures Script(w + [je + 1], a, b, i, ie, j, je + 1)
  {
    ScriptInRange(w, a, b, i, ie, j, je);
    assert Script([je + 1], a, b, ie, ie, je, je + 1) by {
      assert [je + 1][1..] == [];
    }
    ScriptConcat(w, [je + 1], a, b, i, ie, ie, j, je, je + 1);
  }

  lemma ScriptDelete(w: seq<int>, a: seq<int>, b: seq<int>, i: nat, ie: nat, j: nat, je: nat)
    requires Script(w, a, b, i, ie, j, je) && ie < |a|
    ensures Script(w + [-1 - ie], a, b, i, ie + 1, j, je)
  {
    ScriptInRange(w, a, b, i, ie, j, je);
    assert Script([-1 - ie], a, b, ie, ie + 1, je, je) by {
      assert [-1 - ie][1..] == [];
    }
    ScriptConcat(w, [-1 - ie], a, b, i, ie, ie + 1, j, je, je);
  }

  /** With no deletions, equal heads can be carried over and unequal ones mean an insertion. */
  lemma InsertOnlyStep(a: seq<int>, b: seq<int>)
    requires Dist(a, b) == |b| - |a| && a != [] && b != []
    ensures a[0] == b[0] ==> Dist(a[1..], b[1..]) == |b| - |a|
    ensures a[0] != b[0] ==> Dist(a, b[1..]) == |b| - 1 - |a|
  {
    assert a == [a[0]] + a[1..] && b == [b[0]] + b[1..];
    DistReverse(a, b);
    DistReverse(a[1..], b[1..]);
    DistReverse(a[1..], b);
    DistReverse(a, b[1..]);
    assert Init(Reverse(a)) == Reverse(a[1..]) && Init(Reverse(b)) == Reverse(b[1..]);
    DistBounds(a[1..], b);
  }

  lemma InsertOnlyRegion(a: seq<int>, i: nat, ie: nat, b: seq<int>, j: nat, je: nat)
    requires i <= ie <= |a| && j <= je <= |b| && Dist(a[i..ie], b[j..je]) == (je - j) - (ie - i)
    ensures j == je ==> i == ie
    ensures i < ie && j < je && a[i] == b[j] ==> Dist(a[i + 1..ie], b[j + 1..je]) == (je - j) - (ie - i)
    ensures i < ie && j < je && a[i] != b[j] ==> Dist(a[i..ie], b[j + 1..je]) == (je - j) - 1 - (ie - i)
  {
    hide Dist;
    var s, t := a[i..ie], b[j..je];
    DistBounds(s, t);
    if i < ie && j < je {
      assert s[1..] == a[i + 1..ie] && t[1..] == b[j + 1..je];
      InsertOnlyStep(s, t);
    }
  }

  /** Easy case 1: a is a subsequence of b, so only insertions are written. */
  method InsertOnly(a: Subarray, sa: int, ea: int, b: Subarray, sb: int, eb: int,
                    edits: array<int>, edx1: nat, polarity: int) returns (ghost w: seq<int>)
    requires ExactLimit(a, sa, ea, b, sb, eb, 0) && (polarity == 1 || polarity == -1)
    requires edx1 + ((eb - sb) - (ea - sa)) <= edits.Length
    modifies edits
    ensures Optimal(w, a, sa, ea, b, sb, eb)
    ensures edits[..] == Splice(old(edits[..]), edx1, Oriented(w, polarity))
    ensures w == InsertOnlyScript(a.View(), sa, ea, b.View(), sb, eb)
  {
    hide Dist, Script, InsertOnlyScript, Insertions;
    ghost var va, vb, edits0 := a.View(), b.View(), edits[..];
    var adx, bdx, edx0 := sa, sb, edx1;
    w := [];
    SpliceNothing(edits0, edx1);
    ScriptNothing(va, vb, sa, sb);
    ghost var filling := false;
    while true
      invariant sa <= adx <= ea && sb <= bdx <= eb && |w| == (bdx - sb) - (adx - sa) && edx0 == edx1 + |w|
      invariant Script(w, va, vb, sa, adx, sb, bdx)
      invariant Dist(va[adx..ea], vb[bdx..eb]) == (eb - bdx) - (ea - adx)
      invariant edx1 + |w| + (eb - bdx) - (ea - adx) <= edits.Length
      invariant edits[..] == Splice(edits0, edx1, Oriented(w, polarity))
      invariant w + InsertOnlyScript(va, adx, ea, vb, bdx, eb) == InsertOnlyScript(va, sa, ea, vb, sb, eb)
      decreases eb - bdx
    {
      InsertOnlyNext(va, adx, ea, vb, bdx, eb, w);
      InsertOnlyRegion(va, adx, ea, vb, bdx, eb);
      DistBounds(va[adx..ea], vb[bdx..eb]);
      if bdx >= eb {
        return;
      }
      if adx >= ea {
        w := FillInsertions(va, sa, ea, b, sb, bdx, eb, edits, edits0, edx1, edx0, polarity, w);
        return;
      }
      if a.At(adx) == b.At(bdx) {
        ScriptMatch(w, va, vb, sa, adx, sb, bdx);
        adx, bdx := adx + 1, bdx + 1;
      } else {
        WriteInsert(w, va, vb, sa, adx, sb, bdx, edits[..], edits0, edx1, polarity);
        edits[edx0] := polarity * (bdx + 1);
        w := w + [bdx + 1];
        bdx, edx0 := bdx + 1, edx0 + 1;
      }
    }
  }

  lemma InsertOnlyNext(a: seq<int>, i: int, ie: int, b: seq<int>, j: int, je: int, w: seq<int>)
    requires 0 <= i <= ie <= |a| && 0 <= j <= je <= |b|
    ensures var rest := InsertOnlyScript(a, i, ie, b, j, je);
      if j >= je then w + rest == w
      else if i >= ie then rest == Insertions(j, je)
      else if a[i] == b[j] then rest == InsertOnlyScript(a, i + 1, ie, b, j + 1, je)
      else w + rest == (w + [j + 1]) + InsertOnlyScript(a, i, ie, b, j + 1, je)
  {
  }

  lemma ScriptNothing(a: seq<int>, b: seq<int>, i: nat, j: nat)
    requires i <= |a| && j <= |b|
    ensures Script([], a, b, i, i, j, j)
  {
  }

  lemma OrientedOne(x: int, polarity: int)
    requires polarity == 1 || polarity == -1
    ensures Oriented([x], polarity) == [polarity * x]
  {
  }

  lemma WriteInsert(w: seq<int>, a: seq<int>, b: seq<int>, i: nat, ie: nat, j: nat, je: nat,
                    now: seq<int>, before: seq<int>, edx: nat, polarity: int)
    requires Script(w, a, b, i, ie, j, je) && je < |b| && (polarity == 1 || polarity == -1)
    requires edx + |w| < |before| && now == Splice(before, edx, Oriented(w, polarity))
    ensures Script(w + [je + 1], a, b, i, ie, j, je + 1)
    ensures now[edx + |w| := polarity * (je + 1)] == Splice(before, edx, Oriented(w + [je + 1], polarity))
  {
    ScriptInsert(w, a, b, i, ie, j, je);
    OrientedAppend(w, [je + 1], polarity);
    OrientedOne(je + 1, polarity);
    SpliceOne(before, edx, Oriented(w, polarity), polarity * (je + 1));
  }

  lemma WriteDelete(w: seq<int>, a: seq<int>, b: seq<int>, i: nat, ie: nat, j: nat, je: nat,
                    now: seq<int>, before: seq<int>, edx: nat, polarity: int)
    requires Script(w, a, b, i, ie, j, je) && ie < |a| && (polarity == 1 || polarity == -1)
    requires edx + |w| < |before| && now == Splice(before, edx, Oriented(w, polarity))
    ensures Script(w + [-1 - ie], a, b, i, ie + 1, j, je)
    ensures now[edx + |w| := polarity * (-1 - ie)] == Splice(before, edx, Oriented(w + [-1 - ie], polarity))
  {
    ScriptDelete(w, a, b, i, ie, j, je);
    OrientedAppend(w, [-1 - ie], polarity);
    OrientedOne(-1 - ie, polarity);
    SpliceOne(before, edx, Oriented(w, polarity), polarity * (-1 - ie));
  }

  /** Write insertions of b[bdx..eb] after the entries w already written. */
  method FillInsertions(ghost va: seq<int>, ghost sa: nat, ghost ea: nat, b: Subarray, ghost sb: nat, bdx: nat, eb: nat,
                        edits: array<int>, ghost edits0: seq<int>, ghost edx1: nat, edx0: nat, polarity: int,
                        ghost w0: seq<int>) returns (ghost w: seq<int>)
    requires Whole(b) && bdx <= eb <= b.Size() && (polarity == 1 || polarity == -1)
    requires Script(w0, va, b.View(), sa, ea, sb, bdx)
    requires edx0 == edx1 + |w0| && edx0 + (eb - bdx) <= edits.Length == |edits0|
    requires edits[..] == Splice(edits0, edx1, Oriented(w0, polarity))
    modifies edits
    ensures |w| == |w0| + (eb - bdx) && Script(w, va, b.View(), sa, ea, sb, eb)
    ensures w == w0 + Insertions(bdx, eb)
    ensures edits[..] == Splice(edits0, edx1, Oriented(w, polarity))
  {
    hide Script, Insertions, Splice, Oriented;
    w := w0;
    assert w0 + Insertions(bdx, bdx) == w0 by { InsertionsNext(bdx, bdx, w0); }
    var idx, edx := bdx, edx0;
    while idx < eb
      invariant bdx <= idx <= eb && |w| == |w0| + (idx - bdx) && edx == edx1 + |w|
      invariant Script(w, va, b.View(), sa, ea, sb, idx) && w == w0 + Insertions(bdx, idx)
      invariant edits[..] == Splice(edits0, edx1, Oriented(w, polarity))
    {
      WriteInsert(w, va, b.View(), sa, ea, sb, idx, edits[..], edits0, edx1, polarity);
      InsertionsNext(bdx, idx, w0);
      edits[edx] := polarity * (idx + 1);
      w := w + [idx + 1];
      idx, edx := idx + 1, edx + 1;
    }
  }

  lemma InsertionsNext(j: int, je: int, w: seq<int>)
    requires j <= je
    ensures w + Insertions(j, j) == w && w + Insertions(j, je + 1) == w + Insertions(j, je) + [je + 1]
  {
  }

  /** Easy case 2: nothing is kept; delete all of a, then insert all of b. */
  method ReplaceAll(a: Subarray, sa: int, ea: int, b: Subarray, sb: int, eb: int,
                    edits: array<int>, edx1: nat, polarity: int) returns (ghost w: seq<int>)
    requires ExactLimit(a, sa, ea, b, sb, eb, ea - sa) && (polarity == 1 || polarity == -1)
    requires edx1 + (ea - sa) + (eb - sb) <= edits.Length
    modifies edits
    ensures Optimal(w, a, sa, ea, b, sb, eb) && w == Deletions(sa, ea) + Insertions(sb, eb)
    ensures edits[..] == Splice(old(edits[..]), edx1, Oriented(w, polarity))
  {
    hide Dist, Script;
    ghost var va, vb, edits0 := a.View(), b.View(), edits[..];
    w := [];
    SpliceNothing(edits0, edx1);
    ScriptNothing(va, vb, sa, sb);
    var edx0, idx := edx1, sa;
    while idx < ea
      invariant sa <= idx <= ea && |w| == idx - sa && edx0 == edx1 + |w|
      invariant Script(w, va, vb, sa, idx, sb, sb) && w == Deletions(sa, idx)
      invariant edits[..] == Splice(edits0, edx1, Oriented(w, polarity))
    {
      WriteDelete(w, va, vb, sa, idx, sb, sb, edits[..], edits0, edx1, polarity);
      edits[edx0] := polarity * (-1 - idx);
      w := w + [-1 - idx];
      idx, edx0 := idx + 1, edx0 + 1;
    }
    w := FillInsertions(va, sa, ea, b, sb, sb, eb, edits, edits0, edx1, edx0, polarity, w);
  }

  // ------------------------------------------------------------- the recursion

  /** Trim what both ends share, then go on with the shorter side as a. */
  method DiffToEt(a: Subarray, sa: int, ea: int, b: Subarray, sb: int, eb: int,
                  edits: array<int>, edx: nat, polarity: int, pLim: int)
    returns (cost: nat, ghost w: seq<int>)
    requires ExactLimit(a, sa, ea, b, sb, eb, pLim) && (polarity == 1 || polarity == -1)
    requires edx + Dist(a.View()[sa..ea], b.View()[sb..eb]) <= edits.Length
    modifies edits
    ensures cost == Dist(a.View()[sa..ea], b.View()[sb..eb]) == |w|
    ensures Optimal(w, a, sa, ea, b, sb, eb)
    ensures edits[..] == Splice(old(edits[..]), edx, Oriented(w, polarity))
    ensures w == EtScript(a.View(), sa, ea, b.View(), sb, eb, pLim)
    decreases (ea - sa) + (eb - sb), 2
  {
    hide Dist, Script, EzScript, TailLength, HeadLength;
    ExactLimitBounds(a, sa, ea, b, sb, eb, pLim);
    assert ea - sa >= pLim;
    var asx, adx, bsx, bdx := Trim(a, sa, ea, b, sb, eb);
    TrimmedLimit(a, sa, asx, adx + 1, ea, b, sb, bsx, bdx + 1, eb, pLim);
    var delta := (bdx - bsx) - (adx - asx);
    if delta < 0 {
      SwappedLimit(a, asx, adx + 1, b, bsx, bdx + 1, pLim);
      ghost var swapped;
      cost, swapped := DiffToEz(b, bsx, bdx + 1, a, asx, adx + 1, edits, edx, -polarity, delta + pLim);
      SwappedScript(swapped, a, asx, adx + 1, b, bsx, bdx + 1, polarity);
      w := Negate(swapped);
    } else {
      cost, w := DiffToEz(a, asx, adx + 1, b, bsx, bdx + 1, edits, edx, polarity, pLim);
    }
    UntrimmedScript(w, a, sa, asx, adx + 1, ea, b, sb, bsx, bdx + 1, eb);
  }

  /** Skip the common tail, then the common head of what is left. */
  method Trim(a: Subarray, sa: int, ea: int, b: Subarray, sb: int, eb: int)
    returns (asx: int, adx: int, bsx: int, bdx: int)
    requires Whole(a) && Whole(b) && Region(sa, ea, a.Size()) && Region(sb, eb, b.Size())
    ensures sa <= asx <= adx + 1 <= ea && sb <= bsx <= bdx + 1 <= eb
    ensures Carried(a.View(), sa, asx, b.View(), sb, bsx)
    ensures Carried(a.View(), adx + 1, ea, b.View(), bdx + 1, eb)
    ensures var t := TailLength(a.View(), sa, ea, b.View(), sb, eb);
      && adx == ea - 1 - t && bdx == eb - 1 - t
      && asx - sa == bsx - sb == HeadLength(a.View(), sa, ea - 1 - t, b.View(), sb, eb - 1 - t)
  {
    hide Carried, TailLength, HeadLength;
    adx, bdx := TrimTail(a, sa, ea, b, sb, eb);
    asx, bsx := TrimHead(a, sa, adx, b, sb, bdx);
  }

  method TrimTail(a: Subarray, sa: int, ea: int, b: Subarray, sb: int, eb: int) returns (adx: int, bdx: int)
    requires Whole(a) && Whole(b) && Region(sa, ea, a.Size()) && Region(sb, eb, b.Size())
    ensures sa <= adx + 1 <= ea && sb <= bdx + 1 <= eb && Carried(a.View(), adx + 1, ea, b.View(), bdx + 1, eb)
    ensures ea - 1 - adx == eb - 1 - bdx == TailLength(a.View(), sa, ea, b.View(), sb, eb)
  {
    hide Carried, TailLength;
    ghost var va, vb := a.View(), b.View();
    bdx, adx := eb - 1, ea - 1;
    CarriedEmpty(va, ea, vb, eb);
    while sb <= bdx && sa <= adx && a.At(adx) == b.At(bdx)
      invariant sa - 1 <= adx < ea && sb - 1 <= bdx < eb
      invariant Carried(va, adx + 1, ea, vb, bdx + 1, eb) && ea - adx == eb - bdx
      invariant TailLength(va, sa, ea, vb, sb, eb) == ea - 1 - adx + TailLength(va, sa, adx + 1, vb, sb, bdx + 1)
    {
      TailNext(va, sa, adx + 1, vb, sb, bdx + 1);
      CarriedGrowLeft(va, adx + 1, ea, vb, bdx + 1, eb);
      bdx, adx := bdx - 1, adx - 1;
    }
    TailNext(va, sa, adx + 1, vb, sb, bdx + 1);
  }

  method TrimHead(a: Subarray, sa: int, adx: int, b: Subarray, sb: int, bdx: int) returns (asx: int, bsx: int)
    requires Whole(a) && Whole(b) && 0 <= sa <= adx + 1 <= a.Size() && 0 <= sb <= bdx + 1 <= b.Size()
    ensures sa <= asx <= adx + 1 && sb <= bsx <= bdx + 1 && Carried(a.View(), sa, asx, b.View(), sb, bsx)
    ensures asx - sa == bsx - sb == HeadLength(a.View(), sa, adx, b.View(), sb, bdx)
  {
    hide Carried, HeadLength;
    ghost var va, vb := a.View(), b.View();
    bsx, asx := sb, sa;
    CarriedEmpty(va, sa, vb, sb);
    while bsx < bdx && asx < adx && a.At(asx) == b.At(bsx)
      invariant sa <= asx <= Max(sa, adx) && sb <= bsx <= Max(sb, bdx)
      invariant Carried(va, sa, asx, vb, sb, bsx) && asx - sa == bsx - sb
      invariant HeadLength(va, sa, adx, vb, sb, bdx) == asx - sa + HeadLength(va, asx, adx, vb, bsx, bdx)
    {
      HeadNext(va, asx, adx, vb, bsx, bdx);
      CarriedGrowRight(va, sa, asx, vb, sb, bsx);
      bsx, asx := bsx + 1, asx + 1;
    }
    HeadNext(va, asx, adx, vb, bsx, bdx);
  }

  lemma TailNext(a: seq<int>, i: int, ie: int, b: seq<int>, j: int, je: int)
    requires 0 <= i <= ie <= |a| && 0 <= j <= je <= |b|
    ensures TailLength(a, i, ie, b, j, je) ==
      if i < ie && j < je && a[ie - 1] == b[je - 1] then 1 + TailLength(a, i, ie - 1, b, j, je - 1) else 0
  {
  }

  lemma HeadNext(a: seq<int>, i: int, ilast: int, b: seq<int>, j: int, jlast: int)
    requires 0 <= i && ilast < |a| && 0 <= j && jlast < |b|
    ensures HeadLength(a, i, ilast, b, j, jlast) ==
      if i < ilast && j < jlast && a[i] == b[j] then 1 + HeadLength(a, i + 1, ilast, b, j + 1, jlast) else 0
  {
  }

  lemma CarriedEmpty(a: seq<int>, i: nat, b: seq<int>, j: nat)
    requires i <= |a| && j <= |b|
    ensures Carried(a, i, i, b, j, j)
  {
  }

  lemma CarriedGrowLeft(a: seq<int>, i: nat, ie: int, b: seq<int>, j: nat, je: int)
    requires Carried(a, i, ie, b, j, je) && 0 < i && 0 < j && a[i - 1] == b[j - 1]
    ensures Carried(a, i - 1, ie, b, j - 1, je)
  {
    assert a[i - 1..ie] == [a[i - 1]] + a[i..ie] && b[j - 1..je] == [b[j - 1]] + b[j..je];
  }

  lemma CarriedGrowRight(a: seq<int>, i: nat, ie: int, b: seq<int>, j: nat, je: int)
    requires Carried(a, i, ie, b, j, je) && ie < |a| && je < |b| && a[ie] == b[je]
    ensures Carried(a, i, ie + 1, b, j, je + 1)
  {
    assert a[i..ie + 1] == a[i..ie] + [a[ie]] && b[j..je + 1] == b[j..je] + [b[je]];
  }

  lemma TrimmedDist(a: seq<int>, sa: nat, ta: nat, ua: nat, ea: nat, b: seq<int>, sb: nat, tb: nat, ub: nat, eb: nat)
    requires sa <= ta <= ua <= ea <= |a| && sb <= tb <= ub <= eb <= |b|
    requires Carried(a, sa, ta, b, sb, tb) && Carried(a, ua, ea, b, ub, eb)
    ensures Dist(a[sa..ea], b[sb..eb]) == Dist(a[ta..ua], b[tb..ub])
  {
    hide Dist;
    SliceSplit(a, sa, ta, ua);
    SliceSplit(a, sa, ua, ea);
    SliceSplit(b, sb, tb, ub);
    SliceSplit(b, sb, ub, eb);
    DistTrim(a[sa..ta], a[ta..ua], b[tb..ub], a[ua..ea]);
  }

  lemma TrimmedLimit(a: Subarray, sa: int, ta: int, ua: int, ea: int, b: Subarray, sb: int, tb: int, ub: int, eb: int, pLim: int)
    requires ExactLimit(a, sa, ea, b, sb, eb, pLim)
    requires sa <= ta <= ua <= ea && sb <= tb <= ub <= eb
    requires Carried(a.View(), sa, ta, b.View(), sb, tb) && Carried(a.View(), ua, ea, b.View(), ub, eb)
    ensures ExactLimit(a, ta, ua, b, tb, ub, pLim)
    ensures Dist(a.View()[ta..ua], b.View()[tb..ub]) == Dist(a.View()[sa..ea], b.View()[sb..eb])
  {
    hide Dist;
    TrimmedDist(a.View(), sa, ta, ua, ea, b.View(), sb, tb, ub, eb);
    CarriedLength(a.View(), sa, ta, b.View(), sb, tb);
    CarriedLength(a.View(), ua, ea, b.View(), ub, eb);
  }

  lemma SwappedLimit(a: Subarray, sa: int, ea: int, b: Subarray, sb: int, eb: int, pLim: int)
    requires ExactLimit(a, sa, ea, b, sb, eb, pLim)
    ensures ExactLimit(b, sb, eb, a, sa, ea, (eb - sb) - (ea - sa) + pLim)
    ensures Dist(a.View()[sa..ea], b.View()[sb..eb]) == Dist(b.View()[sb..eb], a.View()[sa..ea])
  {
    DistSymmetric(a.View()[sa..ea], b.View()[sb..eb]);
  }

  lemma SwappedScript(w: seq<int>, a: Subarray, sa: int, ea: int, b: Subarray, sb: int, eb: int, polarity: int)
    requires Whole(a) && Whole(b) && Region(sa, ea, a.Size()) && Region(sb, eb, b.Size())
    requires polarity == 1 || polarity == -1
    requires Optimal(w, b, sb, eb, a, sa, ea)
    ensures Optimal(Negate(w), a, sa, ea, b, sb, eb)
    ensures Oriented(Negate(w), polarity) == Oriented(w, -polarity)
  {
    hide Dist, Script;
    ScriptSwap(w, b.View(), a.View(), sb, eb, sa, ea);
    DistSymmetric(a.View()[sa..ea], b.View()[sb..eb]);
    OrientedSwap(w, polarity);
  }

  lemma UntrimmedScript(w: seq<int>, a: Subarray, sa: int, ta: int, ua: int, ea: int,
                        b: Subarray, sb: int, tb: int, ub: int, eb: int)
    requires Whole(a) && Whole(b) && Region(sa, ea, a.Size()) && Region(sb, eb, b.Size())
    requires sa <= ta <= ua <= ea && sb <= tb <= ub <= eb
    requires Carried(a.View(), sa, ta, b.View(), sb, tb) && Carried(a.View(), ua, ea, b.View(), ub, eb)
    requires Optimal(w, a, ta, ua, b, tb, ub)
    ensures Optimal(w, a, sa, ea, b, sb, eb)
  {
    hide Dist;
    var va, vb := a.View(), b.View();
    TrimmedDist(va, sa, ta, ua, ea, vb, sb, tb, ub, eb);
    ScriptConcat([], w, va, vb, sa, ta, ua, sb, tb, ub);
    assert [] + w == w;
    ScriptConcat(w, [], va, vb, sa, ua, ea, sb, ub, eb);
    assert w + [] == w;
  }

  /** One of the two easy cases, or a cut into two halves. */
  method DiffToEz(a: Subarray, sa: int, ea: int, b: Subarray, sb: int, eb: int,
                  edits: array<int>, edx1: nat, polarity: int, pLim: int)
    returns (cost: nat, ghost w: seq<int>)
    requires ExactLimit(a, sa, ea, b, sb, eb, pLim) && (polarity == 1 || polarity == -1)
    requires ea - sa <= eb - sb
    requires edx1 + Dist(a.View()[sa..ea], b.View()[sb..eb]) <= edits.Length
    modifies edits
    ensures cost == Dist(a.View()[sa..ea], b.View()[sb..eb]) == |w|
    ensures Optimal(w, a, sa, ea, b, sb, eb)
    ensures edits[..] == Splice(old(edits[..]), edx1, Oriented(w, polarity))
    ensures w == EzScript(a.View(), sa, ea, b.View(), sb, eb, pLim)
    decreases (ea - sa) + (eb - sb), 1
  {
    hide Dist, Script, InsertOnlyScript, Deletions, Insertions, DivideScript;
    ExactLimitBounds(a, sa, ea, b, sb, eb, pLim);
    var lenA, lenB := ea - sa, eb - sb;
    if pLim == 0 {
      if lenA == lenB {
        EqualRegions(a, sa, ea, b, sb, eb);
        SpliceNothing(edits[..], edx1);
        return 0, [];
      }
      w := InsertOnly(a, sa, ea, b, sb, eb, edits, edx1, polarity);
      cost := lenB - lenA;
    } else if lenA <= pLim {
      assert lenA == pLim;
      w := ReplaceAll(a, sa, ea, b, sb, eb, edits, edx1, polarity);
      cost := lenA + lenB;
    } else {
      cost, w := DivideAndConquer(a, sa, ea, b, sb, eb, edits, edx1, polarity, pLim);
    }
  }

  lemma EqualRegions(a: Subarray, sa: int, ea: int, b: Subarray, sb: int, eb: int)
    requires ExactLimit(a, sa, ea, b, sb, eb, 0) && ea - sa == eb - sb
    ensures Optimal([], a, sa, ea, b, sb, eb) && Oriented([], 1) == [] && Oriented([], -1) == []
  {
    DistZero(a.View()[sa..ea], b.View()[sb..eb]);
  }

  /** Cut a in the middle and b where the two scans say the halves are cheapest. */
  method DivideAndConquer(a: Subarray, sa: int, ea: int, b: Subarray, sb: int, eb: int,
                          edits: array<int>, edx: nat, polarity: int, pLim: int)
    returns (cost: nat, ghost w: seq<int>)
    requires ExactLimit(a, sa, ea, b, sb, eb, pLim) && (polarity == 1 || polarity == -1)
    requires 0 < pLim < ea - sa <= eb - sb
    requires edx + Dist(a.View()[sa..ea], b.View()[sb..eb]) <= edits.Length
    modifies edits
    ensures cost == Dist(a.View()[sa..ea], b.View()[sb..eb]) == |w|
    ensures Optimal(w, a, sa, ea, b, sb, eb)
    ensures edits[..] == Splice(old(edits[..]), edx, Oriented(w, polarity))
    ensures w == DivideScript(a.View(), sa, ea, b.View(), sb, eb, pLim)
    decreases (ea - sa) + (eb - sb), 0
  {
    hide Dist, Script, Splice, Oriented, CutFor, EtScript;
    var midA := (sa + ea) / 2;
    var lenB, lenA := eb - sb, ea - sa;
    var tcst := 2 * pLim + (lenB - lenA);
    var split, estC, estR := ChooseCut(a, sa, midA, ea, b, sb, eb, pLim, tcst);

    LimitFromCost(a, sa, midA, b, sb, sb + split, estC);
    ghost var w1;
    var costC;
    costC, w1 := DiffToEt(a, sa, midA, b, sb, sb + split, edits, edx, polarity, (estC - (split - (midA - sa))) / 2);
    assert costC == estC;
    ghost var edits0 := old(edits[..]);

    LimitFromCost(a, midA, ea, b, sb + split, eb, estR);
    ghost var w2;
    var costR;
    costR, w2 := DiffToEt(a, midA, ea, b, sb + split, eb, edits, estC + edx, polarity,
                          (estR - ((lenB - split) - (ea - midA))) / 2);
    assert costR == estR;

    w := w1 + w2;
    cost := estR + estC;
    ScriptConcat(w1, w2, a.View(), b.View(), sa, midA, ea, sb, sb + split, eb);
    OrientedAppend(w1, w2, polarity);
    SpliceAppend(edits0, edx, Oriented(w1, polarity), Oriented(w2, polarity));
  }

  /** The cut as a function of the two regions: where it is, and what the scans say of the two halves. */
  ghost function CutFor(a: seq<int>, b: seq<int>, m: nat, pLim: int, tcst: int): (int, int, int)
    requires m <= |a|
  {
    var top := seq(|b| + 1, _ => |a| + |b|);
    var cc, rr := ScanCosts(a[..m], b, Min(pLim, |a|), top), ScanCosts(Reverse(a[m..]), Reverse(b), Min(pLim, |a|), top);
    var split := MidCut(cc, rr, |b|, tcst, |b| / 2, 1 + |b| / 2);
    if 0 <= split < |cc| && 0 <= |b| - split < |rr| then (split, cc[split], rr[|b| - split]) else (0, 0, 0)
  }

  /** The two scans and the search for a cut whose recorded costs reach the optimum. */
  method ChooseCut(a: Subarray, sa: int, midA: int, ea: int, b: Subarray, sb: int, eb: int, pLim: int, tcst: int)
    returns (split: nat, estC: nat, estR: nat)
    requires ExactLimit(a, sa, ea, b, sb, eb, pLim) && sa <= midA <= ea && 0 < pLim < ea - sa <= eb - sb
    requires tcst == Dist(a.View()[sa..ea], b.View()[sb..eb])
    ensures split <= eb - sb && estC + estR == tcst
    ensures estC == Dist(a.View()[sa..midA], b.View()[sb..sb + split])
    ensures estR == Dist(a.View()[midA..ea], b.View()[sb + split..eb])
    ensures (split, estC, estR) == CutFor(a.View()[sa..ea], b.View()[sb..eb], midA - sa, pLim, tcst)
  {
    hide Dist, Settled, Grid, Sound, GoodCut, ScanCosts, MidCut;
    ghost var va, vb := a.View()[sa..ea], b.View()[sb..eb];
    var lenB, lenA := eb - sb, ea - sa;
    ghost var m := midA - sa;
    SubsetView(a, sa, midA);
    SubsetView(b, sb, eb);
    SubsetView(a, ea, midA);
    SubsetView(b, eb, sb);
    assert va[..m] == a.View()[sa..midA] && va[m..] == a.View()[midA..ea];

    var cc := new int[lenB + 1](_ => lenA + lenB);
    assert cc[..] == seq(lenB + 1, _ => lenA + lenB);
    InitiallySound(va[..m], vb, cc[..], lenA + lenB);
    var _ := Compare(cc, a.Subset(sa, midA), midA - sa, b.Subset(sb, eb), lenB, Min(pLim, lenA), true);
    var rr := new int[lenB + 1](_ => lenA + lenB);
    assert rr[..] == seq(lenB + 1, _ => lenA + lenB);
    InitiallySound(Reverse(va[m..]), Reverse(vb), rr[..], lenA + lenB);
    var _ := Compare(rr, a.Subset(ea, midA), ea - midA, b.Subset(eb, sb), lenB, Min(pLim, lenA), true);

    ghost var y := GoodCutExists(va, vb, m, pLim, cc[..], rr[..]);
    split := MidSplit(lenA, lenB, rr, cc, tcst);
    GoodCutExact(va, vb, m, pLim, cc[..], rr[..], split);
    assert vb[..split] == b.View()[sb..sb + split] && vb[split..] == b.View()[sb + split..eb];
    estC, estR := cc[split], rr[lenB - split];
  }

  lemma InitiallySound(a: seq<int>, b: seq<int>, cc: seq<int>, top: int)
    requires |cc| == |b| + 1 && |a| + |b| <= top && forall y :: 0 <= y < |cc| ==> cc[y] == top
    ensures Sound(a, b, cc)
  {
    forall y | 0 <= y < |cc|
      ensures Grid(a, b, |a|, y) <= cc[y]
    {
      GridColumn(a, b, y);
      DistBounds(a, b[..y]);
    }
  }
}
