// merge_via_edit_scripts of diff_patch.cc from end to end: two descendants of one file, as edit scripts, as normalized
// extents, and merged.
module Merging {
  import opened Wrappers
  import opened EditDistance
  import opened Lcs
  import opened LcsScript
  import opened Extents
  import opened Normalizing
  import opened Interner

  /** What is known of one descendant when the merging begins. */
  datatype Side = Side(edits: seq<int>, prefix: seq<int>, extents: seq<Extent>, suffix: seq<int>, normal: seq<Extent>)

  ghost predicate Mergeable(s: Side, a: seq<int>, b: seq<int>) {
    AllTyped(s.normal, a, b) && AllInRange(s.normal, b)
  }

  /** The extents are those of as few edits as possible, and the normalized ones hold their lines exactly if these agree. */
  ghost predicate Described(s: Side, a: seq<int>, b: seq<int>)
    requires AllInRange(s.normal, b)
  {
    && |s.edits| == Dist(a, b)
    && Describes(a, b, s.prefix, s.extents, s.suffix) && Accounted(a, b, s.prefix, s.extents, s.suffix, |s.edits|)
    && (Content(s.normal, b) == Content(s.extents, b) <==> Agree(s.extents, a, b))
  }

  /** Nothing but preserved lines. */
  predicate Unchanged(s: Side) {
    s.prefix == s.suffix == [] && forall i :: 0 <= i < |s.normal| ==> s.normal[i].ty.Preserved?
  }

  ghost predicate Prepared(s: Side, a: seq<int>, b: seq<int>) {
    && MinimumScript(s.edits, a, b)
    && Calculated(s.edits, b, |a|) == Some(Walk(s.prefix, s.extents, s.suffix, |a|, |b|))
    && Mergeable(s, a, b) && Described(s, a, b) && (a == b ==> Unchanged(s))
    && |s.extents| == |a| && Normalized(s.extents, a, b) == Some(s.normal) && NoneLoose(s.normal, |s.normal|)
  }

  /** The scripts are minimum ones, so no check of the normalizing fails. */
  method PrepareSide(a: seq<int>, b: seq<int>) returns (prefix: seq<int>, normal: seq<Extent>, suffix: seq<int>)
    ensures exists s ::
      Prepared(s, a, b) && s.edits == ScriptFor(a, b) && s.prefix == prefix && s.normal == normal && s.suffix == suffix
  {
    hide ScriptFor, Dist, FullScript, Calculated, Content, Own, Agree, InPlace, NoneLoose, AllSized, Normalized;
    var edits := EditScript(a, b, if |a| < |b| then |a| else |b|);
    if a == b {
      SelfScript(a, edits);
    }
    var extents;
    prefix, extents, suffix := CalculateExtents(edits, b, |a|, a);
    MinimumOwn(edits, a, b, prefix, extents, suffix);
    var x := NormalizeExtents(extents, a, b, |prefix|);
    normal := x.value;
    assert Prepared(Side(edits, prefix, extents, suffix, normal), a, b);
  }

  /** None is a conflict: lines before everything on both sides, behind everything on both sides, or at an ancestor line. */
  ghost function MergedSides(l: Side, r: Side, a: seq<int>, b: seq<int>, c: seq<int>): Option<seq<int>>
    requires Mergeable(l, a, b) && Mergeable(r, a, c)
  {
    if (l.prefix != [] && r.prefix != []) || (l.suffix != [] && r.suffix != []) then None else
      var m :- ThreeWayAll(l.normal, r.normal, b, c, |a|);
      Some(l.prefix + r.prefix + m + l.suffix + r.suffix)
  }

  // ---- what the merge promises ----

  /** Merging does not depend on which side is called left. */
  lemma SidesSwap(l: Side, r: Side, a: seq<int>, b: seq<int>, c: seq<int>)
    requires Mergeable(l, a, b) && Mergeable(r, a, c)
    ensures MergedSides(l, r, a, b, c) == MergedSides(r, l, a, c, b)
  {
    hide ThreeWayAll;
    MergeSymmetric(l.normal, r.normal, a, b, c, |a|);
    assert l.prefix == [] || r.prefix == [] ==> l.prefix + r.prefix == r.prefix + l.prefix;
    if (l.suffix == [] || r.suffix == []) && ThreeWayAll(l.normal, r.normal, b, c, |a|).Some? {
      var front := l.prefix + r.prefix + ThreeWayAll(l.normal, r.normal, b, c, |a|).value;
      assert front + l.suffix + r.suffix == front + r.suffix + l.suffix;
    }
  }

  /** When two descendants conflict. */
  lemma ConflictsWhen(l: Side, r: Side, a: seq<int>, b: seq<int>, c: seq<int>)
    requires Mergeable(l, a, b) && Mergeable(r, a, c)
    ensures MergedSides(l, r, a, b, c).None? <==>
      || (l.prefix != [] && r.prefix != []) || (l.suffix != [] && r.suffix != [])
      || exists i :: 0 <= i < |a| && !l.normal[i].ty.Preserved? && !r.normal[i].ty.Preserved?
          && !(l.normal[i].ty == r.normal[i].ty && Lines(l.normal[i], b) == Lines(r.normal[i], c))
  {
    ConflictExact(l.normal, r.normal, b, c, |a|);
  }

  /**
   A side that changed nothing: there is no conflict, and the merge is the other side, whole, exactly if the exchanges
   of the first normalizing loop agree with its lines.
   */
  lemma UnchangedSide(l: Side, r: Side, a: seq<int>, b: seq<int>)
    requires Mergeable(l, a, b) && Described(l, a, b) && Mergeable(r, a, a) && Unchanged(r)
    ensures var m := MergedSides(l, r, a, b, a);
      && m.Some? && (m.value == b <==> Agree(l.extents, a, b))
      && (Apart(l.extents, a, b) ==> m.value == b)
  {
    hide Content, Agree, ThreeWayAll, Dist, Apart, Typed, InRange;
    var m := l.prefix + Content(l.normal, b) + l.suffix;
    assert |l.normal| == |r.normal| == |a|;
    forall i | 0 <= i < |a| && l.normal[i].ty.Preserved?
      ensures Lines(l.normal[i], b) == Lines(r.normal[i], a)
    {
      SameLine(l.normal[i], r.normal[i], a[i], b, a);
    }
    MergeUnchanged(l.normal, r.normal, b, a, |a|);
    assert l.normal[..|a|] == l.normal;
    assert r.prefix == r.suffix == [];
    assert l.prefix + r.prefix == l.prefix && m + r.suffix == m;
    assert MergedSides(l, r, a, b, a) == Some(m);
    WithinEnds(l.prefix, Content(l.normal, b), Content(l.extents, b), l.suffix);
    MinimumKept(l.edits, a, b, l.prefix, l.extents, l.suffix);
  }

  lemma SameLine(e: Extent, f: Extent, line: int, b: seq<int>, c: seq<int>)
    requires Typed(e, line, b) && Typed(f, line, c) && e.ty.Preserved? && f.ty.Preserved?
    ensures Lines(e, b) == Lines(f, c)
  {
  }

  lemma WithinEnds(p: seq<int>, l: seq<int>, m: seq<int>, q: seq<int>)
    ensures p + l + q == p + m + q <==> l == m
  {
    if p + l + q == p + m + q {
      assert |l| == |m|;
      assert l == (p + l + q)[|p|..|p| + |l|] && m == (p + m + q)[|p|..|p| + |m|];
    }
  }

  /** Everything about a side follows from its script. */
  lemma SameScript(l: Side, r: Side, a: seq<int>, b: seq<int>)
    requires Prepared(l, a, b) && Prepared(r, a, b) && l.edits == r.edits
    ensures l == r
  {
    hide Calculated, Normalized, MinimumScript, Described, Mergeable, Unchanged;
  }

  /**
   Two sides changed alike: lines before everything or behind everything conflict even so; without them the merge is
   what both sides are, whole, exactly if the exchanges agree with the lines.
   */
  lemma SidesAlike(l: Side, a: seq<int>, b: seq<int>)
    requires Mergeable(l, a, b) && Described(l, a, b)
    ensures var m := MergedSides(l, l, a, b, b);
      && (m.Some? <==> l.prefix == [] && l.suffix == [])
      && (m.Some? ==> (m.value == b <==> Agree(l.extents, a, b)))
  {
    hide Content, Agree, ThreeWayAll, Dist, Typed, InRange;
    assert |l.normal| == |a|;
    MergeAlike(l.normal, b, |a|);
    assert l.normal[..|a|] == l.normal;
    var c := Content(l.normal, b);
    if l.prefix == [] && l.suffix == [] {
      assert [] + [] + c + [] + [] == c && [] + Content(l.extents, b) + [] == Content(l.extents, b);
    }
  }

  /** The descendant whose extents lose a line. */
  ghost function LosingSide(): Side {
    Side([3, 5, 7], [],
      [Extent(0, 1, Preserved), Extent(1, 2, Changed), Extent(3, 2, Changed), Extent(5, 1, Preserved)], [0],
      [Extent(0, 2, Changed), Extent(1, 2, Changed), Extent(3, 1, Preserved), Extent(5, 1, Preserved)])
  }

  lemma LosingPrepared()
    ensures Prepared(LosingSide(), [0, 0, 1, 2], [0, 0, 0, 1, 1, 2, 0])
    ensures !Agree(LosingSide().extents, [0, 0, 1, 2], [0, 0, 0, 1, 1, 2, 0])
  {
    hide Calculated, FullScript, Agree, Dist, Gathered, Content, Keeps, AllTyped, Normalized, NoneLoose, Accounted, InRange;
    var l, a, b := LosingSide(), [0, 0, 1, 2], [0, 0, 0, 1, 1, 2, 0];
    LosingRun();
    LosingTyped();
    LosingNormal();
    DistanceIsMinimum(l.edits, a, b);
    assert [] + [0, 0, 0, 1, 1, 2] + [0] == b;
    LosingAccounted();
    MinimumKept(l.edits, a, b, l.prefix, l.extents, l.suffix);
    NotKept(l.extents, a, b, l.normal);
  }

  lemma LosingTyped()
    ensures AllTyped(LosingSide().extents, [0, 0, 1, 2], [0, 0, 0, 1, 1, 2, 0])
    ensures AllTyped(LosingSide().normal, [0, 0, 1, 2], [0, 0, 0, 1, 1, 2, 0])
  {
  }

  /** The second loop has nothing to do. */
  lemma LosingNormal()
    ensures Normalized(LosingSide().extents, [0, 0, 1, 2], [0, 0, 0, 1, 1, 2, 0]) == Some(LosingSide().normal)
    ensures NoneLoose(LosingSide().normal, 4)
  {
    hide Gathered, Pulled, Calculated, FullScript, Dist, Content;
    LosingRun();
    PulledNothing(LosingSide().normal, [0, 0, 1, 2], [0, 0, 0, 1, 1, 2, 0], 4);
  }

  lemma NotKept(x: seq<Extent>, a: seq<int>, b: seq<int>, y: seq<Extent>)
    requires |x| == |a| && AllInRange(x, b) && AllInRange(y, b)
    requires Gathered(x, a, b, |x|) == Some(y) && Content(y, b) != Content(x, b)
    ensures !Keeps(x, a, b)
  {
  }

  lemma LosingAccounted()
    ensures Accounted([0, 0, 1, 2], [0, 0, 0, 1, 1, 2, 0], [], LosingSide().extents, [0], 3)
  {
    var x, a, b := LosingSide().extents, [0, 0, 1, 2], [0, 0, 0, 1, 1, 2, 0];
    assert AllInRange(x, b);
    assert Off(x, 1) == 1 && Off(x, 2) == 3 && Off(x, 3) == 5;
    assert EditsForAll(x, a, b, 1) == 0 && EditsForAll(x, a, b, 2) == 1 && EditsForAll(x, a, b, 3) == 2;
    assert EditsForAll(x, a, b, 4) == 2;
  }

  /** Its script is the one that is computed. */
  lemma LosingComputed()
    ensures ScriptFor([0, 0, 1, 2], [0, 0, 0, 1, 1, 2, 0]) == LosingSide().edits
  {
    hide Dist, EzScript, DivideScript, CutFor;
    var a, b := [0, 0, 1, 2], [0, 0, 0, 1, 1, 2, 0];
    LosingScript();
    assert TailLength(a, 0, 4, b, 0, 7) == 0;
    assert HeadLength(a, 2, 3, b, 2, 6) == 0;
    assert HeadLength(a, 0, 3, b, 0, 6) == 2;
    LosingInserts();
    assert EditsOf(a, b) == [3, 5, 7];
    LosingOrder();
  }

  lemma LosingInserts()
    ensures EzScript([0, 0, 1, 2], 2, 4, [0, 0, 0, 1, 1, 2, 0], 2, 7, 0) == [3, 5, 7]
  {
    var a, b := [0, 0, 1, 2], [0, 0, 0, 1, 1, 2, 0];
    assert Insertions(6, 7) == [7];
    assert InsertOnlyScript(a, 4, 4, b, 6, 7) == [7];
    assert InsertOnlyScript(a, 3, 4, b, 5, 7) == [7];
    assert InsertOnlyScript(a, 3, 4, b, 4, 7) == [5, 7];
    assert InsertOnlyScript(a, 2, 4, b, 3, 7) == [5, 7];
    assert InsertOnlyScript(a, 2, 4, b, 2, 7) == [3, 5, 7];
  }

  lemma LosingOrder()
    ensures InOrder([3, 5, 7]) == [3, 5, 7]
  {
    hide Sort, LaidOut;
    LosingSorted();
    LosingLaidOut();
    assert Negatives([3, 5, 7]) == 0;
  }

  lemma LosingSorted()
    ensures Sort([3, 5, 7]) == [3, 5, 7]
  {
    hide Sort, InsertSorted;
    SortedFirst([3, 5, 7], [5, 7]);
    SortedFirst([5, 7], [7]);
    SortedFirst([7], []);
    SortedNothing();
  }

  lemma SortedNothing()
    ensures Sort([]) == []
  {
  }

  /** An entry that is least already stays in front. */
  lemma SortedFirst(s: seq<int>, r: seq<int>)
    requires s != [] && s == [s[0]] + r && (r == [] || s[0] <= r[0])
    ensures Sort(r) == r ==> Sort(s) == s
  {
    assert s[1..] == r;
  }

  lemma LosingLaidOut()
    ensures LaidOut([3, 5, 7], -1, 0, 0, 0) == [3, 5, 7]
  {
    var s := [3, 5, 7];
    assert LaidOut(s, -1, 3, 7, 7) == [];
    assert LaidOut(s, -1, 2, 4, 6) == [7];
    assert LaidOut(s, -1, 2, 3, 5) == [7];
    assert LaidOut(s, -1, 1, 3, 4) == [5] + LaidOut(s, -1, 2, 3, 5);
    assert LaidOut(s, -1, 1, 2, 3) == LaidOut(s, -1, 1, 3, 4);
    assert LaidOut(s, -1, 0, 2, 2) == [3] + LaidOut(s, -1, 1, 2, 3);
    assert LaidOut(s, -1, 0, 0, 0) == LaidOut(s, -1, 0, 2, 2);
  }

  /** Merged with an unchanged side, it does not come back. */
  lemma LosingMerge(r: Side)
    requires Mergeable(r, [0, 0, 1, 2], [0, 0, 1, 2]) && Unchanged(r)
    ensures var l, a, b := LosingSide(), [0, 0, 1, 2], [0, 0, 0, 1, 1, 2, 0];
      && Prepared(l, a, b) && l.edits == ScriptFor(a, b)
      && MergedSides(l, r, a, b, a).Some? && MergedSides(l, r, a, b, a).value != b
  {
    hide Mergeable, Described, Agree, MergedSides, ScriptFor;
    LosingPrepared();
    LosingComputed();
    UnchangedSide(LosingSide(), r, [0, 0, 1, 2], [0, 0, 0, 1, 1, 2, 0]);
  }

  // ---- files of lines ----

  /** The lines the numbers stand for. */
  ghost function Spelled(ids: seq<int>, rev: seq<string>): seq<string>
    requires forall i :: 0 <= i < |ids| ==> 0 <= ids[i] < |rev|
  {
    seq(|ids|, i requires 0 <= i < |ids| => rev[ids[i]])
  }

  /** Three files as numbers, and two of them prepared for merging over the third. */
  datatype Files = Files(rev: seq<string>, a: seq<int>, b: seq<int>, c: seq<int>, l: Side, r: Side)

  ghost predicate Interned(ids: seq<int>, rev: seq<string>, lines: seq<string>) {
    (forall i :: 0 <= i < |ids| ==> 0 <= ids[i] < |rev|) && Spelled(ids, rev) == lines
  }

  ghost predicate Taken(f: Files, ancestor: seq<string>, left: seq<string>, right: seq<string>) {
    && (forall i, j :: 0 <= i < j < |f.rev| ==> f.rev[i] != f.rev[j])
    && Interned(f.a, f.rev, ancestor) && Interned(f.b, f.rev, left) && Interned(f.c, f.rev, right)
    && Prepared(f.l, f.a, f.b) && Prepared(f.r, f.a, f.c)
    && f.l.edits == ScriptFor(f.a, f.b) && f.r.edits == ScriptFor(f.a, f.c)
  }

  /**
   The two sides merged, None being a conflict.  When one side is the ancestor there is none, and the other side comes
   back exactly if the exchanges of the first normalizing loop agree with its lines.  Equal sides conflict exactly if
   they have lines before or behind everything, and else come back under the same condition.
   */
  ghost predicate MergeOf(f: Files, ancestor: seq<string>, left: seq<string>, right: seq<string>, merged: Option<seq<string>>) {
    && Taken(f, ancestor, left, right)
    && (match MergedSides(f.l, f.r, f.a, f.b, f.c)
        case None => merged.None?
        case Some(ids) => merged.Some? && Interned(ids, f.rev, merged.value))
    && (right == ancestor ==> merged.Some? && (merged.value == left <==> Agree(f.l.extents, f.a, f.b)))
    && (left == ancestor ==> merged.Some? && (merged.value == right <==> Agree(f.r.extents, f.a, f.c)))
    && (left == right ==>
          && (merged.Some? <==> f.l.prefix == [] && f.l.suffix == [])
          && (merged.Some? ==> (merged.value == left <==> Agree(f.l.extents, f.a, f.b))))
  }

  lemma SpelledOnce(rev: seq<string>, ids: seq<int>, jds: seq<int>, lines: seq<string>)
    requires forall i, j :: 0 <= i < j < |rev| ==> rev[i] != rev[j]
    requires Interned(ids, rev, lines) && forall i :: 0 <= i < |jds| ==> 0 <= jds[i] < |rev|
    ensures Spelled(jds, rev) == lines <==> ids == jds
  {
    if Spelled(jds, rev) == lines {
      forall i | 0 <= i < |ids|
        ensures ids[i] == jds[i]
      {
        assert Spelled(ids, rev)[i] == Spelled(jds, rev)[i];
      }
    }
  }

  ghost predicate Among(ids: seq<int>, n: nat) {
    forall i :: 0 <= i < |ids| ==> 0 <= ids[i] < n
  }

  /** A merge has no lines but those of the two sides. */
  lemma MergedAmong(l: Side, r: Side, a: seq<int>, b: seq<int>, c: seq<int>, n: nat)
    requires Mergeable(l, a, b) && Described(l, a, b) && Mergeable(r, a, c) && Described(r, a, c) && Among(b, n) && Among(c, n)
    ensures MergedSides(l, r, a, b, c).Some? ==> Among(MergedSides(l, r, a, b, c).value, n)
  {
    hide Agree, ThreeWayAll, Dist, Content;
    ThreeWayAmong(l.normal, r.normal, b, c, |a|, n);
    EndsAmong(l.prefix, Content(l.extents, b), l.suffix, n);
    EndsAmong(r.prefix, Content(r.extents, c), r.suffix, n);
  }

  lemma EndsAmong(p: seq<int>, m: seq<int>, q: seq<int>, n: nat)
    requires Among(p + m + q, n)
    ensures Among(p, n) && Among(q, n)
  {
    assert forall i :: 0 <= i < |p| ==> (p + m + q)[i] == p[i];
    assert forall i :: 0 <= i < |q| ==> (p + m + q)[|p + m| + i] == q[i];
  }

  lemma {:induction false} ThreeWayAmong(x: seq<Extent>, y: seq<Extent>, b: seq<int>, c: seq<int>, k: nat, n: nat)
    requires AllInRange(x, b) && AllInRange(y, c) && k <= |x| == |y| && Among(b, n) && Among(c, n)
    ensures ThreeWayAll(x, y, b, c, k).Some? ==> Among(ThreeWayAll(x, y, b, c, k).value, n)
  {
    if k > 0 {
      ThreeWayAmong(x, y, b, c, k - 1, n);
      assert InRange(x[k - 1], b) && InRange(y[k - 1], c);
    }
  }

  method InternThree(interner: Table, ancestor: seq<string>, left: seq<string>, right: seq<string>)
    returns (a: seq<int>, b: seq<int>, c: seq<int>)
    requires interner.Valid()
    modifies interner
    ensures interner.Valid()
    ensures Interned(a, interner.rev, ancestor) && Interned(b, interner.rev, left) && Interned(c, interner.rev, right)
    ensures forall i, j :: 0 <= i < j < |interner.rev| ==> interner.rev[i] != interner.rev[j]
  {
    a := interner.InternLines(ancestor);
    b := interner.InternLines(left);
    c := interner.InternLines(right);
  }

  method LookupAll(interner: Table, ids: seq<int>) returns (lines: seq<string>)
    requires interner.Valid() && Among(ids, |interner.rev|)
    ensures Interned(ids, interner.rev, lines)
  {
    lines := [];
    for k := 0 to |ids|
      invariant |lines| == k && forall i :: 0 <= i < k ==> lines[i] == interner.rev[ids[i]]
    {
      var line := interner.Lookup(ids[k]);
      lines := lines + [line.value];
    }
  }

  /** One side is the ancestor, with the same numbers. */
  lemma OneSideUnchanged(f: Files, ancestor: seq<string>, left: seq<string>, right: seq<string>)
    requires Taken(f, ancestor, left, right)
    ensures Mergeable(f.l, f.a, f.b) && Mergeable(f.r, f.a, f.c)
    ensures var m := MergedSides(f.l, f.r, f.a, f.b, f.c);
      && (right == ancestor ==> m.Some? && (m.value == f.b <==> Agree(f.l.extents, f.a, f.b)))
      && (left == ancestor ==> m.Some? && (m.value == f.c <==> Agree(f.r.extents, f.a, f.c)))
      && (left == right ==>
            && (m.Some? <==> f.l.prefix == [] && f.l.suffix == [])
            && (m.Some? ==> (m.value == f.b <==> Agree(f.l.extents, f.a, f.b))))
  {
    hide Mergeable, Described, MergedSides, Agree, MinimumScript, Calculated, NoneLoose, Normalized, ScriptFor;
    if right == ancestor {
      SpelledOnce(f.rev, f.c, f.a, right);
      UnchangedSide(f.l, f.r, f.a, f.b);
    }
    if left == ancestor {
      SpelledOnce(f.rev, f.b, f.a, left);
      SidesSwap(f.l, f.r, f.a, f.b, f.c);
      UnchangedSide(f.r, f.l, f.a, f.c);
    }
    if left == right {
      SpelledOnce(f.rev, f.b, f.c, left);
      SameScript(f.l, f.r, f.a, f.b);
      SidesAlike(f.l, f.a, f.b);
    }
  }

  /** merge3: whatever the three files are, nothing fails but by conflict. */
  method MergeViaEditScripts(ancestor: seq<string>, left: seq<string>, right: seq<string>)
    returns (merged: Option<seq<string>>)
    ensures exists f :: MergeOf(f, ancestor, left, right, merged)
  {
    hide Prepared, MergedSides, Agree, Spelled, ThreeWayAll, ScriptFor;
    var interner := new Table();
    var a, b, c := InternThree(interner, ancestor, left, right);
    var leftPrefix, leftNormal, leftSuffix := PrepareSide(a, b);
    ghost var l :| Prepared(l, a, b) && l.edits == ScriptFor(a, b)
      && l.prefix == leftPrefix && l.normal == leftNormal && l.suffix == leftSuffix;
    var rightPrefix, rightNormal, rightSuffix := PrepareSide(a, c);
    ghost var r :| Prepared(r, a, c) && r.edits == ScriptFor(a, c)
      && r.prefix == rightPrefix && r.normal == rightNormal && r.suffix == rightSuffix;
    ghost var f := Files(interner.rev, a, b, c, l, r);
    OneSideUnchanged(f, ancestor, left, right);
    var all := MergeSides(leftPrefix, leftNormal, leftSuffix, rightPrefix, rightNormal, rightSuffix, a, b, c, l, r);
    if all.None? {
      merged := None;
    } else {
      PreparedAmong(l, r, a, b, c, |f.rev|);
      var lines := LookupAll(interner, all.value);
      SpelledOnce(f.rev, b, all.value, left);
      SpelledOnce(f.rev, c, all.value, right);
      merged := Some(lines);
    }
    assert MergeOf(f, ancestor, left, right, merged);
  }

  lemma PreparedAmong(l: Side, r: Side, a: seq<int>, b: seq<int>, c: seq<int>, n: nat)
    requires Prepared(l, a, b) && Prepared(r, a, c) && Among(b, n) && Among(c, n)
    ensures Mergeable(l, a, b) && Mergeable(r, a, c)
    ensures MergedSides(l, r, a, b, c).Some? ==> Among(MergedSides(l, r, a, b, c).value, n)
  {
    hide Mergeable, Described, MergedSides;
    MergedAmong(l, r, a, b, c, n);
  }

  /** The checks for a conflict before and behind, and the merging of the extents. */
  method MergeSides(leftPrefix: seq<int>, leftNormal: seq<Extent>, leftSuffix: seq<int>, rightPrefix: seq<int>,
                    rightNormal: seq<Extent>, rightSuffix: seq<int>, ghost a: seq<int>, b: seq<int>, c: seq<int>,
                    ghost l: Side, ghost r: Side) returns (merged: Option<seq<int>>)
    requires Mergeable(l, a, b) && Mergeable(r, a, c)
    requires l.prefix == leftPrefix && l.normal == leftNormal && l.suffix == leftSuffix
    requires r.prefix == rightPrefix && r.normal == rightNormal && r.suffix == rightSuffix
    ensures merged == MergedSides(l, r, a, b, c)
  {
    hide ThreeWayAll;
    if (rightPrefix != [] && leftPrefix != []) || (rightSuffix != [] && leftSuffix != []) {
      return None;
    }
    var lines := MergeExtents(leftNormal, rightNormal, b, c, a);
    if lines.None? {
      return None;
    }
    merged := Some(leftPrefix + rightPrefix + lines.value + leftSuffix + rightSuffix);
  }
}
