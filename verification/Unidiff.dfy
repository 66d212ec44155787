// Unified hunks of diff_patch.cc: a walk along a common subsequence drives a hunk writer, and applying what it
// writes to the first file gives the second.
module Unidiff {
  import opened EditDistance
  import opened Lcs
  import opened Interner

  datatype Line = Context(text: string) | Removed(text: string) | Added(text: string)

  /** A hunk with the positions behind the numbers of its header. */
  datatype Hunk = Hunk(aBegin: nat, aLen: nat, bBegin: nat, bLen: nat, lines: seq<Line>)

  type File = seq<string>

  /** The number the header gives as the start of a side. */
  function PrintedStart(begin: nat, len: nat): nat {
    if len == 0 then 0 else begin + 1
  }

  /** The header tells where both sides of the hunk are; only the side of an empty file has no place. */
  predicate Located(h: Hunk, a: File, b: File) {
    (a != [] ==> PrintedStart(h.aBegin, h.aLen) == h.aBegin + 1) && (b != [] ==> PrintedStart(h.bBegin, h.bLen) == h.bBegin + 1)
  }

  /** What the lines of a hunk are in the first and in the second file. */
  ghost function OldSide(lines: seq<Line>): File {
    if lines == [] then [] else
      OldSide(lines[..|lines| - 1]) + (if lines[|lines| - 1].Added? then [] else [lines[|lines| - 1].text])
  }

  ghost function NewSide(lines: seq<Line>): File {
    if lines == [] then [] else
      NewSide(lines[..|lines| - 1]) + (if lines[|lines| - 1].Removed? then [] else [lines[|lines| - 1].text])
  }

  ghost predicate Edited(lines: seq<Line>) {
    exists i :: 0 <= i < |lines| && !lines[i].Context?
  }

  ghost function EndOf(hunks: seq<Hunk>): nat {
    if hunks == [] then 0 else hunks[|hunks| - 1].aBegin + hunks[|hunks| - 1].aLen
  }

  function Between(a: File, lo: nat, hi: nat): File {
    if lo <= hi <= |a| then a[lo..hi] else []
  }

  /** The first `upto` lines of a with the hunks applied: what lies between hunks is copied. */
  ghost function Patched(hunks: seq<Hunk>, a: File, upto: nat): File {
    if hunks == [] then Between(a, 0, upto) else
      var h := hunks[|hunks| - 1];
      Patched(hunks[..|hunks| - 1], a, h.aBegin) + NewSide(h.lines) + Between(a, h.aBegin + h.aLen, upto)
  }

  /**
   The hunks lie in order and apart in the first `upto` lines of a; each removes what is there and stands for the
   lines of b at its own second start, which is where the patch has come to.
   */
  ghost predicate Fits(hunks: seq<Hunk>, a: File, b: File, upto: nat) {
    upto <= |a| &&
    (hunks == [] ||
      var h, front := hunks[|hunks| - 1], hunks[..|hunks| - 1];
      && h.aBegin + h.aLen <= upto && Fits(front, a, b, h.aBegin) && Edited(h.lines)
      && Covers(a, b, h) && h.bBegin == |Patched(front, a, h.aBegin)|)
  }

  /** The hunk's lines are those parts of the two files. */
  ghost predicate Covers(a: File, b: File, h: Hunk) {
    && h.aBegin + h.aLen <= |a| && h.bBegin + h.bLen <= |b|
    && OldSide(h.lines) == a[h.aBegin..h.aBegin + h.aLen] && NewSide(h.lines) == b[h.bBegin..h.bBegin + h.bLen]
  }

  /** Lines i to ie of a are lines j to je of b. */
  ghost predicate Shared(a: File, i: nat, ie: nat, b: File, j: nat, je: nat) {
    i <= ie <= |a| && j <= je <= |b| && a[i..ie] == b[j..je]
  }

  /** What has been written gives the first q lines of b from the first p lines of a. */
  ghost predicate Written(hunks: seq<Hunk>, a: File, p: nat, b: File, q: nat) {
    Fits(hunks, a, b, p) && q <= |b| && Patched(hunks, a, p) == b[..q]
  }

  // ---- how much context there is, and how many edits ----

  /** Lines of context at the end. */
  ghost function Trail(lines: seq<Line>): (n: nat)
    ensures n <= |lines|
  {
    if lines == [] || !lines[|lines| - 1].Context? then 0 else Trail(lines[..|lines| - 1]) + 1
  }

  /** An edit may follow: there is the right amount of context before it, or, before the first one, all the file has. */
  ghost predicate Ready(lines: seq<Line>, aBegin: nat, ctx: nat) {
    if Edited(lines) then Trail(lines) <= 2 * ctx
    else Trail(lines) == |lines| && (|lines| == ctx || (aBegin == 0 && |lines| <= 2 * ctx))
  }

  /** Every edit among the lines came when one could. */
  ghost predicate Shaped(lines: seq<Line>, aBegin: nat, ctx: nat) {
    lines == [] ||
    var front, last := lines[..|lines| - 1], lines[|lines| - 1];
    Shaped(front, aBegin, ctx) && (last.Context? || Ready(front, aBegin, ctx))
  }

  /** A hunk that goes out: behind its last edit there are ctx lines of context, or what the file still has. */
  ghost predicate Closed(h: Hunk, n: int, aLen: nat, ctx: nat) {
    && 0 < n <= |h.lines| && !h.lines[n - 1].Context? && Shaped(h.lines[..n], h.aBegin, ctx)
    && (forall k :: n <= k < |h.lines| ==> h.lines[k].Context?)
    && (|h.lines| - n == ctx || (|h.lines| - n < ctx && h.aBegin + h.aLen == aLen))
  }

  ghost predicate Framed(h: Hunk, aLen: nat, ctx: nat) {
    exists n :: Closed(h, n, aLen, ctx)
  }

  /** Hunks that would touch are one; the first begins with the file or where its context can no more reach back to it. */
  ghost predicate Spaced(hunks: seq<Hunk>, ctx: nat) {
    && (hunks != [] ==> hunks[0].aBegin == 0 || hunks[0].aBegin > ctx)
    && forall i, j :: 0 <= i && j == i + 1 && j < |hunks| ==> hunks[i].aBegin + hunks[i].aLen < hunks[j].aBegin
  }

  ghost function Cuts(lines: seq<Line>): nat {
    if lines == [] then 0 else Cuts(lines[..|lines| - 1]) + if lines[|lines| - 1].Removed? then 1 else 0
  }

  ghost function Adds(lines: seq<Line>): nat {
    if lines == [] then 0 else Adds(lines[..|lines| - 1]) + if lines[|lines| - 1].Added? then 1 else 0
  }

  /** Lines removed and added by all hunks together. */
  ghost function AllCuts(hunks: seq<Hunk>): nat {
    if hunks == [] then 0 else AllCuts(hunks[..|hunks| - 1]) + Cuts(hunks[|hunks| - 1].lines)
  }

  ghost function AllAdds(hunks: seq<Hunk>): nat {
    if hunks == [] then 0 else AllAdds(hunks[..|hunks| - 1]) + Adds(hunks[|hunks| - 1].lines)
  }

  lemma CountsPush(lines: seq<Line>, l: Line)
    ensures Cuts(lines + [l]) == Cuts(lines) + (if l.Removed? then 1 else 0)
    ensures Adds(lines + [l]) == Adds(lines) + (if l.Added? then 1 else 0)
  {
    assert (lines + [l])[..|lines|] == lines;
  }

  lemma ShapePush(lines: seq<Line>, l: Line, aBegin: nat, ctx: nat)
    ensures Trail(lines + [l]) == if l.Context? then Trail(lines) + 1 else 0
    ensures Edited(lines + [l]) <==> Edited(lines) || !l.Context?
    ensures Shaped(lines + [l], aBegin, ctx) <==> Shaped(lines, aBegin, ctx) && (l.Context? || Ready(lines, aBegin, ctx))
  {
    assert (lines + [l])[..|lines|] == lines;
    SidesPush(lines, l);
  }

  lemma SpacedPush(hunks: seq<Hunk>, h: Hunk, ctx: nat)
    requires Spaced(hunks, ctx) && (if hunks == [] then h.aBegin == 0 || h.aBegin > ctx else EndOf(hunks) < h.aBegin)
    ensures Spaced(hunks + [h], ctx)
  {
  }

  lemma AllCountsPush(hunks: seq<Hunk>, h: Hunk)
    ensures AllCuts(hunks + [h]) == AllCuts(hunks) + Cuts(h.lines) && AllAdds(hunks + [h]) == AllAdds(hunks) + Adds(h.lines)
  {
    assert (hunks + [h])[..|hunks|] == hunks;
  }

  ghost predicate FirstEdit(lines: seq<Line>, k: int) {
    0 <= k < |lines| && !lines[k].Context? && forall i :: 0 <= i < k ==> lines[i].Context?
  }

  ghost predicate NextEdit(lines: seq<Line>, i: int, k: int) {
    0 <= i < k < |lines| && !lines[i].Context? && !lines[k].Context? && forall j :: i < j < k ==> lines[j].Context?
  }

  /** What the shape says about the lines: context before the first edit, and between two edits. */
  ghost predicate ContextOk(lines: seq<Line>, aBegin: nat, ctx: nat) {
    && (forall k :: FirstEdit(lines, k) ==> k == ctx || (aBegin == 0 && k <= 2 * ctx))
    && (forall i, k :: NextEdit(lines, i, k) ==> k - i - 1 <= 2 * ctx)
  }

  lemma {:induction false} TrailIs(lines: seq<Line>)
    ensures forall i :: |lines| - Trail(lines) <= i < |lines| ==> lines[i].Context?
    ensures Trail(lines) < |lines| ==> !lines[|lines| - Trail(lines) - 1].Context?
    ensures Edited(lines) <==> Trail(lines) < |lines|
  {
    if lines != [] && lines[|lines| - 1].Context? {
      var front := lines[..|lines| - 1];
      TrailIs(front);
      assert lines == front + [lines[|lines| - 1]];
      SidesPush(front, lines[|lines| - 1]);
    }
  }

  lemma {:induction false} ShapeIs(lines: seq<Line>, aBegin: nat, ctx: nat)
    requires Shaped(lines, aBegin, ctx)
    ensures ContextOk(lines, aBegin, ctx)
  {
    hide FirstEdit, NextEdit;
    if lines == [] {
      NoEdits(aBegin, ctx);
    } else {
      var front := lines[..|lines| - 1];
      ShapeIs(front, aBegin, ctx);
      assert ContextOk(front, aBegin, ctx);
      forall k | FirstEdit(lines, k)
        ensures k == ctx || (aBegin == 0 && k <= 2 * ctx)
      {
        FirstEditIn(lines, aBegin, ctx, k);
      }
      forall i, k | NextEdit(lines, i, k)
        ensures k - i - 1 <= 2 * ctx
      {
        NextEditIn(lines, aBegin, ctx, i, k);
      }
    }
  }

  lemma NoEdits(aBegin: nat, ctx: nat)
    ensures ContextOk([], aBegin, ctx)
  {
  }

  lemma FirstEditIn(lines: seq<Line>, aBegin: nat, ctx: nat, k: int)
    requires lines != [] && Shaped(lines, aBegin, ctx) && FirstEdit(lines, k)
    ensures FirstEdit(lines[..|lines| - 1], k) || k == ctx || (aBegin == 0 && k <= 2 * ctx)
  {
    var front := lines[..|lines| - 1];
    assert forall i :: 0 <= i < |front| ==> lines[i] == front[i];
  }

  lemma NextEditIn(lines: seq<Line>, aBegin: nat, ctx: nat, i: int, k: int)
    requires lines != [] && Shaped(lines, aBegin, ctx) && NextEdit(lines, i, k)
    ensures NextEdit(lines[..|lines| - 1], i, k) || k - i - 1 <= 2 * ctx
  {
    hide Shaped, Trail;
    var front := lines[..|lines| - 1];
    assert forall i :: 0 <= i < |front| ==> lines[i] == front[i];
    if k == |lines| - 1 {
      LastComesReady(lines, aBegin, ctx);
      TrailIs(front);
      assert Edited(front);
    }
  }

  lemma LastComesReady(lines: seq<Line>, aBegin: nat, ctx: nat)
    requires lines != [] && Shaped(lines, aBegin, ctx) && !lines[|lines| - 1].Context?
    ensures Ready(lines[..|lines| - 1], aBegin, ctx)
  {
  }

  lemma SidesPush(lines: seq<Line>, l: Line)
    ensures OldSide(lines + [l]) == OldSide(lines) + (if l.Added? then [] else [l.text])
    ensures NewSide(lines + [l]) == NewSide(lines) + (if l.Removed? then [] else [l.text])
    ensures Edited(lines + [l]) <==> Edited(lines) || !l.Context?
  {
    assert (lines + [l])[..|lines|] == lines;
    if Edited(lines) {
      var i :| 0 <= i < |lines| && !lines[i].Context?;
      assert !(lines + [l])[i].Context?;
    }
    if !l.Context? {
      assert !(lines + [l])[|lines|].Context?;
    }
  }

  lemma CoversAdded(a: File, b: File, h: Hunk)
    requires Covers(a, b, h) && h.bBegin + h.bLen < |b|
    ensures var l := Added(b[h.bBegin + h.bLen]);
      Covers(a, b, h.(bLen := h.bLen + 1, lines := h.lines + [l])) && Edited(h.lines + [l])
  {
    hide OldSide, NewSide, Edited;
    SidesPush(h.lines, Added(b[h.bBegin + h.bLen]));
  }

  lemma CoversRemoved(a: File, b: File, h: Hunk)
    requires Covers(a, b, h) && h.aBegin + h.aLen < |a|
    ensures var l := Removed(a[h.aBegin + h.aLen]);
      Covers(a, b, h.(aLen := h.aLen + 1, lines := h.lines + [l])) && Edited(h.lines + [l])
  {
    hide OldSide, NewSide, Edited;
    SidesPush(h.lines, Removed(a[h.aBegin + h.aLen]));
  }

  lemma CoversContext(a: File, b: File, h: Hunk)
    requires Covers(a, b, h) && h.aBegin + h.aLen < |a| && h.bBegin + h.bLen < |b|
    requires a[h.aBegin + h.aLen] == b[h.bBegin + h.bLen]
    ensures var l := Context(a[h.aBegin + h.aLen]);
      Covers(a, b, h.(aLen := h.aLen + 1, bLen := h.bLen + 1, lines := h.lines + [l])) && (Edited(h.lines) ==> Edited(h.lines + [l]))
  {
    hide OldSide, NewSide, Edited;
    SidesPush(h.lines, Context(a[h.aBegin + h.aLen]));
  }

  lemma CommonHead(a: File, i: nat, ie: nat, b: File, j: nat, je: nat)
    requires Shared(a, i, ie, b, j, je) && i < ie
    ensures j < je && a[i] == b[j] && Shared(a, i + 1, ie, b, j + 1, je)
  {
    var x, y := a[i..ie], b[j..je];
    assert |x| == |y| && x[0] == y[0] && x[1..] == y[1..];
  }

  lemma CommonMore(a: File, i: nat, ie: nat, b: File, j: nat, je: nat)
    requires Shared(a, i, ie, b, j, je) && ie < |a| && je < |b| && a[ie] == b[je]
    ensures Shared(a, i, ie + 1, b, j, je + 1)
  {
    assert a[i..ie + 1] == a[i..ie] + [a[ie]] && b[j..je + 1] == b[j..je] + [b[je]];
  }

  lemma CommonTail(a: File, i: nat, ie: nat, b: File, j: nat, je: nat, n: nat)
    requires Shared(a, i, ie, b, j, je) && i + n <= ie
    ensures j + n <= je && je - j == ie - i && Shared(a, ie - n, ie, b, je - n, je)
  {
    var x, y := a[i..ie], b[j..je];
    assert |x| == |y|;
    assert x[|x| - n..] == a[ie - n..ie] && y[|y| - n..] == b[je - n..je];
  }

  /** Unchanged lines behind the last hunk need no hunk of their own. */
  lemma WrittenFurther(hunks: seq<Hunk>, a: File, p: nat, b: File, q: nat, p': nat, q': nat)
    requires Written(hunks, a, p, b, q) && Shared(a, p, p', b, q, q')
    ensures Written(hunks, a, p', b, q')
  {
    hide Covers, Edited, NewSide, OldSide;
    assert b[..q'] == b[..q] + b[q..q'];
    PatchedFurther(hunks, a, b, p, p');
  }

  lemma PatchedFurther(hunks: seq<Hunk>, a: File, b: File, p: nat, p': nat)
    requires Fits(hunks, a, b, p) && p <= p' <= |a|
    ensures Fits(hunks, a, b, p') && Patched(hunks, a, p') == Patched(hunks, a, p) + a[p..p']
  {
    hide Covers, Edited, NewSide, OldSide;
    if hunks == [] {
      assert a[0..p'] == a[0..p] + a[p..p'];
    } else {
      var e := EndOf(hunks);
      assert a[e..p'] == a[e..p] + a[p..p'];
    }
  }

  /** And a hunk that is begun earlier takes them back. */
  lemma WrittenLess(hunks: seq<Hunk>, a: File, p: nat, b: File, q: nat, n: nat)
    requires Written(hunks, a, p, b, q) && n <= p && n <= q && EndOf(hunks) + n <= p && Shared(a, p - n, p, b, q - n, q)
    ensures Written(hunks, a, p - n, b, q - n)
  {
    hide Covers, Edited, NewSide, OldSide;
    FitsLess(hunks, a, b, p, n);
    PatchedFurther(hunks, a, b, p - n, p);
    var x, y := Patched(hunks, a, p - n), b[..q - n];
    assert b[..q] == y + b[q - n..q];
    assert (x + a[p - n..p])[..|x|] == x && (y + b[q - n..q])[..|y|] == y;
  }

  lemma FitsLess(hunks: seq<Hunk>, a: File, b: File, p: nat, n: nat)
    requires Fits(hunks, a, b, p) && EndOf(hunks) + n <= p
    ensures Fits(hunks, a, b, p - n)
  {
  }

  lemma PushHunk(hunks: seq<Hunk>, a: File, b: File, h: Hunk)
    requires Fits(hunks, a, b, h.aBegin) && Covers(a, b, h) && Edited(h.lines) && h.bBegin == |Patched(hunks, a, h.aBegin)|
    ensures var out, end := hunks + [h], h.aBegin + h.aLen;
      && Fits(out, a, b, end) && EndOf(out) == end
      && Patched(out, a, end) == Patched(hunks, a, h.aBegin) + NewSide(h.lines)
  {
    hide Edited, NewSide, OldSide;
    var out, end := hunks + [h], h.aBegin + h.aLen;
    assert out[..|out| - 1] == hunks && out[|out| - 1] == h;
    assert Between(a, end, end) == [];
    assert Patched(hunks, a, h.aBegin) + NewSide(h.lines) + [] == Patched(hunks, a, h.aBegin) + NewSide(h.lines);
  }

  /** Writing out a hunk. */
  lemma WrittenHunk(hunks: seq<Hunk>, a: File, b: File, h: Hunk)
    requires Written(hunks, a, h.aBegin, b, h.bBegin) && Covers(a, b, h) && Edited(h.lines)
    ensures Written(hunks + [h], a, h.aBegin + h.aLen, b, h.bBegin + h.bLen) && EndOf(hunks + [h]) == h.aBegin + h.aLen
  {
    hide Edited, NewSide, OldSide, Fits, Patched;
    PushHunk(hunks, a, b, h);
    assert b[..h.bBegin + h.bLen] == b[..h.bBegin] + b[h.bBegin..h.bBegin + h.bLen];
  }

  lemma EmptyHunk(a: File, b: File, h: Hunk)
    requires Covers(a, b, h) && h.lines == []
    ensures h.aLen == h.bLen == 0
  {
    assert |a[h.aBegin..h.aBegin + h.aLen]| == 0 && |b[h.bBegin..h.bBegin + h.bLen]| == 0;
  }

  lemma EndBelow(hunks: seq<Hunk>, a: File, b: File, p: nat)
    requires Fits(hunks, a, b, p)
    ensures EndOf(hunks) <= p
  {
  }

  ghost predicate LastEdit(lines: seq<Line>, k: int) {
    0 <= k < |lines| && !lines[k].Context? && forall i :: k < i < |lines| ==> lines[i].Context?
  }

  /**
   The hunk has ctx lines of context before its first edit, or, if it begins with the file, up to twice as many; ctx
   lines behind its last edit, or as many as the file has; and no more than twice as many between two edits.
   */
  ghost predicate WellCut(h: Hunk, aLen: nat, ctx: nat) {
    && ContextOk(h.lines, h.aBegin, ctx)
    && forall k :: LastEdit(h.lines, k) ==>
         |h.lines| - 1 - k == ctx || (|h.lines| - 1 - k < ctx && h.aBegin + h.aLen == aLen)
  }

  /**
   How much context opens a hunk, by the line p of its first edit: the first hunk begins with the file when that is no
   more than twice the context away, and so may have more than ctx lines; every other hunk has ctx.
   */
  lemma LeadExactly(hunks: seq<Hunk>, i: nat, k: nat, aLen: nat, ctx: nat)
    requires Spaced(hunks, ctx) && i < |hunks| && WellCut(hunks[i], aLen, ctx) && FirstEdit(hunks[i].lines, k)
    ensures var p := hunks[i].aBegin + k;
      k == if i == 0 && p <= 2 * ctx then p else ctx
  {
    hide LastEdit, NextEdit;
    if i > 0 {
      assert hunks[i - 1].aBegin + hunks[i - 1].aLen < hunks[i].aBegin;
    }
  }

  lemma FramedIs(h: Hunk, aLen: nat, ctx: nat)
    requires Framed(h, aLen, ctx)
    ensures WellCut(h, aLen, ctx)
  {
    hide Shaped, ContextOk, FirstEdit, NextEdit;
    var n :| Closed(h, n, aLen, ctx);
    ShapeIs(h.lines[..n], h.aBegin, ctx);
    ContextBehind(h.lines, n, h.aBegin, ctx);
  }

  lemma ContextBehind(lines: seq<Line>, n: nat, aBegin: nat, ctx: nat)
    requires n <= |lines| && ContextOk(lines[..n], aBegin, ctx) && forall k :: n <= k < |lines| ==> lines[k].Context?
    ensures ContextOk(lines, aBegin, ctx)
  {
    var front := lines[..n];
    assert forall i :: 0 <= i < n ==> lines[i] == front[i];
    forall k | FirstEdit(lines, k)
      ensures FirstEdit(front, k)
    {
    }
    forall i, k | NextEdit(lines, i, k)
      ensures NextEdit(front, i, k)
    {
    }
  }

  lemma {:induction false} AllContext(lines: seq<Line>, aBegin: nat, ctx: nat)
    requires forall k :: 0 <= k < |lines| ==> lines[k].Context?
    ensures Trail(lines) == |lines| && !Edited(lines) && Shaped(lines, aBegin, ctx) && Cuts(lines) == Adds(lines) == 0
  {
    if lines != [] {
      AllContext(lines[..|lines| - 1], aBegin, ctx);
    }
  }

  // ---- the writer ----

  class UnidiffHunkWriter {
    const a: File
    const b: File
    const ctx: nat
    var ost: seq<Hunk>
    var aBegin: nat
    var bBegin: nat
    var aLen: nat
    var bLen: nat
    var skew: int
    var hunk: seq<Line>

    ghost function Current(): Hunk
      reads this
    {
      Hunk(aBegin, aLen, bBegin, bLen, hunk)
    }

    /** The walk has come to these positions; what lies behind the current hunk is common to both files. */
    ghost predicate At(aPos: nat, bPos: nat)
      reads this
    {
      && Written(ost, a, aBegin, b, bBegin) && skew == bBegin - aBegin && Covers(a, b, Current())
      && Shared(a, aBegin + aLen, aPos, b, bBegin + bLen, bPos)
    }

    /** The walk stands right behind the current hunk. */
    ghost predicate Behind(aPos: nat, bPos: nat)
      reads this
    {
      At(aPos, bPos) && aBegin + aLen == aPos && bBegin + bLen == bPos
    }

    /** Lines removed and added so far. */
    ghost function Cut(): nat
      reads this
    {
      AllCuts(ost) + Cuts(hunk)
    }

    ghost function Put(): nat
      reads this
    {
      AllAdds(ost) + Adds(hunk)
    }

    /** The current hunk does not touch the one before; the first begins with the file or where that is out of reach. */
    ghost predicate Begun()
      reads this
    {
      if ost == [] then aBegin == 0 || aBegin > ctx else EndOf(ost) < aBegin
    }

    /** The current hunk ends with an edit. */
    ghost predicate Ended()
      reads this
    {
      Edited(hunk) && Trail(hunk) == 0 && Shaped(hunk, aBegin, ctx) && Begun()
    }

    /** The current hunk ends with an edit, or nothing has happened at all. */
    ghost predicate Settled()
      reads this
    {
      Ended() || (hunk == [] && ost == [] && aBegin == 0)
    }

    /** An edit may come next. */
    ghost predicate Awaits()
      reads this
    {
      Shaped(hunk, aBegin, ctx) && Ready(hunk, aBegin, ctx) && Begun()
    }

    /** Every hunk written has the context it should have, and they do not touch. */
    ghost predicate Laid()
      reads this
    {
      Spaced(ost, ctx) && forall i :: 0 <= i < |ost| ==> Framed(ost[i], |a|, ctx)
    }

    /** The walk has come to these positions, and all is well. */
    ghost predicate Going(aPos: nat, bPos: nat)
      reads this
    {
      At(aPos, bPos) && Settled() && Placed() && Shown() && Laid()
    }

    lemma EndedAwaits()
      requires Ended()
      ensures Awaits()
    {
    }

    /** One more line in the hunk. */
    twostate lemma OneMoreEdit(l: Line)
      requires old(Awaits()) && !l.Context? && hunk == old(hunk) + [l] && aBegin == old(aBegin) && ost == old(ost)
      ensures Ended() && Cut() == old(Cut()) + (if l.Removed? then 1 else 0) && Put() == old(Put()) + (if l.Added? then 1 else 0)
    {
      hide Shaped, Ready;
      ShapePush(old(hunk), l, aBegin, ctx);
      CountsPush(old(hunk), l);
    }

    /** With context, a side of the current hunk is empty only at the very beginning of its file. */
    ghost predicate Placed()
      reads this
    {
      ctx > 0 ==> (aLen > 0 || aBegin == 0) && (bLen > 0 || bBegin == 0)
    }

    /** With context, every hunk written tells its place. */
    ghost predicate Shown()
      reads this
    {
      ctx > 0 ==> forall i :: 0 <= i < |ost| ==> Located(ost[i], a, b)
    }

    constructor (a: File, b: File, ctx: nat)
      ensures Placed() && Shown() && Laid() && Settled() && Cut() == Put() == 0
      ensures this.a == a && this.b == b && this.ctx == ctx && ost == [] && hunk == []
      ensures Behind(0, 0)
    {
      this.a, this.b, this.ctx := a, b, ctx;
      ost, aBegin, bBegin, aLen, bLen, skew, hunk := [], 0, 0, 0, 0, 0, [];
    }

    method InsertAt(bPos: nat, ghost aPos: nat)
      requires Behind(aPos, bPos) && bPos < |b| && Awaits()
      modifies this`bLen, this`hunk
      ensures Behind(aPos, bPos + 1) && Ended() && Cut() == old(Cut()) && Put() == old(Put()) + 1
    {
      hide Written, Covers, Edited, Awaits, Ended, Cut, Put;
      CoversAdded(a, b, Current());
      bLen := bLen + 1;
      hunk := hunk + [Added(b[bPos])];
      OneMoreEdit(Added(b[bPos]));
    }

    method DeleteAt(aPos: nat, ghost bPos: nat)
      requires Behind(aPos, bPos) && aPos < |a| && Awaits()
      modifies this`aLen, this`hunk
      ensures Behind(aPos + 1, bPos) && Ended() && Cut() == old(Cut()) + 1 && Put() == old(Put())
    {
      hide Written, Covers, Edited, Awaits, Ended, Cut, Put;
      CoversRemoved(a, b, Current());
      aLen := aLen + 1;
      hunk := hunk + [Removed(a[aPos])];
      OneMoreEdit(Removed(a[aPos]));
    }

    /** One line common to both files joins the current hunk. */
    method PushContext(ghost aPos: nat, ghost bPos: nat)
      requires At(aPos, bPos) && aBegin + aLen < aPos
      modifies this`hunk, this`aLen, this`bLen
      ensures At(aPos, bPos) && aLen == old(aLen) + 1 && bLen == old(bLen) + 1
      ensures hunk == old(hunk) + [Context(a[aBegin + old(aLen)])] && (Edited(old(hunk)) ==> Edited(hunk))
    {
      hide Written, Covers, Edited;
      CommonHead(a, aBegin + aLen, aPos, b, bBegin + bLen, bPos);
      CoversContext(a, b, Current());
      hunk := hunk + [Context(a[aBegin + aLen])];
      aLen := aLen + 1;
      bLen := bLen + 1;
    }

    /** Trailing context, then the hunk goes out and a new one begins at pos. */
    method FlushHunk(pos: nat, ghost bPos: nat)
      requires At(pos, bPos) && Settled() && (aBegin + aLen + ctx <= pos || (pos == |a| && bPos == |b|))
      requires Placed() && Shown() && Laid()
      modifies this
      ensures Behind(pos, bPos) && hunk == [] && aBegin == pos && Shown() && Laid() && Cut() == old(Cut()) && Put() == old(Put())
      ensures EndOf(ost) <= old(aBegin + aLen + ctx)
      ensures if old(hunk) == [] then ost == old(ost) else |ost| == |old(ost)| + 1 && old(ost) <= ost && old(hunk) <= ost[|ost| - 1].lines
    {
      hide Written, Covers, Edited, Shared, Located, Spaced, Framed, Shaped;
      WrittenEnd(pos, bPos);
      if |hunk| > 0 {
        TrailingContext(pos, bPos);
        WriteHunk(pos, bPos);
      } else {
        NothingEdited();
        EmptyHunk(a, b, Current());
      }
      BeginHunk(pos, bPos);
    }

    /** The current hunk starts afresh, as much further on in the second file as was inserted more than deleted. */
    method BeginHunk(pos: nat, ghost bPos: nat)
      requires Written(ost, a, aBegin + aLen, b, bBegin + bLen) && skew == bBegin - aBegin
      requires Shared(a, aBegin + aLen, pos, b, bBegin + bLen, bPos)
      modifies this`hunk, this`skew, this`aBegin, this`bBegin, this`aLen, this`bLen
      ensures Behind(pos, bPos) && hunk == [] && aBegin == pos
    {
      hide Written, Covers, Shared;
      WrittenFurther(ost, a, aBegin + aLen, b, bBegin + bLen, pos, bPos);
      Spans(a, aBegin + aLen, pos, b, bBegin + bLen, bPos);
      hunk := [];
      skew := skew + (bLen - aLen);
      aBegin := pos;
      bBegin := pos + skew;
      aLen := 0;
      bLen := 0;
      NothingYet(a, b, Current());
    }

    /** As many of the lines after the hunk as there are, and no more than asked for. */
    method TrailingContext(pos: nat, ghost bPos: nat)
      requires At(pos, bPos) && Ended() && hunk != [] && Placed()
      requires aBegin + aLen + ctx <= pos || (pos == |a| && bPos == |b|)
      modifies this`hunk, this`aLen, this`bLen
      ensures At(pos, bPos) && Edited(hunk) && hunk != [] && old(hunk) <= hunk
      ensures Framed(Current(), |a|, ctx) && Begun() && Cut() == old(Cut()) && Put() == old(Put())
      ensures var more := if aBegin + old(aLen) + ctx <= |a| then ctx else |a| - aBegin - old(aLen);
        aLen == old(aLen) + more && bLen == old(bLen) + more
      ensures ctx > 0 ==> Located(Current(), a, b)
    {
      hide Written, Covers, Edited, Shared, Shaped, Cuts, Adds, AllCuts, AllAdds;
      LastIsEdit();
      WrittenEnd(pos, bPos);
      var aPos := aBegin + aLen;
      var i := 0;
      while i < ctx && aPos + i < |a|
        invariant 0 <= i <= ctx && aPos + i <= |a| && aLen == old(aLen) + i && bLen == old(bLen) + i
        invariant At(pos, bPos) && Edited(hunk) && hunk != [] && old(hunk) <= hunk && |hunk| == |old(hunk)| + i
        invariant forall k :: |old(hunk)| <= k < |hunk| ==> hunk[k].Context?
        invariant Cut() == old(Cut()) && Put() == old(Put())
        decreases ctx - i
      {
        WrittenEnd(pos, bPos);
        ContextCounts(Context(a[aBegin + aLen]));
        PushContext(pos, bPos);
        i := i + 1;
      }
      WrittenEnd(pos, bPos);
      HunkLocated(pos, bPos);
      assert hunk[..|old(hunk)|] == old(hunk);
      assert Closed(Current(), |old(hunk)|, |a|, ctx);
    }

    lemma LastIsEdit()
      requires Ended() && hunk != []
      ensures !hunk[|hunk| - 1].Context?
    {
    }

    /** A line of context is no edit. */
    lemma ContextCounts(l: Line)
      requires l.Context?
      ensures AllCuts(ost) + Cuts(hunk + [l]) == Cut() && AllAdds(ost) + Adds(hunk + [l]) == Put()
    {
      CountsPush(hunk, l);
    }

    lemma NothingEdited()
      requires hunk == []
      ensures Cut() == AllCuts(ost) && Put() == AllAdds(ost)
    {
    }

    method WriteHunk(ghost pos: nat, ghost bPos: nat)
      requires At(pos, bPos) && Edited(hunk) && Shown() && (ctx > 0 ==> Located(Current(), a, b))
      requires Laid() && Begun() && Framed(Current(), |a|, ctx)
      modifies this`ost
      ensures Laid() && AllCuts(ost) == old(Cut()) && AllAdds(ost) == old(Put())
      ensures ost == old(ost) + [Current()]
      ensures Written(ost, a, aBegin + aLen, b, bBegin + bLen) && EndOf(ost) == aBegin + aLen && Shown()
    {
      hide Written, Covers, Edited, Shared, Located, Spaced, Framed;
      WrittenHunk(ost, a, b, Current());
      SpacedPush(ost, Current(), ctx);
      AllCountsPush(ost, Current());
      ost := ost + [Hunk(aBegin, aLen, bBegin, bLen, hunk)];
    }

    lemma HunkLocated(pos: nat, bPos: nat)
      requires At(pos, bPos) && Placed() && hunk != []
      requires ctx > 0 && (aLen == 0 || bLen == 0) ==> aBegin + aLen == |a| && pos == |a| && bPos == |b|
      ensures ctx > 0 ==> Located(Current(), a, b)
    {
      hide Written, Covers;
      Spans(a, aBegin + aLen, pos, b, bBegin + bLen, bPos);
    }

    lemma WrittenEnd(pos: nat, bPos: nat)
      requires At(pos, bPos)
      ensures EndOf(ost) <= aBegin && aBegin + aLen <= pos <= |a|
    {
      EndBelow(ost, a, b, aBegin);
    }

    lemma Spans(a: File, i: nat, ie: nat, b: File, j: nat, je: nat)
      requires Shared(a, i, ie, b, j, je)
      ensures ie - i == je - j && ie <= |a| && je <= |b|
    {
      assert |a[i..ie]| == |b[j..je]|;
    }

    lemma NothingYet(a: File, b: File, h: Hunk)
      requires h.aLen == h.bLen == 0 && h.lines == [] && h.aBegin <= |a| && h.bBegin <= |b|
      ensures Covers(a, b, h) && Shared(a, h.aBegin, h.aBegin, b, h.bBegin, h.bBegin)
    {
    }

    /** The current hunk is brought up to newpos, or flushed when that is too far off, and a new one begun. */
    method AdvanceTo(newpos: nat, ghost bPos: nat)
      requires At(newpos, bPos) && Settled() && Placed() && Shown() && Laid()
      modifies this
      ensures Behind(newpos, bPos) && Placed() && Shown() && Laid() && Awaits() && Cut() == old(Cut()) && Put() == old(Put())
      ensures old(aBegin + aLen) == newpos ==> hunk == old(hunk) && aBegin == old(aBegin) && ost == old(ost)
    {
      hide Written, Covers, Edited, Shared, Spaced, Framed, Shaped, Ready, Trail, Cuts, Adds, AllCuts, AllAdds;
      if aBegin + aLen + 2 * ctx < newpos {
        CommonTail(a, aBegin + aLen, newpos, b, bBegin + bLen, bPos, ctx);
        WrittenEnd(newpos, bPos);
        FlushHunk(newpos, bPos);
        NothingEdited();
        if newpos - ctx < |a| {
          LeadingContext(newpos, bPos);
        }
        AllContext(hunk, aBegin, ctx);
        AwaitsFirst();
      } else {
        PadTo(newpos, bPos);
      }
    }

    /** Context between two edits of one hunk. */
    method PadTo(newpos: nat, ghost bPos: nat)
      requires At(newpos, bPos) && Settled() && Placed() && newpos <= aBegin + aLen + 2 * ctx
      modifies this`hunk, this`aLen, this`bLen
      ensures Behind(newpos, bPos) && Placed() && Awaits() && Cut() == old(Cut()) && Put() == old(Put())
      ensures old(aBegin + aLen) == newpos ==> hunk == old(hunk)
    {
      hide Written, Covers, Edited, Shared, Spaced, Framed, Shaped, Ready, Trail, Cuts, Adds, AllCuts, AllAdds;
      Padding(newpos, bPos);
      while aBegin + aLen < newpos
        invariant At(newpos, bPos) && Placed()
        invariant old(aBegin + aLen) == newpos ==> hunk == old(hunk) && aLen == old(aLen)
        invariant Padded(newpos - aBegin - aLen) && Cut() == old(Cut()) && Put() == old(Put())
        decreases newpos - aLen
      {
        WrittenEnd(newpos, bPos);
        OnePadded(newpos - aBegin - aLen, Context(a[aBegin + aLen]));
        PushContext(newpos, bPos);
      }
      WrittenEnd(newpos, bPos);
      PaddedAwaits();
      Spans(a, aBegin + aLen, newpos, b, bBegin + bLen, bPos);
    }

    /** With n more lines of context an edit may come. */
    ghost predicate Padded(n: int)
      reads this
    {
      PaddedLines(hunk, n)
    }

    ghost predicate PaddedLines(lines: seq<Line>, n: int)
      reads this
    {
      && n >= 0 && Shaped(lines, aBegin, ctx) && Begun()
      && (if Edited(lines) then Trail(lines) + n <= 2 * ctx
          else Trail(lines) == |lines| && aBegin == 0 && |lines| + n <= 2 * ctx)
    }

    lemma Padding(newpos: nat, bPos: nat)
      requires At(newpos, bPos) && Settled() && newpos <= aBegin + aLen + 2 * ctx
      ensures aBegin + aLen <= newpos && Padded(newpos - aBegin - aLen)
    {
      hide Written, Covers;
      if hunk == [] {
        EmptyHunk(a, b, Current());
      }
    }

    lemma OnePadded(n: int, l: Line)
      requires Padded(n) && n > 0 && l.Context?
      ensures PaddedLines(hunk + [l], n - 1)
      ensures AllCuts(ost) + Cuts(hunk + [l]) == Cut() && AllAdds(ost) + Adds(hunk + [l]) == Put()
    {
      ShapePush(hunk, l, aBegin, ctx);
      CountsPush(hunk, l);
    }

    lemma PaddedAwaits()
      requires Padded(0)
      ensures Awaits()
    {
    }

    lemma AwaitsFirst()
      requires Trail(hunk) == |hunk| == ctx && !Edited(hunk) && Shaped(hunk, aBegin, ctx) && Begun()
      ensures Awaits()
    {
    }

    /** The lines just before newpos open the new hunk. */
    method LeadingContext(newpos: nat, ghost bPos: nat)
      requires Behind(newpos, bPos) && hunk == []
      requires ctx <= newpos && ctx <= bPos && Shared(a, newpos - ctx, newpos, b, bPos - ctx, bPos)
      requires EndOf(ost) + ctx <= newpos
      modifies this`hunk, this`aBegin, this`aLen, this`bBegin, this`bLen
      ensures Behind(newpos, bPos) && aLen == bLen == ctx && aBegin == newpos - ctx
      ensures |hunk| == ctx && forall k :: 0 <= k < ctx ==> hunk[k].Context?
    {
      hide Written, Covers, Edited;
      WrittenEnd(newpos, bPos);
      EmptyHunk(a, b, Current());
      WrittenLess(ost, a, newpos, b, bPos, ctx);
      ghost var begun := Hunk(newpos - ctx, 0, bPos - ctx, 0, []);
      NothingYet(a, b, begun);
      var i := ctx;
      while i > 0
        invariant 0 <= i <= ctx && aLen == bLen == ctx - i && aBegin == newpos - aLen && bBegin == bPos - bLen
        invariant begun == Hunk(newpos - ctx, ctx - i, bPos - ctx, ctx - i, hunk) && Covers(a, b, begun)
        invariant Shared(a, newpos - i, newpos, b, bPos - i, bPos)
        invariant |hunk| == ctx - i && forall k :: 0 <= k < |hunk| ==> hunk[k].Context?
      {
        CommonHead(a, newpos - i, newpos, b, bPos - i, bPos);
        CoversContext(a, b, begun);
        hunk := hunk + [Context(a[newpos - i])];
        aBegin := aBegin - 1;
        aLen := aLen + 1;
        bBegin := bBegin - 1;
        bLen := bLen + 1;
        begun := begun.(aLen := begun.aLen + 1, bLen := begun.bLen + 1, lines := hunk);
        i := i - 1;
      }
      assert begun == Current();
    }
  }

  // ---- the walk ----

  /** s can be picked out of t, always taking the first match. */
  ghost predicate Embeds(s: seq<int>, t: seq<int>) {
    s == [] || (t != [] && (if s[0] == t[0] then Embeds(s[1..], t[1..]) else Embeds(s, t[1..])))
  }

  lemma {:induction false} EmbedsDrop(s: seq<int>, t: seq<int>)
    requires Embeds(s, t) && s != []
    ensures t != [] && Embeds(s[1..], t)
    decreases |t|
  {
    if s[0] != t[0] {
      EmbedsDrop(s, t[1..]);
    }
    if s[1..] != [] {
      EmbedsDrop(s[1..], t[1..]);
    }
  }

  lemma {:induction false} EmbedsMore(s: seq<int>, t: seq<int>, x: int)
    requires Embeds(s, t)
    ensures Embeds(s, t + [x]) && Embeds(s + [x], t + [x])
    decreases |t|
  {
    if t == [] {
      assert [x][1..] == [];
    } else {
      assert (t + [x])[1..] == t[1..] + [x];
      if s == [] {
        EmbedsMore([], t[1..], x);
        assert [x][1..] == [];
        assert ([] + [x]) == [x];
      } else {
        assert (s + [x])[1..] == s[1..] + [x];
        if s[0] == t[0] {
          EmbedsMore(s[1..], t[1..], x);
        } else {
          EmbedsMore(s, t[1..], x);
        }
      }
    }
  }

  /** Every subsequence can be picked out that way. */
  lemma {:induction false} SubsequenceEmbeds(s: seq<int>, t: seq<int>)
    requires Subsequence(s, t)
    ensures Embeds(s, t)
    decreases |t|
  {
    if s != [] {
      var u, x := Init(t), Last(t);
      assert t == u + [x];
      if Subsequence(s, u) {
        SubsequenceEmbeds(s, u);
        EmbedsMore(s, u, x);
      } else {
        assert s == Init(s) + [x];
        SubsequenceEmbeds(Init(s), u);
        EmbedsMore(Init(s), u, x);
      }
    }
  }

  lemma EmbedsHere(s: seq<int>, t: seq<int>, i: nat)
    requires i <= |t| && Embeds(s, t[i..]) && s != []
    ensures i < |t| && t[i..][1..] == t[i + 1..]
    ensures if s[0] == t[i] then Embeds(s[1..], t[i + 1..]) else Embeds(s, t[i + 1..])
  {
  }

  /** Numbers that agree stand for lines that agree. */
  ghost predicate Numbers(lines1: seq<int>, lines2: seq<int>, a: File, b: File) {
    && |lines1| == |a| && |lines2| == |b|
    && forall i, j :: 0 <= i < |a| && 0 <= j < |b| && lines1[i] == lines2[j] ==> a[i] == b[j]
  }

  /** A walk along any common subsequence: the hunks written turn the first file into the second. */
  method WalkHunkConsumer(lcs: seq<int>, lines1: seq<int>, lines2: seq<int>, cons: UnidiffHunkWriter)
    requires Subsequence(lcs, lines1) && Subsequence(lcs, lines2) && Numbers(lines1, lines2, cons.a, cons.b)
    requires cons.Behind(0, 0) && cons.hunk == [] && cons.Placed() && cons.Shown()
    requires cons.Laid() && cons.Settled() && cons.Cut() == cons.Put() == 0
    modifies cons
    ensures cons.Shown() && cons.Laid()
    ensures |lcs| <= |lines1| && |lcs| <= |lines2|
    ensures AllCuts(cons.ost) == |lines1| - |lcs| && AllAdds(cons.ost) == |lines2| - |lcs|
    ensures Fits(cons.ost, cons.a, cons.b, |cons.a|) && Patched(cons.ost, cons.a, |cons.a|) == cons.b
  {
    hide Written, Covers, Edited, Shared, Embeds, Subsequence, Fits, Patched;
    hide Spaced, Framed, Shaped, Ready, Trail, Cuts, Adds, AllCuts, AllAdds;
    SubsequenceEmbeds(lcs, lines1);
    SubsequenceEmbeds(lcs, lines2);
    assert lcs[0..] == lcs && lines1[0..] == lines1 && lines2[0..] == lines2;
    var a, b := 0, 0;
    if lcs == [] {
      cons.AdvanceTo(0, 0);
      a := DeleteTo(cons, a, b, |lines1|);
      b := InsertTo(cons, a, b, |lines2|);
      cons.FlushHunk(a, b);
    } else {
      var i := 0;
      while i < |lcs|
        invariant 0 <= i <= |lcs| && i <= a <= |lines1| && i <= b <= |lines2|
        invariant Embeds(lcs[i..], lines1[a..]) && Embeds(lcs[i..], lines2[b..])
        invariant cons.Going(a, b) && cons.Cut() == a - i && cons.Put() == b - i
      {
        EmbedsHere(lcs[i..], lines1, a);
        EmbedsHere(lcs[i..], lines2, b);
        if !(lines1[a] == lcs[i] && lines2[b] == lcs[i]) {
          a, b := NextCommon(cons, a, b, lcs[i..], lines1, lines2);
          EmbedsHere(lcs[i..], lines1, a);
          EmbedsHere(lcs[i..], lines2, b);
        }
        assert lcs[i..][1..] == lcs[i + 1..];
        MatchedLine(cons, lines1, lines2, a, b);
        i, a, b := i + 1, a + 1, b + 1;
      }
      a, b := Remainder(cons, a, b);
      cons.FlushHunk(a, b);
    }
    cons.NothingEdited();
    AllWritten(cons, a, b);
  }

  /** The lines before the next common one are deleted and inserted. */
  method NextCommon(cons: UnidiffHunkWriter, a: nat, b: nat, rest: seq<int>, lines1: seq<int>, lines2: seq<int>) returns (a': nat, b': nat)
    requires cons.Going(a, b) && |lines1| == |cons.a| && |lines2| == |cons.b| && rest != []
    requires a < |lines1| && Embeds(rest, lines1[a..]) && b < |lines2| && Embeds(rest, lines2[b..])
    requires !(lines1[a] == rest[0] && lines2[b] == rest[0])
    modifies cons
    ensures a <= a' < |lines1| && lines1[a'] == rest[0] && Embeds(rest, lines1[a'..])
    ensures b <= b' < |lines2| && lines2[b'] == rest[0] && Embeds(rest, lines2[b'..])
    ensures cons.Going(a', b') && cons.Cut() == old(cons.Cut()) + a' - a && cons.Put() == old(cons.Put()) + b' - b
  {
    hide Written, Covers, Edited, Shared, Embeds;
    hide Spaced, Framed, Shaped, Ready, Trail, Cuts, Adds, AllCuts, AllAdds;
    cons.AdvanceTo(a, b);
    a' := DeleteUntil(cons, a, b, rest, lines1);
    b' := InsertUntil(cons, a', b, rest, lines2);
  }

  /** What is left of the files behind the last common line. */
  method Remainder(cons: UnidiffHunkWriter, a: nat, b: nat) returns (a': nat, b': nat)
    requires cons.Going(a, b) && a <= |cons.a| && b <= |cons.b|
    modifies cons
    ensures a' == |cons.a| && b' == |cons.b| && cons.Going(a', b')
    ensures cons.Cut() == old(cons.Cut()) + a' - a && cons.Put() == old(cons.Put()) + b' - b
  {
    hide Written, Covers, Edited, Shared;
    hide Spaced, Framed, Shaped, Ready, Trail, Cuts, Adds, AllCuts, AllAdds;
    a', b' := a, b;
    if b' < |cons.b| {
      cons.AdvanceTo(a', b');
      b' := InsertTo(cons, a', b', |cons.b|);
    }
    if a' < |cons.a| {
      cons.AdvanceTo(a', b');
      a' := DeleteTo(cons, a', b', |cons.a|);
    }
  }

  lemma MatchedLine(cons: UnidiffHunkWriter, lines1: seq<int>, lines2: seq<int>, a: nat, b: nat)
    requires Numbers(lines1, lines2, cons.a, cons.b) && cons.At(a, b)
    requires a < |lines1| && b < |lines2| && lines1[a] == lines2[b]
    ensures cons.At(a + 1, b + 1)
  {
    hide Written, Covers;
    CommonMore(cons.a, cons.aBegin + cons.aLen, a, cons.b, cons.bBegin + cons.bLen, b);
  }

  lemma AllWritten(cons: UnidiffHunkWriter, a: nat, b: nat)
    requires cons.Behind(a, b) && cons.hunk == [] && a == |cons.a| && b == |cons.b|
    ensures Fits(cons.ost, cons.a, cons.b, |cons.a|) && Patched(cons.ost, cons.a, |cons.a|) == cons.b
  {
    EmptyHunk(cons.a, cons.b, cons.Current());
    assert cons.b[..b] == cons.b;
  }

  /** Deletes the lines up to a position. */
  method DeleteTo(cons: UnidiffHunkWriter, a: nat, ghost b: nat, end: nat) returns (a': nat)
    requires cons.Behind(a, b) && a <= end <= |cons.a| && cons.Awaits()
    modifies cons`aLen, cons`hunk
    ensures a' == end && cons.Behind(a', b) && cons.Cut() == old(cons.Cut()) + end - a && cons.Put() == old(cons.Put())
    ensures cons.Awaits() && if a < end then cons.Ended() else cons.hunk == old(cons.hunk)
  {
    hide Written, Covers, Edited, Shared, Shaped, Ready, Trail, Cuts, Adds, AllCuts, AllAdds;
    a' := a;
    while a' < end
      invariant a <= a' <= end && cons.Behind(a', b)
      invariant cons.Awaits() && if a < a' then cons.Ended() else cons.hunk == old(cons.hunk)
      invariant cons.Cut() == old(cons.Cut()) + a' - a && cons.Put() == old(cons.Put())
    {
      cons.DeleteAt(a', b);
      cons.EndedAwaits();
      a' := a' + 1;
    }
  }

  method InsertTo(cons: UnidiffHunkWriter, ghost a: nat, b: nat, end: nat) returns (b': nat)
    requires cons.Behind(a, b) && b <= end <= |cons.b| && cons.Awaits()
    modifies cons`bLen, cons`hunk
    ensures b' == end && cons.Behind(a, b') && cons.Cut() == old(cons.Cut()) && cons.Put() == old(cons.Put()) + end - b
    ensures cons.Awaits() && if b < end then cons.Ended() else cons.hunk == old(cons.hunk)
  {
    hide Written, Covers, Edited, Shared, Shaped, Ready, Trail, Cuts, Adds, AllCuts, AllAdds;
    b' := b;
    while b' < end
      invariant b <= b' <= end && cons.Behind(a, b')
      invariant cons.Awaits() && if b < b' then cons.Ended() else cons.hunk == old(cons.hunk)
      invariant cons.Cut() == old(cons.Cut()) && cons.Put() == old(cons.Put()) + b' - b
    {
      cons.InsertAt(b', a);
      cons.EndedAwaits();
      b' := b' + 1;
    }
  }

  /** Deletes lines of the first file until the next common one, which is there. */
  method DeleteUntil(cons: UnidiffHunkWriter, a: nat, ghost b: nat, rest: seq<int>, lines1: seq<int>) returns (a': nat)
    requires cons.Behind(a, b) && |lines1| == |cons.a| && a <= |lines1| && rest != [] && Embeds(rest, lines1[a..])
    requires cons.Awaits()
    modifies cons`aLen, cons`hunk
    ensures a <= a' < |lines1| && lines1[a'] == rest[0] && Embeds(rest, lines1[a'..]) && cons.Behind(a', b)
    ensures cons.Cut() == old(cons.Cut()) + a' - a && cons.Put() == old(cons.Put())
    ensures cons.Awaits() && if a < a' then cons.Ended() else cons.hunk == old(cons.hunk)
  {
    hide Written, Covers, Edited, Shared, Embeds, Shaped, Ready, Trail, Cuts, Adds, AllCuts, AllAdds;
    a' := a;
    EmbedsHere(rest, lines1, a');
    while lines1[a'] != rest[0]
      invariant a <= a' < |lines1| && cons.Behind(a', b) && Embeds(rest, lines1[a'..])
      invariant cons.Awaits() && if a < a' then cons.Ended() else cons.hunk == old(cons.hunk)
      invariant cons.Cut() == old(cons.Cut()) + a' - a && cons.Put() == old(cons.Put())
      decreases |lines1| - a'
    {
      EmbedsHere(rest, lines1, a');
      cons.DeleteAt(a', b);
      cons.EndedAwaits();
      a' := a' + 1;
      EmbedsHere(rest, lines1, a');
    }
  }

  /** Inserts lines of the second file until the next common one, which is there. */
  method InsertUntil(cons: UnidiffHunkWriter, ghost a: nat, b: nat, rest: seq<int>, lines2: seq<int>) returns (b': nat)
    requires cons.Behind(a, b) && |lines2| == |cons.b| && b <= |lines2| && rest != [] && Embeds(rest, lines2[b..])
    requires cons.Awaits()
    modifies cons`bLen, cons`hunk
    ensures b <= b' < |lines2| && lines2[b'] == rest[0] && Embeds(rest, lines2[b'..]) && cons.Behind(a, b')
    ensures cons.Cut() == old(cons.Cut()) && cons.Put() == old(cons.Put()) + b' - b
    ensures cons.Awaits() && if b < b' then cons.Ended() else cons.hunk == old(cons.hunk)
  {
    hide Written, Covers, Edited, Shared, Embeds, Shaped, Ready, Trail, Cuts, Adds, AllCuts, AllAdds;
    b' := b;
    EmbedsHere(rest, lines2, b');
    while lines2[b'] != rest[0]
      invariant b <= b' < |lines2| && cons.Behind(a, b') && Embeds(rest, lines2[b'..])
      invariant cons.Awaits() && if b < b' then cons.Ended() else cons.hunk == old(cons.hunk)
      invariant cons.Cut() == old(cons.Cut()) && cons.Put() == old(cons.Put()) + b' - b
      decreases |lines2| - b'
    {
      EmbedsHere(rest, lines2, b');
      cons.InsertAt(b', a);
      cons.EndedAwaits();
      b' := b' + 1;
      EmbedsHere(rest, lines2, b');
    }
  }

  /** Numbers that agree exactly where the lines agree. */
  ghost predicate Numbered(ids1: seq<int>, ids2: seq<int>, a: File, b: File) {
    && |ids1| == |a| && |ids2| == |b|
    && forall i, j :: 0 <= i < |a| && 0 <= j < |b| ==> (ids1[i] == ids2[j] <==> a[i] == b[j])
  }

  /** What the hunks leave alone is as long as a longest common subsequence. */
  ghost predicate LeavesLongest(lcs: seq<int>, ids1: seq<int>, ids2: seq<int>, hunks: seq<Hunk>, a: File, b: File) {
    && Numbered(ids1, ids2, a, b) && LongestCommon(lcs, ids1, ids2)
    && AllCuts(hunks) == |a| - |lcs| && AllAdds(hunks) == |b| - |lcs|
  }

  /** A unified diff of two files: numbers for lines, a longest common subsequence, and the walk. */
  method MakeUnidiff(lines1: File, lines2: File, ctx: nat) returns (hunks: seq<Hunk>)
    ensures Fits(hunks, lines1, lines2, |lines1|) && Patched(hunks, lines1, |lines1|) == lines2
    ensures ctx > 0 ==> forall i :: 0 <= i < |hunks| ==> Located(hunks[i], lines1, lines2)
    ensures Spaced(hunks, ctx) && forall i :: 0 <= i < |hunks| ==> WellCut(hunks[i], |lines1|, ctx)
    ensures exists lcs, ids1, ids2 :: LeavesLongest(lcs, ids1, ids2, hunks, lines1, lines2)
  {
    hide Subsequence, Fits, Patched, Spaced, WellCut, Framed, Located, AllCuts, AllAdds, Cuts, Adds, Shaped, Trail;
    var interner := new Table();
    var ids1, ids2 := interner.InternBoth(lines1, lines2);
    var lcs := LongestCommonSubsequence(ids1, ids2, Min(|ids1|, |ids2|));
    var writer := new UnidiffHunkWriter(lines1, lines2, ctx);
    WalkHunkConsumer(lcs, ids1, ids2, writer);
    hunks := writer.ost;
    forall i | 0 <= i < |hunks|
      ensures WellCut(hunks[i], |lines1|, ctx)
    {
      FramedIs(hunks[i], |lines1|, ctx);
    }
    assert LeavesLongest(lcs, ids1, ids2, hunks, lines1, lines2);
  }
}
