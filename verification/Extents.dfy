// Extents and line merging of diff_patch.cc: an edit script becomes one extent per ancestor line, and two lists of
// extents over the same ancestor are merged line by line.
module Extents {
  import opened Wrappers
  import opened EditDistance
  import opened Lcs

  datatype EditType = Preserved | Deleted | Changed

  /** What became of one ancestor line: `len` lines of the descendant from `pos` on. */
  datatype Extent = Extent(pos: nat, len: nat, ty: EditType)

  ghost predicate InRange(e: Extent, b: seq<int>) {
    e.pos + e.len <= |b|
  }

  ghost predicate AllInRange(x: seq<Extent>, b: seq<int>) {
    forall i :: 0 <= i < |x| ==> InRange(x[i], b)
  }

  function Lines(e: Extent, b: seq<int>): seq<int>
    requires InRange(e, b)
  {
    b[e.pos..e.pos + e.len]
  }

  /** The descendant lines of all extents, in order. */
  ghost function Content(x: seq<Extent>, b: seq<int>): seq<int>
    requires AllInRange(x, b)
  {
    if x == [] then [] else Content(x[..|x| - 1], b) + Lines(x[|x| - 1], b)
  }

  /** The type says what the lines are: the ancestor line itself, nothing, or something else. */
  ghost predicate Typed(e: Extent, line: int, b: seq<int>) {
    InRange(e, b) &&
    match e.ty
    case Preserved => e.len == 1 && b[e.pos] == line
    case Deleted => e.len == 0
    case Changed => e.len >= 1
  }

  ghost predicate AllTyped(x: seq<Extent>, a: seq<int>, b: seq<int>) {
    |x| == |a| && forall i :: 0 <= i < |x| ==> Typed(x[i], a[i], b)
  }

  lemma TypedInRange(x: seq<Extent>, a: seq<int>, b: seq<int>)
    requires AllTyped(x, a, b)
    ensures AllInRange(x, b) && |x| == |a|
  {
    forall i | 0 <= i < |x|
      ensures InRange(x[i], b)
    {
      assert Typed(x[i], a[i], b);
    }
  }

  lemma {:induction false} ContentSplit(x: seq<Extent>, y: seq<Extent>, b: seq<int>)
    requires AllInRange(x + y, b)
    ensures AllInRange(x, b) && AllInRange(y, b) && Content(x + y, b) == Content(x, b) + Content(y, b)
    decreases |y|
  {
    hide InRange, Lines;
    assert forall i :: 0 <= i < |x| ==> (x + y)[i] == x[i];
    assert forall i :: 0 <= i < |y| ==> (x + y)[|x| + i] == y[i];
    if y == [] {
      assert x + y == x;
    } else {
      var z := y[..|y| - 1];
      assert (x + y)[..|x + y| - 1] == x + z;
      ContentSplit(x, z, b);
    }
  }

  lemma ContentPush(x: seq<Extent>, e: Extent, b: seq<int>)
    requires AllInRange(x, b) && InRange(e, b)
    ensures AllInRange(x + [e], b) && Content(x + [e], b) == Content(x, b) + Lines(e, b)
  {
    assert (x + [e])[..|x|] == x;
  }

  // ---- calculating extents ----

  /** Where the walk over the script stands. */
  ghost predicate Walked(a: seq<int>, b: seq<int>, prefix: seq<int>, x: seq<Extent>, suffix: seq<int>, aPos: nat, bPos: nat) {
    && aPos <= |a| && bPos <= |b| && |prefix| + |suffix| <= bPos
    && AllTyped(x, a[..aPos], b)
    && prefix == b[..|prefix|] && suffix == b[bPos - |suffix|..bPos]
    && Content(x, b) == b[|prefix|..bPos - |suffix|]
    && (suffix != [] ==> aPos == |a|)
    && (|prefix| < bPos && suffix == [] ==> x != [] && x[|x| - 1].pos + x[|x| - 1].len == bPos)
  }

  lemma WalkedPreserve(a: seq<int>, b: seq<int>, prefix: seq<int>, x: seq<Extent>, suffix: seq<int>, aPos: nat, bPos: nat)
    requires Walked(a, b, prefix, x, suffix, aPos, bPos) && aPos < |a| && bPos < |b| && a[aPos] == b[bPos]
    ensures Walked(a, b, prefix, x + [Extent(bPos, 1, Preserved)], suffix, aPos + 1, bPos + 1)
  {
    var e := Extent(bPos, 1, Preserved);
    ContentPush(x, e, b);
    assert forall i :: 0 <= i < |x| ==> (x + [e])[i] == x[i];
    assert b[|prefix|..bPos + 1] == b[|prefix|..bPos] + [b[bPos]];
  }

  lemma WalkedDelete(a: seq<int>, b: seq<int>, prefix: seq<int>, x: seq<Extent>, suffix: seq<int>, aPos: nat, bPos: nat)
    requires Walked(a, b, prefix, x, suffix, aPos, bPos) && aPos < |a|
    ensures Walked(a, b, prefix, x + [Extent(bPos, 0, Deleted)], suffix, aPos + 1, bPos)
  {
    var e := Extent(bPos, 0, Deleted);
    ContentPush(x, e, b);
    assert forall i :: 0 <= i < |x| ==> (x + [e])[i] == x[i];
  }

  /** The last extent takes in one more line. */
  function Widened(x: seq<Extent>): seq<Extent>
    requires x != []
  {
    x[..|x| - 1] + [Extent(x[|x| - 1].pos, x[|x| - 1].len + 1, Changed)]
  }

  /** An inserted line goes before everything, behind everything, or to the extent of the line before it. */
  lemma WalkedInsert(a: seq<int>, b: seq<int>, prefix: seq<int>, x: seq<Extent>, suffix: seq<int>, aPos: nat, bPos: nat)
    requires Walked(a, b, prefix, x, suffix, aPos, bPos) && bPos < |b|
    ensures bPos == |prefix| ==> Walked(a, b, prefix + [b[bPos]], x, suffix, aPos, bPos + 1)
    ensures bPos != |prefix| && aPos == |a| ==> Walked(a, b, prefix, x, suffix + [b[bPos]], aPos, bPos + 1)
    ensures bPos != |prefix| && aPos != |a| ==> x != []
    ensures bPos != |prefix| && aPos != |a| ==> Walked(a, b, prefix, Widened(x), suffix, aPos, bPos + 1)
  {
    if bPos == |prefix| {
      assert b[..bPos + 1] == b[..bPos] + [b[bPos]];
      assert b[bPos..bPos] == [] == b[bPos + 1..bPos + 1];
    } else if aPos == |a| {
      assert b[bPos - |suffix|..bPos + 1] == suffix + [b[bPos]];
    } else {
      WalkedExtend(a, b, prefix, x, suffix, aPos, bPos);
    }
  }

  lemma WalkedExtend(a: seq<int>, b: seq<int>, prefix: seq<int>, x: seq<Extent>, suffix: seq<int>, aPos: nat, bPos: nat)
    requires Walked(a, b, prefix, x, suffix, aPos, bPos) && bPos < |b| && bPos != |prefix| && aPos != |a|
    ensures x != [] && Walked(a, b, prefix, Widened(x), suffix, aPos, bPos + 1)
  {
    hide AllTyped, Content;
    WidenedOk(a[..aPos], b, x, bPos);
    assert b[|prefix|..bPos + 1] == b[|prefix|..bPos] + [b[bPos]];
  }

  /** One line more behind the last extent. */
  lemma WidenedOk(a: seq<int>, b: seq<int>, x: seq<Extent>, bPos: nat)
    requires AllTyped(x, a, b) && x != [] && x[|x| - 1].pos + x[|x| - 1].len == bPos < |b|
    ensures AllTyped(Widened(x), a, b) && AllInRange(Widened(x), b) && AllInRange(x, b)
    ensures Content(Widened(x), b) == Content(x, b) + [b[bPos]]
    ensures Widened(x) != [] && Widened(x)[|x| - 1].pos + Widened(x)[|x| - 1].len == bPos + 1 && |Widened(x)| == |x|
  {
    hide AllTyped, Content;
    WidenedTyped(a, b, x, bPos);
    TypedInRange(x, a, b);
    TypedInRange(Widened(x), a, b);
    WidenedContent(b, x, bPos);
  }

  lemma WidenedTyped(a: seq<int>, b: seq<int>, x: seq<Extent>, bPos: nat)
    requires AllTyped(x, a, b) && x != [] && x[|x| - 1].pos + x[|x| - 1].len == bPos < |b|
    ensures AllTyped(Widened(x), a, b)
  {
    forall i | 0 <= i < |x|
      ensures Typed(Widened(x)[i], a[i], b)
    {
      assert Typed(x[i], a[i], b);
    }
  }

  lemma WidenedContent(b: seq<int>, x: seq<Extent>, bPos: nat)
    requires AllInRange(x, b) && x != [] && x[|x| - 1].pos + x[|x| - 1].len == bPos < |b| && AllInRange(Widened(x), b)
    ensures Content(Widened(x), b) == Content(x, b) + [b[bPos]]
  {
    hide AllInRange, Lines, Content;
    var last, front := x[|x| - 1], x[..|x| - 1];
    var e := Extent(last.pos, last.len + 1, Changed);
    assert x == front + [last] && Widened(x) == front + [e];
    FrontInRange(b, x);
    ContentPush(front, last, b);
    ContentPush(front, e, b);
    OneLineMore(b, last, bPos);
    var c, l := Content(front, b), Lines(last, b);
    assert c + (l + [b[bPos]]) == (c + l) + [b[bPos]];
  }

  lemma FrontInRange(b: seq<int>, x: seq<Extent>)
    requires AllInRange(x, b) && x != []
    ensures AllInRange(x[..|x| - 1], b) && InRange(x[|x| - 1], b)
  {
  }

  lemma OneLineMore(b: seq<int>, last: Extent, bPos: nat)
    requires last.pos + last.len == bPos < |b|
    ensures InRange(last, b) && InRange(Extent(last.pos, last.len + 1, Changed), b)
    ensures Lines(Extent(last.pos, last.len + 1, Changed), b) == Lines(last, b) + [b[bPos]]
  {
  }

  /** One extent per ancestor line; with the lines before and behind they make up the descendant. */
  ghost predicate Describes(a: seq<int>, b: seq<int>, prefix: seq<int>, x: seq<Extent>, suffix: seq<int>) {
    AllTyped(x, a, b) && prefix + Content(x, b) + suffix == b
  }

  lemma WalkedAll(a: seq<int>, b: seq<int>, prefix: seq<int>, x: seq<Extent>, suffix: seq<int>)
    requires Walked(a, b, prefix, x, suffix, |a|, |b|)
    ensures Describes(a, b, prefix, x, suffix)
  {
    assert a[..|a|] == a;
    assert b == b[..|prefix|] + b[|prefix|..|b| - |suffix|] + b[|b| - |suffix|..];
  }

  /** The walk over a script as it is told: what has been written and where it stands in both files. */
  datatype Walk = Walk(prefix: seq<int>, x: seq<Extent>, suffix: seq<int>, aPos: nat, bPos: nat)

  /** n lines left alone. */
  function Filled(w: Walk, n: nat): Walk {
    Walk(w.prefix, w.x + seq(n, i requires 0 <= i < n => Extent(w.bPos + i, 1, Preserved)), w.suffix, w.aPos + n, w.bPos + n)
  }

  function AfterDeletion(w: Walk): Walk {
    Walk(w.prefix, w.x + [Extent(w.bPos, 0, Deleted)], w.suffix, w.aPos + 1, w.bPos)
  }

  /** An insertion behind the last ancestor line goes to the suffix; None is an extent missing to widen. */
  function AfterInsertion(w: Walk, b: seq<int>, aLen: nat): Option<Walk>
    requires w.bPos < |b|
  {
    if (w.bPos == 0 && w.x == []) || w.bPos == |w.prefix| then
      Some(Walk(w.prefix + [b[w.bPos]], w.x, w.suffix, w.aPos, w.bPos + 1))
    else if aLen == w.aPos then Some(Walk(w.prefix, w.x, w.suffix + [b[w.bPos]], w.aPos, w.bPos + 1))
    else if w.x == [] then None
    else Some(Walk(w.prefix, Widened(w.x), w.suffix, w.aPos, w.bPos + 1))
  }

  /** One edit, with the lines left alone before it; None is an edit out of order or out of range. */
  function AfterEdit(w: Walk, edit: int, b: seq<int>, aLen: nat): Option<Walk> {
    if edit < 0 then
      if -1 - edit < w.aPos then None else Some(AfterDeletion(Filled(w, -1 - edit - w.aPos)))
    else if edit - 1 < w.bPos || edit - 1 >= |b| then None
    else AfterInsertion(Filled(w, edit - 1 - w.bPos), b, aLen)
  }

  function AfterEdits(edits: seq<int>, b: seq<int>, aLen: nat): Option<Walk> {
    if edits == [] then Some(Walk([], [], [], 0, 0)) else
      var w :- AfterEdits(edits[..|edits| - 1], b, aLen);
      AfterEdit(w, edits[|edits| - 1], b, aLen)
  }

  /** What calculate_extents makes of a script. */
  function Calculated(edits: seq<int>, b: seq<int>, aLen: nat): Option<Walk> {
    var w :- AfterEdits(edits, b, aLen);
    if w.aPos > aLen then None else Some(Filled(w, aLen - w.aPos))
  }

  /** How many lines the first k extents hold. */
  ghost function Off(x: seq<Extent>, k: nat): nat
    requires k <= |x|
  {
    if k == 0 then 0 else Off(x, k - 1) + x[k - 1].len
  }

  /** Every extent that holds lines has the position of its lines in the descendant, of which s come before all. */
  ghost predicate InPlace(x: seq<Extent>, s: nat) {
    forall k :: 0 <= k < |x| && x[k].len > 0 ==> x[k].pos == s + Off(x, k)
  }

  /** The edits an extent stands for at least. */
  ghost function EditsFor(e: Extent, line: int, b: seq<int>): nat
    requires InRange(e, b)
  {
    match e.ty
    case Preserved => 0
    case Deleted => 1
    case Changed => if e.len > 0 && b[e.pos] == line then e.len - 1 else e.len + 1
  }

  ghost function EditsForAll(x: seq<Extent>, a: seq<int>, b: seq<int>, n: nat): nat
    requires n <= |x| <= |a| && AllInRange(x, b)
  {
    if n == 0 then 0 else EditsForAll(x, a, b, n - 1) + EditsFor(x[n - 1], a[n - 1], b)
  }

  /** Extents in place that do not stand for more edits than there were. */
  ghost predicate Accounted(a: seq<int>, b: seq<int>, prefix: seq<int>, x: seq<Extent>, suffix: seq<int>, n: nat) {
    |x| <= |a| && AllInRange(x, b) && InPlace(x, |prefix|) && |prefix| + |suffix| + EditsForAll(x, a, b, |x|) <= n
  }

  lemma {:induction false} OffSame(x: seq<Extent>, y: seq<Extent>, k: nat)
    requires k <= |x| && k <= |y| && forall i :: 0 <= i < k ==> x[i].len == y[i].len
    ensures Off(x, k) == Off(y, k)
    decreases k
  {
    if k > 0 {
      OffSame(x, y, k - 1);
    }
  }

  lemma {:induction false} ContentLength(x: seq<Extent>, b: seq<int>)
    requires AllInRange(x, b)
    ensures |Content(x, b)| == Off(x, |x|)
    decreases |x|
  {
    if x != [] {
      var f := x[..|x| - 1];
      assert forall i :: 0 <= i < |f| ==> f[i] == x[i];
      ContentLength(f, b);
      OffSame(f, x, |f|);
    }
  }

  lemma {:induction false} EditsForSame(x: seq<Extent>, y: seq<Extent>, a: seq<int>, b: seq<int>, n: nat)
    requires n <= |x| <= |a| && n <= |y| <= |a| && AllInRange(x, b) && AllInRange(y, b) && forall i :: 0 <= i < n ==> x[i] == y[i]
    ensures EditsForAll(x, a, b, n) == EditsForAll(y, a, b, n)
    decreases n
  {
    if n > 0 {
      EditsForSame(x, y, a, b, n - 1);
    }
  }

  lemma AccountPush(a: seq<int>, b: seq<int>, prefix: seq<int>, x: seq<Extent>, suffix: seq<int>, e: Extent, n: nat, m: nat)
    requires Accounted(a, b, prefix, x, suffix, n) && |x| < |a| && InRange(e, b)
    requires e.len > 0 ==> e.pos == |prefix| + |Content(x, b)|
    requires EditsFor(e, a[|x|], b) <= m
    ensures Accounted(a, b, prefix, x + [e], suffix, n + m)
  {
    var y := x + [e];
    ContentLength(x, b);
    EditsForSame(x, y, a, b, |x|);
    forall k | 0 <= k < |y| && y[k].len > 0
      ensures y[k].pos == |prefix| + Off(y, k)
    {
      OffSame(x, y, k);
    }
  }

  lemma AccountPreserve(a: seq<int>, b: seq<int>, prefix: seq<int>, x: seq<Extent>, suffix: seq<int>, aPos: nat, bPos: nat, n: nat)
    requires Walked(a, b, prefix, x, suffix, aPos, bPos) && aPos < |a| && bPos < |b| && Accounted(a, b, prefix, x, suffix, n)
    ensures Accounted(a, b, prefix, x + [Extent(bPos, 1, Preserved)], suffix, n)
  {
    AccountPush(a, b, prefix, x, suffix, Extent(bPos, 1, Preserved), n, 0);
  }

  lemma AccountDelete(a: seq<int>, b: seq<int>, prefix: seq<int>, x: seq<Extent>, suffix: seq<int>, aPos: nat, bPos: nat, n: nat)
    requires Walked(a, b, prefix, x, suffix, aPos, bPos) && aPos < |a| && Accounted(a, b, prefix, x, suffix, n)
    ensures Accounted(a, b, prefix, x + [Extent(bPos, 0, Deleted)], suffix, n + 1)
  {
    AccountPush(a, b, prefix, x, suffix, Extent(bPos, 0, Deleted), n, 1);
  }

  /** An inserted line is one edit, and displaces no extent that holds lines. */
  lemma AccountInsert(a: seq<int>, b: seq<int>, prefix: seq<int>, x: seq<Extent>, suffix: seq<int>, aPos: nat, bPos: nat, n: nat)
    requires Walked(a, b, prefix, x, suffix, aPos, bPos) && bPos < |b| && Accounted(a, b, prefix, x, suffix, n)
    ensures bPos == |prefix| ==> Accounted(a, b, prefix + [b[bPos]], x, suffix, n + 1)
    ensures Accounted(a, b, prefix, x, suffix + [b[bPos]], n + 1)
    ensures bPos != |prefix| && aPos != |a| ==> x != [] && Accounted(a, b, prefix, Widened(x), suffix, n + 1)
  {
    if bPos == |prefix| {
      ContentLength(x, b);
      forall k | 0 <= k < |x|
        ensures x[k].len == 0
      {
        NoLines(x, k);
      }
    } else if aPos != |a| {
      AccountWiden(a, b, prefix, x, suffix, aPos, bPos, n);
    }
  }

  lemma {:induction false} NoLines(x: seq<Extent>, k: nat)
    requires k < |x| && Off(x, |x|) == 0
    ensures x[k].len == 0
    decreases |x|
  {
    if k < |x| - 1 {
      OffSame(x[..|x| - 1], x, |x| - 1);
      NoLines(x[..|x| - 1], k);
    }
  }

  lemma AccountWiden(a: seq<int>, b: seq<int>, prefix: seq<int>, x: seq<Extent>, suffix: seq<int>, aPos: nat, bPos: nat, n: nat)
    requires Walked(a, b, prefix, x, suffix, aPos, bPos) && bPos < |b| && Accounted(a, b, prefix, x, suffix, n)
    requires bPos != |prefix| && aPos != |a|
    ensures x != [] && Accounted(a, b, prefix, Widened(x), suffix, n + 1)
  {
    WalkedLast(a, b, prefix, x, suffix, aPos, bPos);
    WidenInPlace(x, |prefix|, bPos);
    var m, y := |x| - 1, Widened(x);
    assert forall i :: 0 <= i < m ==> y[i] == x[i];
    EditsForSame(x, y, a, b, m);
  }

  lemma WalkedLast(a: seq<int>, b: seq<int>, prefix: seq<int>, x: seq<Extent>, suffix: seq<int>, aPos: nat, bPos: nat)
    requires Walked(a, b, prefix, x, suffix, aPos, bPos) && bPos != |prefix| && aPos != |a|
    ensures x != [] && |x| == aPos && x[|x| - 1].pos + x[|x| - 1].len == bPos && Typed(x[|x| - 1], a[|x| - 1], b)
    ensures |prefix| + Off(x, |x|) == bPos
  {
    assert AllInRange(x, b) by {
      TypedInRange(x, a[..aPos], b);
    }
    ContentLength(x, b);
    assert a[..aPos][|x| - 1] == a[|x| - 1];
  }

  lemma WidenInPlace(x: seq<Extent>, s: nat, bPos: nat)
    requires x != [] && InPlace(x, s) && x[|x| - 1].pos + x[|x| - 1].len == bPos == s + Off(x, |x|)
    ensures InPlace(Widened(x), s)
  {
    var y := Widened(x);
    assert forall i :: 0 <= i < |x| - 1 ==> y[i] == x[i];
    forall k | 0 <= k < |y| && y[k].len > 0
      ensures y[k].pos == s + Off(y, k)
    {
      OffSame(x, y, k);
    }
  }

  /** Lines that the script leaves alone become extents of their own. */
  method FillPreserved(ghost a: seq<int>, ghost b: seq<int>, ghost prefix: seq<int>, extents: seq<Extent>, ghost suffix: seq<int>,
                       aPos: nat, bPos: nat, aTo: nat, ghost n: nat)
    returns (filled: seq<Extent>, bTo: nat)
    requires Walked(a, b, prefix, extents, suffix, aPos, bPos) && Accounted(a, b, prefix, extents, suffix, n) && aPos <= aTo
    requires Carried(a, aPos, aTo, b, bPos, bPos + aTo - aPos)
    ensures bTo == bPos + aTo - aPos && Walked(a, b, prefix, filled, suffix, aTo, bTo) && Accounted(a, b, prefix, filled, suffix, n)
    ensures Walk(prefix, filled, suffix, aTo, bTo) == Filled(Walk(prefix, extents, suffix, aPos, bPos), aTo - aPos)
  {
    hide Walked, Accounted;
    filled, bTo := extents, bPos;
    var aAt := aPos;
    while aAt < aTo
      invariant aPos <= aAt <= aTo && bTo == bPos + aAt - aPos && Walked(a, b, prefix, filled, suffix, aAt, bTo)
      invariant Accounted(a, b, prefix, filled, suffix, n)
      invariant filled == extents + seq(aAt - aPos, i requires 0 <= i < aAt - aPos => Extent(bPos + i, 1, Preserved))
    {
      assert a[aPos..aTo][aAt - aPos] == b[bPos..bPos + aTo - aPos][aAt - aPos];
      WalkedPreserve(a, b, prefix, filled, suffix, aAt, bTo);
      AccountPreserve(a, b, prefix, filled, suffix, aAt, bTo, n);
      filled := filled + [Extent(bTo, 1, Preserved)];
      aAt, bTo := aAt + 1, bTo + 1;
    }
  }

  /** Records an inserted line. */
  method InsertLine(ghost a: seq<int>, b: seq<int>, prefix: seq<int>, extents: seq<Extent>, suffix: seq<int>,
                    aLen: nat, aPos: nat, bPos: nat, ghost n: nat)
    returns (prefix': seq<int>, extents': seq<Extent>, suffix': seq<int>)
    requires Walked(a, b, prefix, extents, suffix, aPos, bPos) && Accounted(a, b, prefix, extents, suffix, n)
    requires bPos < |b| && aLen == |a|
    ensures Walked(a, b, prefix', extents', suffix', aPos, bPos + 1) && Accounted(a, b, prefix', extents', suffix', n + 1)
    ensures AfterInsertion(Walk(prefix, extents, suffix, aPos, bPos), b, aLen) == Some(Walk(prefix', extents', suffix', aPos, bPos + 1))
  {
    hide Walked, Accounted;
    prefix', extents', suffix' := prefix, extents, suffix;
    WalkedInsert(a, b, prefix, extents, suffix, aPos, bPos);
    AccountInsert(a, b, prefix, extents, suffix, aPos, bPos, n);
    if (bPos == 0 && extents == []) || bPos == |prefix| {
      PrefixIsAll(a, b, prefix, extents, suffix, aPos, bPos);
      prefix' := prefix + [b[bPos]];
    } else if aLen == aPos {
      suffix' := suffix + [b[bPos]];
    } else {
      extents' := Widened(extents);
    }
  }

  /** One edit, with the lines left alone before it. */
  method TellEdit(edit: int, ghost a: seq<int>, b: seq<int>, prefix: seq<int>, extents: seq<Extent>, suffix: seq<int>,
                  aLen: nat, aPos: nat, bPos: nat, ghost n: nat)
    returns (prefix': seq<int>, extents': seq<Extent>, suffix': seq<int>, aNext: nat, bNext: nat)
    requires Walked(a, b, prefix, extents, suffix, aPos, bPos) && Accounted(a, b, prefix, extents, suffix, n) && aLen == |a|
    requires edit != 0 && aPos <= EditRow(edit, aPos, bPos) && bPos <= EditColumn(edit, aPos, bPos)
    requires Carried(a, aPos, EditRow(edit, aPos, bPos), b, bPos, EditColumn(edit, aPos, bPos))
    requires if edit < 0 then EditRow(edit, aPos, bPos) < |a| else EditColumn(edit, aPos, bPos) < |b|
    ensures aNext == RowAfter(edit, aPos, bPos) && bNext == ColumnAfter(edit, aPos, bPos)
    ensures Walked(a, b, prefix', extents', suffix', aNext, bNext) && Accounted(a, b, prefix', extents', suffix', n + 1)
    ensures AfterEdit(Walk(prefix, extents, suffix, aPos, bPos), edit, b, aLen) == Some(Walk(prefix', extents', suffix', aNext, bNext))
  {
    hide Walked, Accounted, AfterInsertion;
    prefix', suffix' := prefix, suffix;
    if edit < 0 {
      aNext := -1 - edit;
      extents', bNext := FillPreserved(a, b, prefix, extents, suffix, aPos, bPos, aNext, n);
      WalkedDelete(a, b, prefix, extents', suffix, aNext, bNext);
      AccountDelete(a, b, prefix, extents', suffix, aNext, bNext, n);
      extents' := extents' + [Extent(bNext, 0, Deleted)];
      aNext := aNext + 1;
    } else {
      aNext := aPos + (edit - 1) - bPos;
      extents', bNext := FillPreserved(a, b, prefix, extents, suffix, aPos, bPos, aNext, n);
      prefix', extents', suffix' := InsertLine(a, b, prefix, extents', suffix, aLen, aNext, bNext, n);
      bNext := bNext + 1;
    }
  }

  /** A script over the ancestor, told line by line. */
  method CalculateExtents(edits: seq<int>, b: seq<int>, aLen: nat, ghost a: seq<int>)
    returns (prefix: seq<int>, extents: seq<Extent>, suffix: seq<int>)
    requires FullScript(edits, a, b) && aLen == |a|
    ensures Describes(a, b, prefix, extents, suffix) && Accounted(a, b, prefix, extents, suffix, |edits|)
    ensures Calculated(edits, b, aLen) == Some(Walk(prefix, extents, suffix, |a|, |b|))
    ensures edits == [] ==> prefix == suffix == [] && forall i :: 0 <= i < |extents| ==> extents[i].ty.Preserved?
  {
    hide Walked, Script, Describes, Accounted, AfterEdit;
    prefix, extents, suffix := [], [], [];
    var aPos: nat, bPos: nat, k := 0, 0, 0;
    WalkedStart(a, b);
    assert edits[0..] == edits && edits[..0] == [];
    while k < |edits|
      invariant 0 <= k <= |edits|
      invariant Script(edits[k..], a, b, aPos, |a|, bPos, |b|)
      invariant Walked(a, b, prefix, extents, suffix, aPos, bPos) && Accounted(a, b, prefix, extents, suffix, k)
      invariant AfterEdits(edits[..k], b, aLen) == Some(Walk(prefix, extents, suffix, aPos, bPos))
    {
      ScriptStep(edits[k..], a, b, aPos, |a|, bPos, |b|);
      assert edits[k..][0] == edits[k] && edits[k..][1..] == edits[k + 1..];
      assert edits[..k + 1][..k] == edits[..k] && edits[..k + 1][k] == edits[k];
      prefix, extents, suffix, aPos, bPos := TellEdit(edits[k], a, b, prefix, extents, suffix, aLen, aPos, bPos, k);
      k := k + 1;
    }
    assert edits[..k] == edits;
    ScriptEnd(edits[k..], a, b, aPos, |a|, bPos, |b|);
    var filled, bTo := FillPreserved(a, b, prefix, extents, suffix, aPos, bPos, aLen, k);
    extents := filled;
    WalkedAll(a, b, prefix, extents, suffix);
  }

  lemma WalkedStart(a: seq<int>, b: seq<int>)
    ensures Walked(a, b, [], [], [], 0, 0) && Accounted(a, b, [], [], [], 0)
  {
  }

  lemma PrefixIsAll(a: seq<int>, b: seq<int>, prefix: seq<int>, x: seq<Extent>, suffix: seq<int>, aPos: nat, bPos: nat)
    requires Walked(a, b, prefix, x, suffix, aPos, bPos)
    ensures bPos == 0 ==> |prefix| == 0
  {
  }

  lemma ScriptStep(e: seq<int>, a: seq<int>, b: seq<int>, i: nat, ie: nat, j: nat, je: nat)
    requires Script(e, a, b, i, ie, j, je) && e != [] && ie == |a| && je == |b|
    ensures var d, c := EditRow(e[0], i, j), EditColumn(e[0], i, j);
      && e[0] != 0 && Carried(a, i, d, b, j, c) && i <= d <= |a| && c == j + d - i
      && (if e[0] < 0 then d == -1 - e[0] && d < |a| && Script(e[1..], a, b, d + 1, ie, c, je)
          else c == e[0] - 1 && c < |b| && Script(e[1..], a, b, d, ie, c + 1, je))
  {
    ScriptInRange(e, a, b, i, ie, j, je);
    ScriptInRange(e[1..], a, b, RowAfter(e[0], i, j), ie, ColumnAfter(e[0], i, j), je);
    CarriedLength(a, i, EditRow(e[0], i, j), b, j, EditColumn(e[0], i, j));
  }

  lemma ScriptEnd(e: seq<int>, a: seq<int>, b: seq<int>, i: nat, ie: nat, j: nat, je: nat)
    requires Script(e, a, b, i, ie, j, je) && e == [] && ie == |a| && je == |b|
    ensures Carried(a, i, ie, b, j, je) && i <= ie && je == j + ie - i
  {
    CarriedLength(a, i, ie, b, j, je);
  }

  // ---- merging ----

  /** One ancestor line, three ways: the side that changed it wins; both may change it only to the same lines. */
  ghost function ThreeWay(e: Extent, f: Extent, b: seq<int>, c: seq<int>): Option<seq<int>>
    requires InRange(e, b) && InRange(f, c)
  {
    if e.ty.Preserved? then Some(Lines(f, c))
    else if f.ty.Preserved? then Some(Lines(e, b))
    else if e.ty == f.ty && Lines(e, b) == Lines(f, c) then Some(Lines(e, b))
    else None
  }

  /** All of the lines below n; a conflict anywhere is a conflict. */
  ghost function ThreeWayAll(x: seq<Extent>, y: seq<Extent>, b: seq<int>, c: seq<int>, n: nat): Option<seq<int>>
    requires AllInRange(x, b) && AllInRange(y, c) && n <= |x| == |y|
  {
    if n == 0 then Some([]) else
      var front, line := ThreeWayAll(x, y, b, c, n - 1), ThreeWay(x[n - 1], y[n - 1], b, c);
      if front.Some? && line.Some? then Some(front.value + line.value) else None
  }

  lemma {:induction false} ConflictStays(x: seq<Extent>, y: seq<Extent>, b: seq<int>, c: seq<int>, n: nat, m: nat)
    requires AllInRange(x, b) && AllInRange(y, c) && n <= m <= |x| == |y| && ThreeWayAll(x, y, b, c, n).None?
    ensures ThreeWayAll(x, y, b, c, m).None?
    decreases m
  {
    if n < m {
      ConflictStays(x, y, b, c, n, m - 1);
    }
  }

  /** Copies the lines of an extent behind what has been merged so far. */
  method CopyLines(e: Extent, b: seq<int>, merged: seq<int>) returns (more: seq<int>)
    requires InRange(e, b)
    ensures more == merged + Lines(e, b)
  {
    more := merged;
    for k := 0 to e.len
      invariant more == merged + b[e.pos..e.pos + k]
    {
      more := more + [b[e.pos + k]];
    }
  }

  /** None is a conflict. */
  method MergeOne(e: Extent, f: Extent, b: seq<int>, c: seq<int>, merged: seq<int>, ghost line: int) returns (more: Option<seq<int>>)
    requires Typed(e, line, b) && Typed(f, line, c)
    ensures more == if ThreeWay(e, f, b, c).Some? then Some(merged + ThreeWay(e, f, b, c).value) else None
  {
    if ((e.ty == Changed && f.ty == Changed) || (e.ty == Preserved && f.ty == Preserved)) && e.len == f.len {
      var m := merged;
      for k := 0 to e.len
        invariant m == merged + b[e.pos..e.pos + k] && b[e.pos..e.pos + k] == c[f.pos..f.pos + k]
      {
        if b[e.pos + k] != c[f.pos + k] {
          assert Lines(e, b)[k] != Lines(f, c)[k];
          return None;
        }
        assert b[e.pos..e.pos + k + 1] == b[e.pos..e.pos + k] + [b[e.pos + k]];
        assert c[f.pos..f.pos + k + 1] == c[f.pos..f.pos + k] + [c[f.pos + k]];
        m := m + [b[e.pos + k]];
      }
      more := Some(m);
    } else if (e.ty == Deleted && f.ty == Deleted) || (e.ty == Deleted && f.ty == Preserved)
           || (e.ty == Preserved && f.ty == Deleted) {
      assert e.ty == Deleted ==> Lines(e, b) == [];
      assert f.ty == Deleted ==> Lines(f, c) == [];
      assert ThreeWay(e, f, b, c) == Some([]) && merged + [] == merged;
      more := Some(merged);
    } else if e.ty == Changed && f.ty == Preserved {
      var m := CopyLines(e, b, merged);
      more := Some(m);
    } else if e.ty == Preserved && f.ty == Changed {
      var m := CopyLines(f, c, merged);
      more := Some(m);
    } else {
      assert e.ty == f.ty ==> |Lines(e, b)| != |Lines(f, c)|;
      more := None;
    }
  }

  /** Merging two lists of extents over one ancestor. */
  method MergeExtents(x: seq<Extent>, y: seq<Extent>, b: seq<int>, c: seq<int>, ghost a: seq<int>) returns (merged: Option<seq<int>>)
    requires AllTyped(x, a, b) && AllTyped(y, a, c)
    ensures AllInRange(x, b) && AllInRange(y, c) && |x| == |y| && merged == ThreeWayAll(x, y, b, c, |x|)
  {
    hide ThreeWay, Typed;
    TypedInRange(x, a, b);
    TypedInRange(y, a, c);
    var m: seq<int> := [];
    var i := 0;
    while i < |x|
      invariant 0 <= i <= |x| && ThreeWayAll(x, y, b, c, i) == Some(m)
    {
      var more := MergeOne(x[i], y[i], b, c, m, a[i]);
      i := i + 1;
      if more.None? {
        ConflictStays(x, y, b, c, i, |x|);
        return None;
      }
      m := more.value;
    }
    merged := Some(m);
  }

  /** Merging does not depend on which side is called left. */
  lemma {:induction false} MergeSymmetric(x: seq<Extent>, y: seq<Extent>, a: seq<int>, b: seq<int>, c: seq<int>, n: nat)
    requires AllTyped(x, a, b) && AllTyped(y, a, c) && AllInRange(x, b) && AllInRange(y, c) && n <= |a|
    ensures ThreeWayAll(x, y, b, c, n) == ThreeWayAll(y, x, c, b, n)
  {
    if n > 0 {
      MergeSymmetric(x, y, a, b, c, n - 1);
      assert Typed(x[n - 1], a[n - 1], b) && Typed(y[n - 1], a[n - 1], c);
      assert x[n - 1].ty.Preserved? ==> Lines(x[n - 1], b) == [a[n - 1]];
      assert y[n - 1].ty.Preserved? ==> Lines(y[n - 1], c) == [a[n - 1]];
    }
  }

  /** A conflict is reported exactly when both sides changed some line, and not to the same lines. */
  lemma {:induction false} ConflictExact(x: seq<Extent>, y: seq<Extent>, b: seq<int>, c: seq<int>, n: nat)
    requires AllInRange(x, b) && AllInRange(y, c) && n <= |x| == |y|
    ensures ThreeWayAll(x, y, b, c, n).None? <==>
      exists i :: 0 <= i < n && !x[i].ty.Preserved? && !y[i].ty.Preserved? && !(x[i].ty == y[i].ty && Lines(x[i], b) == Lines(y[i], c))
  {
    if n > 0 {
      ConflictExact(x, y, b, c, n - 1);
    }
  }

  /** A side that changed nothing: the merge is the other side, whole. */
  lemma {:induction false} MergeUnchanged(x: seq<Extent>, y: seq<Extent>, b: seq<int>, c: seq<int>, n: nat)
    requires AllInRange(x, b) && AllInRange(y, c) && n <= |x| == |y|
    requires forall i :: 0 <= i < n ==> y[i].ty.Preserved?
    requires forall i :: 0 <= i < n && x[i].ty.Preserved? ==> Lines(x[i], b) == Lines(y[i], c)
    ensures AllInRange(x[..n], b) && ThreeWayAll(x, y, b, c, n) == Some(Content(x[..n], b))
  {
    if n > 0 {
      MergeUnchanged(x, y, b, c, n - 1);
      assert x[..n][..n - 1] == x[..n - 1];
    }
  }

  /** Two sides changed alike: the merge is what they both are. */
  lemma {:induction false} MergeAlike(x: seq<Extent>, b: seq<int>, n: nat)
    requires AllInRange(x, b) && n <= |x|
    ensures AllInRange(x[..n], b) && ThreeWayAll(x, x, b, b, n) == Some(Content(x[..n], b))
  {
    if n > 0 {
      MergeAlike(x, b, n - 1);
      assert x[..n][..n - 1] == x[..n - 1];
    }
  }

  // ---- what a merged list is, line by line ----

  /** What an ancestor line has become: itself if neither side changed it, else the lines of every side that did. */
  ghost predicate LineMerged(piece: seq<int>, e: Extent, f: Extent, line: int, b: seq<int>, c: seq<int>)
    requires InRange(e, b) && InRange(f, c)
  {
    && (e.ty.Preserved? && f.ty.Preserved? ==> piece == [line])
    && (!e.ty.Preserved? ==> piece == b[e.pos..e.pos + e.len])
    && (!f.ty.Preserved? ==> piece == c[f.pos..f.pos + f.len])
  }

  ghost function Joined(pieces: seq<seq<int>>): seq<int> {
    if pieces == [] then [] else Joined(pieces[..|pieces| - 1]) + pieces[|pieces| - 1]
  }

  /** One piece for every ancestor line below n. */
  ghost predicate PiecesOf(pieces: seq<seq<int>>, x: seq<Extent>, y: seq<Extent>, a: seq<int>, b: seq<int>, c: seq<int>, n: nat)
    requires AllInRange(x, b) && AllInRange(y, c) && n <= |x| == |y| == |a|
  {
    |pieces| == n && forall i :: 0 <= i < n ==> LineMerged(pieces[i], x[i], y[i], a[i], b, c)
  }

  /** Exactly the lists that are made of such pieces, one for every ancestor line in order, are merges. */
  lemma MergedLineByLine(x: seq<Extent>, y: seq<Extent>, a: seq<int>, b: seq<int>, c: seq<int>, n: nat, m: seq<int>)
    requires AllTyped(x, a, b) && AllTyped(y, a, c) && AllInRange(x, b) && AllInRange(y, c) && n <= |a|
    ensures ThreeWayAll(x, y, b, c, n) == Some(m) <==> exists pieces :: PiecesOf(pieces, x, y, a, b, c, n) && Joined(pieces) == m
  {
    hide AllTyped;
    TypedInRange(x, a, b);
    TypedInRange(y, a, c);
    if ThreeWayAll(x, y, b, c, n).Some? {
      var pieces := SomePieces(x, y, a, b, c, n);
    }
    forall pieces | PiecesOf(pieces, x, y, a, b, c, n)
      ensures ThreeWayAll(x, y, b, c, n) == Some(Joined(pieces))
    {
      PiecesMerge(pieces, x, y, a, b, c, n);
    }
  }

  lemma {:induction false} SomePieces(x: seq<Extent>, y: seq<Extent>, a: seq<int>, b: seq<int>, c: seq<int>, n: nat)
    returns (pieces: seq<seq<int>>)
    requires AllTyped(x, a, b) && AllTyped(y, a, c) && AllInRange(x, b) && AllInRange(y, c) && n <= |a|
    requires ThreeWayAll(x, y, b, c, n).Some?
    ensures PiecesOf(pieces, x, y, a, b, c, n) && Joined(pieces) == ThreeWayAll(x, y, b, c, n).value
  {
    if n == 0 {
      pieces := [];
    } else {
      var front := SomePieces(x, y, a, b, c, n - 1);
      var piece := ThreeWay(x[n - 1], y[n - 1], b, c).value;
      PieceIs(x[n - 1], y[n - 1], a[n - 1], b, c, piece);
      pieces := front + [piece];
      assert pieces[..n - 1] == front;
    }
  }

  lemma {:induction false} PiecesMerge(pieces: seq<seq<int>>, x: seq<Extent>, y: seq<Extent>, a: seq<int>, b: seq<int>, c: seq<int>, n: nat)
    requires AllTyped(x, a, b) && AllTyped(y, a, c) && AllInRange(x, b) && AllInRange(y, c) && n <= |a|
    requires PiecesOf(pieces, x, y, a, b, c, n)
    ensures ThreeWayAll(x, y, b, c, n) == Some(Joined(pieces))
    decreases n
  {
    if n > 0 {
      PiecesMerge(pieces[..n - 1], x, y, a, b, c, n - 1);
      PieceIs(x[n - 1], y[n - 1], a[n - 1], b, c, pieces[n - 1]);
    }
  }

  /** The rule for one line has exactly that outcome. */
  lemma PieceIs(e: Extent, f: Extent, line: int, b: seq<int>, c: seq<int>, piece: seq<int>)
    requires Typed(e, line, b) && Typed(f, line, c)
    ensures ThreeWay(e, f, b, c) == Some(piece) <==> LineMerged(piece, e, f, line, b, c)
  {
    assert f.ty.Preserved? ==> Lines(f, c) == [line];
    assert e.ty.Preserved? ==> Lines(e, b) == [line];
    assert !e.ty.Preserved? && !f.ty.Preserved? && e.ty != f.ty ==> |Lines(e, b)| != |Lines(f, c)|;
  }

  /** With the lines before and behind: merging a descendant with its unchanged ancestor gives the descendant. */
  lemma MergeWithAncestor(a: seq<int>, b: seq<int>, c: seq<int>, prefix: seq<int>, x: seq<Extent>, suffix: seq<int>, y: seq<Extent>)
    requires Describes(a, b, prefix, x, suffix) && AllTyped(y, a, c) && forall i :: 0 <= i < |y| ==> y[i].ty.Preserved?
    ensures AllInRange(x, b) && AllInRange(y, c) && ThreeWayAll(x, y, b, c, |x|).Some?
    ensures prefix + ThreeWayAll(x, y, b, c, |x|).value + suffix == b
  {
    TypedInRange(x, a, b);
    TypedInRange(y, a, c);
    forall i | 0 <= i < |x| && x[i].ty.Preserved?
      ensures Lines(x[i], b) == Lines(y[i], c)
    {
      assert Typed(x[i], a[i], b) && Typed(y[i], a[i], c);
    }
    MergeUnchanged(x, y, b, c, |x|);
    assert x[..|x|] == x;
  }

  /** The script between equal files is empty, so an unchanged side has nothing but preserved lines. */
  lemma SelfScript(a: seq<int>, edits: seq<int>)
    requires MinimumScript(edits, a, a)
    ensures edits == []
  {
    assert FullScript([], a, a);
  }
}
