// Binary deltas of xdelta.cc: copy and insert instructions found with a rolling checksum, and their application.
module Xdelta {
  import opened Wrappers
  import opened Adler32

  const U32 := 0x1_0000_0000

  /** Positions and lengths of copies are 32-bit numbers. */
  datatype Insn = Insert(payload: string) | Copy(pos: nat, len: nat)

  function ByteOf(c: char): Byte {
    (c as int) % 256
  }

  function Bytes(s: string): seq<Byte> {
    seq(|s|, i requires 0 <= i < |s| => ByteOf(s[i]))
  }

  /** Every copy lies within the source. */
  ghost predicate InRange(delta: seq<Insn>, a: string) {
    forall i :: 0 <= i < |delta| && delta[i].Copy? ==> delta[i].pos + delta[i].len <= |a|
  }

  ghost function OutputOf(insn: Insn, a: string): string
    requires insn.Copy? ==> insn.pos + insn.len <= |a|
  {
    match insn
    case Insert(payload) => payload
    case Copy(pos, len) => a[pos..pos + len]
  }

  /** What the instructions produce from a. */
  ghost function Output(delta: seq<Insn>, a: string): string
    requires InRange(delta, a)
  {
    if delta == [] then "" else Output(delta[..|delta| - 1], a) + OutputOf(delta[|delta| - 1], a)
  }

  /** No instruction is idle. */
  ghost predicate Compact(delta: seq<Insn>) {
    forall i :: 0 <= i < |delta| ==> match delta[i] case Insert(p) => p != "" case Copy(_, len) => len > 0
  }

  lemma OutputPush(delta: seq<Insn>, insn: Insn, a: string)
    requires InRange(delta, a) && (insn.Copy? ==> insn.pos + insn.len <= |a|)
    ensures InRange(delta + [insn], a) && Output(delta + [insn], a) == Output(delta, a) + OutputOf(insn, a)
  {
    assert (delta + [insn])[..|delta|] == delta;
  }

  /** A 32-bit copy instruction for these numbers. */
  function CopyInsn(pos: nat, len: nat): Insn {
    Copy(pos % U32, len % U32)
  }

  function InsertInsn(delta: seq<Insn>, c: char): seq<Insn> {
    if delta == [] || delta[|delta| - 1].Copy? then delta + [Insert([c])]
    else delta[..|delta| - 1] + [Insert(delta[|delta| - 1].payload + [c])]
  }

  /** Trailing inserts are the end of what has been produced. */
  ghost predicate TailOf(delta: seq<Insn>, done: string) {
    delta != [] && delta[|delta| - 1].Insert? ==>
      var p := delta[|delta| - 1].payload; |p| <= |done| && p == done[|done| - |p|..]
  }

  /** The instructions stand for `done`. */
  ghost predicate StandsFor(delta: seq<Insn>, a: string, done: string) {
    Compact(delta) && InRange(delta, a) && Output(delta, a) == done
  }

  /** Inserts never follow each other. */
  ghost predicate Separated(delta: seq<Insn>) {
    forall i, j :: 0 <= i && j == i + 1 && j < |delta| ==> delta[i].Copy? || delta[j].Copy?
  }

  /** The instructions so far stand for `done`, as long as positions in a fit into 32 bits. */
  ghost predicate Produces(delta: seq<Insn>, a: string, done: string) {
    TailOf(delta, done) && Separated(delta) && (|a| < U32 ==> StandsFor(delta, a, done))
  }

  lemma StandsForPush(delta: seq<Insn>, insn: Insn, a: string, done: string)
    requires StandsFor(delta, a, done) && (insn.Copy? ==> insn.pos + insn.len <= |a| && insn.len > 0) && (insn.Insert? ==> insn.payload != "")
    ensures StandsFor(delta + [insn], a, done + OutputOf(insn, a))
  {
    OutputPush(delta, insn, a);
  }

  lemma StandsForPop(delta: seq<Insn>, a: string, done: string)
    requires StandsFor(delta, a, done) && delta != []
    ensures var front, last := delta[..|delta| - 1], delta[|delta| - 1];
      && (last.Copy? ==> last.pos + last.len <= |a|)
      && |OutputOf(last, a)| <= |done| && StandsFor(front, a, done[..|done| - |OutputOf(last, a)|])
  {
    var front, last := delta[..|delta| - 1], delta[|delta| - 1];
    assert forall i :: 0 <= i < |front| ==> front[i] == delta[i];
    assert (Output(front, a) + OutputOf(last, a))[..|Output(front, a)|] == Output(front, a);
  }

  lemma ProducesChar(delta: seq<Insn>, a: string, done: string, c: char)
    requires Produces(delta, a, done)
    ensures Produces(InsertInsn(delta, c), a, done + [c])
  {
    hide StandsFor;
    TailChar(delta, done, c);
    if |a| < U32 {
      if delta == [] || delta[|delta| - 1].Copy? {
        StandsForPush(delta, Insert([c]), a, done);
      } else {
        var front, p := delta[..|delta| - 1], delta[|delta| - 1].payload;
        StandsForPop(delta, a, done);
        var before := done[..|done| - |p|];
        StandsForPush(front, Insert(p + [c]), a, before);
        assert before + (p + [c]) == done + [c];
      }
    }
  }

  lemma TailChar(delta: seq<Insn>, done: string, c: char)
    requires TailOf(delta, done)
    ensures TailOf(InsertInsn(delta, c), done + [c])
  {
  }

  lemma ProducesCopy(delta: seq<Insn>, a: string, done: string, pos: nat, len: nat)
    requires Produces(delta, a, done) && 0 < len && pos + len <= |a|
    ensures Produces(delta + [CopyInsn(pos, len)], a, done + a[pos..pos + len])
  {
    hide StandsFor;
    if |a| < U32 {
      assert CopyInsn(pos, len) == Copy(pos, len);
      StandsForPush(delta, Copy(pos, len), a, done);
    }
  }

  /** Takes the last character back out of the trailing insert. */
  lemma ProducesBack(delta: seq<Insn>, a: string, done: string)
    requires Produces(delta, a, done) && CanShorten(delta)
    ensures done != [] && delta[|delta| - 1].payload[|delta[|delta| - 1].payload| - 1] == done[|done| - 1]
    ensures Produces(Shortened(delta), a, done[..|done| - 1])
  {
    hide StandsFor;
    var p := delta[|delta| - 1].payload;
    if |a| < U32 {
      StandsForPop(delta, a, done);
      var before := done[..|done| - |p|];
      if |p| == 1 {
        assert before == done[..|done| - 1];
      } else {
        StandsForPush(delta[..|delta| - 1], Insert(p[..|p| - 1]), a, before);
        assert before + p[..|p| - 1] == done[..|done| - 1];
      }
    }
    TailShortened(delta, done);
  }

  /** The trailing insert without its last character, or without the insert when nothing is left of it. */
  function Shortened(delta: seq<Insn>): seq<Insn>
    requires CanShorten(delta)
  {
    var p := delta[|delta| - 1].payload;
    if |p| == 1 then delta[..|delta| - 1] else delta[..|delta| - 1] + [Insert(p[..|p| - 1])]
  }

  lemma ShortenedMore(delta: seq<Insn>)
    requires CanShorten(delta)
    ensures LastInserted(delta) > 1 ==> CanShorten(Shortened(delta)) && LastInserted(Shortened(delta)) == LastInserted(delta) - 1
  {
  }

  /** Behind an insert that is gone there is a copy, or nothing. */
  lemma ShortenedLess(delta: seq<Insn>, a: string, done: string)
    requires Produces(delta, a, done) && CanShorten(delta) && LastInserted(delta) == 1
    ensures !CanShorten(Shortened(delta))
  {
    if |delta| > 1 {
      assert delta[|delta| - 2].Copy?;
    }
  }

  lemma TailShortened(delta: seq<Insn>, done: string)
    requires TailOf(delta, done) && Separated(delta) && CanShorten(delta)
    ensures done != [] && TailOf(Shortened(delta), done[..|done| - 1])
  {
    if |delta| > 1 {
      assert delta[|delta| - 2].Copy?;
    }
  }

  // ---- which parts of b are inserted, and how far copies go ----

  function Length(insn: Insn): nat {
    match insn
    case Insert(p) => |p|
    case Copy(_, len) => len
  }

  /** How long the text is that the instructions stand for. */
  ghost function Reach(delta: seq<Insn>): nat {
    if delta == [] then 0 else Reach(delta[..|delta| - 1]) + Length(delta[|delta| - 1])
  }

  /** The instruction at t inserts what is at position p of the text. */
  ghost predicate InsertsBy(delta: seq<Insn>, p: nat, t: int) {
    0 <= t < |delta| && delta[t].Insert? && Reach(delta[..t]) <= p < Reach(delta[..t]) + |delta[t].payload|
  }

  ghost predicate InsertsAt(delta: seq<Insn>, p: nat) {
    exists t :: InsertsBy(delta, p, t)
  }

  /**
   A copy goes on until a text ends or they differ, and begins where they differ before it, or a text begins, or another
   copy ends.
   */
  ghost predicate CopyTight(delta: seq<Insn>, a: string, b: string, t: int)
    requires 0 <= t < |delta|
  {
    delta[t].Copy? ==>
      var pos, len, at := delta[t].pos, delta[t].len, Reach(delta[..t]);
      && pos + len <= |a| && at + len <= |b|
      && (pos + len == |a| || at + len == |b| || a[pos + len] != b[at + len])
      && (pos == 0 || at == 0 || a[pos - 1] != b[at - 1] || delta[t - 1].Copy?)
  }

  ghost predicate MaximalCopies(delta: seq<Insn>, a: string, b: string) {
    forall t :: 0 <= t < |delta| ==> CopyTight(delta, a, b, t)
  }

  lemma InsertsPush(delta: seq<Insn>, insn: Insn, p: nat)
    ensures InsertsAt(delta + [insn], p) <==> InsertsAt(delta, p) || (insn.Insert? && Reach(delta) <= p < Reach(delta) + Length(insn))
  {
    hide Reach;
    var more := delta + [insn];
    assert more[..|delta|] == delta;
    forall t | 0 <= t < |delta|
      ensures InsertsBy(more, p, t) <==> InsertsBy(delta, p, t)
    {
      assert more[..t] == delta[..t];
    }
    if insn.Insert? && Reach(delta) <= p < Reach(delta) + Length(insn) {
      assert InsertsBy(more, p, |delta|);
    }
    if t :| InsertsBy(more, p, t) && t < |delta| {
      assert InsertsBy(delta, p, t);
    }
    if t :| InsertsBy(delta, p, t) {
      assert InsertsBy(more, p, t);
    }
  }

  lemma MaximalPush(delta: seq<Insn>, insn: Insn, a: string, b: string)
    ensures MaximalCopies(delta + [insn], a, b) <==> MaximalCopies(delta, a, b) && CopyTight(delta + [insn], a, b, |delta|)
  {
    hide Reach;
    var more := delta + [insn];
    forall t | 0 <= t < |delta|
      ensures CopyTight(more, a, b, t) <==> CopyTight(delta, a, b, t)
    {
      assert more[..t] == delta[..t];
    }
  }

  lemma {:induction false} ReachIs(delta: seq<Insn>, a: string)
    requires InRange(delta, a)
    ensures Reach(delta) == |Output(delta, a)|
  {
    hide InRange, OutputOf, Length;
    if delta != [] {
      RangeFront(delta, a);
      ReachIs(delta[..|delta| - 1], a);
    }
  }

  lemma RangeFront(delta: seq<Insn>, a: string)
    requires InRange(delta, a) && delta != []
    ensures InRange(delta[..|delta| - 1], a)
    ensures var last := delta[|delta| - 1];
      (last.Copy? ==> last.pos + last.len <= |a|) && |OutputOf(last, a)| == Length(last)
  {
    assert forall i :: 0 <= i < |delta| - 1 ==> delta[..|delta| - 1][i] == delta[i];
  }

  /** One more character inserted, right behind the text so far. */
  lemma SearchedChar(delta: seq<Insn>, c: char, a: string, b: string)
    ensures forall p: nat :: InsertsAt(InsertInsn(delta, c), p) <==> InsertsAt(delta, p) || p == Reach(delta)
    ensures MaximalCopies(delta, a, b) ==> MaximalCopies(InsertInsn(delta, c), a, b)
  {
    hide InsertsAt, MaximalCopies;
    if delta == [] || delta[|delta| - 1].Copy? {
      forall p: nat
        ensures InsertsAt(InsertInsn(delta, c), p) <==> InsertsAt(delta, p) || p == Reach(delta)
      {
        InsertsPush(delta, Insert([c]), p);
      }
      MaximalPush(delta, Insert([c]), a, b);
    } else {
      var front, last := delta[..|delta| - 1], delta[|delta| - 1];
      assert delta == front + [last];
      forall p: nat
        ensures InsertsAt(InsertInsn(delta, c), p) <==> InsertsAt(delta, p) || p == Reach(delta)
      {
        InsertsPush(front, last, p);
        InsertsPush(front, Insert(last.payload + [c]), p);
      }
      MaximalPush(front, last, a, b);
      MaximalPush(front, Insert(last.payload + [c]), a, b);
    }
  }

  lemma SearchedBack(delta: seq<Insn>, a: string, b: string)
    requires CanShorten(delta)
    ensures forall p: nat :: InsertsAt(Shortened(delta), p) ==> InsertsAt(delta, p)
    ensures MaximalCopies(delta, a, b) ==> MaximalCopies(Shortened(delta), a, b)
  {
    hide InsertsAt, MaximalCopies;
    var front, last := delta[..|delta| - 1], delta[|delta| - 1];
    assert delta == front + [last];
    var less := last.payload[..|last.payload| - 1];
    forall p: nat | InsertsAt(Shortened(delta), p)
      ensures InsertsAt(delta, p)
    {
      InsertsPush(front, last, p);
      InsertsPush(front, Insert(less), p);
    }
    MaximalPush(front, last, a, b);
    MaximalPush(front, Insert(less), a, b);
  }

  lemma SearchedCopy(delta: seq<Insn>, pos: nat, len: nat, a: string, b: string)
    ensures forall p: nat :: InsertsAt(delta + [Copy(pos, len)], p) <==> InsertsAt(delta, p)
    ensures MaximalCopies(delta, a, b) && CopyTight(delta + [Copy(pos, len)], a, b, |delta|) ==>
      MaximalCopies(delta + [Copy(pos, len)], a, b)
  {
    hide InsertsAt, MaximalCopies, CopyTight;
    forall p: nat
      ensures InsertsAt(delta + [Copy(pos, len)], p) <==> InsertsAt(delta, p)
    {
      InsertsPush(delta, Copy(pos, len), p);
    }
    MaximalPush(delta, Copy(pos, len), a, b);
  }

  // ---- the match table ----

  type MatchTable = map<nat, (nat, nat)>

  /** Every entry is a block of a, under the checksum of its bytes. */
  ghost predicate TableOk(matches: MatchTable, a: string) {
    forall sum :: sum in matches ==>
      var e := matches[sum];
      0 < e.1 && e.0 + e.1 <= |a| && sum == Packed(Checksum(Bytes(a[e.0..e.0 + e.1])))
  }

  /** The block of a that begins at i; the last one may be shorter. */
  function BlockAt(a: string, i: nat, blocksz: nat): string
    requires i <= |a|
  {
    a[i..if i + blocksz >= |a| then |a| else i + blocksz]
  }

  /** Where the blocks from i on begin. */
  function BlockStarts(i: nat, n: nat, blocksz: nat): (starts: set<nat>)
    requires blocksz > 0
    ensures forall k :: k in starts ==> i <= k < n
    decreases n - i
  {
    if i >= n then {} else {i} + BlockStarts(i + blocksz, n, blocksz)
  }

  /** The block at i is in the table under its checksum, unless an earlier one has the same. */
  ghost predicate Remembers(tab: MatchTable, a: string, blocksz: nat, i: nat) {
    i <= |a| && var sum := Packed(Checksum(Bytes(BlockAt(a, i, blocksz)))); sum in tab && tab[sum].0 <= i
  }

  /** Every entry is one of the blocks, whole. */
  ghost predicate HoldsBlocks(tab: MatchTable, a: string, blocksz: nat)
    requires blocksz > 0
  {
    forall sum :: sum in tab ==> tab[sum].0 in BlockStarts(0, |a|, blocksz) && tab[sum].1 == |BlockAt(a, tab[sum].0, blocksz)|
  }

  lemma {:induction false} StartsGoOn(i: nat, k: nat, n: nat, blocksz: nat)
    requires blocksz > 0 && k in BlockStarts(i, n, blocksz) && k + blocksz < n
    ensures k + blocksz in BlockStarts(i, n, blocksz)
    decreases n - i
  {
    if k == i {
      assert k + blocksz in BlockStarts(i + blocksz, n, blocksz);
    } else {
      StartsGoOn(i + blocksz, k, n, blocksz);
    }
  }

  /** The first block with a checksum is the one remembered. */
  method InitMatchTable(a: string, blocksz: nat) returns (tab: MatchTable)
    requires blocksz > 0
    ensures TableOk(tab, a) && HoldsBlocks(tab, a, blocksz)
    ensures forall k :: k in BlockStarts(0, |a|, blocksz) ==> Remembers(tab, a, blocksz, k)
  {
    hide Checksum, Packed, Bytes, TableOk, Remembers, BlockStarts;
    tab := map[];
    assert TableOk(tab, a) by { NothingRemembered(a); }
    StartsStep(0, |a|, blocksz);
    var i := 0;
    while i < |a|
      invariant TableOk(tab, a) && HoldsBlocks(tab, a, blocksz)
      invariant i < |a| ==> i in BlockStarts(0, |a|, blocksz)
      invariant forall sum :: sum in tab ==> tab[sum].0 < i
      invariant forall k :: k in BlockStarts(0, |a|, blocksz) ==> k in BlockStarts(i, |a|, blocksz) || Remembers(tab, a, blocksz, k)
      decreases |a| - i
    {
      var step := if i + blocksz >= |a| then |a| - i else blocksz;
      assert a[i..i + step] == BlockAt(a, i, blocksz);
      var block := new Rolling(Bytes(a[i..i + step]));
      var sum := block.Sum();
      RememberOne(tab, a, blocksz, i, step, sum);
      if sum !in tab {
        tab := tab[sum := (i, step)];
      }
      StartsStep(i, |a|, blocksz);
      if i + blocksz < |a| {
        StartsGoOn(0, i, |a|, blocksz);
      }
      i := i + blocksz;
    }
  }

  lemma StartsStep(i: nat, n: nat, blocksz: nat)
    requires blocksz > 0
    ensures BlockStarts(i, n, blocksz) == if i >= n then {} else {i} + BlockStarts(i + blocksz, n, blocksz)
    ensures i + blocksz >= n ==> BlockStarts(i + blocksz, n, blocksz) == {}
  {
  }

  /** The table with one more block, unless its checksum is taken. */
  function WithBlock(tab: MatchTable, i: nat, step: nat, sum: nat): MatchTable {
    if sum in tab then tab else tab[sum := (i, step)]
  }

  lemma NothingRemembered(a: string)
    ensures TableOk(map[], a)
  {
  }

  lemma RememberOne(tab: MatchTable, a: string, blocksz: nat, i: nat, step: nat, sum: nat)
    requires TableOk(tab, a) && (forall s :: s in tab ==> tab[s].0 < i)
    requires 0 < step && i + step <= |a| && a[i..i + step] == BlockAt(a, i, blocksz)
    requires sum == Packed(Checksum(Bytes(a[i..i + step])))
    ensures var after := WithBlock(tab, i, step, sum);
      && TableOk(after, a) && Remembers(after, a, blocksz, i) && (forall s :: s in after ==> after[s].0 <= i)
      && forall k :: Remembers(tab, a, blocksz, k) ==> Remembers(after, a, blocksz, k)
  {
    hide Checksum, Packed, Bytes, BlockAt;
  }

  // ---- matches ----

  /** As far forwards as the texts agree. */
  method ExtendForwards(a: string, b: string, apos: nat, bpos: nat, len: nat) returns (longer: nat)
    requires apos + len <= |a| && bpos + len <= |b| && a[apos..apos + len] == b[bpos..bpos + len]
    ensures longer >= len && apos + longer <= |a| && bpos + longer <= |b|
    ensures a[apos..apos + longer] == b[bpos..bpos + longer]
    ensures apos + longer == |a| || bpos + longer == |b| || a[apos + longer] != b[bpos + longer]
  {
    longer := len;
    while apos + longer < |a| && bpos + longer < |b| && a[apos + longer] == b[bpos + longer]
      invariant longer >= len && apos + longer <= |a| && bpos + longer <= |b|
      invariant a[apos..apos + longer] == b[bpos..bpos + longer]
      decreases |a| - longer
    {
      assert a[apos..apos + longer + 1] == a[apos..apos + longer] + [a[apos + longer]];
      assert b[bpos..bpos + longer + 1] == b[bpos..bpos + longer] + [b[bpos + longer]];
      longer := longer + 1;
    }
  }

  lemma OneLonger(a: string, i: nat, b: string, j: nat, len: nat)
    requires 0 < i && i + len <= |a| && 0 < j && j + len <= |b| && a[i..i + len] == b[j..j + len] && a[i - 1] == b[j - 1]
    ensures a[i - 1..i + len] == b[j - 1..j + len]
  {
    assert a[i - 1..i + len] == [a[i - 1]] + a[i..i + len] && b[j - 1..j + len] == [b[j - 1]] + b[j..j + len];
  }

  /** The trailing insert has something that can be taken back. */
  predicate CanShorten(delta: seq<Insn>) {
    delta != [] && delta[|delta| - 1].Insert? && delta[|delta| - 1].payload != ""
  }

  /** How much of the text was inserted last. */
  function LastInserted(delta: seq<Insn>): nat {
    if CanShorten(delta) then |delta[|delta| - 1].payload| else 0
  }

  /** Back into a trailing insert as far as the texts agree: what the match covers need not be inserted. */
  method ExtendBackwards(delta: seq<Insn>, a: string, b: string, apos: nat, bpos: nat, alen: nat)
    returns (shorter: seq<Insn>, apos': nat, ghost bpos': nat, alen': nat)
    requires apos + alen <= |a| && bpos + alen <= |b| && a[apos..apos + alen] == b[bpos..bpos + alen]
    requires Produces(delta, a, b[..bpos])
    ensures apos' + alen' == apos + alen && bpos' + alen' == bpos + alen && alen <= alen'
    ensures a[apos'..apos' + alen'] == b[bpos'..bpos' + alen']
    ensures Produces(shorter, a, b[..bpos'])
    ensures apos' == 0 || bpos' == 0 || a[apos' - 1] != b[bpos' - 1] || bpos - bpos' == LastInserted(delta)
    ensures apos' == 0 || bpos' == 0 || a[apos' - 1] != b[bpos' - 1] || !CanShorten(shorter)
    ensures forall p: nat :: InsertsAt(shorter, p) ==> InsertsAt(delta, p)
    ensures MaximalCopies(delta, a, b) ==> MaximalCopies(shorter, a, b)
  {
    hide Produces, Shortened, InsertsAt, MaximalCopies;
    shorter, apos', bpos', alen' := delta, apos, bpos, alen;
    var bAt := bpos;
    var inside := CanShorten(delta);
    while apos' > 0 && bAt > 0 && inside && a[apos' - 1] == b[bAt - 1]
      invariant bpos' == bAt <= bpos && apos' + alen' == apos + alen && bpos' + alen' == bpos + alen && alen <= alen'
      invariant a[apos'..apos' + alen'] == b[bpos'..bpos' + alen'] && Produces(shorter, a, b[..bpos'])
      invariant inside == CanShorten(shorter)
      invariant forall p: nat :: InsertsAt(shorter, p) ==> InsertsAt(delta, p)
      invariant MaximalCopies(delta, a, b) ==> MaximalCopies(shorter, a, b)
      invariant if inside then CanShorten(shorter) && LastInserted(shorter) == LastInserted(delta) - (bpos - bpos')
        else bpos - bpos' == LastInserted(delta)
      decreases bAt
    {
      ProducesBack(shorter, a, b[..bAt]);
      assert b[..bAt][..bAt - 1] == b[..bAt - 1];
      OneLonger(a, apos', b, bAt, alen');
      inside := |shorter[|shorter| - 1].payload| > 1;
      ShortenedMore(shorter);
      if !inside {
        ShortenedLess(shorter, a, b[..bAt]);
      }
      SearchedBack(shorter, a, b);
      shorter := Shortened(shorter);
      apos', bAt, bpos', alen' := apos' - 1, bAt - 1, bpos' - 1, alen' + 1;
    }
  }

  /** A block of a found at a position of b, as the rest of the search sees it. */
  datatype Match = NoMatch | Found(delta: seq<Insn>, apos: nat, alen: nat, badvance: nat) | OutOfBounds

  /**
   Comparing a block against the end of b can run past it; what is there decides, and a match then takes the walk
   out of b, which is checked.
   */
  method FindMatch(matches: MatchTable, delta: seq<Insn>, sum: nat, a: string, b: string, bpos: nat, pastEndEqual: bool)
    returns (m: Match)
    requires TableOk(matches, a) && bpos < |b| && Produces(delta, a, b[..bpos])
    ensures m.Found? ==> 0 < m.badvance && bpos + m.badvance <= |b| && 0 < m.alen && m.apos + m.alen <= |a|
    ensures m.Found? ==> Extends(m, a, b, bpos)
    ensures m.Found? ==> Furthest(m, a, b, bpos) && forall p: nat :: InsertsAt(m.delta, p) ==> InsertsAt(delta, p)
    ensures m.Found? && MaximalCopies(delta, a, b) ==> MaximalCopies(m.delta, a, b)
    ensures m.Found? <==> sum in matches && BlockAgrees(matches[sum], a, b, bpos)
    ensures m.OutOfBounds? ==> pastEndEqual && sum in matches && bpos + matches[sum].1 > |b|
  {
    hide Produces, Checksum, Packed, InsertsAt, MaximalCopies;
    if sum !in matches {
      return NoMatch;
    }
    var tpos, tlen := matches[sum].0, matches[sum].1;
    if bpos + tlen > |b| {
      if a[tpos..tpos + |b| - bpos] == b[bpos..] && pastEndEqual {
        return OutOfBounds;
      }
      return NoMatch;
    }
    if a[tpos..tpos + tlen] != b[bpos..bpos + tlen] {
      return NoMatch;
    }
    var badvance := ExtendForwards(a, b, tpos, bpos, tlen);
    var shorter, apos, bpos', alen := ExtendBackwards(delta, a, b, tpos, bpos, badvance);
    m := Found(shorter, apos, alen, badvance);
    assert Continues(m, a, b, bpos, bpos');
  }

  /** The instructions kept, followed by the copy, stand for b up to the end of the match. */
  ghost predicate Continues(m: Match, a: string, b: string, bpos: nat, bpos': nat)
    requires m.Found?
  {
    && m.apos + m.alen <= |a| && bpos' + m.alen == bpos + m.badvance <= |b|
    && a[m.apos..m.apos + m.alen] == b[bpos'..bpos' + m.alen] && Produces(m.delta, a, b[..bpos'])
  }

  /** The match cannot be made longer at either end, except into another copy. */
  ghost predicate Furthest(m: Match, a: string, b: string, bpos: nat)
    requires m.Found?
  {
    && m.apos + m.alen <= |a| && m.alen <= bpos + m.badvance <= |b|
    && (m.apos + m.alen == |a| || bpos + m.badvance == |b| || a[m.apos + m.alen] != b[bpos + m.badvance])
    && var bpos' := bpos + m.badvance - m.alen;
       m.apos == 0 || bpos' == 0 || a[m.apos - 1] != b[bpos' - 1] || !CanShorten(m.delta)
  }

  /** The block is there, whole, at this position of b. */
  ghost predicate BlockAgrees(e: (nat, nat), a: string, b: string, bpos: nat) {
    e.0 + e.1 <= |a| && bpos + e.1 <= |b| && a[e.0..e.0 + e.1] == b[bpos..bpos + e.1]
  }

  ghost predicate Extends(m: Match, a: string, b: string, bpos: nat)
    requires m.Found?
  {
    exists bpos': nat :: Continues(m, a, b, bpos, bpos')
  }

  lemma MatchCopied(m: Match, a: string, b: string, bpos: nat)
    requires m.Found? && Extends(m, a, b, bpos) && 0 < m.alen
    ensures bpos + m.badvance <= |b| && Produces(m.delta + [CopyInsn(m.apos, m.alen)], a, b[..bpos + m.badvance])
  {
    hide Produces;
    var bpos': nat :| Continues(m, a, b, bpos, bpos');
    ProducesCopy(m.delta, a, b[..bpos'], m.apos, m.alen);
    assert b[..bpos'] + b[bpos'..bpos' + m.alen] == b[..bpos' + m.alen];
  }

  /** The copy of a match is as long as it can be, and nothing new is inserted. */
  lemma MatchSearched(m: Match, a: string, b: string, bpos: nat)
    requires m.Found? && Extends(m, a, b, bpos) && Furthest(m, a, b, bpos) && 0 < m.alen && |a| < U32
    requires MaximalCopies(m.delta, a, b)
    ensures var d := m.delta + [CopyInsn(m.apos, m.alen)];
      MaximalCopies(d, a, b) && forall p: nat :: InsertsAt(d, p) <==> InsertsAt(m.delta, p)
  {
    hide InsertsAt, MaximalCopies, TailOf, Reach, Output;
    var bpos': nat :| Continues(m, a, b, bpos, bpos');
    ReachIs(m.delta, a);
    var d := m.delta + [Copy(m.apos, m.alen)];
    assert CopyInsn(m.apos, m.alen) == Copy(m.apos, m.alen);
    assert d[..|m.delta|] == m.delta;
    if m.delta == [] {
      NoReach();
    } else {
      assert d[|m.delta| - 1] == m.delta[|m.delta| - 1];
    }
    assert CopyTight(d, a, b, |m.delta|);
    SearchedCopy(m.delta, m.apos, m.alen, a, b);
  }

  lemma NoReach()
    ensures Reach([]) == 0
  {
  }

  // ---- computing instructions ----

  const BLOCK := 64

  /** The bytes under the rolling checksum: a block, or what is left of b. */
  ghost function Window(b: string, lo: nat): seq<Byte>
    requires lo <= |b|
  {
    Bytes(b[lo..if lo + BLOCK < |b| then lo + BLOCK else |b|])
  }

  lemma SlideWindow(b: string, lo: nat)
    requires lo < |b|
    ensures AfterOut(Checksum(Window(b, lo)), ByteOf(b[lo])) == Checksum(Bytes(b[lo + 1..if lo + BLOCK < |b| then lo + BLOCK else |b|]))
    ensures lo + BLOCK < |b| ==>
      AfterIn(AfterOut(Checksum(Window(b, lo)), ByteOf(b[lo])), ByteOf(b[lo + BLOCK])) == Checksum(Window(b, lo + 1))
    ensures lo + BLOCK >= |b| ==> AfterOut(Checksum(Window(b, lo)), ByteOf(b[lo])) == Checksum(Window(b, lo + 1))
  {
    hide Checksum, AfterOut, AfterIn;
    var hi := if lo + BLOCK < |b| then lo + BLOCK else |b|;
    var rest := Bytes(b[lo + 1..hi]);
    assert Window(b, lo) == [ByteOf(b[lo])] + rest;
    OutExact(ByteOf(b[lo]), rest);
    if lo + BLOCK < |b| {
      InExact(rest, ByteOf(b[lo + BLOCK]));
      assert Window(b, lo + 1) == rest + [ByteOf(b[lo + BLOCK])];
    } else {
      assert Window(b, lo + 1) == rest;
    }
  }

  /** Moves the window along b; it always holds the checksum of what it covers. */
  method Roll(rolling: Rolling, b: string, lo: nat, badvance: nat)
    requires lo + badvance <= |b| && rolling.State() == Checksum(Window(b, lo))
    modifies rolling
    ensures rolling.State() == Checksum(Window(b, lo + badvance))
  {
    hide Checksum, AfterOut, AfterIn, Window;
    var next := lo;
    while next < lo + badvance
      invariant lo <= next <= lo + badvance && rolling.State() == Checksum(Window(b, next))
    {
      SlideWindow(b, next);
      rolling.Out(ByteOf(b[next]));
      if next + BLOCK < |b| {
        rolling.In(ByteOf(b[next + BLOCK]));
      }
      next := next + 1;
    }
  }

  ghost function BlockSum(s: string, i: nat): nat
    requires i <= |s|
  {
    Packed(Checksum(Bytes(BlockAt(s, i, BLOCK))))
  }

  /** A block of a begins there, and no earlier one has its checksum. */
  ghost predicate FirstOfItsKind(a: string, k: nat) {
    k < |a| && k % BLOCK == 0 && forall j: nat :: j < k && j % BLOCK == 0 ==> BlockSum(a, j) != BlockSum(a, k)
  }

  /** What b has there is no block of a that the search could have found. */
  ghost predicate NoBlockAt(a: string, b: string, p: nat) {
    p < |b| && forall k: nat :: FirstOfItsKind(a, k) ==> BlockAt(b, p, BLOCK) != BlockAt(a, k, BLOCK)
  }

  /** Nothing is inserted that begins with such a block, and copies are as long as they can be. */
  ghost predicate Searched(delta: seq<Insn>, a: string, b: string) {
    MaximalCopies(delta, a, b) && forall p: nat :: InsertsAt(delta, p) ==> NoBlockAt(a, b, p)
  }

  lemma {:induction false} StartsAre(i: nat, n: nat)
    requires i % BLOCK == 0
    ensures forall k: nat :: k in BlockStarts(i, n, BLOCK) <==> i <= k < n && k % BLOCK == 0
    decreases n - i
  {
    if i < n {
      StartsAre(i + BLOCK, n);
    }
  }

  /** A position at which the table has nothing that is there is one without a block. */
  lemma NothingFound(tab: MatchTable, a: string, b: string, p: nat)
    requires TableOk(tab, a) && HoldsBlocks(tab, a, BLOCK) && forall k :: k in BlockStarts(0, |a|, BLOCK) ==> Remembers(tab, a, BLOCK, k)
    requires p < |b| && var sum := Packed(Checksum(Window(b, p))); !(sum in tab && BlockAgrees(tab[sum], a, b, p))
    ensures NoBlockAt(a, b, p)
  {
    hide Checksum, Packed, Bytes, BlockStarts, FirstOfItsKind, BlockAgrees, TableOk, HoldsBlocks, Remembers, Window;
    forall k: nat | FirstOfItsKind(a, k)
      ensures k < |a| && BlockAt(b, p, BLOCK) != BlockAt(a, k, BLOCK)
    {
      FirstIsStart(a, k);
      if BlockAt(b, p, BLOCK) == BlockAt(a, k, BLOCK) {
        FirstFound(tab, a, k);
        WindowIs(b, p);
        WholeBlock(a, b, p, k);
      }
    }
  }

  lemma FirstIsStart(a: string, k: nat)
    requires FirstOfItsKind(a, k)
    ensures k < |a| && k in BlockStarts(0, |a|, BLOCK)
  {
    StartsAre(0, |a|);
  }

  lemma WindowIs(b: string, p: nat)
    requires p < |b|
    ensures Window(b, p) == Bytes(BlockAt(b, p, BLOCK))
  {
  }

  lemma WholeBlock(a: string, b: string, p: nat, k: nat)
    requires k < |a| && p < |b| && BlockAt(b, p, BLOCK) == BlockAt(a, k, BLOCK)
    ensures BlockAgrees((k, |BlockAt(a, k, BLOCK)|), a, b, p)
  {
  }

  /** The first block of its kind is what the table has under its checksum. */
  lemma FirstFound(tab: MatchTable, a: string, k: nat)
    requires TableOk(tab, a) && HoldsBlocks(tab, a, BLOCK) && Remembers(tab, a, BLOCK, k) && FirstOfItsKind(a, k)
    ensures BlockSum(a, k) in tab && tab[BlockSum(a, k)] == (k, |BlockAt(a, k, BLOCK)|)
  {
    hide Checksum, Packed, Bytes, BlockStarts;
    StartsAre(0, |a|);
    var sum := BlockSum(a, k);
    assert sum in tab && tab[sum].0 <= k;
    assert tab[sum].0 in BlockStarts(0, |a|, BLOCK);
    var e := tab[BlockSum(a, k)];
    assert a[e.0..e.0 + e.1] == BlockAt(a, e.0, BLOCK);
    assert sum == BlockSum(a, e.0);
    assert e.0 == k;
  }

  lemma NothingSearched(a: string, b: string)
    ensures Searched([], a, b)
  {
  }

  lemma SearchedOn(delta: seq<Insn>, a: string, b: string, lo: nat)
    requires Searched(delta, a, b) && lo < |b| && Produces(delta, a, b[..lo]) && |a| < U32 && NoBlockAt(a, b, lo)
    ensures Searched(InsertInsn(delta, b[lo]), a, b)
  {
    hide InsertsAt, MaximalCopies, NoBlockAt, Output, Reach;
    ReachIs(delta, a);
    SearchedChar(delta, b[lo], a, b);
  }

  lemma SearchedMatch(delta: seq<Insn>, m: Match, a: string, b: string, lo: nat)
    requires Searched(delta, a, b) && |a| < U32 && m.Found? && Extends(m, a, b, lo) && Furthest(m, a, b, lo) && 0 < m.alen
    requires MaximalCopies(m.delta, a, b) && forall p: nat :: InsertsAt(m.delta, p) ==> InsertsAt(delta, p)
    ensures Searched(m.delta + [CopyInsn(m.apos, m.alen)], a, b)
  {
    hide InsertsAt, MaximalCopies, NoBlockAt, Extends, Furthest;
    MatchSearched(m, a, b, lo);
  }

  lemma SearchedMaximal(delta: seq<Insn>, a: string, b: string)
    requires Searched(delta, a, b)
    ensures MaximalCopies(delta, a, b)
  {
  }

  lemma ProducesNothing(a: string)
    ensures Produces([], a, "")
  {
  }

  /** None is the failed check after a comparison that ran past the end of b. */
  method ComputeDeltaInsns(a: string, b: string, pastEndEqual: bool) returns (delta: Option<seq<Insn>>)
    requires a != "" && b != ""
    ensures delta.Some? ==> Produces(delta.value, a, b)
    ensures delta.Some? && |b| >= BLOCK && |a| < U32 ==> Searched(delta.value, a, b)
    ensures |b| < BLOCK ==> delta == Some([Insert(b)])
    ensures !pastEndEqual ==> delta.Some?
  {
    hide Produces, Checksum, Window, Searched, NoBlockAt, HoldsBlocks, Remembers, BlockStarts, MaximalCopies, InsertsAt, Furthest;
    var matches := InitMatchTable(a, BLOCK);
    var d: seq<Insn> := [];
    ProducesNothing(a);
    if |b| < BLOCK {
      for i := 0 to |b|
        invariant Produces(d, a, b[..i]) && d == if i == 0 then [] else [Insert(b[..i])]
      {
        ProducesChar(d, a, b[..i], b[i]);
        assert b[..i + 1] == b[..i] + [b[i]];
        InsertsSoFar(b, i);
        d := InsertInsn(d, b[i]);
      }
      assert b[..|b|] == b;
      return Some(d);
    }
    FirstWindow(b);
    NothingSearched(a, b);
    var rolling := new Rolling(Bytes(b[..BLOCK]));
    var lo := 0;
    while lo < |b|
      invariant 0 <= lo <= |b| && Produces(d, a, b[..lo]) && rolling.State() == Checksum(Window(b, lo))
      invariant |a| < U32 ==> Searched(d, a, b)
    {
      var badvance := 1;
      var sum := rolling.Sum();
      var m := FindMatch(matches, d, sum, a, b, lo, pastEndEqual);
      if m.OutOfBounds? {
        return None;
      }
      if m.Found? {
        MatchCopied(m, a, b, lo);
        if |a| < U32 {
          SearchedMaximal(d, a, b);
          SearchedMatch(d, m, a, b, lo);
        }
        d, badvance := m.delta + [CopyInsn(m.apos, m.alen)], m.badvance;
      } else {
        ProducesChar(d, a, b[..lo], b[lo]);
        assert b[..lo + 1] == b[..lo] + [b[lo]];
        NothingFound(matches, a, b, lo);
        if |a| < U32 {
          SearchedOn(d, a, b, lo);
        }
        d := InsertInsn(d, b[lo]);
      }
      Roll(rolling, b, lo, badvance);
      lo := lo + badvance;
    }
    assert b[..lo] == b;
    delta := Some(d);
  }

  lemma InsertsSoFar(b: string, i: nat)
    requires i < |b|
    ensures InsertInsn(if i == 0 then [] else [Insert(b[..i])], b[i]) == [Insert(b[..i + 1])]
  {
    assert b[..i + 1] == b[..i] + [b[i]];
    if i > 0 {
      assert [Insert(b[..i])][..0] == [];
    } else {
      assert b[..1] == [b[0]];
    }
  }

  lemma FirstWindow(b: string)
    requires |b| >= BLOCK
    ensures Window(b, 0) == Bytes(b[..BLOCK])
  {
    assert b[0..BLOCK] == b[..BLOCK];
    if |b| == BLOCK {
      assert b[..BLOCK] == b[0..|b|];
    }
  }

  // ---- deltas between whole texts ----

  /** Appending a copied range to a string: past the end is an error, and what there is gets copied. */
  function Append(dst: string, src: string, pos: nat, len: nat): Option<string> {
    if pos > |src| then None else Some(dst + src[pos..if pos + len < |src| then pos + len else |src|])
  }

  /** What the simple applicator makes of the instructions. */
  ghost function Applied(delta: seq<Insn>, a: string): Option<string> {
    if delta == [] then Some("") else
      var dst :- Applied(delta[..|delta| - 1], a);
      match delta[|delta| - 1]
      case Insert(p) => Some(dst + p)
      case Copy(pos, len) => Append(dst, a, pos, len)
  }

  lemma {:induction false} AppliedInRange(delta: seq<Insn>, a: string)
    requires InRange(delta, a)
    ensures Applied(delta, a) == Some(Output(delta, a))
    decreases |delta|
  {
    if delta != [] {
      var front := delta[..|delta| - 1];
      assert forall i :: 0 <= i < |front| ==> front[i] == delta[i];
      AppliedInRange(front, a);
    }
  }

  /** Equal texts have the empty delta; the other special cases do without a search. */
  method ComputeDelta(a: string, b: string, pastEndEqual: bool) returns (delta: Option<seq<Insn>>)
    ensures !pastEndEqual ==> delta.Some?
    ensures a == b ==> delta == Some([])
    ensures delta.Some? && a != b && |a| < U32 ==> InRange(delta.value, a) && Output(delta.value, a) == b
    ensures delta.Some? && a != b && |a| < U32 && b != "" ==> Compact(delta.value)
    ensures delta.Some? && a != b && b == "" ==> delta.value == [Copy(0, 0)]
    ensures delta.Some? && a != b && |a| < U32 && |b| >= BLOCK ==> Searched(delta.value, a, b)
    ensures a != b && 0 < |b| < BLOCK ==> delta == Some([Insert(b)])
  {
    hide Output, Compact, Searched;
    if a == b {
      delta := Some([]);
    } else if a == "" {
      StandsForOne(Insert(b), a);
      AllInserted(b);
      delta := Some([Insert(b)]);
    } else if b == "" {
      OneInsn(Copy(0, 0), a);
      delta := Some([Copy(0, 0)]);
    } else {
      delta := ComputeDeltaInsns(a, b, pastEndEqual);
    }
  }

  /** Nothing can be copied from nothing. */
  lemma AllInserted(b: string)
    ensures Searched([Insert(b)], "", b)
  {
    hide Reach;
    assert Reach([Insert(b)][..0]) == 0 by { NoReach(); }
    forall p: nat | InsertsAt([Insert(b)], p)
      ensures NoBlockAt("", b, p)
    {
      var t :| InsertsBy([Insert(b)], p, t);
    }
  }

  lemma OneInsn(insn: Insn, a: string)
    requires insn.Copy? ==> insn.pos + insn.len <= |a|
    ensures InRange([insn], a) && Output([insn], a) == OutputOf(insn, a)
  {
    OutputPush([], insn, a);
    assert [] + [insn] == [insn];
    assert Output([], a) + OutputOf(insn, a) == OutputOf(insn, a);
  }

  lemma StandsForOne(insn: Insn, a: string)
    requires insn.Insert? && insn.payload != ""
    ensures InRange([insn], a) && Output([insn], a) == insn.payload && Compact([insn])
  {
    OneInsn(insn, a);
  }

  /** Applying the delta of two texts to the first gives the second exactly when they differ or are empty. */
  method DeltaThenApply(a: string, b: string, pastEndEqual: bool) returns (delta: Option<seq<Insn>>)
    ensures !pastEndEqual ==> delta.Some?
    ensures delta.Some? && |a| < U32 ==> (Applied(delta.value, a) == Some(b) <==> a != b || b == "")
  {
    hide Output, Compact;
    delta := ComputeDelta(a, b, pastEndEqual);
    if delta.Some? && |a| < U32 && a != b {
      AppliedInRange(delta.value, a);
    }
  }
}
