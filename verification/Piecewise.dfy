// The piecewise applicator of xdelta.cc: a version is a list of chunks of shared pieces, and a delta turns one such
// list into the next without building the texts in between.
module Piecewise {
  import opened Wrappers
  import opened Xdelta
  import opened DeltaText

  /** `len` characters from `ppos` of a piece, at `vpos` in the version. */
  datatype Chunk = Chunk(len: nat, piece: nat, vpos: nat, ppos: nat)

  type Version = seq<Chunk>

  ghost predicate ChunkIn(ch: Chunk, pieces: seq<string>) {
    ch.piece < |pieces| && ch.ppos + ch.len <= |pieces[ch.piece]|
  }

  function ChunkText(ch: Chunk, pieces: seq<string>): string
    requires ChunkIn(ch, pieces)
  {
    pieces[ch.piece][ch.ppos..ch.ppos + ch.len]
  }

  function EndOf(v: Version): nat {
    if v == [] then 0 else v[|v| - 1].vpos + v[|v| - 1].len
  }

  /** The chunks lie in their pieces and follow each other without gaps. */
  ghost predicate WellFormed(v: Version, pieces: seq<string>) {
    && (forall i :: 0 <= i < |v| ==> ChunkIn(v[i], pieces))
    && (forall i :: 0 <= i < |v| ==> v[i].vpos == EndOf(v[..i]))
  }

  /** The text of a version. */
  ghost function Text(v: Version, pieces: seq<string>): string
    requires WellFormed(v, pieces)
  {
    if v == [] then "" else
      Front(v, pieces);
      Text(v[..|v| - 1], pieces) + ChunkText(v[|v| - 1], pieces)
  }

  ghost predicate NoEmpty(v: Version) {
    forall i :: 0 <= i < |v| ==> v[i].len > 0
  }

  lemma Front(v: Version, pieces: seq<string>)
    requires WellFormed(v, pieces) && v != []
    ensures WellFormed(v[..|v| - 1], pieces) && v[|v| - 1].vpos == EndOf(v[..|v| - 1])
  {
    var f := v[..|v| - 1];
    forall i | 0 <= i < |f|
      ensures ChunkIn(f[i], pieces) && f[i].vpos == EndOf(f[..i])
    {
      assert f[i] == v[i] && f[..i] == v[..i];
    }
  }

  lemma Push(v: Version, ch: Chunk, pieces: seq<string>)
    requires WellFormed(v, pieces) && ChunkIn(ch, pieces) && ch.vpos == EndOf(v)
    ensures WellFormed(v + [ch], pieces) && Text(v + [ch], pieces) == Text(v, pieces) + ChunkText(ch, pieces)
    ensures EndOf(v + [ch]) == EndOf(v) + ch.len && (NoEmpty(v) && ch.len > 0 ==> NoEmpty(v + [ch]))
  {
    var w := v + [ch];
    assert w[..|v|] == v;
    forall i | 0 <= i < |w|
      ensures ChunkIn(w[i], pieces) && w[i].vpos == EndOf(w[..i])
    {
      if i < |v| {
        assert w[i] == v[i] && w[..i] == v[..i];
      }
    }
  }

  lemma {:induction false} TextLength(v: Version, pieces: seq<string>)
    requires WellFormed(v, pieces)
    ensures |Text(v, pieces)| == EndOf(v)
    decreases |v|
  {
    if v != [] {
      Front(v, pieces);
      TextLength(v[..|v| - 1], pieces);
    }
  }

  /** Where a chunk is in the text. */
  lemma {:induction false} TextAt(v: Version, pieces: seq<string>, i: nat)
    requires WellFormed(v, pieces) && i < |v|
    ensures v[i].vpos + v[i].len <= |Text(v, pieces)|
    ensures Text(v, pieces)[v[i].vpos..v[i].vpos + v[i].len] == ChunkText(v[i], pieces)
    decreases |v|
  {
    hide WellFormed, ChunkIn;
    var f, last := v[..|v| - 1], v[|v| - 1];
    Front(v, pieces);
    TextLength(f, pieces);
    TextParts(v, pieces);
    var t, u := Text(f, pieces), ChunkText(last, pieces);
    if i < |f| {
      TextAt(f, pieces, i);
      assert f[i] == v[i];
      assert (t + u)[v[i].vpos..v[i].vpos + v[i].len] == t[v[i].vpos..v[i].vpos + v[i].len];
    } else {
      assert (t + u)[|t|..|t| + last.len] == u;
    }
  }

  lemma TextParts(v: Version, pieces: seq<string>)
    requires WellFormed(v, pieces) && v != []
    ensures WellFormed(v[..|v| - 1], pieces) && ChunkIn(v[|v| - 1], pieces)
    ensures Text(v, pieces) == Text(v[..|v| - 1], pieces) + ChunkText(v[|v| - 1], pieces)
    ensures |ChunkText(v[|v| - 1], pieces)| == v[|v| - 1].len
  {
    Front(v, pieces);
  }

  /** Versions stay what they are when pieces are added. */
  lemma {:induction false} MorePieces(v: Version, pieces: seq<string>, more: seq<string>)
    requires WellFormed(v, pieces) && pieces <= more
    ensures WellFormed(v, more) && Text(v, more) == Text(v, pieces)
    decreases |v|
  {
    assert forall i :: 0 <= i < |v| ==> ChunkIn(v[i], pieces);
    if v != [] {
      Front(v, pieces);
      MorePieces(v[..|v| - 1], pieces, more);
    }
  }

  lemma {:induction false} EndsAscend(v: Version, pieces: seq<string>, i: nat, j: nat)
    requires WellFormed(v, pieces) && i <= j < |v|
    ensures v[i].vpos + v[i].len <= v[j].vpos + v[j].len && (i < j ==> v[i].vpos + v[i].len <= v[j].vpos)
    decreases j
  {
    if i < j {
      EndsAscend(v, pieces, i, j - 1);
      assert v[..j][|v[..j]| - 1] == v[j - 1];
    }
  }

  /** Where lower_bound looks next between two chunks, and what it ends with; None is the failed check on an empty chunk. */
  function FirstBehind(v: Version, vp: nat, first: nat, last: nat): (lo: Option<nat>)
    requires first <= last <= |v|
    ensures lo.Some? ==> first <= lo.value <= last
    decreases last - first
  {
    if first == last then Some(first) else
      var mid := first + (last - first) / 2;
      if v[mid].len == 0 then None
      else if v[mid].vpos + v[mid].len - 1 < vp then FirstBehind(v, vp, mid + 1, last)
      else FirstBehind(v, vp, first, mid)
  }

  /** What is found is the first chunk that ends behind the position; without empty chunks something is. */
  lemma {:induction false} FoundBehind(v: Version, vp: nat, first: nat, last: nat, pieces: seq<string>)
    requires WellFormed(v, pieces) && first <= last <= |v|
    requires forall i :: 0 <= i < first ==> v[i].vpos + v[i].len <= vp
    requires forall i :: last <= i < |v| ==> v[i].vpos + v[i].len > vp
    ensures NoEmpty(v) ==> FirstBehind(v, vp, first, last).Some?
    ensures var lo := FirstBehind(v, vp, first, last);
      lo.Some? ==>
        && (forall i :: 0 <= i < lo.value ==> v[i].vpos + v[i].len <= vp)
        && (forall i :: lo.value <= i < |v| ==> v[i].vpos + v[i].len > vp)
    decreases last - first
  {
    hide WellFormed;
    if first < last {
      var mid := first + (last - first) / 2;
      if v[mid].len > 0 {
        if v[mid].vpos + v[mid].len - 1 < vp {
          forall i | 0 <= i <= mid
            ensures v[i].vpos + v[i].len <= vp
          {
            EndsAscend(v, pieces, i, mid);
          }
          FoundBehind(v, vp, mid + 1, last, pieces);
        } else {
          forall i | mid <= i < |v|
            ensures v[i].vpos + v[i].len > vp
          {
            EndsAscend(v, pieces, mid, i);
          }
          FoundBehind(v, vp, first, mid, pieces);
        }
      }
    }
  }

  method LowerBound(v: Version, vp: nat) returns (lo: Option<nat>)
    ensures lo == FirstBehind(v, vp, 0, |v|)
  {
    var first, last := 0, |v|;
    while first < last
      invariant 0 <= first <= last <= |v| && FirstBehind(v, vp, 0, |v|) == FirstBehind(v, vp, first, last)
      decreases last - first
    {
      var mid := first + (last - first) / 2;
      if v[mid].len == 0 {
        return None;
      }
      if v[mid].vpos + v[mid].len - 1 < vp {
        first := mid + 1;
      } else {
        last := mid;
      }
    }
    lo := Some(first);
  }

  /** Part of a chunk, at its place in another version. */
  function Subchunk(ch: Chunk, vpos: nat, len: nat, offset: nat): Chunk {
    Chunk(len, ch.piece, vpos, ch.ppos + offset)
  }

  lemma SubchunkText(v: Version, pieces: seq<string>, i: nat, vpos: nat, len: nat, offset: nat)
    requires WellFormed(v, pieces) && i < |v| && offset + len <= v[i].len
    ensures var ch := Subchunk(v[i], vpos, len, offset);
      ChunkIn(ch, pieces) && v[i].vpos + v[i].len <= |Text(v, pieces)|
      && ChunkText(ch, pieces) == Text(v, pieces)[v[i].vpos + offset..v[i].vpos + offset + len]
  {
    hide WellFormed, Text;
    TextAt(v, pieces, i);
    InVersion(v, pieces, i);
    SliceOfSlice(pieces[v[i].piece], v[i].ppos, v[i].len, offset, len);
    SliceOfSlice(Text(v, pieces), v[i].vpos, v[i].len, offset, len);
  }

  lemma InVersion(v: Version, pieces: seq<string>, i: nat)
    requires WellFormed(v, pieces) && i < |v|
    ensures ChunkIn(v[i], pieces)
  {
  }

  lemma SliceOfSlice(s: string, at: nat, n: nat, offset: nat, len: nat)
    requires at + n <= |s| && offset + len <= n
    ensures s[at..at + n][offset..offset + len] == s[at + offset..at + offset + len]
  {
    var l, r := s[at..at + n][offset..offset + len], s[at + offset..at + offset + len];
    assert |l| == |r| && forall k :: 0 <= k < len ==> l[k] == r[k];
  }

  /** What has been copied so far, and where the copying stands. */
  ghost predicate Copied(v: Version, dst: Version, out: Version, pieces: seq<string>, start: nat, at: nat) {
    && WellFormed(v, pieces) && WellFormed(dst, pieces) && WellFormed(out, pieces)
    && start <= at <= |Text(v, pieces)|
    && Text(out, pieces) == Text(dst, pieces) + Text(v, pieces)[start..at]
    && (NoEmpty(v) && NoEmpty(dst) ==> NoEmpty(out))
  }

  lemma CopiedStep(v: Version, dst: Version, out: Version, pieces: seq<string>, start: nat, at: nat, lo: nat, seglen: nat)
    requires Copied(v, dst, out, pieces, start, at) && lo < |v| && 0 < seglen && v[lo].vpos <= at && at + seglen <= v[lo].vpos + v[lo].len
    ensures Copied(v, dst, out + [Subchunk(v[lo], EndOf(out), seglen, at - v[lo].vpos)], pieces, start, at + seglen)
    ensures EndOf(out + [Subchunk(v[lo], EndOf(out), seglen, at - v[lo].vpos)]) == EndOf(out) + seglen
  {
    hide WellFormed, ChunkIn, ChunkText, Text;
    var ch := Subchunk(v[lo], EndOf(out), seglen, at - v[lo].vpos);
    SubchunkText(v, pieces, lo, EndOf(out), seglen, at - v[lo].vpos);
    Push(out, ch, pieces);
    var t := Text(v, pieces);
    assert t[start..at + seglen] == t[start..at] + t[at..at + seglen];
    assert Text(dst, pieces) + t[start..at] + t[at..at + seglen] == Text(dst, pieces) + (t[start..at] + t[at..at + seglen]);
  }

  /** The rest of a copy, from chunk lo on; None is a failed check. */
  function CopyFrom(v: Version, lo: nat, at: nat, left: nat, out: Version): Option<Version>
    requires lo <= |v|
    decreases |v| - lo
  {
    if left == 0 then Some(out)
    else if lo == |v| then None
    else
      var end := v[lo].vpos + v[lo].len;
      var srcEnd := if at + left < end then at + left else end;
      if srcEnd <= at || at < v[lo].vpos then None
      else CopyFrom(v, lo + 1, srcEnd, at + left - srcEnd, out + [Subchunk(v[lo], EndOf(out), srcEnd - at, at - v[lo].vpos)])
  }

  function CopyChunks(v: Version, dst: Version, pos: nat, len: nat): Option<Version> {
    var lo :- FirstBehind(v, pos, 0, |v|);
    CopyFrom(v, lo, pos, len, dst)
  }

  /** As far as a copy goes it copies the text, and without empty chunks only the end of the text stops it. */
  lemma {:induction false} CopyFromText(v: Version, dst: Version, out: Version, pieces: seq<string>,
      start: nat, at: nat, left: nat, lo: nat)
    requires lo <= |v| && Copied(v, dst, out, pieces, start, at)
    requires lo < |v| ==> v[lo].vpos <= at
    requires lo < |v| && NoEmpty(v) ==> at < v[lo].vpos + v[lo].len
    requires lo == |v| ==> at == EndOf(v)
    ensures var r := CopyFrom(v, lo, at, left, out); r.Some? ==> Copied(v, dst, r.value, pieces, start, at + left)
    ensures NoEmpty(v) && at + left <= |Text(v, pieces)| ==> CopyFrom(v, lo, at, left, out).Some?
    decreases |v| - lo
  {
    hide WellFormed, ChunkIn, ChunkText, Text, EndOf;
    TextLength(v, pieces);
    if left > 0 && lo < |v| {
      var end := v[lo].vpos + v[lo].len;
      var srcEnd := if at + left < end then at + left else end;
      if srcEnd > at {
        CopiedStep(v, dst, out, pieces, start, at, lo, srcEnd - at);
        NextChunk(v, pieces, lo);
        var more := out + [Subchunk(v[lo], EndOf(out), srcEnd - at, at - v[lo].vpos)];
        if srcEnd == at + left {
          assert CopyFrom(v, lo + 1, srcEnd, 0, more) == Some(more);
        } else {
          CopyFromText(v, dst, more, pieces, start, srcEnd, at + left - srcEnd, lo + 1);
        }
      }
    }
  }

  /** A copy, as a change of the text under construction. */
  lemma CopyChunksText(v: Version, dst: Version, pos: nat, len: nat, pieces: seq<string>)
    requires WellFormed(v, pieces) && WellFormed(dst, pieces)
    ensures var r := CopyChunks(v, dst, pos, len);
      r.Some? ==>
        && WellFormed(r.value, pieces) && (NoEmpty(v) && NoEmpty(dst) ==> NoEmpty(r.value))
        && Step(Copy(pos, len), Text(v, pieces), Text(dst, pieces)) == Some(Text(r.value, pieces))
    ensures NoEmpty(v) && Step(Copy(pos, len), Text(v, pieces), Text(dst, pieces)).Some? ==> CopyChunks(v, dst, pos, len).Some?
  {
    hide WellFormed, ChunkIn, ChunkText, Text, NoEmpty;
    FoundBehind(v, pos, 0, |v|, pieces);
    var found := FirstBehind(v, pos, 0, |v|);
    if found.Some? && len > 0 {
      TextLength(v, pieces);
      if found.value == |v| {
        PastEnd(v, pieces, pos);
      } else {
        FirstChunk(v, pieces, found.value, pos);
        CopiedNothing(v, dst, pieces, pos, found.value);
        CopyFromText(v, dst, dst, pieces, pos, pos, len, found.value);
      }
    }
  }

  /** A range of one version, chunk by chunk, behind another. */
  method ApplyCopy(v: Version, dst: Version, srcVpos: nat, srcLen: nat) returns (out: Option<Version>)
    ensures out == CopyChunks(v, dst, srcVpos, srcLen)
  {
    hide FirstBehind;
    var lower := LowerBound(v, srcVpos);
    if lower.None? {
      return None;
    }
    var lo: nat, at: nat, left: nat, o := lower.value, srcVpos, srcLen, dst;
    while left > 0
      invariant lo <= |v| && CopyChunks(v, dst, srcVpos, srcLen) == CopyFrom(v, lo, at, left, o)
      decreases |v| - lo
    {
      if lo == |v| || at < v[lo].vpos {
        return None;
      }
      var srcEnd := if at + left < v[lo].vpos + v[lo].len then at + left else v[lo].vpos + v[lo].len;
      if srcEnd <= at {
        return None;
      }
      var dstVpos := if o == [] then 0 else o[|o| - 1].vpos + o[|o| - 1].len;
      o := o + [Subchunk(v[lo], dstVpos, srcEnd - at, at - v[lo].vpos)];
      left := left - (srcEnd - at);
      at := srcEnd;
      lo := lo + 1;
    }
    out := Some(o);
  }

  lemma PastEnd(v: Version, pieces: seq<string>, vp: nat)
    requires WellFormed(v, pieces) && forall i :: 0 <= i < |v| ==> v[i].vpos + v[i].len <= vp
    ensures EndOf(v) <= vp
  {
  }

  lemma FirstChunk(v: Version, pieces: seq<string>, lo: nat, vp: nat)
    requires WellFormed(v, pieces) && lo < |v| && forall i :: 0 <= i < lo ==> v[i].vpos + v[i].len <= vp
    ensures v[lo].vpos <= vp
  {
    if lo > 0 {
      assert v[..lo][|v[..lo]| - 1] == v[lo - 1];
    }
  }

  lemma CopiedNothing(v: Version, dst: Version, pieces: seq<string>, at: nat, lo: nat)
    requires WellFormed(v, pieces) && WellFormed(dst, pieces) && lo < |v| && v[lo].vpos <= at < v[lo].vpos + v[lo].len
    ensures Copied(v, dst, dst, pieces, at, at)
  {
    TextAt(v, pieces, lo);
    assert Text(dst, pieces) + Text(v, pieces)[at..at] == Text(dst, pieces);
  }

  lemma NextChunk(v: Version, pieces: seq<string>, lo: nat)
    requires WellFormed(v, pieces) && lo < |v|
    ensures if lo + 1 < |v| then v[lo + 1].vpos == v[lo].vpos + v[lo].len else EndOf(v) == v[lo].vpos + v[lo].len
  {
    if lo + 1 < |v| {
      assert v[..lo + 1][|v[..lo + 1]| - 1] == v[lo];
    }
  }

  // ---- the applicator ----

  /** One instruction on top of what has been produced; copies of nothing may point anywhere. */
  ghost function Step(insn: Insn, src: string, dst: string): Option<string> {
    match insn
    case Insert(p) => Some(dst + p)
    case Copy(pos, len) => if len == 0 then Some(dst) else if pos + len <= |src| then Some(dst + src[pos..pos + len]) else None
  }

  /** All instructions, from the front. */
  ghost function Steps(delta: seq<Insn>, src: string, dst: string): Option<string>
    decreases |delta|
  {
    if delta == [] then Some(dst) else
      var more :- Step(delta[0], src, dst);
      Steps(delta[1..], src, more)
  }

  /** On copies within the source this is what the simple applicator computes. */
  lemma {:induction false} StepsOutput(delta: seq<Insn>, src: string)
    requires InRange(delta, src)
    ensures Steps(delta, src, "") == Some(Output(delta, src)) && Applied(delta, src) == Some(Output(delta, src))
    decreases |delta|
  {
    hide Applied, Steps;
    AppliedInRange(delta, src);
    if delta == [] {
      StepsNothing(src);
    } else {
      var front, last := delta[..|delta| - 1], delta[|delta| - 1];
      assert forall i :: 0 <= i < |front| ==> front[i] == delta[i];
      StepsOutput(front, src);
      StepsPush(front, last, src, "");
      assert front + [last] == delta;
      StepOutput(last, src, Output(front, src));
    }
  }

  lemma StepsNothing(src: string)
    ensures Steps([], src, "") == Some("")
  {
  }

  lemma StepOutput(insn: Insn, src: string, dst: string)
    requires insn.Copy? ==> insn.pos + insn.len <= |src|
    ensures Step(insn, src, dst) == Some(dst + OutputOf(insn, src))
  {
    if insn.Copy? && insn.len == 0 {
      assert src[insn.pos..insn.pos + insn.len] == "";
    }
    assert dst + "" == dst;
  }

  lemma {:induction false} StepsPush(delta: seq<Insn>, insn: Insn, src: string, dst: string)
    ensures Steps(delta + [insn], src, dst) == var d := Steps(delta, src, dst); if d.Some? then Step(insn, src, d.value) else None
    decreases |delta|
  {
    if delta == [] {
      assert (delta + [insn])[1..] == [];
    } else {
      assert (delta + [insn])[1..] == delta[1..] + [insn];
      var more := Step(delta[0], src, dst);
      if more.Some? {
        StepsPush(delta[1..], insn, src, more.value);
      }
    }
  }

  /** What the applicator holds: the pieces, the version deltas apply to, and the one being built. */
  datatype Chunked = Chunked(pieces: seq<string>, src: Version, dst: Version)

  ghost predicate Good(s: Chunked) {
    WellFormed(s.src, s.pieces) && WellFormed(s.dst, s.pieces)
  }

  ghost function Current(s: Chunked): string
    requires Good(s)
  {
    Text(s.src, s.pieces)
  }

  ghost function Building(s: Chunked): string
    requires Good(s)
  {
    Text(s.dst, s.pieces)
  }

  function Started(base: string): Chunked {
    Chunked([base], [Chunk(|base|, 0, 0, 0)], [])
  }

  /** The version that was built is the one deltas apply to from now on. */
  function Turned(s: Chunked): Chunked {
    Chunked(s.pieces, s.dst, [])
  }

  /** After one instruction. */
  function Did(s: Chunked, insn: Insn): Option<Chunked> {
    match insn
    case Insert(p) => Some(Chunked(s.pieces + [p], s.src, s.dst + [Chunk(|p|, |s.pieces|, EndOf(s.dst), 0)]))
    case Copy(pos, len) =>
      var dst :- CopyChunks(s.src, s.dst, pos, len);
      Some(Chunked(s.pieces, s.src, dst))
  }

  /** After all instructions. */
  function DidAll(s: Chunked, insns: seq<Insn>): Option<Chunked> {
    if insns == [] then Some(s) else
      var t :- DidAll(s, insns[..|insns| - 1]);
      Did(t, insns[|insns| - 1])
  }

  lemma StartedText(base: string)
    ensures Good(Started(base)) && Current(Started(base)) == base && Building(Started(base)) == ""
    ensures base != "" ==> NoEmpty(Started(base).src)
  {
    hide WellFormed, Text, ChunkIn, ChunkText, EndOf, NoEmpty;
    var ch := Chunk(|base|, 0, 0, 0);
    NoVersion([base]);
    WholePiece(base);
    Push([], ch, [base]);
    assert [] + [ch] == [ch] && "" + base == base;
  }

  lemma NoVersion(pieces: seq<string>)
    ensures WellFormed([], pieces) && Text([], pieces) == "" && EndOf([]) == 0 && NoEmpty([])
  {
  }

  lemma WholePiece(base: string)
    ensures ChunkIn(Chunk(|base|, 0, 0, 0), [base]) && ChunkText(Chunk(|base|, 0, 0, 0), [base]) == base
  {
    assert base[0..|base|] == base;
  }

  /** An instruction does to the text under construction what it says, and leaves the source as it is. */
  lemma DidText(s: Chunked, insn: Insn)
    requires Good(s)
    ensures var t := Did(s, insn);
      t.Some? ==>
        && Good(t.value) && t.value.src == s.src && Current(t.value) == Current(s)
        && Step(insn, Current(s), Building(s)) == Some(Building(t.value))
  {
    hide WellFormed, Text, CopyChunks;
    match insn
    case Insert(p) =>
      MorePieces(s.src, s.pieces, s.pieces + [p]);
      MorePieces(s.dst, s.pieces, s.pieces + [p]);
      Push(s.dst, Chunk(|p|, |s.pieces|, EndOf(s.dst), 0), s.pieces + [p]);
      assert p[0..|p|] == p;
    case Copy(pos, len) =>
      CopyChunksText(s.src, s.dst, pos, len, s.pieces);
  }

  /** When an instruction goes through: inserts always, copies that fit and meet no empty chunk. */
  lemma DidGoesThrough(s: Chunked, insn: Insn)
    requires Good(s) && Step(insn, Current(s), Building(s)).Some? && (insn.Copy? ==> NoEmpty(s.src))
    ensures Did(s, insn).Some?
  {
    hide WellFormed, Text, CopyChunks;
    if insn.Copy? {
      CopyChunksText(s.src, s.dst, insn.pos, insn.len, s.pieces);
    }
  }

  lemma {:induction false} DidAllText(s: Chunked, insns: seq<Insn>)
    requires Good(s)
    ensures var t := DidAll(s, insns);
      t.Some? ==>
        && Good(t.value) && t.value.src == s.src && Current(t.value) == Current(s)
        && Steps(insns, Current(s), Building(s)) == Some(Building(t.value))
    decreases |insns|
  {
    hide WellFormed, Text, Did;
    if insns != [] {
      var front, last := insns[..|insns| - 1], insns[|insns| - 1];
      DidAllText(s, front);
      if DidAll(s, front).Some? {
        DidText(DidAll(s, front).value, last);
        StepsPush(front, last, Current(s), Building(s));
        assert front + [last] == insns;
      }
    }
  }

  /** Instructions go through if they fit the text, and either copy nothing or meet no empty chunk. */
  lemma {:induction false} DidAllGoesThrough(s: Chunked, insns: seq<Insn>)
    requires Good(s) && Steps(insns, Current(s), Building(s)).Some?
    requires NoEmpty(s.src) || forall i :: 0 <= i < |insns| ==> insns[i].Insert?
    ensures DidAll(s, insns).Some?
    decreases |insns|
  {
    hide WellFormed, Text, Did, NoEmpty;
    if insns != [] {
      var front, last := insns[..|insns| - 1], insns[|insns| - 1];
      assert front + [last] == insns;
      StepsPush(front, last, Current(s), Building(s));
      DidAllGoesThrough(s, front);
      DidAllText(s, front);
      DidGoesThrough(DidAll(s, front).value, last);
    }
  }

  /** The version built has an empty chunk exactly if something empty was inserted or it had one before. */
  lemma {:induction false} DidAllNoEmpty(s: Chunked, insns: seq<Insn>)
    requires Good(s) && DidAll(s, insns).Some?
    ensures (NoEmpty(s.src) || forall i :: 0 <= i < |insns| ==> insns[i].Insert?) && NoEmpty(s.dst) && NothingEmpty(insns) ==>
      NoEmpty(DidAll(s, insns).value.dst)
    ensures NoEmpty(DidAll(s, insns).value.dst) ==> NoEmpty(s.dst) && NothingEmpty(insns)
    decreases |insns|
  {
    hide WellFormed, Text, CopyChunks;
    if insns != [] {
      var front, last := insns[..|insns| - 1], insns[|insns| - 1];
      var t := DidAll(s, front).value;
      DidAllNoEmpty(s, front);
      DidAllText(s, front);
      DidGrows(t, last);
      var u := Did(t, last).value;
      assert NoEmpty(u.dst) ==> NoEmpty(t.dst);
      if last.Copy? {
        CopyChunksText(t.src, t.dst, last.pos, last.len, t.pieces);
      } else {
        assert u.dst[|t.dst|] == u.dst[|t.dst|..][0];
      }
    }
  }

  /** No insert is empty. */
  ghost predicate NothingEmpty(insns: seq<Insn>) {
    forall i :: 0 <= i < |insns| && insns[i].Insert? ==> insns[i].payload != ""
  }

  lemma DidGrows(s: Chunked, insn: Insn)
    requires Did(s, insn).Some?
    ensures s.dst <= Did(s, insn).value.dst
    ensures insn.Insert? ==> Did(s, insn).value.dst[|s.dst|..] == [Chunk(|insn.payload|, |s.pieces|, EndOf(s.dst), 0)]
  {
    if insn.Copy? {
      CopyGrows(s.src, FirstBehind(s.src, insn.pos, 0, |s.src|).value, insn.pos, insn.len, s.dst);
    }
  }

  lemma {:induction false} CopyGrows(v: Version, lo: nat, at: nat, left: nat, out: Version)
    requires lo <= |v| && CopyFrom(v, lo, at, left, out).Some?
    ensures out <= CopyFrom(v, lo, at, left, out).value
    decreases |v| - lo
  {
    if left > 0 {
      var end := v[lo].vpos + v[lo].len;
      var srcEnd := if at + left < end then at + left else end;
      var more := out + [Subchunk(v[lo], EndOf(out), srcEnd - at, at - v[lo].vpos)];
      CopyGrows(v, lo + 1, srcEnd, at + left - srcEnd, more);
      assert out <= more;
    }
  }

  class PiecewiseApplicator {
    var pieces: seq<string>
    var src: Version
    var dst: Version

    ghost function State(): Chunked
      reads this
    {
      Chunked(pieces, src, dst)
    }

    constructor ()
      ensures State() == Chunked([], [], [])
    {
      pieces, src, dst := [], [], [];
    }

    method Begin(base: string)
      modifies this
      ensures State() == Started(base)
    {
      pieces := [base];
      src := [Chunk(|base|, 0, 0, 0)];
      dst := [];
    }

    method Next()
      modifies this
      ensures State() == Turned(old(State()))
    {
      src, dst := dst, src;
      dst := [];
    }

    /** The pieces of the version, put together. */
    method Finish() returns (text: string)
      requires Good(State())
      ensures text == Current(State())
    {
      text := "";
      for i := 0 to |src|
        invariant WellFormed(src[..i], pieces) && text == Text(src[..i], pieces)
      {
        InVersion(src, pieces, i);
        assert src[i].vpos == EndOf(src[..i]) by {
          StartsAtEnd(src, pieces, i);
        }
        Push(src[..i], src[i], pieces);
        assert src[..i + 1] == src[..i] + [src[i]];
        text := text + pieces[src[i].piece][src[i].ppos..src[i].ppos + src[i].len];
      }
      assert src[..|src|] == src;
    }

    method CopyRange(pos: nat, len: nat) returns (ok: bool)
      modifies this`dst
      ensures ok <==> Did(old(State()), Copy(pos, len)).Some?
      ensures ok ==> State() == Did(old(State()), Copy(pos, len)).value
    {
      hide CopyChunks;
      var out := ApplyCopy(src, dst, pos, len);
      ok := out.Some?;
      if ok {
        dst := out.value;
      }
    }

    method InsertText(str: string)
      modifies this`pieces, this`dst
      ensures Did(old(State()), Insert(str)) == Some(State())
    {
      var piece := |pieces|;
      pieces := pieces + [str];
      var vpos := 0;
      if dst != [] {
        vpos := dst[|dst| - 1].vpos + dst[|dst| - 1].len;
      }
      dst := dst + [Chunk(|str|, piece, vpos, 0)];
    }

    method Perform(insn: Insn) returns (ok: bool)
      modifies this`pieces, this`dst
      ensures ok <==> Did(old(State()), insn).Some?
      ensures ok ==> State() == Did(old(State()), insn).value
    {
      hide CopyChunks;
      match insn
      case Insert(p) =>
        InsertText(p);
        ok := true;
      case Copy(pos, len) =>
        ok := CopyRange(pos, len);
    }
  }

  lemma StartsAtEnd(v: Version, pieces: seq<string>, i: nat)
    requires WellFormed(v, pieces) && i < |v|
    ensures v[i].vpos == EndOf(v[..i])
  {
  }
}
