// Deltas as texts in xdelta.cc: read and applied at the same time, by copying strings or on chunks, one after the
// other; when the two ways of applying agree, and when the one on chunks goes through.
module DeltaChains {
  import opened Wrappers
  import opened Xdelta
  import opened DeltaText
  import opened Piecewise

  /** What has been read, and what the rest of the text adds to it. */
  ghost predicate ReadSoFar(delta: string, pos: nat, done: seq<Insn>)
    requires pos <= |delta|
  {
    var r := ReadDelta(delta[pos..]);
    ReadDelta(delta) == if r.Some? then Some(done + r.value) else None
  }

  /** The next instruction in the text, behind its letter. */
  method NextInsn(delta: string, pos: nat, ghost done: seq<Insn>) returns (one: Option<(Insn, nat)>)
    requires pos < |delta| && ReadSoFar(delta, pos, done)
    ensures one.None? ==> ReadDelta(delta) == None
    ensures one.Some? ==> pos < one.value.1 <= |delta| && ReadSoFar(delta, one.value.1, done + [one.value.0])
  {
    hide ReadInsert, ReadCopy;
    var c := delta[pos];
    assert delta[pos..][1..] == delta[pos + 1..];
    one := None;
    if c == 'I' {
      one := ParseInsert(delta, pos + 1);
    } else if c == 'C' {
      one := ParseCopy(delta, pos + 1);
    }
    if one.Some? {
      ghost var insn, r := one.value.0, ReadDelta(delta[one.value.1..]);
      assert r.Some? ==> done + ([insn] + r.value) == (done + [insn]) + r.value;
    }
  }

  lemma ReadNothing(delta: string)
    ensures ReadSoFar(delta, 0, [])
  {
    assert delta[0..] == delta;
    assert ReadDelta(delta).Some? ==> [] + ReadDelta(delta).value == ReadDelta(delta).value;
  }

  lemma ReadEverything(delta: string, done: seq<Insn>)
    requires ReadSoFar(delta, |delta|, done)
    ensures ReadDelta(delta) == Some(done)
  {
    assert done + [] == done;
  }

  // ---- by copying strings ----

  /** What apply_delta makes of a text, when it is left to the applicator that copies strings. */
  ghost function Patched(a: string, delta: string): Option<string> {
    var insns :- ReadDelta(delta);
    Applied(insns, a)
  }

  method ApplySimple(a: string, delta: string) returns (b: Option<string>)
    ensures b == Patched(a, delta)
  {
    hide ReadDelta, Append, Applied;
    AppliedNothing(a);
    var pos := 0;
    var dst := Some("");
    ghost var done: seq<Insn> := [];
    ReadNothing(delta);
    while pos < |delta|
      invariant 0 <= pos <= |delta| && dst.Some? && dst == Applied(done, a) && ReadSoFar(delta, pos, done)
      decreases |delta| - pos
    {
      var one := NextInsn(delta, pos, done);
      if one.None? {
        return None;
      }
      AppliedPush(done, one.value.0, a);
      match one.value.0 {
        case Insert(p) => dst := Some(dst.value + p);
        case Copy(from, len) => dst := Append(dst.value, a, from, len);
      }
      done := done + [one.value.0];
      pos := one.value.1;
      if dst.None? {
        AppliedFails(delta, a, done, pos);
        return None;
      }
    }
    ReadEverything(delta, done);
    b := dst;
  }

  lemma AppliedNothing(a: string)
    ensures Applied([], a) == Some("")
  {
  }

  lemma AppliedPush(done: seq<Insn>, insn: Insn, a: string)
    requires Applied(done, a).Some?
    ensures Applied(done + [insn], a) ==
            match insn
            case Insert(p) => Some(Applied(done, a).value + p)
            case Copy(pos, len) => Append(Applied(done, a).value, a, pos, len)
  {
    assert (done + [insn])[..|done|] == done;
  }

  lemma AppliedFails(delta: string, a: string, done: seq<Insn>, pos: nat)
    requires Applied(done, a) == None && pos <= |delta| && ReadSoFar(delta, pos, done)
    ensures Patched(a, delta) == None
  {
    if ReadDelta(delta[pos..]).Some? {
      AppliedStaysNone(done, ReadDelta(delta[pos..]).value, a);
    }
  }

  lemma {:induction false} AppliedStaysNone(done: seq<Insn>, more: seq<Insn>, a: string)
    requires Applied(done, a) == None
    ensures Applied(done + more, a) == None
    decreases |more|
  {
    if more == [] {
      assert done + more == done;
    } else {
      var front := more[..|more| - 1];
      AppliedStaysNone(done, front, a);
      assert (done + more)[..|done + more| - 1] == done + front;
    }
  }

  /** The empty delta makes nothing of any text. */
  lemma PatchNothing(a: string)
    ensures Patched(a, "") == Some("")
  {
  }

  // ---- on chunks ----

  /** What apply_delta does when it is left to the applicator that keeps chunks. */
  ghost function Applying(s: Chunked, delta: string): (t: Option<Chunked>)
    requires Good(s)
    ensures t.Some? ==> Good(t.value)
  {
    var insns :- ReadDelta(delta);
    DidAllText(s, insns);
    DidAll(s, insns)
  }

  /** Reads instructions and applies them as it goes; the first one that fails stops it. */
  method ApplyDelta(app: PiecewiseApplicator, delta: string) returns (ok: bool)
    requires Good(app.State())
    modifies app`pieces, app`dst
    ensures ok <==> Applying(old(app.State()), delta).Some?
    ensures ok ==> app.State() == Applying(old(app.State()), delta).value
  {
    hide Good, ReadDelta, Did;
    ghost var s := app.State();
    var pos := 0;
    ghost var done: seq<Insn> := [];
    ReadNothing(delta);
    while pos < |delta|
      invariant 0 <= pos <= |delta| && ReadSoFar(delta, pos, done) && DidAll(s, done) == Some(app.State())
      decreases |delta| - pos
    {
      var one := NextInsn(delta, pos, done);
      if one.None? {
        return false;
      }
      DidPush(s, done, one.value.0);
      ok := app.Perform(one.value.0);
      done := done + [one.value.0];
      pos := one.value.1;
      if !ok {
        DidAllFails(s, delta, done, pos);
        return;
      }
    }
    ReadEverything(delta, done);
    ok := true;
  }

  lemma DidPush(s: Chunked, done: seq<Insn>, insn: Insn)
    ensures DidAll(s, done + [insn]) == var t := DidAll(s, done); if t.Some? then Did(t.value, insn) else None
  {
    assert (done + [insn])[..|done|] == done;
  }

  lemma DidAllFails(s: Chunked, delta: string, done: seq<Insn>, pos: nat)
    requires Good(s) && DidAll(s, done) == None && pos <= |delta| && ReadSoFar(delta, pos, done)
    ensures Applying(s, delta) == None
  {
    if ReadDelta(delta[pos..]).Some? {
      DidAllStaysNone(s, done, ReadDelta(delta[pos..]).value);
    }
  }

  lemma {:induction false} DidAllStaysNone(s: Chunked, done: seq<Insn>, more: seq<Insn>)
    requires DidAll(s, done) == None
    ensures DidAll(s, done + more) == None
    decreases |more|
  {
    if more == [] {
      assert done + more == done;
    } else {
      DidAllStaysNone(s, done, more[..|more| - 1]);
      assert (done + more)[..|done + more| - 1] == done + more[..|more| - 1];
    }
  }

  // ---- when the applicator on chunks goes through ----

  /** Between two deltas: no empty chunks, except in a version without text. */
  ghost predicate Clean(s: Chunked) {
    Good(s) && s.dst == [] && (Current(s) != "" ==> NoEmpty(s.src))
  }

  /** The text that the delta gives on chunks, if every copy is inside the base. */
  ghost function After(base: string, delta: string): Option<string> {
    var insns :- ReadDelta(delta);
    Steps(insns, base, "")
  }

  /**
   The text is a delta, every copy that copies something is inside the base, nothing is copied from an empty base,
   and nothing empty is inserted into a text that is not empty itself.
   */
  ghost predicate Fits(delta: string, base: string) {
    && ReadDelta(delta).Some? && After(base, delta).Some?
    && (base == "" ==> forall i :: 0 <= i < |ReadDelta(delta).value| ==> ReadDelta(delta).value[i].Insert?)
    && (After(base, delta).value != "" ==> NothingEmpty(ReadDelta(delta).value))
  }

  /** A fitting delta goes through from any clean version, to a clean version of the text it stands for. */
  lemma FitsGoesThrough(s: Chunked, delta: string)
    requires Clean(s) && Fits(delta, Current(s))
    ensures Applying(s, delta).Some? && Clean(Turned(Applying(s, delta).value))
    ensures Current(Turned(Applying(s, delta).value)) == After(Current(s), delta).value
  {
    hide WellFormed, Text, DidAll, Steps, ReadDelta;
    var insns := ReadDelta(delta).value;
    NoText(s);
    DidAllGoesThrough(s, insns);
    DidAllText(s, insns);
    DidAllNoEmpty(s, insns);
    NoVersion([]);
    TurnedText(DidAll(s, insns).value);
  }

  lemma NoText(s: Chunked)
    requires Good(s) && s.dst == []
    ensures Building(s) == ""
  {
  }

  lemma TurnedText(s: Chunked)
    requires Good(s)
    ensures Good(Turned(s)) && Current(Turned(s)) == Building(s)
  {
  }

  lemma StartedClean(base: string)
    ensures Clean(Started(base)) && Current(Started(base)) == base
  {
    StartedText(base);
  }

  /** Exactly the fitting deltas go through from every clean version of the base and leave a clean version. */
  lemma FitsExactly(delta: string, base: string)
    ensures Fits(delta, base) <==>
      forall s :: Clean(s) && Current(s) == base ==> Applying(s, delta).Some? && Clean(Turned(Applying(s, delta).value))
  {
    hide WellFormed, Text, DidAll, Steps, ReadDelta, Started, Fits, NoEmpty;
    forall s | Fits(delta, base) && Clean(s) && Current(s) == base
      ensures Applying(s, delta).Some? && Clean(Turned(Applying(s, delta).value))
    {
      FitsGoesThrough(s, delta);
    }
    StartedClean(base);
    if Applying(Started(base), delta).Some? && Clean(Turned(Applying(Started(base), delta).value)) {
      StartedFits(delta, base);
    }
  }

  lemma StartedFits(delta: string, base: string)
    requires Good(Started(base)) && Applying(Started(base), delta).Some?
    requires Clean(Turned(Applying(Started(base), delta).value))
    ensures Fits(delta, base)
  {
    hide WellFormed, Text, DidAll, Steps, ReadDelta, NoEmpty;
    var s, insns := Started(base), ReadDelta(delta).value;
    StartedText(base);
    DidAllText(s, insns);
    DidAllNoEmpty(s, insns);
    TurnedText(DidAll(s, insns).value);
    if base == "" {
      NothingCopied(s, insns);
    }
  }

  /** Any copy from the version of an empty text fails. */
  lemma {:induction false} NothingCopied(s: Chunked, insns: seq<Insn>)
    requires Good(s) && DidAll(s, insns).Some? && |s.src| == 1 && s.src[0].len == 0
    ensures forall i :: 0 <= i < |insns| ==> insns[i].Insert?
    decreases |insns|
  {
    hide WellFormed, Text;
    if insns != [] {
      var front := insns[..|insns| - 1];
      NothingCopied(s, front);
      DidAllText(s, front);
      assert forall i :: 0 <= i < |front| ==> insns[i] == front[i];
    }
  }

  /** Where both ways of applying a delta go through they give the same text. */
  lemma BothAgree(base: string, delta: string)
    requires Patched(base, delta).Some? && After(base, delta).Some?
    ensures Patched(base, delta) == After(base, delta)
  {
    InsnsAgree(ReadDelta(delta).value, base);
  }

  lemma {:induction false} InsnsAgree(insns: seq<Insn>, base: string)
    requires Applied(insns, base).Some? && Steps(insns, base, "").Some?
    ensures Applied(insns, base) == Steps(insns, base, "")
    decreases |insns|
  {
    hide Steps;
    if insns == [] {
      StepsNothing(base);
    } else {
      var front, last := insns[..|insns| - 1], insns[|insns| - 1];
      assert front + [last] == insns;
      StepsPush(front, last, base, "");
      var x := Steps(front, base, "");
      assert x.Some?;
      InsnsAgree(front, base);
      StepAgrees(last, base, x.value);
    }
  }

  lemma StepAgrees(insn: Insn, base: string, dst: string)
    requires insn.Copy? ==> Append(dst, base, insn.pos, insn.len).Some?
    requires Step(insn, base, dst).Some?
    ensures Step(insn, base, dst) == match insn case Insert(p) => Some(dst + p) case Copy(pos, len) => Append(dst, base, pos, len)
  {
    if insn.Copy? && insn.len == 0 {
      assert base[insn.pos..insn.pos] == "" && dst + "" == dst;
    }
  }

  /** A copy beyond the end is cut short by copying strings; on chunks no version of the base gets past it. */
  lemma OverlongCopy()
    ensures var delta := Render([Copy(0, 99), Insert("x")]);
      && Patched("a", delta) == Some("ax") && After("a", delta) == None && !Fits(delta, "a")
      && forall s :: Good(s) && s.dst == [] && Current(s) == "a" ==> Applying(s, delta) == None
  {
    hide WellFormed, Text, DidAll, Render, ReadDelta;
    var insns := [Copy(0, 99), Insert("x")];
    var delta := Render(insns);
    DeltaRoundTrip(insns);
    AppliedNothing("a");
    AppliedPush([], insns[0], "a");
    assert [] + [insns[0]] == [insns[0]] && [insns[0]] + [insns[1]] == insns;
    assert "a"[0..1] == "a" && "" + "a" == "a" && "a" + "x" == "ax";
    AppliedPush([insns[0]], insns[1], "a");
    assert Steps(insns, "a", "") == None;
    forall s | Good(s) && s.dst == [] && Current(s) == "a"
      ensures Applying(s, delta) == None
    {
      NoText(s);
      DidAllText(s, insns);
    }
  }

  // ---- chains of deltas ----

  ghost function ReplayFrom(s: Chunked, deltas: seq<string>): (t: Option<Chunked>)
    requires Good(s)
    ensures t.Some? ==> Good(t.value)
    decreases |deltas|
  {
    if deltas == [] then Some(s) else
      var t :- Applying(s, deltas[0]);
      ReplayFrom(Turned(t), deltas[1..])
  }

  /** What the applicator on chunks makes of a base and a chain of deltas. */
  ghost function Replayed(base: string, deltas: seq<string>): Option<string> {
    StartedText(base);
    var s :- ReplayFrom(Started(base), deltas);
    Some(Current(s))
  }

  /** The text after a chain of deltas, applied one by one. */
  ghost function AfterAll(base: string, deltas: seq<string>): Option<string>
    decreases |deltas|
  {
    if deltas == [] then Some(base) else
      var next :- After(base, deltas[0]);
      AfterAll(next, deltas[1..])
  }

  /** Every delta fits the text before it. */
  ghost predicate SmoothChain(base: string, deltas: seq<string>)
    decreases |deltas|
  {
    deltas == [] || (Fits(deltas[0], base) && SmoothChain(After(base, deltas[0]).value, deltas[1..]))
  }

  /** Replaying a chain of deltas, as reconstructing a version does. */
  method Replay(base: string, deltas: seq<string>) returns (text: Option<string>)
    ensures text == Replayed(base, deltas)
  {
    hide Good, Applying, Started;
    var app := new PiecewiseApplicator();
    app.Begin(base);
    StartedText(base);
    var i := 0;
    assert deltas[0..] == deltas;
    while i < |deltas|
      invariant 0 <= i <= |deltas| && Good(app.State())
      invariant ReplayFrom(Started(base), deltas) == ReplayFrom(app.State(), deltas[i..])
    {
      assert deltas[i..][1..] == deltas[i + 1..];
      ghost var s := app.State();
      var ok := ApplyDelta(app, deltas[i]);
      if !ok {
        return None;
      }
      TurnedText(app.State());
      app.Next();
      i := i + 1;
    }
    var t := app.Finish();
    text := Some(t);
  }

  /** What comes out of a replay is what the deltas say, one by one. */
  lemma {:induction false} ReplayFromAfter(s: Chunked, deltas: seq<string>)
    requires Good(s) && s.dst == []
    ensures var t := ReplayFrom(s, deltas); t.Some? ==> AfterAll(Current(s), deltas) == Some(Current(t.value))
    decreases |deltas|
  {
    hide WellFormed, Text, DidAll, Steps, ReadDelta;
    if deltas != [] && Applying(s, deltas[0]).Some? {
      var t := Applying(s, deltas[0]).value;
      NoText(s);
      DidAllText(s, ReadDelta(deltas[0]).value);
      TurnedText(t);
      ReplayFromAfter(Turned(t), deltas[1..]);
    }
  }

  lemma ReplayedAfter(base: string, deltas: seq<string>)
    ensures Replayed(base, deltas).Some? ==> Replayed(base, deltas) == AfterAll(base, deltas)
  {
    StartedText(base);
    ReplayFromAfter(Started(base), deltas);
  }

  lemma {:induction false} SmoothGoesThrough(s: Chunked, deltas: seq<string>)
    requires Clean(s) && SmoothChain(Current(s), deltas)
    ensures ReplayFrom(s, deltas).Some? && Some(Current(ReplayFrom(s, deltas).value)) == AfterAll(Current(s), deltas)
    decreases |deltas|
  {
    hide WellFormed, Text, Applying, Fits, Clean, After;
    CleanGood(s);
    if deltas != [] {
      FitsGoesThrough(s, deltas[0]);
      FitsAfter(deltas[0], Current(s));
      SmoothGoesThrough(Turned(Applying(s, deltas[0]).value), deltas[1..]);
    }
  }

  lemma CleanGood(s: Chunked)
    requires Clean(s)
    ensures Good(s) && s.dst == []
  {
  }

  lemma FitsAfter(delta: string, base: string)
    requires Fits(delta, base)
    ensures After(base, delta).Some?
  {
  }

  /** On a smooth chain the replay does not fail. */
  lemma SmoothReplays(base: string, deltas: seq<string>)
    requires SmoothChain(base, deltas)
    ensures Replayed(base, deltas).Some? && Replayed(base, deltas) == AfterAll(base, deltas)
  {
    StartedText(base);
    StartedClean(base);
    SmoothGoesThrough(Started(base), deltas);
  }

  /**
   An empty insert is harmless by itself, but leaves an empty chunk: the delta after it, which fits its text, then
   fails a check.
   */
  lemma EmptyInsert()
    ensures var first, second := Render([Insert(""), Copy(0, 1)]), Render([Copy(0, 1), Insert("c")]);
      && Patched("ab", first) == Some("a") && Patched("a", second) == Some("ac")
      && AfterAll("ab", [first, second]) == Some("ac") && Replayed("ab", [first, second]) == None
      && !Fits(first, "ab") && Fits(second, "a")
  {
    hide WellFormed, Text, DidAll, Render, ReadDelta, Steps, Did;
    var one, two := [Insert(""), Copy(0, 1)], [Copy(0, 1), Insert("c")];
    var first, second := Render(one), Render(two);
    DeltaRoundTrip(one);
    DeltaRoundTrip(two);
    SmallDeltas();
    assert [first, second][1..] == [second] && [second][1..] == [];
    StartedText("ab");
    var s := Applying(Started("ab"), first);
    FaultyReplay();
    DidAllText(Started("ab"), one);
    TurnedText(s.value);
    assert ReplayFrom(Turned(s.value), [second]) == None;
    assert Replayed("ab", [first, second]) == None;
    assert After("ab", first) == Some("a") && After("a", second) == Some("ac");
    assert AfterAll("ac", []) == Some("ac") && AfterAll("a", [second]) == Some("ac");
    assert !NothingEmpty(one) by { assert one[0].payload == ""; }
    assert NothingEmpty(two);
  }

  lemma SmallDeltas()
    ensures var one, two := [Insert(""), Copy(0, 1)], [Copy(0, 1), Insert("c")];
      && Applied(one, "ab") == Some("a") && Applied(two, "a") == Some("ac")
      && Steps(one, "ab", "") == Some("a") && Steps(two, "a", "") == Some("ac")
  {
    var one, two := [Insert(""), Copy(0, 1)], [Copy(0, 1), Insert("c")];
    AppliedNothing("ab");
    AppliedPush([], one[0], "ab");
    AppliedPush([one[0]], one[1], "ab");
    assert [] + [one[0]] == [one[0]] && [one[0]] + [one[1]] == one;
    AppliedNothing("a");
    AppliedPush([], two[0], "a");
    AppliedPush([two[0]], two[1], "a");
    assert [] + [two[0]] == [two[0]] && [two[0]] + [two[1]] == two;
    assert "ab"[0..1] == "a" && "a"[0..1] == "a" && "" + "a" == "a" && "a" + "c" == "ac" && "" + "" == "";
    InsnsAgree(one, "ab");
    InsnsAgree(two, "a");
  }

  lemma FaultyReplay()
    ensures var one, two := [Insert(""), Copy(0, 1)], [Copy(0, 1), Insert("c")];
      DidAll(Started("ab"), one).Some? && DidAll(Turned(DidAll(Started("ab"), one).value), two) == None
  {
    var one, two := [Insert(""), Copy(0, 1)], [Copy(0, 1), Insert("c")];
    var s := Started("ab");
    var t := Did(s, one[0]).value;
    assert one[..1] == [one[0]] && one[..1][..0] == [];
    assert FirstBehind(t.src, 0, 0, 1) == Some(0);
    var u := Did(t, one[1]).value;
    assert u.dst == [Chunk(0, 1, 0, 0), Chunk(1, 0, 0, 0)];
    assert DidAll(s, one) == Some(u);
    var v := Turned(u);
    assert FirstBehind(v.src, 0, 0, 2) == FirstBehind(v.src, 0, 0, 1) == None;
    assert CopyChunks(v.src, v.dst, 0, 1) == None;
    assert two[..1] == [two[0]] && two[..1][..0] == [];
    assert DidAll(v, []) == Some(v);
    assert DidAll(v, two[..1]) == None;
  }

  // ---- deltas between texts ----

  /** The delta leads from one text to the other, both ways of applying it, and leaves a clean version. */
  ghost predicate Leads(delta: string, a: string, b: string) {
    Patched(a, delta) == Some(b) && Fits(delta, a) && After(a, delta) == Some(b)
  }

  /** A delta between two texts, as text; None is the failed check of the search. */
  method Diff(a: string, b: string, pastEndEqual: bool) returns (delta: Option<string>)
    ensures !pastEndEqual ==> delta.Some?
    ensures a == b ==> delta == Some("")
    ensures delta.Some? && |a| < U32 ==> (Patched(a, delta.value) == Some(b) <==> a != b || b == "")
    ensures delta.Some? && |a| < U32 && a != b ==> Leads(delta.value, a, b)
    ensures delta.Some? && |a| < U32 && a != b && |b| >= BLOCK ==>
      ReadDelta(delta.value).Some? && Searched(ReadDelta(delta.value).value, a, b)
  {
    hide Output, Compact, Steps, Applied, Searched;
    var d := ComputeDelta(a, b, pastEndEqual);
    if d.None? {
      return None;
    }
    var text := WriteDelta(d.value);
    DeltaRoundTrip(d.value);
    if a == b {
      AppliedNothing(a);
    } else if |a| < U32 {
      AppliedInRange(d.value, a);
      StepsOutput(d.value, a);
      ComputedFits(d.value, a, b);
    }
    delta := Some(text);
  }

  lemma ComputedFits(insns: seq<Insn>, a: string, b: string)
    requires InRange(insns, a) && (b != "" ==> Compact(insns)) && (b == "" ==> insns == [Copy(0, 0)] && a != "")
    ensures a == "" ==> forall i :: 0 <= i < |insns| ==> insns[i].Insert?
    ensures b != "" ==> NothingEmpty(insns)
  {
  }

  /** The deltas of neighbouring texts replay to the last of them. */
  lemma {:induction false} DiffsReplay(texts: seq<string>, deltas: seq<string>)
    requires |texts| == |deltas| + 1 && forall i :: 0 <= i < |deltas| ==> Leads(deltas[i], texts[i], texts[i + 1])
    ensures SmoothChain(texts[0], deltas) && AfterAll(texts[0], deltas) == Some(texts[|deltas|])
    ensures Replayed(texts[0], deltas) == Some(texts[|deltas|])
    decreases |deltas|
  {
    hide Fits, After, Replayed;
    if deltas != [] {
      assert Leads(deltas[0], texts[0], texts[1]);
      forall i | 0 <= i < |deltas[1..]|
        ensures Leads(deltas[1..][i], texts[1..][i], texts[1..][i + 1])
      {
        assert Leads(deltas[i + 1], texts[i + 1], texts[i + 2]);
      }
      DiffsReplay(texts[1..], deltas[1..]);
    }
    SmoothReplays(texts[0], deltas);
  }
}
