// Printing and parsing of change sets in change_set.cc.
module ChangeSetIo {
  import opened Wrappers
  import opened BasicIo

  type Path = string
  type FileId = string

  datatype ChangeSet = ChangeSet(
    deletedFiles: set<Path>,
    deletedDirs: set<Path>,
    renamedFiles: map<Path, Path>,
    renamedDirs: map<Path, Path>,
    addedFiles: set<Path>,
    deltas: map<Path, (FileId, FileId)>)

  const EMPTY: ChangeSet := ChangeSet({}, {}, map[], map[], {}, map[])

  /** One stanza. */
  datatype Statement =
    | DeleteFile(path: Path)
    | DeleteDir(path: Path)
    | RenameFile(path: Path, to: Path)
    | RenameDir(path: Path, to: Path)
    | AddFile(path: Path)
    | Patch(path: Path, src: FileId, dst: FileId)

  /** Checks made by other parts of the program: well-formed paths, sane rearrangements, sane change sets. */
  datatype Checks = Checks(validPath: Path -> bool, saneRearrangement: ChangeSet -> bool, saneChangeSet: ChangeSet -> bool)

  function Key(s: Statement): string {
    match s
    case DeleteFile(_) => "delete_file"
    case DeleteDir(_) => "delete_dir"
    case RenameFile(_, _) => "rename_file"
    case RenameDir(_, _) => "rename_dir"
    case AddFile(_) => "add_file"
    case Patch(_, _, _) => "patch"
  }

  /** Entering a statement; None is a failed check for an entry that is there already. */
  function Apply(cs: ChangeSet, s: Statement): Option<ChangeSet> {
    match s
    case DeleteFile(p) => if p in cs.deletedFiles then None else Some(cs.(deletedFiles := cs.deletedFiles + {p}))
    case DeleteDir(p) => if p in cs.deletedDirs then None else Some(cs.(deletedDirs := cs.deletedDirs + {p}))
    case RenameFile(p, q) => if p in cs.renamedFiles then None else Some(cs.(renamedFiles := cs.renamedFiles[p := q]))
    case RenameDir(p, q) => if p in cs.renamedDirs then None else Some(cs.(renamedDirs := cs.renamedDirs[p := q]))
    case AddFile(p) => if p in cs.addedFiles then None else Some(cs.(addedFiles := cs.addedFiles + {p}))
    case Patch(p, src, dst) => Some(if p in cs.deltas then cs else cs.(deltas := cs.deltas[p := (src, dst)]))
  }

  // ---- parsing, as functions of the text ahead ----

  /** The parser is one token ahead of the text. */
  datatype State = State(ty: TokenType, val: string, rest: string)

  ghost function Start(s: string): Option<State> {
    match Lex(s)
    case Bad => None
    case Tok(ty, val, rest) => Some(State(ty, val, rest))
  }

  ghost function Next(st: State): Option<State> {
    Start(st.rest)
  }

  ghost function TakeStr(st: State): Option<(string, State)> {
    if st.ty != TokString then None else
      var n :- Next(st);
      Some((st.val, n))
  }

  ghost function TakeHex(st: State): Option<(string, State)> {
    if st.ty != TokHex then None else
      var n :- Next(st);
      Some((st.val, n))
  }

  predicate AtKey(st: State, key: string) {
    st.ty == TokSymbol && st.val == key
  }

  ghost function TakeSym(st: State, key: string): Option<State> {
    if AtKey(st, key) then Next(st) else None
  }

  predicate AtRearrangement(st: State) {
    AtKey(st, "add_file") || AtKey(st, "delete_file") || AtKey(st, "delete_dir") || AtKey(st, "rename_file") || AtKey(st, "rename_dir")
  }

  ghost function ParsePath(st: State, checks: Checks): Option<(Path, State)> {
    var t :- TakeStr(st);
    if checks.validPath(t.0) then Some(t) else None
  }

  /** Two paths with the symbol "to" between them; both are checked once they have been read. */
  ghost function ParsePaths(st: State, checks: Checks): Option<(Path, Path, State)> {
    var t1 :- TakeStr(st);
    var s :- TakeSym(t1.1, "to");
    var t2 :- TakeStr(s);
    if checks.validPath(t1.0) && checks.validPath(t2.0) then Some((t1.0, t2.0, t2.1)) else None
  }

  ghost function ParseMove(st: State, checks: Checks): Option<(Statement, State)>
    requires AtRearrangement(st)
  {
    var s :- Next(st);
    if st.val == "rename_file" || st.val == "rename_dir" then
      var t :- ParsePaths(s, checks);
      Some((if st.val == "rename_file" then RenameFile(t.0, t.1) else RenameDir(t.0, t.1), t.2))
    else
      var t :- ParsePath(s, checks);
      Some((if st.val == "add_file" then AddFile(t.0) else if st.val == "delete_file" then DeleteFile(t.0) else DeleteDir(t.0), t.1))
  }

  ghost function ParsePatch(st: State, checks: Checks): Option<(Statement, State)>
    requires AtKey(st, "patch")
  {
    var s1 :- Next(st);
    var p :- TakeStr(s1);
    var s2 :- TakeSym(p.1, "from");
    var src :- TakeHex(s2);
    var s3 :- TakeSym(src.1, "to");
    var dst :- TakeHex(s3);
    if checks.validPath(p.0) then Some((Patch(p.0, src.0, dst.0), dst.1)) else None
  }

  lemma NextShorter(st: State)
    ensures Next(st).Some? ==> |Next(st).value.rest| <= |st.rest| && (Next(st).value.ty != TokNone ==> |Next(st).value.rest| < |st.rest|)
  {
    LexProgress(st.rest);
  }

  lemma ParseMoveShorter(st: State, checks: Checks)
    requires AtRearrangement(st) && ParseMove(st, checks).Some?
    ensures |ParseMove(st, checks).value.1.rest| < |st.rest|
  {
    hide Lex;
    NextShorter(st);
    var s := Next(st).value;
    NextShorter(s);
    if st.val == "rename_file" || st.val == "rename_dir" {
      var t1 := TakeStr(s).value;
      NextShorter(t1.1);
      NextShorter(TakeSym(t1.1, "to").value);
    }
  }

  lemma ParsePatchShorter(st: State, checks: Checks)
    requires AtKey(st, "patch") && ParsePatch(st, checks).Some?
    ensures |ParsePatch(st, checks).value.1.rest| < |st.rest|
  {
    hide Lex;
    NextShorter(st);
    var s1 := Next(st).value;
    NextShorter(s1);
    var p := TakeStr(s1).value;
    NextShorter(p.1);
    var s2 := TakeSym(p.1, "from").value;
    NextShorter(s2);
    var src := TakeHex(s2).value;
    NextShorter(src.1);
    NextShorter(TakeSym(src.1, "to").value);
  }

  /** The loop over the stanzas of the rearrangement. */
  ghost function ParseRearrangement(cs: ChangeSet, st: State, checks: Checks): Option<(ChangeSet, State)>
    decreases |st.rest|
  {
    if !AtRearrangement(st) then Some((cs, st)) else
      var one :- ParseMove(st, checks);
      var more :- Apply(cs, one.0);
      ParseMoveShorter(st, checks);
      ParseRearrangement(more, one.1, checks)
  }

  /** The loop over the deltas. */
  ghost function ParseDeltas(cs: ChangeSet, st: State, checks: Checks): Option<(ChangeSet, State)>
    decreases |st.rest|
  {
    if !AtKey(st, "patch") then Some((cs, st)) else
      var one :- ParsePatch(st, checks);
      var more :- Apply(cs, one.0);
      ParsePatchShorter(st, checks);
      ParseDeltas(more, one.1, checks)
  }

  /** The lookahead says end of stream only after a symbol, or when there is no token. */
  predicate AtEnd(st: State) {
    st.rest == "" && (st.ty == TokSymbol || st.ty == TokNone)
  }

  ghost function Parse(text: string, checks: Checks): Option<ChangeSet> {
    var st :- Start(text);
    var re :- ParseRearrangement(EMPTY, st, checks);
    if !checks.saneRearrangement(re.0) then None else
    var cs :- ParseDeltas(re.0, re.1, checks);
    if checks.saneChangeSet(cs.0) && AtEnd(cs.1) then Some(cs.0) else None
  }

  // ---- printing ----

  ghost function Entries(s: Statement): seq<Entry> {
    match s
    case RenameFile(p, q) => [(Key(s), Escaped(p)), ("to", Escaped(q))]
    case RenameDir(p, q) => [(Key(s), Escaped(p)), ("to", Escaped(q))]
    case Patch(p, src, dst) => [(Key(s), Escaped(p)), ("from", "[" + src + "]"), ("to", "[" + dst + "]")]
    case _ => [(Key(s), Escaped(s.path))]
  }

  /** The keys of a stanza are padded to the longest of them. */
  ghost function StatementText(s: Statement): string {
    StanzaText(|Key(s)|, Entries(s))
  }

  /** Stanzas with an empty line between them. */
  ghost function Text(stmts: seq<Statement>): string {
    if stmts == [] then ""
    else if |stmts| == 1 then StatementText(stmts[0])
    else StatementText(stmts[0]) + "\n" + Text(stmts[1..])
  }

  // ---- one stanza read back ----

  ghost predicate Printable(s: Statement) {
    s.Patch? ==> AllHex(s.src) && AllHex(s.dst)
  }

  ghost predicate PathsOk(s: Statement, checks: Checks) {
    checks.validPath(s.path) && (s.RenameFile? || s.RenameDir? ==> checks.validPath(s.to))
  }

  lemma StartLine(indent: nat, e: Entry, more: string)
    requires e.0 != "" && IsAlpha(e.0[0]) && AllWord(e.0)
    ensures Start(LineText(indent, e) + more) == Some(State(TokSymbol, e.0, " " + (e.1 + ("\n" + more))))
    ensures Start("\n" + (LineText(indent, e) + more)) == Start(LineText(indent, e) + more)
  {
    LexLine(indent, e, more);
    assert " " + e.1 + "\n" + more == " " + (e.1 + ("\n" + more));
    LexSpace('\n', LineText(indent, e) + more);
  }

  lemma StartString(v: string, more: string)
    ensures Start(" " + (Escaped(v) + more)) == Some(State(TokString, v, more))
  {
    LexSpace(' ', Escaped(v) + more);
    LexEscaped(v, more);
  }

  lemma StartHex(v: string, more: string)
    requires AllHex(v)
    ensures Start(" " + (("[" + v + "]") + more)) == Some(State(TokHex, v, more))
  {
    LexSpace(' ', ("[" + v + "]") + more);
    LexBracketed(v, more);
  }

  lemma KeyWords(s: Statement)
    ensures var k := Key(s); k != "" && IsAlpha(k[0]) && AllWord(k)
    ensures AllWord("to") && AllWord("from")
  {
  }

  lemma OneLine(indent: nat, e: Entry)
    ensures StanzaText(indent, [e]) == LineText(indent, e)
  {
    assert [e][..0] == [];
    assert StanzaText(indent, []) == "";
    assert "" + LineText(indent, e) == LineText(indent, e);
  }

  lemma TwoLines(indent: nat, e: Entry, f: Entry)
    ensures StanzaText(indent, [e, f]) == LineText(indent, e) + LineText(indent, f)
  {
    OneLine(indent, e);
    assert [e, f][..1] == [e];
  }

  lemma ThreeLines(indent: nat, e: Entry, f: Entry, g: Entry)
    ensures StanzaText(indent, [e, f, g]) == LineText(indent, e) + LineText(indent, f) + LineText(indent, g)
  {
    TwoLines(indent, e, f);
    assert [e, f, g][..2] == [e, f];
  }

  /** Where the parser stands after a stanza: at whatever follows the line break. */
  lemma ReadMove(s: Statement, more: string, checks: Checks)
    requires !s.Patch? && PathsOk(s, checks) && Start("\n" + more).Some?
    ensures var st := Start(StatementText(s) + more);
      st.Some? && AtKey(st.value, Key(s)) && ParseMove(st.value, checks) == Some((s, Start("\n" + more).value))
  {
    hide Start, StanzaText, LineText, Escaped;
    KeyWords(s);
    var n, k := |Key(s)|, Key(s);
    if s.RenameFile? || s.RenameDir? {
      var e, f := (k, Escaped(s.path)), ("to", Escaped(s.to));
      TwoLines(n, e, f);
      var tail := LineText(n, f) + more;
      assert StatementText(s) + more == LineText(n, e) + tail;
      StartLine(n, e, tail);
      StartString(s.path, "\n" + tail);
      StartLine(n, f, more);
      StartString(s.to, "\n" + more);
    } else {
      var e := (k, Escaped(s.path));
      OneLine(n, e);
      StartLine(n, e, more);
      StartString(s.path, "\n" + more);
    }
  }

  lemma ReadPatch(s: Statement, more: string, checks: Checks)
    requires s.Patch? && Printable(s) && PathsOk(s, checks) && Start("\n" + more).Some?
    ensures var st := Start(StatementText(s) + more);
      st.Some? && AtKey(st.value, "patch") && ParsePatch(st.value, checks) == Some((s, Start("\n" + more).value))
  {
    hide Start, StanzaText, LineText, Escaped;
    KeyWords(s);
    var n := |Key(s)|;
    var e, f, g := (Key(s), Escaped(s.path)), ("from", "[" + s.src + "]"), ("to", "[" + s.dst + "]");
    ThreeLines(n, e, f, g);
    var tail2 := LineText(n, g) + more;
    var tail1 := LineText(n, f) + tail2;
    assert StatementText(s) + more == LineText(n, e) + tail1;
    StartLine(n, e, tail1);
    StartString(s.path, "\n" + tail1);
    StartLine(n, f, tail2);
    StartHex(s.src, "\n" + tail2);
    StartLine(n, g, more);
    StartHex(s.dst, "\n" + more);
  }

  // ---- all stanzas read back ----

  /** What follows the first stanza of a text. */
  ghost function Behind(stmts: seq<Statement>): string
    requires stmts != []
  {
    if |stmts| == 1 then "" else "\n" + Text(stmts[1..])
  }

  lemma TextHead(stmts: seq<Statement>)
    requires stmts != []
    ensures Text(stmts) == StatementText(stmts[0]) + Behind(stmts)
    ensures Start("\n" + Behind(stmts)) == Start(Text(stmts[1..]))
  {
    if |stmts| == 1 {
      assert stmts[1..] == [];
      assert StatementText(stmts[0]) + "" == StatementText(stmts[0]);
      assert "\n" + "" == "\n";
      LexSpace('\n', "");
    } else {
      var t := Text(stmts[1..]);
      assert StatementText(stmts[0]) + "\n" + t == StatementText(stmts[0]) + ("\n" + t);
      LexSpace('\n', "\n" + t);
      LexSpace('\n', t);
    }
  }

  lemma StartNothing()
    ensures Start(Text([])) == Some(State(TokNone, "", ""))
  {
  }

  ghost predicate AllOk(stmts: seq<Statement>, checks: Checks) {
    forall i :: 0 <= i < |stmts| ==> Printable(stmts[i]) && PathsOk(stmts[i], checks)
  }

  ghost function ApplyAll(cs: ChangeSet, stmts: seq<Statement>): Option<ChangeSet>
    decreases |stmts|
  {
    if stmts == [] then Some(cs) else
      var more :- Apply(cs, stmts[0]);
      ApplyAll(more, stmts[1..])
  }

  /** The texts of stanzas begin with their keys. */
  lemma {:induction false} StartsWithKey(stmts: seq<Statement>, checks: Checks)
    requires AllOk(stmts, checks)
    ensures Start(Text(stmts)).Some?
    ensures stmts != [] ==> AtKey(Start(Text(stmts)).value, Key(stmts[0]))
    decreases |stmts|
  {
    hide Start, StatementText;
    if stmts == [] {
      StartNothing();
    } else {
      StartsWithKey(stmts[1..], checks);
      TextHead(stmts);
      if stmts[0].Patch? {
        ReadPatch(stmts[0], Behind(stmts), checks);
      } else {
        ReadMove(stmts[0], Behind(stmts), checks);
      }
    }
  }

  lemma {:induction false} ReadDeltas(cs: ChangeSet, stmts: seq<Statement>, checks: Checks)
    requires AllOk(stmts, checks) && (forall i :: 0 <= i < |stmts| ==> stmts[i].Patch?)
    ensures Start(Text(stmts)).Some? && ApplyAll(cs, stmts).Some?
    ensures ParseDeltas(cs, Start(Text(stmts)).value, checks) == Some((ApplyAll(cs, stmts).value, State(TokNone, "", "")))
    decreases |stmts|
  {
    hide Start, StatementText, Text, ParsePatch;
    StartsWithKey(stmts, checks);
    if stmts == [] {
      StartNothing();
    } else {
      TextHead(stmts);
      StartsWithKey(stmts[1..], checks);
      ReadPatch(stmts[0], Behind(stmts), checks);
      var more := Apply(cs, stmts[0]).value;
      ReadDeltas(more, stmts[1..], checks);
    }
  }

  lemma {:induction false} ReadMoves(cs: ChangeSet, moves: seq<Statement>, patches: seq<Statement>, checks: Checks)
    requires AllOk(moves, checks) && AllOk(patches, checks)
    requires (forall i :: 0 <= i < |moves| ==> !moves[i].Patch?) && (forall i :: 0 <= i < |patches| ==> patches[i].Patch?)
    requires ApplyAll(cs, moves).Some?
    ensures Start(Text(moves + patches)).Some? && Start(Text(patches)).Some?
    ensures ParseRearrangement(cs, Start(Text(moves + patches)).value, checks) ==
            Some((ApplyAll(cs, moves).value, Start(Text(patches)).value))
    decreases |moves|
  {
    hide Start, StatementText, Text, ParseMove;
    var all := moves + patches;
    assert AllOk(all, checks);
    StartsWithKey(all, checks);
    StartsWithKey(patches, checks);
    if moves == [] {
      assert all == patches;
      if patches == [] {
        StartNothing();
      }
    } else {
      TextHead(all);
      assert all[1..] == moves[1..] + patches;
      StartsWithKey(all[1..], checks);
      ReadMove(moves[0], Behind(all), checks);
      var more := Apply(cs, moves[0]).value;
      ReadMoves(more, moves[1..], patches, checks);
    }
  }

  // ---- the statements of a change set ----

  /** The change set contains the statement. */
  predicate Holds(cs: ChangeSet, s: Statement) {
    match s
    case DeleteFile(p) => p in cs.deletedFiles
    case DeleteDir(p) => p in cs.deletedDirs
    case RenameFile(p, q) => p in cs.renamedFiles && cs.renamedFiles[p] == q
    case RenameDir(p, q) => p in cs.renamedDirs && cs.renamedDirs[p] == q
    case AddFile(p) => p in cs.addedFiles
    case Patch(p, src, dst) => p in cs.deltas && cs.deltas[p] == (src, dst)
  }

  /** All statements of the change set, each once. */
  ghost predicate Enumerates(stmts: seq<Statement>, cs: ChangeSet) {
    && (forall s :: s in stmts <==> Holds(cs, s))
    && (forall i, j :: 0 <= i < j < |stmts| ==> stmts[i] != stmts[j])
  }

  /** What a change set that holds just some statements of another one holds. */
  ghost predicate HoldsJust(part: ChangeSet, some: seq<Statement>) {
    forall s :: Holds(part, s) <==> s in some
  }

  lemma ApplyHolds(part: ChangeSet, s: Statement)
    requires match s
      case RenameFile(p, _) => p !in part.renamedFiles
      case RenameDir(p, _) => p !in part.renamedDirs
      case Patch(p, _, _) => p !in part.deltas
      case _ => !Holds(part, s)
    ensures Apply(part, s).Some? && forall t :: Holds(Apply(part, s).value, t) <==> Holds(part, t) || t == s
  {
  }

  /** One more statement of a change set can always be entered. */
  lemma ApplyNext(cs: ChangeSet, part: ChangeSet, some: seq<Statement>, s: Statement)
    requires HoldsJust(part, some) && s !in some && Holds(cs, s) && forall t :: t in some ==> Holds(cs, t)
    ensures Apply(part, s).Some? && HoldsJust(Apply(part, s).value, some + [s])
  {
    match s
    case RenameFile(p, q) =>
      if p in part.renamedFiles {
        assert Holds(part, RenameFile(p, part.renamedFiles[p]));
      }
    case RenameDir(p, q) =>
      if p in part.renamedDirs {
        assert Holds(part, RenameDir(p, part.renamedDirs[p]));
      }
    case Patch(p, src, dst) =>
      if p in part.deltas {
        assert Holds(part, Patch(p, part.deltas[p].0, part.deltas[p].1));
      }
    case _ =>
    ApplyHolds(part, s);
  }

  lemma {:induction false} ApplyMore(cs: ChangeSet, part: ChangeSet, some: seq<Statement>, more: seq<Statement>)
    requires HoldsJust(part, some) && Enumerates(some + more, cs)
    ensures ApplyAll(part, more).Some? && HoldsJust(ApplyAll(part, more).value, some + more)
    decreases |more|
  {
    if more == [] {
      assert some + more == some;
    } else {
      var s := more[0];
      assert (some + more)[|some|] == s;
      forall i | 0 <= i < |some|
        ensures some[i] != s
      {
        assert (some + more)[i] == some[i];
      }
      assert forall t :: t in some ==> t in some + more;
      assert s in some + more;
      ApplyNext(cs, part, some, s);
      assert some + [s] + more[1..] == some + more;
      ApplyMore(cs, Apply(part, s).value, some + [s], more[1..]);
    }
  }

  lemma SameStatements(cs: ChangeSet, ds: ChangeSet)
    requires forall s :: Holds(cs, s) <==> Holds(ds, s)
    ensures cs == ds
  {
    forall p
      ensures p in cs.deletedFiles <==> p in ds.deletedFiles
      ensures p in cs.deletedDirs <==> p in ds.deletedDirs
      ensures p in cs.addedFiles <==> p in ds.addedFiles
    {
      assert Holds(cs, DeleteFile(p)) <==> Holds(ds, DeleteFile(p));
      assert Holds(cs, DeleteDir(p)) <==> Holds(ds, DeleteDir(p));
      assert Holds(cs, AddFile(p)) <==> Holds(ds, AddFile(p));
    }
    SameMaps(cs, ds);
    SameMaps(ds, cs);
    assert cs.renamedFiles == ds.renamedFiles && cs.renamedDirs == ds.renamedDirs && cs.deltas == ds.deltas;
  }

  lemma SameMaps(cs: ChangeSet, ds: ChangeSet)
    requires forall s :: Holds(cs, s) ==> Holds(ds, s)
    ensures forall p :: p in cs.renamedFiles ==> p in ds.renamedFiles && ds.renamedFiles[p] == cs.renamedFiles[p]
    ensures forall p :: p in cs.renamedDirs ==> p in ds.renamedDirs && ds.renamedDirs[p] == cs.renamedDirs[p]
    ensures forall p :: p in cs.deltas ==> p in ds.deltas && ds.deltas[p] == cs.deltas[p]
  {
    forall p | p in cs.renamedFiles
      ensures p in ds.renamedFiles && ds.renamedFiles[p] == cs.renamedFiles[p]
    {
      assert Holds(cs, RenameFile(p, cs.renamedFiles[p]));
    }
    forall p | p in cs.renamedDirs
      ensures p in ds.renamedDirs && ds.renamedDirs[p] == cs.renamedDirs[p]
    {
      assert Holds(cs, RenameDir(p, cs.renamedDirs[p]));
    }
    forall p | p in cs.deltas
      ensures p in ds.deltas && ds.deltas[p] == cs.deltas[p]
    {
      assert Holds(cs, Patch(p, cs.deltas[p].0, cs.deltas[p].1));
    }
  }

  /** Entering all statements of a change set, in any order, gives the change set. */
  lemma ApplyEnumeration(cs: ChangeSet, stmts: seq<Statement>)
    requires Enumerates(stmts, cs)
    ensures ApplyAll(EMPTY, stmts) == Some(cs)
  {
    assert HoldsJust(EMPTY, []);
    assert [] + stmts == stmts;
    ApplyMore(cs, EMPTY, [], stmts);
    SameStatements(ApplyAll(EMPTY, stmts).value, cs);
  }

  lemma {:induction false} ApplyAllSplit(cs: ChangeSet, some: seq<Statement>, more: seq<Statement>)
    requires ApplyAll(cs, some + more).Some?
    ensures ApplyAll(cs, some).Some? && ApplyAll(ApplyAll(cs, some).value, more) == ApplyAll(cs, some + more)
    decreases |some|
  {
    if some == [] {
      assert some + more == more;
    } else {
      assert (some + more)[1..] == some[1..] + more;
      ApplyAllSplit(Apply(cs, some[0]).value, some[1..], more);
    }
  }

  /** A change set as the printer writes it: the rearrangement first, then the deltas. */
  ghost predicate Prints(moves: seq<Statement>, patches: seq<Statement>, cs: ChangeSet) {
    && Enumerates(moves + patches, cs)
    && (forall i :: 0 <= i < |moves| ==> !moves[i].Patch?) && (forall i :: 0 <= i < |patches| ==> patches[i].Patch?)
  }

  ghost predicate HexIds(cs: ChangeSet) {
    forall p :: p in cs.deltas ==> AllHex(cs.deltas[p].0) && AllHex(cs.deltas[p].1)
  }

  ghost predicate WellFormedPaths(cs: ChangeSet, checks: Checks) {
    forall s :: Holds(cs, s) ==> PathsOk(s, checks)
  }

  /** The checks accept the change set, and its rearrangement before the deltas are there. */
  ghost predicate Accepted(cs: ChangeSet, checks: Checks) {
    checks.saneChangeSet(cs) && checks.saneRearrangement(cs.(deltas := map[])) && WellFormedPaths(cs, checks)
  }

  /** Parsing what was printed gives back the change set. */
  lemma RoundTrip(cs: ChangeSet, moves: seq<Statement>, patches: seq<Statement>, checks: Checks)
    requires Prints(moves, patches, cs) && HexIds(cs) && Accepted(cs, checks)
    ensures Parse(Text(moves + patches), checks) == Some(cs)
  {
    hide Start, Text, ParseRearrangement, ParseDeltas, PathsOk;
    var all := moves + patches;
    PrintsOk(cs, moves, patches, checks);
    ApplyEnumeration(cs, all);
    ApplyAllSplit(EMPTY, moves, patches);
    MovesOnly(cs, moves, patches);
    ReadMoves(EMPTY, moves, patches, checks);
    ReadDeltas(ApplyAll(EMPTY, moves).value, patches, checks);
  }

  lemma PrintsOk(cs: ChangeSet, moves: seq<Statement>, patches: seq<Statement>, checks: Checks)
    requires Prints(moves, patches, cs) && HexIds(cs) && WellFormedPaths(cs, checks)
    ensures AllOk(moves, checks) && AllOk(patches, checks)
  {
    hide PathsOk;
    var all := moves + patches;
    forall i | 0 <= i < |moves|
      ensures Printable(moves[i]) && PathsOk(moves[i], checks)
    {
      assert all[i] == moves[i] && all[i] in all;
    }
    forall i | 0 <= i < |patches|
      ensures Printable(patches[i]) && PathsOk(patches[i], checks)
    {
      assert all[|moves| + i] == patches[i] && all[|moves| + i] in all;
    }
  }

  /** After the rearrangement part, everything but the deltas is there. */
  lemma MovesOnly(cs: ChangeSet, moves: seq<Statement>, patches: seq<Statement>)
    requires Prints(moves, patches, cs)
    ensures ApplyAll(EMPTY, moves) == Some(cs.(deltas := map[]))
  {
    var re := cs.(deltas := map[]);
    var all := moves + patches;
    forall s
      ensures s in moves <==> Holds(re, s)
    {
      assert s in all <==> s in moves || s in patches;
      if s.Patch? {
        assert s !in moves;
      } else {
        assert s !in patches;
        assert Holds(re, s) <==> Holds(cs, s);
      }
    }
    forall i, j | 0 <= i < j < |moves|
      ensures moves[i] != moves[j]
    {
      assert all[i] == moves[i] && all[j] == moves[j];
    }
    ApplyEnumeration(re, moves);
  }

  // ---- the printer's side ----

  lemma {:induction false} TextPush(stmts: seq<Statement>, s: Statement)
    ensures Text(stmts + [s]) == Text(stmts) + (if stmts == [] then "" else "\n") + StatementText(s)
  {
    hide StatementText;
    var more := stmts + [s];
    if stmts == [] {
      assert Text([]) + "" + StatementText(s) == StatementText(s);
    } else {
      assert more[1..] == stmts[1..] + [s];
      TextPush(stmts[1..], s);
      var h, t, u := StatementText(stmts[0]), Text(stmts[1..]), StatementText(s);
      if |stmts| == 1 {
        assert more[1..] == [s];
        assert Text([s]) == u;
      } else {
        assert h + "\n" + (t + "\n" + u) == h + "\n" + t + "\n" + u;
      }
    }
  }

  /** The printer has written these statements. */
  ghost predicate Printed(printer: Printer, stmts: seq<Statement>)
    reads printer
  {
    printer.out == Text(stmts) && (printer.emptyOutput <==> stmts == [])
  }

  /** One stanza; fails on an id that is not hexadecimal. */
  method PrintStatement(printer: Printer, s: Statement, ghost stmts: seq<Statement>) returns (ok: bool)
    requires Printed(printer, stmts)
    modifies printer
    ensures ok <==> Printable(s)
    ensures ok ==> Printed(printer, stmts + [s])
  {
    hide Text, StanzaText, Escaped, AllHex;
    KeyWords(s);
    var st := new Stanza();
    ok := st.PushStrPair(Key(s), s.path);
    if s.RenameFile? || s.RenameDir? {
      ok := st.PushStrPair("to", s.to);
    } else if s.Patch? {
      ok := st.PushHexPair("from", s.src);
      if ok {
        ok := st.PushHexPair("to", s.dst);
      }
    }
    if ok {
      TextPush(stmts, s);
      assert st.entries == Entries(s) && st.indent == |Key(s)|;
      printer.PrintStanza(st);
    }
  }

  datatype Kind = FilesDeleted | DirsDeleted | FilesRenamed | DirsRenamed | FilesAdded | Patches

  function KindOf(s: Statement): Kind {
    match s
    case DeleteFile(_) => FilesDeleted
    case DeleteDir(_) => DirsDeleted
    case RenameFile(_, _) => FilesRenamed
    case RenameDir(_, _) => DirsRenamed
    case AddFile(_) => FilesAdded
    case Patch(_, _, _) => Patches
  }

  /** The set or map of one kind: its keys, and the statement for each. */
  function KeysOf(cs: ChangeSet, kind: Kind): set<Path> {
    match kind
    case FilesDeleted => cs.deletedFiles
    case DirsDeleted => cs.deletedDirs
    case FilesRenamed => cs.renamedFiles.Keys
    case DirsRenamed => cs.renamedDirs.Keys
    case FilesAdded => cs.addedFiles
    case Patches => cs.deltas.Keys
  }

  function StatementFor(cs: ChangeSet, kind: Kind, p: Path): Statement
    requires p in KeysOf(cs, kind)
  {
    match kind
    case FilesDeleted => DeleteFile(p)
    case DirsDeleted => DeleteDir(p)
    case FilesRenamed => RenameFile(p, cs.renamedFiles[p])
    case DirsRenamed => RenameDir(p, cs.renamedDirs[p])
    case FilesAdded => AddFile(p)
    case Patches => Patch(p, cs.deltas[p].0, cs.deltas[p].1)
  }

  lemma HoldsByKey(cs: ChangeSet, s: Statement)
    ensures Holds(cs, s) <==> s.path in KeysOf(cs, KindOf(s)) && StatementFor(cs, KindOf(s), s.path) == s
  {
  }

  // ---- the order of the statements ----

  /** Lexicographic order, in which the sets and maps of the source are traversed. */
  predicate Less(p: Path, q: Path) {
    q != "" && (p == "" || p[0] < q[0] || (p[0] == q[0] && Less(p[1..], q[1..])))
  }

  lemma {:induction false} LessTotal(p: Path, q: Path)
    ensures Less(p, q) || Less(q, p) || p == q
    ensures !(Less(p, q) && Less(q, p)) && !Less(p, p)
    decreases |p|
  {
    if p != "" && q != "" {
      LessTotal(p[1..], q[1..]);
      if p[1..] == q[1..] && p[0] == q[0] {
        assert p == [p[0]] + p[1..] && q == [q[0]] + q[1..];
      }
    }
    if p != "" {
      LessTotal(p[1..], p[1..]);
    }
  }

  lemma {:induction false} LessTransitive(p: Path, q: Path, r: Path)
    requires Less(p, q) && Less(q, r)
    ensures Less(p, r)
    decreases |p|
  {
    if p != "" && p[0] == q[0] == r[0] {
      LessTransitive(p[1..], q[1..], r[1..]);
    }
  }

  function Rank(kind: Kind): nat {
    match kind
    case FilesDeleted => 0
    case DirsDeleted => 1
    case FilesRenamed => 2
    case DirsRenamed => 3
    case FilesAdded => 4
    case Patches => 5
  }

  /** Kind by kind, and within a kind by path. */
  predicate Before(s: Statement, t: Statement) {
    Rank(KindOf(s)) < Rank(KindOf(t)) || (KindOf(s) == KindOf(t) && Less(s.path, t.path))
  }

  ghost predicate Ordered(list: seq<Statement>) {
    forall i, j :: 0 <= i < j < |list| ==> Before(list[i], list[j])
  }

  /** A change set has one ordered list of statements, so what is printed is determined by it. */
  lemma {:induction false} OrderedOnce(l: seq<Statement>, m: seq<Statement>)
    requires Ordered(l) && Ordered(m) && forall s :: s in l <==> s in m
    ensures l == m
    decreases |l|
  {
    if |m| > 0 {
      assert m[0] in m;
    }
    if l != [] {
      assert l[0] in m && m != [] && m[0] in l;
      HeadsAgree(l, m);
      forall s
        ensures s in l[1..] <==> s in m[1..]
      {
        InTail(l, s);
        InTail(m, s);
      }
      OrderedOnce(l[1..], m[1..]);
    }
  }

  lemma HeadsAgree(l: seq<Statement>, m: seq<Statement>)
    requires Ordered(l) && Ordered(m) && l != [] && m != [] && l[0] in m && m[0] in l
    ensures l[0] == m[0]
  {
    if l[0] != m[0] {
      var i :| 0 <= i < |m| && m[i] == l[0];
      var j :| 0 <= j < |l| && l[j] == m[0];
      assert Before(m[0], l[0]) && Before(l[0], m[0]);
      LessTotal(l[0].path, m[0].path);
    }
  }

  lemma InTail(l: seq<Statement>, s: Statement)
    requires Ordered(l) && l != []
    ensures s in l[1..] <==> s in l && s != l[0]
  {
    LessTotal(l[0].path, l[0].path);
    if s in l[1..] {
      var i :| 0 <= i < |l[1..]| && l[1..][i] == s;
      assert Before(l[0], l[i + 1]);
    }
    if s in l && s != l[0] {
      var i :| 0 <= i < |l| && l[i] == s;
      assert l[1..][i - 1] == s;
    }
  }

  /** One path takes its place among those traversed. */
  method InsertPath(p: Path, paths: seq<Path>) returns (more: seq<Path>)
    requires p !in paths && forall i, j :: 0 <= i < j < |paths| ==> Less(paths[i], paths[j])
    ensures forall i, j :: 0 <= i < j < |more| ==> Less(more[i], more[j])
    ensures forall q :: q in more <==> q in paths || q == p
  {
    var k := 0;
    while k < |paths| && Less(paths[k], p)
      invariant 0 <= k <= |paths| && forall i :: 0 <= i < k ==> Less(paths[i], p)
    {
      k := k + 1;
    }
    forall i | k <= i < |paths|
      ensures Less(p, paths[i])
    {
      LessTotal(p, paths[k]);
      if i > k {
        LessTransitive(p, paths[k], paths[i]);
      }
    }
    more := paths[..k] + [p] + paths[k..];
    assert paths == paths[..k] + paths[k..];
  }

  /** The keys in the order in which they are traversed. */
  method SortedPaths(keys: set<Path>) returns (paths: seq<Path>)
    ensures forall i, j :: 0 <= i < j < |paths| ==> Less(paths[i], paths[j])
    ensures forall p :: p in paths <==> p in keys
  {
    paths := [];
    var left := keys;
    while left != {}
      invariant left <= keys && forall i, j :: 0 <= i < j < |paths| ==> Less(paths[i], paths[j])
      invariant forall p :: p in paths <==> p in keys && p !in left
      decreases |left|
    {
      var p :| p in left;
      left := left - {p};
      paths := InsertPath(p, paths);
    }
  }

  /** The statements of some kinds, each once. */
  ghost predicate Lists(list: seq<Statement>, cs: ChangeSet, kinds: set<Kind>) {
    && (forall s :: s in list <==> Holds(cs, s) && KindOf(s) in kinds)
    && (forall i, j :: 0 <= i < j < |list| ==> list[i] != list[j])
  }

  /** The stanzas of one kind, one after the other, by path. */
  method ListStatements(cs: ChangeSet, kind: Kind) returns (list: seq<Statement>)
    ensures Lists(list, cs, {kind}) && Ordered(list)
  {
    hide Holds, StatementFor, KeysOf, Less;
    var paths := SortedPaths(KeysOf(cs, kind));
    list := [];
    var i := 0;
    while i < |paths|
      invariant 0 <= i <= |paths| && |list| == i
      invariant forall j :: 0 <= j < i ==> paths[j] in KeysOf(cs, kind) && list[j] == StatementFor(cs, kind, paths[j])
    {
      assert paths[i] in paths;
      list := list + [StatementFor(cs, kind, paths[i])];
      i := i + 1;
    }
    ListedInOrder(cs, kind, paths, list);
  }

  lemma ListedInOrder(cs: ChangeSet, kind: Kind, paths: seq<Path>, list: seq<Statement>)
    requires |list| == |paths| && (forall p :: p in paths <==> p in KeysOf(cs, kind))
    requires forall j :: 0 <= j < |paths| ==> paths[j] in KeysOf(cs, kind) && list[j] == StatementFor(cs, kind, paths[j])
    requires forall i, j :: 0 <= i < j < |paths| ==> Less(paths[i], paths[j])
    ensures Lists(list, cs, {kind}) && Ordered(list)
  {
    hide Holds, StatementFor, KeysOf, Less;
    forall j | 0 <= j < |paths|
      ensures KindOf(list[j]) == kind && list[j].path == paths[j] && Holds(cs, list[j])
    {
      StatementForFits(cs, kind, paths[j]);
    }
    forall s | Holds(cs, s) && KindOf(s) == kind
      ensures s in list
    {
      HoldsByKey(cs, s);
      var j :| 0 <= j < |paths| && paths[j] == s.path;
      assert list[j] == s;
    }
    forall i, j | 0 <= i < j < |list|
      ensures list[i] != list[j]
    {
      LessTotal(paths[i], paths[j]);
    }
  }

  lemma StatementForFits(cs: ChangeSet, kind: Kind, p: Path)
    requires p in KeysOf(cs, kind)
    ensures var s := StatementFor(cs, kind, p); KindOf(s) == kind && s.path == p && Holds(cs, s)
  {
  }

  lemma ListsJoin(l: seq<Statement>, m: seq<Statement>, cs: ChangeSet, k1: set<Kind>, k2: set<Kind>)
    requires Lists(l, cs, k1) && Lists(m, cs, k2) && k1 !! k2
    requires Ordered(l) && Ordered(m) && forall i, j :: i in k1 && j in k2 ==> Rank(i) < Rank(j)
    ensures Lists(l + m, cs, k1 + k2) && Ordered(l + m)
  {
    hide Holds, Less;
    var all := l + m;
    assert forall s :: s in all <==> s in l || s in m;
    forall i, j | 0 <= i < j < |all|
      ensures all[i] != all[j] && Before(all[i], all[j])
    {
      if i < |l| <= j {
        assert all[i] in l && all[j] in m;
      }
    }
  }

  /** The statements of the rearrangement, kind by kind. */
  method ListRearrangement(cs: ChangeSet) returns (moves: seq<Statement>)
    ensures Lists(moves, cs, {FilesDeleted, DirsDeleted, FilesRenamed, DirsRenamed, FilesAdded}) && Ordered(moves)
  {
    hide Lists, Ordered;
    moves := ListStatements(cs, FilesDeleted);
    var more := ListStatements(cs, DirsDeleted);
    ListsJoin(moves, more, cs, {FilesDeleted}, {DirsDeleted});
    moves := moves + more;
    more := ListStatements(cs, FilesRenamed);
    ListsJoin(moves, more, cs, {FilesDeleted} + {DirsDeleted}, {FilesRenamed});
    moves := moves + more;
    more := ListStatements(cs, DirsRenamed);
    ListsJoin(moves, more, cs, {FilesDeleted} + {DirsDeleted} + {FilesRenamed}, {DirsRenamed});
    moves := moves + more;
    more := ListStatements(cs, FilesAdded);
    ListsJoin(moves, more, cs, {FilesDeleted} + {DirsDeleted} + {FilesRenamed} + {DirsRenamed}, {FilesAdded});
    moves := moves + more;
    assert {FilesDeleted} + {DirsDeleted} + {FilesRenamed} + {DirsRenamed} + {FilesAdded}
        == {FilesDeleted, DirsDeleted, FilesRenamed, DirsRenamed, FilesAdded};
  }

  /** Prints the whole change set, kind by kind and by path. */
  method PrintChangeSet(printer: Printer, cs: ChangeSet) returns (ok: bool, ghost moves: seq<Statement>, ghost patches: seq<Statement>)
    requires Printed(printer, [])
    modifies printer
    ensures ok <==> HexIds(cs)
    ensures Prints(moves, patches, cs) && Ordered(moves + patches)
    ensures ok ==> Printed(printer, moves + patches)
  {
    hide Text, Lists, AllHex, Ordered;
    var m := ListRearrangement(cs);
    var p := ListStatements(cs, Patches);
    moves, patches := m, p;
    ListsPrint(m, p, cs);
    var all := m + p;
    PrintableExactly(all, cs);
    var i := 0;
    while i < |all|
      invariant 0 <= i <= |all| && Printed(printer, all[..i])
      invariant forall j :: 0 <= j < i ==> Printable(all[j])
    {
      ok := PrintStatement(printer, all[i], all[..i]);
      if !ok {
        assert all[i] in all;
        return;
      }
      assert all[..i + 1] == all[..i] + [all[i]];
      i := i + 1;
    }
    assert all[..i] == all;
    ok := true;
  }

  lemma ListsPrint(m: seq<Statement>, p: seq<Statement>, cs: ChangeSet)
    requires Lists(m, cs, {FilesDeleted, DirsDeleted, FilesRenamed, DirsRenamed, FilesAdded}) && Lists(p, cs, {Patches})
    requires Ordered(m) && Ordered(p)
    ensures Prints(m, p, cs) && Ordered(m + p)
  {
    hide Holds, Ordered;
    ListsJoin(m, p, cs, {FilesDeleted, DirsDeleted, FilesRenamed, DirsRenamed, FilesAdded}, {Patches});
    assert forall i :: 0 <= i < |m| ==> m[i] in m;
    assert forall i :: 0 <= i < |p| ==> p[i] in p;
  }

  lemma PrintableExactly(all: seq<Statement>, cs: ChangeSet)
    requires Enumerates(all, cs)
    ensures HexIds(cs) <==> forall s :: s in all ==> Printable(s)
  {
    hide AllHex;
    if forall s :: s in all ==> Printable(s) {
      forall p | p in cs.deltas
        ensures AllHex(cs.deltas[p].0) && AllHex(cs.deltas[p].1)
      {
        assert Holds(cs, Patch(p, cs.deltas[p].0, cs.deltas[p].1));
        assert Printable(Patch(p, cs.deltas[p].0, cs.deltas[p].1));
      }
    }
  }

  // ---- the parser's side ----

  class Parser {
    const tok: Tokenizer
    var token: string
    var ttype: TokenType

    ghost predicate Valid()
      reads this, tok.src
    {
      && tok.src.Valid()
      && (ttype == TokSymbol || ttype == TokNone ==> tok.src.Peeked())
      && (ttype == TokString || ttype == TokHex ==> tok.src.lookahead.Some?)
    }

    ghost function Here(): State
      requires Valid()
      reads this, tok.src
    {
      State(ttype, token, tok.src.Ahead())
    }

    /** Nothing has been read yet. */
    constructor (tok: Tokenizer)
      requires tok.src.Valid()
      ensures this.tok == tok && tok.src.Valid()
    {
      this.tok := tok;
      token, ttype := "", TokNone;
    }

    method Advance() returns (ok: bool)
      requires tok.src.Valid()
      modifies this, tok.src
      ensures match Start(old(tok.src.Ahead()))
        case None => !ok
        case Some(n) => ok && Valid() && Here() == n
    {
      hide Lex;
      var ty, val := tok.GetToken();
      ok := ty.Some?;
      if ok {
        ttype, token := ty.value, val;
      }
    }

    method Str() returns (v: Option<string>)
      requires Valid()
      modifies this, tok.src
      ensures v.Some? ==> Valid() && TakeStr(old(Here())) == Some((v.value, Here()))
      ensures v.None? ==> TakeStr(old(Here())) == None
    {
      hide Start;
      if ttype != TokString {
        return None;
      }
      var t := token;
      var ok := Advance();
      v := if ok then Some(t) else None;
    }

    method Hex() returns (v: Option<string>)
      requires Valid()
      modifies this, tok.src
      ensures v.Some? ==> Valid() && TakeHex(old(Here())) == Some((v.value, Here()))
      ensures v.None? ==> TakeHex(old(Here())) == None
    {
      hide Start;
      if ttype != TokHex {
        return None;
      }
      var t := token;
      var ok := Advance();
      v := if ok then Some(t) else None;
    }

    method ESym(key: string) returns (ok: bool)
      requires Valid()
      modifies this, tok.src
      ensures ok ==> Valid() && TakeSym(old(Here()), key) == Some(Here())
      ensures !ok ==> TakeSym(old(Here()), key) == None
    {
      hide Start;
      if !(ttype == TokSymbol && token == key) {
        return false;
      }
      ok := Advance();
    }

    method ParseTwoPaths(checks: Checks) returns (r: Option<(Path, Path)>)
      requires Valid()
      modifies this, tok.src
      ensures r.Some? ==> Valid() && ParsePaths(old(Here()), checks) == Some((r.value.0, r.value.1, Here()))
      ensures r.None? ==> ParsePaths(old(Here()), checks) == None
    {
      hide TakeStr, TakeSym;
      var t1 := Str();
      if t1.None? {
        return None;
      }
      var ok := ESym("to");
      if !ok {
        return None;
      }
      var t2 := Str();
      if t2.None? || !checks.validPath(t1.value) || !checks.validPath(t2.value) {
        return None;
      }
      r := Some((t1.value, t2.value));
    }

    method ParseMoveStatement(checks: Checks) returns (s: Option<Statement>)
      requires Valid() && AtRearrangement(Here())
      modifies this, tok.src
      ensures s.Some? ==> Valid() && ParseMove(old(Here()), checks) == Some((s.value, Here()))
      ensures s.None? ==> ParseMove(old(Here()), checks) == None
    {
      hide Start, ParsePaths, TakeStr;
      var key := token;
      var ok := Advance();
      if !ok {
        return None;
      }
      if key == "rename_file" || key == "rename_dir" {
        var t := ParseTwoPaths(checks);
        if t.None? {
          return None;
        }
        s := Some(if key == "rename_file" then RenameFile(t.value.0, t.value.1) else RenameDir(t.value.0, t.value.1));
      } else {
        var t1 := Str();
        if t1.None? || !checks.validPath(t1.value) {
          return None;
        }
        s := Some(if key == "add_file" then AddFile(t1.value)
                  else if key == "delete_file" then DeleteFile(t1.value) else DeleteDir(t1.value));
      }
    }

    method ParsePatchStatement(checks: Checks) returns (s: Option<Statement>)
      requires Valid() && AtKey(Here(), "patch")
      modifies this, tok.src
      ensures s.Some? ==> Valid() && ParsePatch(old(Here()), checks) == Some((s.value, Here()))
      ensures s.None? ==> ParsePatch(old(Here()), checks) == None
    {
      hide Start, TakeStr, TakeHex, TakeSym;
      var ok := Advance();
      if !ok {
        return None;
      }
      var path := Str();
      if path.None? {
        return None;
      }
      var src := FromTo("from");
      if src.None? {
        return None;
      }
      var dst := FromTo("to");
      if dst.None? || !checks.validPath(path.value) {
        return None;
      }
      s := Some(Patch(path.value, src.value, dst.value));
    }

    /** A symbol and the id that follows it. */
    method FromTo(key: string) returns (id: Option<string>)
      requires Valid()
      modifies this, tok.src
      ensures id.Some? ==> Valid() && TakeSym(old(Here()), key).Some?
      ensures id.Some? ==> TakeHex(TakeSym(old(Here()), key).value) == Some((id.value, Here()))
      ensures id.None? ==> TakeSym(old(Here()), key).None? || TakeHex(TakeSym(old(Here()), key).value).None?
    {
      hide TakeHex, TakeSym;
      var ok := ESym(key);
      if !ok {
        return None;
      }
      id := Hex();
    }

    method ParsePathRearrangement(cs0: ChangeSet, checks: Checks) returns (cs: Option<ChangeSet>)
      requires Valid()
      modifies this, tok.src
      ensures cs.Some? ==> Valid() && ParseRearrangement(cs0, old(Here()), checks) == Some((cs.value, Here()))
      ensures cs.None? ==> ParseRearrangement(cs0, old(Here()), checks) == None
    {
      hide ParseMove, Apply;
      var c := cs0;
      while AtKeyword()
        invariant Valid() && ParseRearrangement(c, Here(), checks) == ParseRearrangement(cs0, old(Here()), checks)
        decreases |Here().rest|
      {
        ghost var st := Here();
        var s := ParseMoveStatement(checks);
        if s.None? {
          return None;
        }
        ParseMoveShorter(st, checks);
        var more := Apply(c, s.value);
        if more.None? {
          return None;
        }
        c := more.value;
      }
      cs := Some(c);
    }

    predicate AtKeyword()
      reads this
    {
      ttype == TokSymbol &&
      (token == "add_file" || token == "delete_file" || token == "delete_dir" || token == "rename_file" || token == "rename_dir")
    }

    method ParsePatches(cs0: ChangeSet, checks: Checks) returns (cs: Option<ChangeSet>)
      requires Valid()
      modifies this, tok.src
      ensures cs.Some? ==> Valid() && ParseDeltas(cs0, old(Here()), checks) == Some((cs.value, Here()))
      ensures cs.None? ==> ParseDeltas(cs0, old(Here()), checks) == None
    {
      hide ParsePatch, Apply;
      var c := cs0;
      while ttype == TokSymbol && token == "patch"
        invariant Valid() && ParseDeltas(c, Here(), checks) == ParseDeltas(cs0, old(Here()), checks)
        decreases |Here().rest|
      {
        ghost var st := Here();
        var s := ParsePatchStatement(checks);
        if s.None? {
          return None;
        }
        ParsePatchShorter(st, checks);
        var more := Apply(c, s.value);
        if more.None? {
          return None;
        }
        c := more.value;
      }
      cs := Some(c);
    }
  }

  /** Reads a change set from a text. */
  method ReadChangeSet(text: string, checks: Checks) returns (cs: Option<ChangeSet>)
    ensures cs == Parse(text, checks)
  {
    hide Start, ParseRearrangement, ParseDeltas;
    var src := new InputSource(text);
    var tok := new Tokenizer(src);
    var parser := new Parser(tok);
    assert src.Ahead() == text;
    var ok := parser.Advance();
    if !ok {
      return None;
    }
    var re := parser.ParsePathRearrangement(EMPTY, checks);
    if re.None? || !checks.saneRearrangement(re.value) {
      return None;
    }
    var all := parser.ParsePatches(re.value, checks);
    if all.None? || !checks.saneChangeSet(all.value) {
      return None;
    }
    EndOfStream(parser);
    if src.lookahead != None {
      return None;
    }
    cs := all;
  }

  lemma EndOfStream(parser: Parser)
    requires parser.Valid()
    ensures AtEnd(parser.Here()) <==> parser.tok.src.lookahead == None
  {
  }

  /** Writing a change set with hexadecimal ids and reading the text gives the change set back. */
  method WriteAndRead(cs: ChangeSet, checks: Checks) returns (text: string, back: Option<ChangeSet>)
    requires HexIds(cs) && Accepted(cs, checks)
    ensures back == Some(cs)
    ensures exists list :: Enumerates(list, cs) && Ordered(list) && text == Text(list)
  {
    hide Text, Parse, Accepted, HexIds, Ordered;
    var printer := new Printer();
    assert Text([]) == "" by {
      TextOfNothing();
    }
    var ok, moves, patches := PrintChangeSet(printer, cs);
    text := printer.out;
    RoundTrip(cs, moves, patches, checks);
    back := ReadChangeSet(text, checks);
  }

  lemma TextOfNothing()
    ensures Text([]) == ""
  {
  }
}
