// Renumbering and composition in change_set.cc: giving the entries of an analysis other numbers changes no path,
// so the rearrangement composed from it stays the same.
module Renumbering {
  import opened Wrappers
  import opened PathStates
  import opened DirectoryMaps

  type Numbering = map<Tid, Tid>
  type Path = seq<Name>

  datatype Analysis = Analysis(first: State, second: State)

  datatype Rearrangement = Rearrangement(
    deletedFiles: set<Path>,
    deletedDirs: set<Path>,
    renamedFiles: map<Path, Path>,
    renamedDirs: map<Path, Path>,
    addedFiles: set<Path>)

  function Number(ren: Numbering, t: Tid): Tid {
    if t in ren then ren[t] else t
  }

  function NumberItem(ren: Numbering, item: Item): Item {
    item.(parent := Number(ren, item.parent))
  }

  /** The root keeps its number, and no two entries get the same. */
  ghost predicate Faithful(ren: Numbering, ps: State) {
    && Number(ren, ROOT) == ROOT
    && (forall t :: t in ps ==> Number(ren, t) != ROOT)
    && (forall s, t :: s in ps && t in ps && Number(ren, s) == Number(ren, t) ==> s == t)
  }

  /** qs is ps under the numbering. */
  ghost predicate Renumbers(ren: Numbering, ps: State, qs: State) {
    && (forall t :: t in ps ==> Number(ren, t) in qs && qs[Number(ren, t)] == NumberItem(ren, ps[t]))
    && (forall u :: u in qs ==> exists t :: t in ps && Number(ren, t) == u)
  }

  lemma {:induction false} RenumberWithin(ren: Numbering, ps: State, qs: State, t: Tid, n: nat)
    requires Faithful(ren, ps) && Renumbers(ren, ps, qs) && Within(ps, t, n)
    ensures Within(qs, Number(ren, t), n)
    decreases n
  {
    if t != ROOT {
      RenumberWithin(ren, ps, qs, ps[t].parent, n - 1);
    }
  }

  /** Every full path survives renumbering. */
  lemma {:induction false} RenumberPath(ren: Numbering, ps: State, qs: State, t: Tid)
    requires Faithful(ren, ps) && Renumbers(ren, ps, qs) && Grounded(ps, t)
    ensures Grounded(qs, Number(ren, t)) && FullPath(qs, Number(ren, t)) == FullPath(ps, t)
    ensures Live(qs, Number(ren, t)) <==> Live(ps, t)
    decreases Height(ps, t)
  {
    RenumberWithin(ren, ps, qs, t, Height(ps, t));
    if t != ROOT {
      ParentLower(ps, t);
      ParentLower(qs, Number(ren, t));
      RenumberPath(ren, ps, qs, ps[t].parent);
    }
  }

  lemma Preimage(ren: Numbering, ps: State, qs: State, u: Tid) returns (t: Tid)
    requires Renumbers(ren, ps, qs) && u in qs
    ensures t in ps && Number(ren, t) == u && qs[u] == NumberItem(ren, ps[t])
  {
    t :| t in ps && Number(ren, t) == u;
  }

  lemma RenumberParentOk(ren: Numbering, ps: State, qs: State, t: Tid)
    requires Faithful(ren, ps) && Renumbers(ren, ps, qs) && t in ps && ParentOk(ps, ps[t])
    ensures ParentOk(qs, NumberItem(ren, ps[t]))
  {
  }

  lemma RenumberTree(ren: Numbering, ps: State, qs: State)
    requires Faithful(ren, ps) && Renumbers(ren, ps, qs) && Tree(ps)
    ensures Tree(qs)
  {
    hide FullPath, Live, Within, Faithful, Renumbers, ParentOk;
    forall u | u in qs
      ensures u != ROOT && ParentOk(qs, qs[u]) && Grounded(qs, u)
    {
      var t := Preimage(ren, ps, qs, u);
      RenumberPath(ren, ps, qs, t);
      RenumberParentOk(ren, ps, qs, t);
      NotTheRoot(ren, ps, t);
    }
  }

  lemma NotTheRoot(ren: Numbering, ps: State, t: Tid)
    requires Faithful(ren, ps) && t in ps
    ensures Number(ren, t) != ROOT
  {
  }

  lemma RenumberUnique(ren: Numbering, ps: State, qs: State)
    requires Faithful(ren, ps) && Renumbers(ren, ps, qs) && Tree(ps) && Unique(ps)
    ensures Unique(qs)
  {
    hide Grounded, Renumbers, Faithful;
    forall u | u in qs && qs[u].name == NO_NAME
      ensures qs[u].parent == ROOT
    {
      var t := Preimage(ren, ps, qs, u);
      RootNumber(ren, ps);
    }
    forall u, v | u in qs && v in qs && qs[u].name == qs[v].name != NO_NAME && qs[u].parent == qs[v].parent
      ensures u == v
    {
      var s := Preimage(ren, ps, qs, u);
      var t := Preimage(ren, ps, qs, v);
      SameNumber(ren, ps, ps[s].parent, ps[t].parent);
    }
  }

  lemma RootNumber(ren: Numbering, ps: State)
    requires Faithful(ren, ps)
    ensures Number(ren, ROOT) == ROOT
  {
  }

  lemma SameNumber(ren: Numbering, ps: State, s: Tid, t: Tid)
    requires Faithful(ren, ps) && (s == ROOT || s in ps) && (t == ROOT || t in ps) && Number(ren, s) == Number(ren, t)
    ensures s == t
  {
  }

  /** A tree with unique entries stays one. */
  lemma RenumberSane(ren: Numbering, ps: State, qs: State)
    requires Faithful(ren, ps) && Renumbers(ren, ps, qs) && Tree(ps) && Unique(ps)
    ensures Tree(qs) && Unique(qs)
  {
    RenumberTree(ren, ps, qs);
    RenumberUnique(ren, ps, qs);
  }

  /** None stands for a failed sanity check, before or after, or for two entries with one number. */
  method ApplyStateRenumbering(ren: Numbering, ps: State) returns (r: Option<State>)
    ensures r.Some? ==> Renumbers(ren, ps, r.value) && Tree(ps) && Unique(ps) && Tree(r.value) && Unique(r.value)
    ensures Faithful(ren, ps) && Tree(ps) && Unique(ps) && Shallow(ps) ==> r.Some?
  {
    hide Within, Tree, Unique, Faithful;
    var ok := SanityCheck(ps);
    if !ok {
      return None;
    }
    r := RenumberAll(ren, ps);
    if r.Some? {
      ghost var qs := r.value;
      if Faithful(ren, ps) && Tree(ps) && Unique(ps) && Shallow(ps) {
        RenumberSane(ren, ps, qs);
        RenumberDepths(ren, ps, qs, MAX_PATH_DEPTH);
      }
      ok := SanityCheck(r.value);
      if !ok {
        r := None;
      }
    } else if Faithful(ren, ps) {
      FaithfulDistinct(ren, ps);
    }
  }

  lemma FaithfulDistinct(ren: Numbering, ps: State)
    requires Faithful(ren, ps)
    ensures forall s, t :: s in ps && t in ps && Number(ren, s) == Number(ren, t) ==> s == t
  {
  }

  lemma RenumberDepths(ren: Numbering, ps: State, qs: State, n: nat)
    requires Faithful(ren, ps) && Renumbers(ren, ps, qs) && forall t :: t in ps ==> Within(ps, t, n)
    ensures forall u :: u in qs ==> Within(qs, u, n)
  {
    hide Within;
    forall u | u in qs
      ensures Within(qs, u, n)
    {
      var t :| t in ps && Number(ren, t) == u;
      RenumberWithin(ren, ps, qs, t, n);
    }
  }

  /** What has been renumbered so far, and where each new number came from. */
  ghost predicate RenumbersSome(ren: Numbering, ps: State, some: set<Tid>, qs: State, source: map<Tid, Tid>) {
    && qs.Keys == source.Keys
    && (forall u :: u in source ==> source[u] in some && Number(ren, source[u]) == u)
    && (forall t :: t in some ==> t in ps && Number(ren, t) in qs && qs[Number(ren, t)] == NumberItem(ren, ps[t]))
  }

  lemma SomeStep(ren: Numbering, ps: State, some: set<Tid>, qs: State, source: map<Tid, Tid>, t: Tid)
    requires RenumbersSome(ren, ps, some, qs, source) && t in ps && Number(ren, t) !in qs
    ensures RenumbersSome(ren, ps, some + {t}, qs[Number(ren, t) := NumberItem(ren, ps[t])], source[Number(ren, t) := t])
  {
  }

  lemma SomeNone(ren: Numbering, ps: State)
    ensures RenumbersSome(ren, ps, {}, map[], map[])
  {
  }

  lemma SomeAll(ren: Numbering, ps: State, some: set<Tid>, qs: State, source: map<Tid, Tid>)
    requires RenumbersSome(ren, ps, some, qs, source) && forall t :: t in ps ==> t in some
    ensures Renumbers(ren, ps, qs)
  {
    forall u | u in qs
      ensures exists t :: t in ps && Number(ren, t) == u
    {
      assert source[u] in some;
    }
  }

  lemma SomeClash(ren: Numbering, ps: State, some: set<Tid>, qs: State, source: map<Tid, Tid>, t: Tid)
    requires RenumbersSome(ren, ps, some, qs, source) && t in ps && t !in some && Number(ren, t) in qs
    ensures exists s, t :: s in ps && t in ps && s != t && Number(ren, s) == Number(ren, t)
  {
    assert source[Number(ren, t)] in some;
  }

  method RenumberAll(ren: Numbering, ps: State) returns (r: Option<State>)
    ensures r.Some? ==> Renumbers(ren, ps, r.value)
    ensures r.None? ==> exists s, t :: s in ps && t in ps && s != t && Number(ren, s) == Number(ren, t)
  {
    hide RenumbersSome, NumberItem, Passed;
    var tids := Sorted(ps.Keys);
    var qs: State := map[];
    ghost var source: map<Tid, Tid> := map[];
    SomeNone(ren, ps);
    NonePassed(tids);
    var k := 0;
    while k < |tids|
      invariant 0 <= k <= |tids| && RenumbersSome(ren, ps, Passed(tids, k), qs, source)
    {
      var t := tids[k];
      assert t in ps;
      PassOne(tids, k);
      var u := Number(ren, t);
      if u in qs {
        SomeClash(ren, ps, Passed(tids, k), qs, source, t);
        return None;
      }
      SomeStep(ren, ps, Passed(tids, k), qs, source, t);
      qs := qs[u := NumberItem(ren, ps[t])];
      source := source[u := t];
      k := k + 1;
    }
    PassAll(tids, ps.Keys);
    SomeAll(ren, ps, ps.Keys, qs, source);
    r := Some(qs);
  }

  // ---- analyses and their rearrangement ----

  /** Both states are trees with unique entries, over the same entries of the same types. */
  ghost predicate SaneAnalysis(pa: Analysis) {
    && Tree(pa.first) && Unique(pa.first) && Tree(pa.second) && Unique(pa.second)
    && pa.first.Keys == pa.second.Keys
    && forall t :: t in pa.first ==> pa.first[t].ty == pa.second[t].ty
  }

  datatype Change = Kept | Added(to: Path) | Deleted(ty: Ptype, from: Path) | Renamed(ty: Ptype, src: Path, dst: Path) | Broken

  /** What happened to one entry. */
  ghost function ChangeOf(pa: Analysis, t: Tid): Change
    requires Tree(pa.first) && Tree(pa.second) && t in pa.first && t in pa.second
  {
    var was, now := pa.first[t], pa.second[t];
    if (was.name != NO_NAME && !Live(pa.first, t)) || (now.name != NO_NAME && !Live(pa.second, t)) then Broken
    else
      var p := if was.name == NO_NAME then [] else FullPath(pa.first, t);
      var q := if now.name == NO_NAME then [] else FullPath(pa.second, t);
      if p == q then Kept
      else if was.name == NO_NAME then if now.ty == Directory then Broken else Added(q)
      else if now.name == NO_NAME then Deleted(now.ty, p)
      else Renamed(now.ty, p, q)
  }

  /** The change occurs among the entries in s. */
  ghost predicate Occurs(pa: Analysis, s: set<Tid>, c: Change)
    requires Tree(pa.first) && Tree(pa.second)
  {
    exists t :: t in s && t in pa.first && t in pa.second && ChangeOf(pa, t) == c
  }

  /** The rearrangement records exactly the changes that occur among the entries in s. */
  ghost predicate Records(pa: Analysis, s: set<Tid>, re: Rearrangement)
    requires Tree(pa.first) && Tree(pa.second)
  {
    && (forall p :: p in re.addedFiles <==> Occurs(pa, s, Added(p)))
    && (forall p :: p in re.deletedFiles <==> Occurs(pa, s, Deleted(File, p)))
    && (forall p :: p in re.deletedDirs <==> Occurs(pa, s, Deleted(Directory, p)))
    && (forall p, q :: p in re.renamedFiles && re.renamedFiles[p] == q <==> Occurs(pa, s, Renamed(File, p, q)))
    && (forall p, q :: p in re.renamedDirs && re.renamedDirs[p] == q <==> Occurs(pa, s, Renamed(Directory, p, q)))
  }

  ghost predicate Composes(pa: Analysis, re: Rearrangement) {
    Tree(pa.first) && Tree(pa.second) && !Occurs(pa, pa.first.Keys, Broken) && Records(pa, pa.first.Keys, re)
  }

  /** The path an entry has, none for a null one; a null component inside a path is a fault. */
  method EntryPath(ps: State, t: Tid) returns (pth: Option<Path>)
    requires Tree(ps) && t in ps
    ensures pth.None? <==> ps[t].name != NO_NAME && !Live(ps, t)
    ensures pth.Some? ==> pth.value == if ps[t].name == NO_NAME then [] else FullPath(ps, t)
  {
    if ps[t].name == NO_NAME {
      return Some([]);
    }
    var names := GetFullPath(ps, t);
    LivePathNamed(ps, t);
    pth := if NO_NAME in names then None else Some(names);
  }

  /** Entering one change; like the maps of the source, a rename does not displace an earlier one. */
  function Record(re: Rearrangement, c: Change): Rearrangement {
    match c
    case Kept => re
    case Broken => re
    case Added(q) => re.(addedFiles := re.addedFiles + {q})
    case Deleted(ty, p) =>
      if ty == Directory then re.(deletedDirs := re.deletedDirs + {p}) else re.(deletedFiles := re.deletedFiles + {p})
    case Renamed(ty, p, q) =>
      if ty == Directory then
        if p in re.renamedDirs then re else re.(renamedDirs := re.renamedDirs[p := q])
      else
        if p in re.renamedFiles then re else re.(renamedFiles := re.renamedFiles[p := q])
  }

  /** No two entries are renamed from the same path. */
  lemma RenamedOnce(pa: Analysis, s: Tid, t: Tid, ty: Ptype, uy: Ptype, p: Path, q: Path, r: Path)
    requires Tree(pa.first) && Unique(pa.first) && Tree(pa.second)
    requires s in pa.first && s in pa.second && t in pa.first && t in pa.second
    requires ChangeOf(pa, s) == Renamed(ty, p, q) && ChangeOf(pa, t) == Renamed(uy, p, r)
    ensures s == t
  {
    PathsDiffer(pa.first, s, t);
  }

  lemma OccursStep(pa: Analysis, s: set<Tid>, t: Tid)
    requires Tree(pa.first) && Tree(pa.second) && t in pa.first && t in pa.second
    ensures forall c :: Occurs(pa, s + {t}, c) <==> Occurs(pa, s, c) || c == ChangeOf(pa, t)
  {
    hide ChangeOf, Tree;
    forall c | Occurs(pa, s, c)
      ensures Occurs(pa, s + {t}, c)
    {
      var u :| u in s && u in pa.first && u in pa.second && ChangeOf(pa, u) == c;
      assert u in s + {t};
    }
  }

  lemma RecordStep(pa: Analysis, s: set<Tid>, re: Rearrangement, t: Tid)
    requires Tree(pa.first) && Unique(pa.first) && Tree(pa.second) && t in pa.first && t in pa.second && t !in s
    requires Records(pa, s, re)
    ensures Records(pa, s + {t}, Record(re, ChangeOf(pa, t)))
  {
    hide ChangeOf, Tree, Unique, Occurs;
    OccursStep(pa, s, t);
    var c := ChangeOf(pa, t);
    if c.Renamed? {
      NotRenamedYet(pa, s, re, t);
    }
  }

  lemma NotRenamedYet(pa: Analysis, s: set<Tid>, re: Rearrangement, t: Tid)
    requires Tree(pa.first) && Unique(pa.first) && Tree(pa.second) && t in pa.first && t in pa.second && t !in s
    requires Records(pa, s, re) && ChangeOf(pa, t).Renamed?
    ensures ChangeOf(pa, t).src !in re.renamedFiles && ChangeOf(pa, t).src !in re.renamedDirs
  {
    hide ChangeOf, Tree, Unique;
    var p := ChangeOf(pa, t).src;
    if p in re.renamedFiles {
      var q := re.renamedFiles[p];
      assert Occurs(pa, s, Renamed(File, p, q));
      var u :| u in s && u in pa.first && u in pa.second && ChangeOf(pa, u) == Renamed(File, p, q);
      RenamedOnce(pa, u, t, File, ChangeOf(pa, t).ty, p, q, ChangeOf(pa, t).dst);
    }
    if p in re.renamedDirs {
      var q := re.renamedDirs[p];
      assert Occurs(pa, s, Renamed(Directory, p, q));
      var u :| u in s && u in pa.first && u in pa.second && ChangeOf(pa, u) == Renamed(Directory, p, q);
      RenamedOnce(pa, u, t, Directory, ChangeOf(pa, t).ty, p, q, ChangeOf(pa, t).dst);
    }
  }

  method FindChange(pa: Analysis, t: Tid) returns (c: Change)
    requires Tree(pa.first) && Tree(pa.second) && t in pa.first && t in pa.second
    ensures c == ChangeOf(pa, t)
  {
    hide Tree, Grounded;
    var oldPath := EntryPath(pa.first, t);
    var newPath := EntryPath(pa.second, t);
    if oldPath.None? || newPath.None? {
      return Broken;
    }
    if oldPath == newPath {
      c := Kept;
    } else if pa.first[t].name == NO_NAME {
      c := if pa.second[t].ty == Directory then Broken else Added(newPath.value);
    } else if pa.second[t].name == NO_NAME {
      c := Deleted(pa.second[t].ty, oldPath.value);
    } else {
      c := Renamed(pa.second[t].ty, oldPath.value, newPath.value);
    }
  }

  lemma OccursAmongMore(pa: Analysis, s: set<Tid>, more: set<Tid>, c: Change)
    requires Tree(pa.first) && Tree(pa.second) && s <= more && Occurs(pa, s, c)
    ensures Occurs(pa, more, c)
  {
  }

  lemma RecordsNothing(pa: Analysis)
    requires Tree(pa.first) && Tree(pa.second)
    ensures Records(pa, {}, Rearrangement({}, {}, map[], map[], {}))
    ensures forall c :: !Occurs(pa, {}, c)
  {
    hide Tree, ChangeOf;
  }

  // ---- what a rearrangement tells, in terms of paths ----

  /** The state has a live entry of that type at the path. */
  ghost predicate EntryAt(ps: State, p: Path, ty: Ptype) {
    exists t :: t in ps && LiveAt(ps, t, p) && ps[t].ty == ty
  }

  /** Where the rearrangement takes what is at p; None is a deletion. */
  function TakesTo(re: Rearrangement, p: Path, ty: Ptype): Option<Path> {
    match ty
    case File => if p in re.deletedFiles then None else if p in re.renamedFiles then Some(re.renamedFiles[p]) else Some(p)
    case Directory => if p in re.deletedDirs then None else if p in re.renamedDirs then Some(re.renamedDirs[p]) else Some(p)
  }

  /** Replayed on the live paths of the first state it gives those of the second. */
  ghost predicate LeadsOver(pa: Analysis, re: Rearrangement) {
    forall q, ty :: EntryAt(pa.second, q, ty) <==>
      (ty.File? && q in re.addedFiles) || exists p :: EntryAt(pa.first, p, ty) && TakesTo(re, p, ty) == Some(q)
  }

  /** Nothing is said of the path. */
  predicate Untouched(re: Rearrangement, p: Path) {
    && p !in re.deletedFiles && p !in re.deletedDirs && p !in re.renamedFiles && p !in re.renamedDirs && p !in re.addedFiles
  }

  /** What is said of one entry: its rename, its deletion, its addition, or nothing if it has stayed at its path. */
  ghost predicate Tells(pa: Analysis, re: Rearrangement, t: Tid)
    requires Tree(pa.first) && Tree(pa.second) && t in pa.first && t in pa.second
  {
    var p, q := FullPath(pa.first, t), FullPath(pa.second, t);
    if Live(pa.first, t) && Live(pa.second, t) then
      if p == q then Untouched(re, p)
      else
        && q !in re.addedFiles
        && match pa.first[t].ty
           case File => p in re.renamedFiles && re.renamedFiles[p] == q && p !in re.deletedFiles
           case Directory => p in re.renamedDirs && re.renamedDirs[p] == q && p !in re.deletedDirs
    else if Live(pa.first, t) then
      match pa.first[t].ty
      case File => p in re.deletedFiles && p !in re.renamedFiles
      case Directory => p in re.deletedDirs && p !in re.renamedDirs
    else if Live(pa.second, t) then pa.first[t].ty.File? && q in re.addedFiles
    else true
  }

  /** It speaks of entries only, and of each in the set or map of its type. */
  ghost predicate TellsOfEntries(pa: Analysis, re: Rearrangement) {
    && (forall p :: p in re.deletedFiles || p in re.renamedFiles ==> EntryAt(pa.first, p, File))
    && (forall p :: p in re.deletedDirs || p in re.renamedDirs ==> EntryAt(pa.first, p, Directory))
    && (forall q :: q in re.addedFiles ==> EntryAt(pa.second, q, File))
  }

  /** An entry that cannot be told of: named below a null one in one of the states, or a directory that is new. */
  ghost predicate Untellable(pa: Analysis, t: Tid)
    requires Tree(pa.first) && Tree(pa.second) && t in pa.first && t in pa.second
  {
    || (pa.first[t].name != NO_NAME && !Live(pa.first, t)) || (pa.second[t].name != NO_NAME && !Live(pa.second, t))
    || (pa.first[t].name == NO_NAME && Live(pa.second, t) && pa.second[t].ty.Directory?)
  }

  /** What all of it comes to. */
  ghost predicate Describes(pa: Analysis, re: Rearrangement) {
    && Tree(pa.first) && Tree(pa.second) && LeadsOver(pa, re) && TellsOfEntries(pa, re)
    && forall t :: t in pa.first && t in pa.second ==> Tells(pa, re, t)
  }

  lemma BrokenIs(pa: Analysis, t: Tid)
    requires Tree(pa.first) && Tree(pa.second) && t in pa.first && t in pa.second
    ensures ChangeOf(pa, t).Broken? <==> Untellable(pa, t)
    ensures !Untellable(pa, t) ==> (Live(pa.first, t) <==> pa.first[t].name != NO_NAME)
    ensures !Untellable(pa, t) ==> (Live(pa.second, t) <==> pa.second[t].name != NO_NAME)
  {
    if Live(pa.first, t) {
      LiveNamed(pa.first, t);
    }
    if Live(pa.second, t) {
      LiveNamed(pa.second, t);
    }
  }

  lemma LiveNamed(ps: State, t: Tid)
    requires Tree(ps) && t in ps && t != ROOT && Live(ps, t)
    ensures ps[t].name != NO_NAME && FullPath(ps, t) != []
  {
  }

  /** The change of an entry that can be told of. */
  lemma ChangeIs(pa: Analysis, t: Tid)
    requires SaneAnalysis(pa) && t in pa.first && !ChangeOf(pa, t).Broken?
    ensures t in pa.second && var p, q, ty := FullPath(pa.first, t), FullPath(pa.second, t), pa.first[t].ty;
      ChangeOf(pa, t) ==
        if Live(pa.first, t) && Live(pa.second, t) then if p == q then Kept else Renamed(ty, p, q)
        else if Live(pa.first, t) then Deleted(ty, p)
        else if Live(pa.second, t) then Added(q)
        else Kept
    ensures ChangeOf(pa, t).Added? ==> pa.first[t].ty.File?
  {
    BrokenIs(pa, t);
    if Live(pa.first, t) {
      LiveNamed(pa.first, t);
    }
    if Live(pa.second, t) {
      LiveNamed(pa.second, t);
    }
  }

  /** What is recorded of the path of an entry is the change of that entry. */
  lemma RecordedFrom(pa: Analysis, re: Rearrangement, t: Tid)
    requires SaneAnalysis(pa) && Composes(pa, re) && t in pa.first && Live(pa.first, t)
    ensures var p, c := FullPath(pa.first, t), ChangeOf(pa, t);
      && (p in re.deletedFiles ==> c == Deleted(File, p)) && (p in re.deletedDirs ==> c == Deleted(Directory, p))
      && (p in re.renamedFiles ==> c == Renamed(File, p, re.renamedFiles[p]))
      && (p in re.renamedDirs ==> c == Renamed(Directory, p, re.renamedDirs[p]))
  {
    hide Tree, Unique, ChangeOf, Occurs, Live, FullPath;
    TreeGrounds(pa.first, t);
    var p := FullPath(pa.first, t);
    forall c: Change | Occurs(pa, pa.first.Keys, c) && ((c.Deleted? && c.from == p) || (c.Renamed? && c.src == p))
      ensures c == ChangeOf(pa, t)
    {
      OccursFrom(pa, t, c);
    }
    assert p in re.deletedFiles ==> Occurs(pa, pa.first.Keys, Deleted(File, p));
    assert p in re.deletedDirs ==> Occurs(pa, pa.first.Keys, Deleted(Directory, p));
    assert p in re.renamedFiles ==> Occurs(pa, pa.first.Keys, Renamed(File, p, re.renamedFiles[p]));
    assert p in re.renamedDirs ==> Occurs(pa, pa.first.Keys, Renamed(Directory, p, re.renamedDirs[p]));
  }

  lemma OccursFrom(pa: Analysis, t: Tid, c: Change)
    requires SaneAnalysis(pa) && Occurs(pa, pa.first.Keys, c) && t in pa.first && Live(pa.first, t)
    requires (c.Deleted? && c.from == FullPath(pa.first, t)) || (c.Renamed? && c.src == FullPath(pa.first, t))
    ensures c == ChangeOf(pa, t)
  {
    hide Tree, Unique, ChangeOf, Live, FullPath;
    var u :| u in pa.first && ChangeOf(pa, u) == c;
    ChangeIs(pa, u);
    TreeGrounds(pa.first, t);
    TreeGrounds(pa.first, u);
    PathsDiffer(pa.first, t, u);
  }

  lemma OccursTo(pa: Analysis, t: Tid, q: Path)
    requires SaneAnalysis(pa) && Occurs(pa, pa.first.Keys, Added(q)) && t in pa.first && Live(pa.second, t) && q == FullPath(pa.second, t)
    ensures ChangeOf(pa, t) == Added(q)
  {
    hide Tree, Unique, ChangeOf, Live, FullPath;
    var u :| u in pa.first && ChangeOf(pa, u) == Added(q);
    ChangeIs(pa, u);
    TreeGrounds(pa.second, t);
    TreeGrounds(pa.second, u);
    PathsDiffer(pa.second, t, u);
  }

  /** The composed rearrangement tells what happened to each entry. */
  lemma ComposedTells(pa: Analysis, re: Rearrangement, t: Tid)
    requires SaneAnalysis(pa) && Composes(pa, re) && t in pa.first
    ensures t in pa.second && Tells(pa, re, t)
  {
    hide Tree, Unique, ChangeOf, Live, FullPath;
    assert Occurs(pa, pa.first.Keys, ChangeOf(pa, t));
    ChangeIs(pa, t);
    TreeGrounds(pa.first, t);
    TreeGrounds(pa.second, t);
    if Live(pa.first, t) {
      RecordedFrom(pa, re, t);
    }
    if Live(pa.second, t) && FullPath(pa.second, t) in re.addedFiles {
      OccursTo(pa, t, FullPath(pa.second, t));
    }
  }

  lemma ComposedOfEntries(pa: Analysis, re: Rearrangement)
    requires SaneAnalysis(pa) && Composes(pa, re)
    ensures TellsOfEntries(pa, re)
  {
    hide Tree, Unique, ChangeOf, Occurs, EntryAt;
    forall p, ty | Occurs(pa, pa.first.Keys, Deleted(ty, p))
      ensures EntryAt(pa.first, p, ty)
    {
      OccursAtEntry(pa, Deleted(ty, p), p, ty);
    }
    forall p, q, ty | Occurs(pa, pa.first.Keys, Renamed(ty, p, q))
      ensures EntryAt(pa.first, p, ty)
    {
      OccursAtEntry(pa, Renamed(ty, p, q), p, ty);
    }
    forall q | q in re.addedFiles
      ensures EntryAt(pa.second, q, File)
    {
      AddedIsEntry(pa, q);
    }
    forall p | p in re.renamedFiles
      ensures EntryAt(pa.first, p, File)
    {
      assert Occurs(pa, pa.first.Keys, Renamed(File, p, re.renamedFiles[p]));
    }
    forall p | p in re.renamedDirs
      ensures EntryAt(pa.first, p, Directory)
    {
      assert Occurs(pa, pa.first.Keys, Renamed(Directory, p, re.renamedDirs[p]));
    }
  }

  lemma OccursAtEntry(pa: Analysis, c: Change, p: Path, ty: Ptype)
    requires SaneAnalysis(pa) && Occurs(pa, pa.first.Keys, c) && (c == Deleted(ty, p) || (c.Renamed? && c.ty == ty && c.src == p))
    ensures EntryAt(pa.first, p, ty)
  {
    hide Tree, Unique, ChangeOf, Live, FullPath;
    var u :| u in pa.first && ChangeOf(pa, u) == c;
    ChangeIs(pa, u);
    TreeGrounds(pa.first, u);
    assert LiveAt(pa.first, u, p);
  }

  lemma AddedIsEntry(pa: Analysis, q: Path)
    requires SaneAnalysis(pa) && Occurs(pa, pa.first.Keys, Added(q))
    ensures EntryAt(pa.second, q, File)
  {
    hide Tree, Unique, ChangeOf, Live, FullPath;
    var u :| u in pa.first && ChangeOf(pa, u) == Added(q);
    ChangeIs(pa, u);
    TreeGrounds(pa.second, u);
    assert LiveAt(pa.second, u, q);
  }

  lemma TreeGrounds(ps: State, t: Tid)
    requires Tree(ps) && t in ps
    ensures Grounded(ps, t)
  {
  }

  /** Telling of each entry, and of nothing else, leads over from the first state to the second. */
  lemma TellingLeadsOver(pa: Analysis, re: Rearrangement)
    requires SaneAnalysis(pa) && TellsOfEntries(pa, re) && forall t :: t in pa.first ==> t in pa.second && Tells(pa, re, t)
    ensures LeadsOver(pa, re)
  {
    hide Tree, Unique, Live, FullPath, TellsOfEntries, Tells;
    forall q, ty
      ensures EntryAt(pa.second, q, ty) <==>
        (ty.File? && q in re.addedFiles) || exists p :: EntryAt(pa.first, p, ty) && TakesTo(re, p, ty) == Some(q)
    {
      if EntryAt(pa.second, q, ty) {
        var t :| t in pa.second && LiveAt(pa.second, t, q) && pa.second[t].ty == ty;
        CameFrom(pa, re, t, q);
      }
      if ty.File? && q in re.addedFiles {
        assert EntryAt(pa.second, q, ty) by { OnlyEntries(pa, re, q); }
      }
      forall p | EntryAt(pa.first, p, ty) && TakesTo(re, p, ty) == Some(q)
        ensures EntryAt(pa.second, q, ty)
      {
        var t :| t in pa.first && LiveAt(pa.first, t, p) && pa.first[t].ty == ty;
        GoesTo(pa, re, t, p, q);
      }
    }
  }

  lemma OnlyEntries(pa: Analysis, re: Rearrangement, q: Path)
    requires TellsOfEntries(pa, re) && q in re.addedFiles
    ensures EntryAt(pa.second, q, File)
  {
  }

  lemma CameFrom(pa: Analysis, re: Rearrangement, t: Tid, q: Path)
    requires SaneAnalysis(pa) && t in pa.first && t in pa.second && Tells(pa, re, t) && LiveAt(pa.second, t, q)
    ensures var ty := pa.second[t].ty;
      (ty.File? && q in re.addedFiles) || exists p :: EntryAt(pa.first, p, ty) && TakesTo(re, p, ty) == Some(q)
  {
    hide Tree, Unique, Live, FullPath;
    TreeGrounds(pa.first, t);
    if Live(pa.first, t) {
      var p := FullPath(pa.first, t);
      assert LiveAt(pa.first, t, p);
      assert EntryAt(pa.first, p, pa.first[t].ty) && TakesTo(re, p, pa.first[t].ty) == Some(q);
    }
  }

  lemma GoesTo(pa: Analysis, re: Rearrangement, t: Tid, p: Path, q: Path)
    requires SaneAnalysis(pa) && t in pa.first && t in pa.second && Tells(pa, re, t) && LiveAt(pa.first, t, p)
    requires TakesTo(re, p, pa.first[t].ty) == Some(q)
    ensures EntryAt(pa.second, q, pa.first[t].ty)
  {
    hide Tree, Unique, Live, FullPath;
    TreeGrounds(pa.second, t);
    assert Live(pa.second, t) && LiveAt(pa.second, t, q);
  }

  /** A composed rearrangement tells what has happened, entry by entry, and leads from the first state to the second. */
  lemma ComposedDescribes(pa: Analysis, re: Rearrangement)
    requires SaneAnalysis(pa) && Composes(pa, re)
    ensures Describes(pa, re)
  {
    hide Tree, Unique, Composes, LeadsOver, TellsOfEntries, Tells;
    forall t | t in pa.first
      ensures t in pa.second && Tells(pa, re, t)
    {
      ComposedTells(pa, re, t);
    }
    ComposedOfEntries(pa, re);
    TellingLeadsOver(pa, re);
  }

  /** No other rearrangement tells the same. */
  lemma DescribesOnce(pa: Analysis, re: Rearrangement, se: Rearrangement)
    requires SaneAnalysis(pa) && Describes(pa, re) && Describes(pa, se)
    ensures re == se
  {
    hide Tree, Unique, LeadsOver, Describes;
    DescribesLess(pa, re, se);
    DescribesLess(pa, se, re);
    assert re.deletedFiles == se.deletedFiles && re.deletedDirs == se.deletedDirs && re.addedFiles == se.addedFiles;
    assert re.renamedFiles == se.renamedFiles && re.renamedDirs == se.renamedDirs;
  }

  lemma DescribesLess(pa: Analysis, re: Rearrangement, se: Rearrangement)
    requires SaneAnalysis(pa) && Describes(pa, re) && Describes(pa, se)
    ensures re.deletedFiles <= se.deletedFiles && re.deletedDirs <= se.deletedDirs && re.addedFiles <= se.addedFiles
    ensures forall p :: p in re.renamedFiles ==> p in se.renamedFiles && re.renamedFiles[p] == se.renamedFiles[p]
    ensures forall p :: p in re.renamedDirs ==> p in se.renamedDirs && re.renamedDirs[p] == se.renamedDirs[p]
  {
    hide Tree, Unique, LeadsOver, Tells;
    forall p | EntryAt(pa.first, p, File)
      ensures p in re.deletedFiles ==> p in se.deletedFiles
      ensures p in re.renamedFiles ==> p in se.renamedFiles && re.renamedFiles[p] == se.renamedFiles[p]
    {
      var t :| t in pa.first && LiveAt(pa.first, t, p) && pa.first[t].ty == File;
      SameOfEntry(pa, re, se, t, p);
    }
    forall p | EntryAt(pa.first, p, Directory)
      ensures p in re.deletedDirs ==> p in se.deletedDirs
      ensures p in re.renamedDirs ==> p in se.renamedDirs && re.renamedDirs[p] == se.renamedDirs[p]
    {
      var t :| t in pa.first && LiveAt(pa.first, t, p) && pa.first[t].ty == Directory;
      SameOfEntry(pa, re, se, t, p);
    }
    forall q | q in re.addedFiles
      ensures q in se.addedFiles
    {
      assert EntryAt(pa.second, q, File);
      var t :| t in pa.second && LiveAt(pa.second, t, q) && pa.second[t].ty == File;
      SameAddition(pa, re, se, t, q);
    }
  }

  lemma SameOfEntry(pa: Analysis, re: Rearrangement, se: Rearrangement, t: Tid, p: Path)
    requires SaneAnalysis(pa) && t in pa.first && LiveAt(pa.first, t, p) && Tells(pa, re, t) && Tells(pa, se, t)
    ensures pa.first[t].ty.File? ==> (p in re.deletedFiles ==> p in se.deletedFiles)
    ensures pa.first[t].ty.Directory? ==> (p in re.deletedDirs ==> p in se.deletedDirs)
    ensures pa.first[t].ty.File? && p in re.renamedFiles ==> p in se.renamedFiles && re.renamedFiles[p] == se.renamedFiles[p]
    ensures pa.first[t].ty.Directory? && p in re.renamedDirs ==> p in se.renamedDirs && re.renamedDirs[p] == se.renamedDirs[p]
  {
    hide Tree, Unique, Live, FullPath;
  }

  lemma SameAddition(pa: Analysis, re: Rearrangement, se: Rearrangement, t: Tid, q: Path)
    requires SaneAnalysis(pa) && t in pa.second && LiveAt(pa.second, t, q) && Tells(pa, re, t) && Tells(pa, se, t)
    ensures q in re.addedFiles ==> q in se.addedFiles
  {
    hide Tree, Unique, Live, FullPath;
  }

  /** Composing finds every change and nothing else; it fails exactly on a broken entry. */
  method ComposeRearrangement(pa: Analysis) returns (re: Option<Rearrangement>)
    requires SaneAnalysis(pa)
    ensures re.None? <==> Occurs(pa, pa.first.Keys, Broken)
    ensures re.None? <==> exists t :: t in pa.first && Untellable(pa, t)
    ensures re.Some? ==> Composes(pa, re.value) && Describes(pa, re.value)
  {
    hide Tree, Unique, ChangeOf, Record, Records, Occurs, Passed, Describes, Untellable, Composes;
    BrokenOccurs(pa);
    RecordsNothing(pa);
    var tids := Sorted(pa.first.Keys);
    var r := Rearrangement({}, {}, map[], map[], {});
    NonePassed(tids);
    PassAll(tids, pa.first.Keys);
    var k := 0;
    while k < |tids|
      invariant 0 <= k <= |tids| && Records(pa, Passed(tids, k), r) && !Occurs(pa, Passed(tids, k), Broken)
    {
      var t := tids[k];
      assert t in pa.first;
      PassOne(tids, k);
      var c := FindChange(pa, t);
      OccursStep(pa, Passed(tids, k), t);
      if c.Broken? {
        PassedKnown(tids, k + 1, pa.first.Keys);
        OccursAmongMore(pa, Passed(tids, k + 1), pa.first.Keys, Broken);
        return None;
      }
      RecordStep(pa, Passed(tids, k), r, t);
      r := Record(r, c);
      k := k + 1;
    }
    Composed(pa, Passed(tids, k), r);
    ComposedDescribes(pa, r);
    re := Some(r);
  }

  lemma Composed(pa: Analysis, s: set<Tid>, re: Rearrangement)
    requires Tree(pa.first) && Tree(pa.second) && s == pa.first.Keys && Records(pa, s, re) && !Occurs(pa, s, Broken)
    ensures Composes(pa, re)
  {
    hide Tree, Records, Occurs;
  }

  lemma BrokenOccurs(pa: Analysis)
    requires SaneAnalysis(pa)
    ensures Occurs(pa, pa.first.Keys, Broken) <==> exists t :: t in pa.first && Untellable(pa, t)
  {
    hide Tree, Unique, ChangeOf, Untellable;
    forall t | t in pa.first
      ensures ChangeOf(pa, t).Broken? <==> Untellable(pa, t)
    {
      BrokenIs(pa, t);
    }
  }

  /** An analysis has at most one rearrangement. */
  lemma ComposesOnce(pa: Analysis, re: Rearrangement, se: Rearrangement)
    requires Composes(pa, re) && Composes(pa, se)
    ensures re == se
  {
    hide Tree, Occurs;
    assert re.addedFiles == se.addedFiles && re.deletedFiles == se.deletedFiles && re.deletedDirs == se.deletedDirs;
    forall p
      ensures p in re.renamedFiles <==> p in se.renamedFiles
      ensures p in re.renamedFiles ==> re.renamedFiles[p] == se.renamedFiles[p]
      ensures p in re.renamedDirs <==> p in se.renamedDirs
      ensures p in re.renamedDirs ==> re.renamedDirs[p] == se.renamedDirs[p]
    {
      SameRenames(pa, re, se, p);
      SameRenames(pa, se, re, p);
    }
    assert re.renamedFiles == se.renamedFiles && re.renamedDirs == se.renamedDirs;
  }

  lemma SameRenames(pa: Analysis, re: Rearrangement, se: Rearrangement, p: Path)
    requires Composes(pa, re) && Composes(pa, se)
    ensures p in re.renamedFiles ==> p in se.renamedFiles && re.renamedFiles[p] == se.renamedFiles[p]
    ensures p in re.renamedDirs ==> p in se.renamedDirs && re.renamedDirs[p] == se.renamedDirs[p]
  {
    hide Tree, Occurs;
    if p in re.renamedFiles {
      var q := re.renamedFiles[p];
      assert Occurs(pa, pa.first.Keys, Renamed(File, p, q));
    }
    if p in re.renamedDirs {
      var q := re.renamedDirs[p];
      assert Occurs(pa, pa.first.Keys, Renamed(Directory, p, q));
    }
  }

  lemma RenumberEntry(ren: Numbering, ps: State, qs: State, t: Tid)
    requires Tree(ps) && Tree(qs) && t in ps && Faithful(ren, ps) && Renumbers(ren, ps, qs)
    ensures var u := Number(ren, t);
      && u in qs && qs[u].name == ps[t].name && qs[u].ty == ps[t].ty
      && (Live(qs, u) <==> Live(ps, t)) && FullPath(qs, u) == FullPath(ps, t)
  {
    hide Live, FullPath, Within;
    RenumberPath(ren, ps, qs, t);
  }

  lemma RenumberChange(ren: Numbering, pa: Analysis, pb: Analysis, t: Tid)
    requires Tree(pa.first) && Tree(pa.second) && Tree(pb.first) && Tree(pb.second) && t in pa.first && t in pa.second
    requires Faithful(ren, pa.first) && Renumbers(ren, pa.first, pb.first)
    requires Faithful(ren, pa.second) && Renumbers(ren, pa.second, pb.second)
    ensures Number(ren, t) in pb.first && Number(ren, t) in pb.second
    ensures ChangeOf(pb, Number(ren, t)) == ChangeOf(pa, t)
  {
    hide Live, FullPath, Tree, Grounded, Faithful, Renumbers, Number;
    RenumberEntry(ren, pa.first, pb.first, t);
    RenumberEntry(ren, pa.second, pb.second, t);
  }

  lemma RenumberOccurs(ren: Numbering, pa: Analysis, pb: Analysis, c: Change)
    requires SaneAnalysis(pa) && Tree(pb.first) && Tree(pb.second)
    requires Faithful(ren, pa.first) && Renumbers(ren, pa.first, pb.first)
    requires Faithful(ren, pa.second) && Renumbers(ren, pa.second, pb.second)
    ensures Occurs(pb, pb.first.Keys, c) <==> Occurs(pa, pa.first.Keys, c)
  {
    hide Tree, Unique, ChangeOf, Faithful, Number, Renumbers;
    if Occurs(pa, pa.first.Keys, c) {
      var t :| t in pa.first && t in pa.second && ChangeOf(pa, t) == c;
      RenumberChange(ren, pa, pb, t);
    }
    if Occurs(pb, pb.first.Keys, c) {
      var u :| u in pb.first && u in pb.second && ChangeOf(pb, u) == c;
      var t := Preimage(ren, pa.first, pb.first, u);
      RenumberChange(ren, pa, pb, t);
    }
  }

  /** The rearrangement composed from an analysis does not depend on the numbers of its entries. */
  lemma RenumberComposes(ren: Numbering, pa: Analysis, pb: Analysis, re: Rearrangement)
    requires SaneAnalysis(pa) && Tree(pb.first) && Tree(pb.second)
    requires Faithful(ren, pa.first) && Renumbers(ren, pa.first, pb.first)
    requires Faithful(ren, pa.second) && Renumbers(ren, pa.second, pb.second)
    ensures Composes(pb, re) <==> Composes(pa, re)
  {
    hide Tree, Unique, Occurs, Faithful, Renumbers;
    forall c: Change
      ensures Occurs(pb, pb.first.Keys, c) <==> Occurs(pa, pa.first.Keys, c)
    {
      RenumberOccurs(ren, pa, pb, c);
    }
  }

  /** Fresh numbers for every entry; None when the numbers run out or a sanity check fails. */
  method RebuildAnalysis(src: Analysis, ts: TidSource) returns (dst: Option<Analysis>)
    requires SaneAnalysis(src) && ROOT < ts.ctr <= LAST_TID
    modifies ts
    ensures Shallow(src.first) && Shallow(src.second) && old(ts.ctr) + |src.first| <= LAST_TID ==> dst.Some?
    ensures dst.Some? ==> SaneAnalysis(dst.value)
    ensures dst.Some? ==> forall re :: Composes(dst.value, re) <==> Composes(src, re)
    ensures dst.Some? ==> forall u :: u in dst.value.first ==> old(ts.ctr) <= u < ts.ctr
  {
    hide Tree, Unique, Composes, Renumbers, Faithful;
    var ren := FreshNumbers(src.first, ts);
    if ren.None? {
      return None;
    }
    FreshFaithful(ren.value, src.first, old(ts.ctr), ts.ctr);
    FreshFaithful(ren.value, src.second, old(ts.ctr), ts.ctr);
    var first := ApplyStateRenumbering(ren.value, src.first);
    var second := ApplyStateRenumbering(ren.value, src.second);
    if first.None? || second.None? {
      return None;
    }
    var pb := Analysis(first.value, second.value);
    forall re
      ensures Composes(pb, re) <==> Composes(src, re)
    {
      RenumberComposes(ren.value, src, pb, re);
    }
    RenumberAgrees(ren.value, src, pb);
    FreshRange(ren.value, src.first, pb.first, old(ts.ctr), ts.ctr);
    dst := Some(pb);
  }

  lemma RenumberAgrees(ren: Numbering, pa: Analysis, pb: Analysis)
    requires SaneAnalysis(pa) && Renumbers(ren, pa.first, pb.first) && Renumbers(ren, pa.second, pb.second)
    ensures pb.first.Keys == pb.second.Keys && forall u :: u in pb.first ==> pb.first[u].ty == pb.second[u].ty
  {
    hide Tree, Unique, Number;
    forall u | u in pb.first
      ensures u in pb.second && pb.first[u].ty == pb.second[u].ty
    {
      var t := Preimage(ren, pa.first, pb.first, u);
    }
    forall u | u in pb.second
      ensures u in pb.first
    {
      var t := Preimage(ren, pa.second, pb.second, u);
    }
  }

  /** Exactly the entries of the state are numbered, with different numbers from a range. */
  ghost predicate Fresh(ren: Numbering, ps: State, lo: Tid, hi: Tid) {
    && ren.Keys == ps.Keys
    && (forall t :: t in ren ==> lo <= ren[t] < hi)
    && (forall s, t :: s in ren && t in ren && ren[s] == ren[t] ==> s == t)
  }

  lemma FreshFaithful(ren: Numbering, ps: State, lo: Tid, hi: Tid)
    requires Fresh(ren, ps, lo, hi) && lo > ROOT && Tree(ps)
    ensures Faithful(ren, ps)
  {
  }

  lemma FreshRange(ren: Numbering, ps: State, qs: State, lo: Tid, hi: Tid)
    requires Fresh(ren, ps, lo, hi) && Renumbers(ren, ps, qs)
    ensures forall u :: u in qs ==> lo <= u < hi
  {
  }

  /** As many numbers as there are entries; it fails exactly when they run out. */
  method FreshNumbers(ps: State, ts: TidSource) returns (ren: Option<Numbering>)
    requires ts.ctr <= LAST_TID
    modifies ts
    ensures ren.Some? <==> old(ts.ctr) + |ps| <= LAST_TID
    ensures ren.Some? ==> Fresh(ren.value, ps, old(ts.ctr), ts.ctr) && ts.ctr == old(ts.ctr) + |ps|
  {
    hide Passed;
    var tids := Sorted(ps.Keys);
    var m: Numbering := map[];
    NonePassed(tids);
    PassAll(tids, ps.Keys);
    var k := 0;
    while k < |tids|
      invariant 0 <= k <= |tids| && ts.ctr == old(ts.ctr) + k <= LAST_TID && m.Keys == Passed(tids, k)
      invariant forall t :: t in m ==> old(ts.ctr) <= m[t] < ts.ctr
      invariant forall s, t :: s in m && t in m && m[s] == m[t] ==> s == t
    {
      PassOne(tids, k);
      var n := ts.Next();
      if n.None? {
        return None;
      }
      m := m[tids[k] := n.value];
      k := k + 1;
    }
    ren := Some(m);
  }
}
