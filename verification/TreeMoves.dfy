// The first pass of apply_rearrangement_to_filesystem in change_set.cc: bottom-up, every live entry of the first
// state that is found on disk is moved to the temporary directory, under its tid.
module TreeMoves {
  import opened Wrappers
  import opened PathStates
  import opened DirectoryMaps
  import opened FileSystem

  // ---- the live entries below an entry ----

  ghost predicate IsLive(ps: State, t: Tid) {
    (t == ROOT || t in ps) && Grounded(ps, t) && Live(ps, t)
  }

  /** The live entries strictly below t. */
  ghost function Subtree(ps: State, t: Tid): set<Tid> {
    set u | u in ps && Grounded(ps, u) && Live(ps, u) && u != t && Below(ps, u, t)
  }

  ghost function Branch(ps: State, t: Tid): set<Tid> {
    Subtree(ps, t) + {t}
  }

  /** The part of the subtree that hangs off the given children of t. */
  ghost function Branches(ps: State, t: Tid, kids: set<Tid>): set<Tid> {
    set u | u in Subtree(ps, t) && exists c :: c in kids && HangsOff(ps, u, c)
  }

  ghost predicate HangsOff(ps: State, u: Tid, c: Tid) {
    Grounded(ps, u) && Below(ps, u, c)
  }

  ghost predicate LiveChild(ps: State, t: Tid, c: Tid) {
    c in ps && ps[c].parent == t && ps[c].name != NO_NAME
  }

  lemma LiveChildPath(ps: State, t: Tid, c: Tid)
    requires Tree(ps) && IsLive(ps, t) && LiveChild(ps, t, c)
    ensures IsLive(ps, c) && FullPath(ps, c) == FullPath(ps, t) + [ps[c].name] && c != t && Below(ps, c, t)
  {
    ParentLower(ps, c);
    assert Below(ps, t, t);
  }

  /** Children of one entry stand apart: nothing is below two of them, and neither is below the other. */
  lemma ChildrenApart(ps: State, t: Tid, c: Tid, d: Tid, u: Tid)
    requires Tree(ps) && Unique(ps) && IsLive(ps, t) && LiveChild(ps, t, c) && LiveChild(ps, t, d) && c != d
    requires IsLive(ps, u) && Below(ps, u, d)
    ensures !Below(ps, u, c) && Grounded(ps, c) && !Below(ps, c, u)
  {
    hide Tree, Unique;
    LiveChildPath(ps, t, c);
    LiveChildPath(ps, t, d);
    BelowPath(ps, u, d);
    if Below(ps, u, c) {
      BelowPath(ps, u, c);
      SameLengthPrefixes(FullPath(ps, u), FullPath(ps, c), FullPath(ps, d));
      PathsDiffer(ps, c, d);
    }
    if Below(ps, c, u) {
      BelowPath(ps, c, u);
    }
  }

  lemma SameLengthPrefixes(p: Path, q: Path, r: Path)
    requires q <= p && r <= p && |q| == |r|
    ensures q == r
  {
  }

  lemma {:induction false} ChildAbove(ps: State, u: Tid, t: Tid) returns (c: Tid)
    requires Tree(ps) && IsLive(ps, u) && u != t && Below(ps, u, t)
    ensures LiveChild(ps, t, c) && Below(ps, u, c)
    decreases Height(ps, u)
  {
    ParentLower(ps, u);
    if ps[u].parent == t {
      c := u;
    } else {
      c := ChildAbove(ps, ps[u].parent, t);
    }
  }

  /** One more child. */
  lemma BranchesStep(ps: State, t: Tid, kids: set<Tid>, c: Tid)
    requires Tree(ps) && IsLive(ps, t) && LiveChild(ps, t, c)
    ensures Branches(ps, t, kids + {c}) == Branches(ps, t, kids) + Branch(ps, c)
    ensures Branch(ps, c) <= Subtree(ps, t)
  {
    hide Tree, FullPath, Within;
    LiveChildPath(ps, t, c);
    forall u | u in Subtree(ps, c)
      ensures u in Subtree(ps, t)
    {
      BelowTransitive(ps, u, c, t);
      ApartLengths(ps, u, t, c);
    }
    assert Below(ps, c, c);
    assert HangsOff(ps, c, c);
    forall u | u in Branches(ps, t, kids + {c})
      ensures u in Branches(ps, t, kids) + Branch(ps, c)
    {
      var d :| d in kids + {c} && HangsOff(ps, u, d);
    }
    forall u | u in Branch(ps, c)
      ensures u in Branches(ps, t, kids + {c})
    {
      assert HangsOff(ps, u, c);
    }
  }

  lemma ApartLengths(ps: State, u: Tid, t: Tid, c: Tid)
    requires Grounded(ps, u) && u != c && Below(ps, u, c) && Grounded(ps, c) && c != t && Below(ps, c, t)
    ensures u != t
  {
    BelowPath(ps, u, c);
    BelowPath(ps, c, t);
  }

  lemma BranchesAll(ps: State, t: Tid, kids: set<Tid>)
    requires Tree(ps) && forall c :: LiveChild(ps, t, c) ==> c in kids
    ensures Branches(ps, t, kids) == Subtree(ps, t)
  {
    hide Tree;
    forall u | u in Subtree(ps, t)
      ensures u in Branches(ps, t, kids)
    {
      var c := ChildAbove(ps, u, t);
      assert HangsOff(ps, u, c);
    }
  }

  /** None of the entries in s is at, above or below t. */
  ghost predicate Apart(ps: State, s: set<Tid>, t: Tid) {
    forall u :: u in s ==> IsLive(ps, u) && Grounded(ps, t) && !Below(ps, u, t) && !Below(ps, t, u)
  }

  /** A child is apart from what its parent was apart from, and from the branches of other children. */
  lemma ApartChild(ps: State, s: set<Tid>, t: Tid, kids: set<Tid>, c: Tid)
    requires Tree(ps) && Unique(ps) && IsLive(ps, t) && LiveChild(ps, t, c) && c !in kids
    requires forall d :: d in kids ==> LiveChild(ps, t, d)
    requires Apart(ps, s, t)
    ensures Apart(ps, s + Branches(ps, t, kids), c)
  {
    hide Tree, Unique;
    LiveChildPath(ps, t, c);
    forall u | u in s + Branches(ps, t, kids)
      ensures IsLive(ps, u) && Grounded(ps, c) && !Below(ps, u, c) && !Below(ps, c, u)
    {
      if u in s {
        ApartAbove(ps, u, t, c);
      } else {
        var d :| d in kids && HangsOff(ps, u, d);
        ChildrenApart(ps, t, c, d, u);
      }
    }
  }

  lemma ApartAbove(ps: State, u: Tid, t: Tid, c: Tid)
    requires Tree(ps) && IsLive(ps, t) && LiveChild(ps, t, c) && IsLive(ps, u)
    requires !Below(ps, u, t) && !Below(ps, t, u)
    ensures Grounded(ps, c) && !Below(ps, u, c) && !Below(ps, c, u)
  {
    LiveChildPath(ps, t, c);
    if Below(ps, u, c) {
      BelowTransitive(ps, u, c, t);
    }
    ParentLower(ps, c);
  }

  /** Nothing in a set apart from c, nor below c, is at or above c. */
  ghost predicate NoneAbove(ps: State, s: set<Tid>, c: Tid)
    requires Grounded(ps, c)
  {
    forall u :: u in s ==> !Below(ps, c, u)
  }

  lemma ApartNoneAbove(ps: State, s: set<Tid>, c: Tid)
    requires Grounded(ps, c) && Apart(ps, s, c)
    ensures NoneAbove(ps, s + Subtree(ps, c), c)
  {
    forall u | u in Subtree(ps, c)
      ensures !Below(ps, c, u)
    {
      BelowPath(ps, u, c);
      if Below(ps, c, u) {
        BelowPath(ps, c, u);
      }
    }
  }

  // ---- the disk before and during the first pass ----

  /** The disk as found, where the entries of the first state are on it, and the temporary directory. */
  datatype Setup = Setup(
    before: State,
    inode: map<Tid, Tid>,
    tmpDir: Tid,
    tmp: Path,
    tempName: Tid -> Name,
    first: State,
    second: State)

  /** t is a live entry of the state, and x is what the disk has at its path, of the same kind. */
  ghost predicate Holds(before: State, ps: State, t: Tid, x: Tid) {
    t in ps && IsLive(ps, t) && x in before && before[x].ty == ps[t].ty && LiveAt(before, x, FullPath(ps, t))
  }

  /** No path of the state starts like the path of the temporary directory. */
  ghost predicate Avoids(ps: State, n: Name) {
    forall t :: t in ps && ps[t].parent == ROOT ==> ps[t].name != n
  }

  ghost predicate Located(s: Setup) {
    && (forall t :: t in s.inode ==> Holds(s.before, s.first, t, s.inode[t]))
    && (forall t, x :: Holds(s.before, s.first, t, x) ==> t in s.inode && s.inode[t] == x)
  }

  ghost predicate States(s: Setup) {
    && Tree(s.first) && Unique(s.first) && Tree(s.second) && Unique(s.second)
    && (forall t :: t in s.first && t in s.second ==> s.first[t].ty == s.second[t].ty)
    && s.tmp != [] && Avoids(s.first, s.tmp[0]) && Avoids(s.second, s.tmp[0])
  }

  /** The temporary directory exists, and is empty. */
  ghost predicate TemporaryOk(s: Setup) {
    && s.tmpDir in s.before && s.before[s.tmpDir].ty.Directory? && LiveAt(s.before, s.tmpDir, s.tmp)
    && (forall x :: x in s.before ==> s.before[x].parent != s.tmpDir)
    && (forall t, u :: s.tempName(t) == s.tempName(u) ==> t == u)
    && (forall t :: s.tempName(t) != NO_NAME)
  }

  ghost predicate Ready(s: Setup) {
    Fs(s.before) && Located(s) && States(s) && TemporaryOk(s)
  }

  /** The inode was moved away together with one of the entries in `moved`. */
  ghost predicate MovedNode(s: Setup, moved: set<Tid>, x: Tid) {
    exists t :: t in moved && t in s.inode && s.inode[t] == x
  }

  /** The disk once the entries in `moved` are in the temporary directory. */
  ghost predicate Parked(s: Setup, moved: set<Tid>, nodes: State) {
    && Fs(nodes) && nodes.Keys == s.before.Keys
    && (forall t :: t in moved && t in s.inode ==>
          s.inode[t] in nodes && nodes[s.inode[t]] == Item(s.tmpDir, s.before[s.inode[t]].ty, s.tempName(t)))
    && (forall x :: x in s.before && !MovedNode(s, moved, x) ==> nodes[x] == s.before[x])
  }

  lemma {:induction false} PathStart(ps: State, t: Tid, n: Name)
    requires Grounded(ps, t) && t != ROOT && Avoids(ps, n)
    ensures FullPath(ps, t) != [] && FullPath(ps, t)[0] != n
    decreases Height(ps, t)
  {
    ParentLower(ps, t);
    if ps[t].parent == ROOT {
      assert FullPath(ps, ROOT) == [];
    } else {
      PathStart(ps, ps[t].parent, n);
    }
  }

  /** An inode keeps its path as long as neither it nor anything above it has been moved. */
  lemma {:induction false} UnmovedPath(s: Setup, moved: set<Tid>, nodes: State, x: Tid)
    requires Parked(s, moved, nodes) && Fs(s.before) && Grounded(s.before, x)
    requires forall y :: Below(s.before, x, y) ==> !MovedNode(s, moved, y)
    ensures Grounded(nodes, x) && FullPath(nodes, x) == FullPath(s.before, x)
    decreases Height(s.before, x)
  {
    if x == ROOT {
      assert Within(nodes, x, 0);
    } else {
      ParentLower(s.before, x);
      assert Below(s.before, x, x);
      UnmovedPath(s, moved, nodes, s.before[x].parent);
      assert Within(nodes, x, Height(nodes, s.before[x].parent) + 1);
      ParentLower(nodes, x);
    }
  }

  /** An inode above something on the way to the temporary directory is no entry of the first state. */
  lemma TemporaryUnmoved(s: Setup, moved: set<Tid>, y: Tid)
    requires Ready(s) && Grounded(s.before, s.tmpDir) && Below(s.before, s.tmpDir, y)
    ensures !MovedNode(s, moved, y)
  {
    if MovedNode(s, moved, y) {
      var t :| t in moved && t in s.inode && s.inode[t] == y;
      assert Holds(s.before, s.first, t, y);
      BelowPath(s.before, s.tmpDir, y);
      FirstIsNotRoot(s, t);
      PathStart(s.first, t, s.tmp[0]);
    }
  }

  lemma FirstIsNotRoot(s: Setup, t: Tid)
    requires States(s) && (t in s.first || t in s.second)
    ensures t != ROOT
  {
  }

  lemma TemporaryStays(s: Setup, moved: set<Tid>, nodes: State)
    requires Ready(s) && Parked(s, moved, nodes)
    ensures LiveAt(nodes, s.tmpDir, s.tmp) && s.tmpDir in nodes && nodes[s.tmpDir] == s.before[s.tmpDir]
  {
    hide Located, States;
    PathIs(s.before, s.tmpDir, s.tmp);
    forall y | Below(s.before, s.tmpDir, y)
      ensures !MovedNode(s, moved, y)
    {
      TemporaryUnmoved(s, moved, y);
    }
    assert Below(s.before, s.tmpDir, s.tmpDir);
    UnmovedPath(s, moved, nodes, s.tmpDir);
    NamedLive(nodes, s.tmpDir);
  }

  lemma MovedPathStart(s: Setup, moved: set<Tid>, nodes: State, x: Tid)
    requires Ready(s) && Parked(s, moved, nodes) && MovedNode(s, moved, x)
    ensures Grounded(nodes, x) && FullPath(nodes, x) != [] && FullPath(nodes, x)[0] == s.tmp[0]
  {
    TemporaryStays(s, moved, nodes);
    ParentLower(nodes, x);
  }

  /** Outside the temporary directory, whatever is found was there before. */
  lemma {:induction false} FoundBefore(s: Setup, moved: set<Tid>, nodes: State, x: Tid, p: Path)
    requires Ready(s) && Parked(s, moved, nodes) && LiveAt(nodes, x, p)
    requires p != [] ==> p[0] != s.tmp[0]
    ensures LiveAt(s.before, x, p)
    decreases |p|
  {
    hide Located, States, Tree, Unique, Below;
    if x == ROOT {
      PathIs(nodes, x, p);
      RootLive(s.before);
    } else {
      ParentLower(nodes, x);
      var y, n := nodes[x].parent, nodes[x].name;
      var front := FullPath(nodes, y);
      assert p == front + [n];
      NamedLive(nodes, y);
      if MovedNode(s, moved, x) {
        MovedPathStart(s, moved, nodes, x);
      } else {
        assert nodes[x] == s.before[x];
        FoundBefore(s, moved, nodes, y, front);
        FsTree(s.before);
        EntryLive(s.before, y, front, x, n);
      }
    }
  }

  lemma FsTree(nodes: State)
    requires Fs(nodes)
    ensures Tree(nodes) && forall x :: x in nodes ==> nodes[x].name != NO_NAME
  {
  }

  // ---- moving one entry ----

  /** An entry is still found at its path when nothing at or above it has been moved. */
  lemma SourceThere(s: Setup, moved: set<Tid>, nodes: State, c: Tid)
    requires Ready(s) && Parked(s, moved, nodes) && c in s.inode && IsLive(s.first, c)
    requires forall u :: u in moved ==> IsLive(s.first, u)
    requires NoneAbove(s.first, moved, c)
    ensures LiveAt(nodes, s.inode[c], FullPath(s.first, c))
  {
    hide TemporaryOk, Tree, Parked;
    var x := s.inode[c];
    assert Holds(s.before, s.first, c, x);
    forall y | Below(s.before, x, y)
      ensures !MovedNode(s, moved, y)
    {
      if MovedNode(s, moved, y) {
        var u :| u in moved && u in s.inode && s.inode[u] == y;
        assert Holds(s.before, s.first, u, y);
        BelowPath(s.before, x, y);
        var p := FullPath(s.first, c);
        var a := PrefixAbove(s.first, c, |FullPath(s.first, u)|);
        PathsDiffer(s.first, a, u);
      }
    }
    UnmovedPath(s, moved, nodes, x);
    ParkedNamed(s, moved, nodes, x);
  }

  lemma ParkedNamed(s: Setup, moved: set<Tid>, nodes: State, x: Tid)
    requires Parked(s, moved, nodes) && Grounded(nodes, x)
    ensures Live(nodes, x)
  {
    NamedLive(nodes, x);
  }

  lemma ParkedType(s: Setup, moved: set<Tid>, nodes: State, x: Tid)
    requires Parked(s, moved, nodes) && x in nodes
    ensures nodes[x].ty == s.before[x].ty
  {
    if MovedNode(s, moved, x) {
      var t :| t in moved && t in s.inode && s.inode[t] == x;
    }
  }

  /** Something of the entry's kind is at its path exactly when the entry is one of those located on disk. */
  lemma StatusTells(s: Setup, moved: set<Tid>, nodes: State, c: Tid, x: Tid)
    requires Ready(s) && Parked(s, moved, nodes) && c in s.first && IsLive(s.first, c)
    requires LiveAt(nodes, x, FullPath(s.first, c)) && x in nodes && nodes[x].ty == s.first[c].ty
    ensures c in s.inode && s.inode[c] == x
  {
    hide Tree, Unique, Parked, LiveAt;
    FirstIsNotRoot(s, c);
    PathStart(s.first, c, s.tmp[0]);
    FoundBefore(s, moved, nodes, x, FullPath(s.first, c));
    ParkedType(s, moved, nodes, x);
    ParkedKeys(s, moved, nodes, x);
    assert Holds(s.before, s.first, c, x);
  }

  lemma ParkedKeys(s: Setup, moved: set<Tid>, nodes: State, x: Tid)
    requires Parked(s, moved, nodes)
    ensures x in nodes <==> x in s.before
  {
  }

  /** The entry's place in the temporary directory. */
  function TempPath(s: Setup, c: Tid): Path {
    s.tmp + [s.tempName(c)]
  }

  lemma TempPlaceFree(s: Setup, moved: set<Tid>, nodes: State, c: Tid)
    requires Ready(s) && Parked(s, moved, nodes) && c !in moved
    ensures Free(nodes, TempPath(s, c))
  {
    hide Located, States, Tree, Unique;
    TemporaryStays(s, moved, nodes);
    var n := s.tempName(c);
    forall y | y in nodes && nodes[y].parent == s.tmpDir
      ensures nodes[y].name != n
    {
      if MovedNode(s, moved, y) {
        var t :| t in moved && t in s.inode && s.inode[t] == y;
      }
    }
    assert TempPath(s, c)[..|s.tmp|] == s.tmp;
    FreeBelow(nodes, TempPath(s, c), |s.tmp|, s.tmpDir);
  }

  lemma CanPark(s: Setup, moved: set<Tid>, nodes: State, c: Tid)
    requires Ready(s) && Parked(s, moved, nodes) && c !in moved && c in s.inode && IsLive(s.first, c) && c in s.first
    requires LiveAt(nodes, s.inode[c], FullPath(s.first, c))
    ensures CanMove(nodes, s.inode[c], s.tmpDir, FullPath(s.first, c), TempPath(s, c), s.first[c].ty)
  {
    hide Tree, Unique, Parked, LiveAt, Free;
    var x := s.inode[c];
    assert Holds(s.before, s.first, c, x);
    TempPlaceFree(s, moved, nodes, c);
    TemporaryStays(s, moved, nodes);
    ParkedKeys(s, moved, nodes, x);
    ParkedType(s, moved, nodes, x);
    assert TempPath(s, c)[..|TempPath(s, c)| - 1] == s.tmp;
    PathIs(nodes, s.tmpDir, s.tmp);
    PathIs(nodes, x, FullPath(s.first, c));
    if Below(nodes, s.tmpDir, x) {
      BelowPath(nodes, s.tmpDir, x);
      FirstIsNotRoot(s, c);
      PathStart(s.first, c, s.tmp[0]);
    }
  }

  lemma ParkedStep(s: Setup, moved: set<Tid>, nodes: State, after: State, c: Tid)
    requires Ready(s) && Parked(s, moved, nodes) && c !in moved && c in s.inode && c in s.first && IsLive(s.first, c)
    requires LiveAt(nodes, s.inode[c], FullPath(s.first, c)) && Fs(after)
    requires Moved(nodes, after, FullPath(s.first, c), TempPath(s, c), s.first[c].ty)
    ensures Parked(s, moved + {c}, after)
  {
    hide Tree, Unique, LiveAt, Free, Below, TemporaryOk, States, Holds;
    var x, d :| CanMove(nodes, x, d, FullPath(s.first, c), TempPath(s, c), s.first[c].ty)
      && IsRenamed(nodes, after, x, d, TempPath(s, c)[|TempPath(s, c)| - 1]);
    OnePath(nodes, x, s.inode[c], FullPath(s.first, c));
    TemporaryStays(s, moved, nodes);
    assert TempPath(s, c)[..|TempPath(s, c)| - 1] == s.tmp;
    OnePath(nodes, d, s.tmpDir, s.tmp);
    ParkedUpdate(s, moved, nodes, after, c);
  }

  lemma ParkedUpdate(s: Setup, moved: set<Tid>, nodes: State, after: State, c: Tid)
    requires Located(s) && States(s) && Fs(s.before) && Parked(s, moved, nodes) && c in s.inode && Fs(after)
    requires s.inode[c] in nodes && after == nodes[s.inode[c] := Item(s.tmpDir, nodes[s.inode[c]].ty, s.tempName(c))]
    ensures Parked(s, moved + {c}, after)
  {
    hide Fs, States, Located, MovedNode;
    ParkedTypes(s, moved, nodes);
    forall x
      ensures MovedNode(s, moved + {c}, x) <==> MovedNode(s, moved, x) || s.inode[c] == x
    {
      MovedMore(s, moved, c, x);
    }
    forall t | t in moved && t in s.inode && s.inode[t] == s.inode[c]
      ensures t == c
    {
      InodesDiffer(s, t, c);
    }
  }

  lemma MovedMore(s: Setup, moved: set<Tid>, c: Tid, x: Tid)
    ensures MovedNode(s, moved + {c}, x) <==> MovedNode(s, moved, x) || (c in s.inode && s.inode[c] == x)
  {
    if MovedNode(s, moved, x) {
      var t :| t in moved && t in s.inode && s.inode[t] == x;
      assert t in moved + {c};
    }
    assert c in moved + {c};
  }

  lemma ParkedTypes(s: Setup, moved: set<Tid>, nodes: State)
    requires Parked(s, moved, nodes)
    ensures forall x :: x in nodes ==> x in s.before && nodes[x].ty == s.before[x].ty
  {
    forall x | x in nodes
      ensures x in s.before && nodes[x].ty == s.before[x].ty
    {
      ParkedType(s, moved, nodes, x);
    }
  }

  /** Different entries have different inodes. */
  lemma InodesDiffer(s: Setup, t: Tid, u: Tid)
    requires Located(s) && States(s) && t in s.inode && u in s.inode && s.inode[t] == s.inode[u]
    ensures t == u
  {
    hide Tree, Unique;
    assert Holds(s.before, s.first, t, s.inode[t]) && Holds(s.before, s.first, u, s.inode[u]);
    PathsDiffer(s.first, t, u);
  }

  /** Entries without an inode make no difference. */
  lemma ParkedAbsent(s: Setup, moved: set<Tid>, nodes: State, c: Tid)
    requires Parked(s, moved, nodes) && c !in s.inode
    ensures Parked(s, moved + {c}, nodes)
  {
    hide Fs, MovedNode;
    forall x
      ensures MovedNode(s, moved + {c}, x) <==> MovedNode(s, moved, x)
    {
      MovedMore(s, moved, c, x);
    }
  }

  /** Moves one entry to the temporary directory, if the disk has something of its kind at its path. */
  method ParkEntry(disk: Disk, child: Tid, state: State, tmp: Path, tempName: Tid -> Name, ghost s: Setup, ghost moved: set<Tid>)
    returns (ok: bool)
    requires disk.Valid() && Ready(s) && s.first == state && s.tmp == tmp && s.tempName == tempName
    requires Parked(s, moved, disk.nodes) && child in state && IsLive(state, child) && child !in moved
    requires (forall u :: u in moved ==> IsLive(state, u)) && NoneAbove(state, moved, child)
    modifies disk`nodes
    ensures ok && disk.Valid() && Parked(s, moved + {child}, disk.nodes)
  {
    hide Tree, Unique, LiveAt, Live, Parked, Ready, NoneAbove, OfKind, Free, CanMove, Below;
    ok := true;
    var ty := state[child].ty;
    var src := GetFullPath(state, child);
    var dst := tmp + [tempName(child)];
    assert dst == TempPath(s, child);
    EntryPathNamed(s, child);
    ParkDecision(s, moved, disk.nodes, child);
    var found := disk.Exists(src, ty);
    ghost var before := disk.nodes;
    if found {
      CanPark(s, moved, before, child);
      ok := disk.Move(src, dst, ty);
      DiskFs(disk);
      ParkedStep(s, moved, before, disk.nodes, child);
    } else {
      ParkedAbsent(s, moved, before, child);
    }
  }

  lemma DiskFs(disk: Disk)
    requires disk.Valid()
    ensures Fs(disk.nodes)
  {
  }

  lemma EntryPathNamed(s: Setup, c: Tid)
    requires Ready(s) && c in s.first && IsLive(s.first, c)
    ensures FullPath(s.first, c) != []
  {
    hide Tree, Unique;
    FirstIsNotRoot(s, c);
    PathStart(s.first, c, s.tmp[0]);
  }

  lemma ParkDecision(s: Setup, moved: set<Tid>, nodes: State, c: Tid)
    requires Ready(s) && Parked(s, moved, nodes) && c in s.first && IsLive(s.first, c)
    requires (forall u :: u in moved ==> IsLive(s.first, u)) && NoneAbove(s.first, moved, c)
    ensures OfKind(nodes, FullPath(s.first, c), s.first[c].ty) <==> c in s.inode
    ensures c in s.inode ==> LiveAt(nodes, s.inode[c], FullPath(s.first, c))
  {
    hide Tree, Unique, LiveAt, Live, Parked, NoneAbove, Below;
    if c in s.inode {
      SourceThere(s, moved, nodes, c);
      assert Holds(s.before, s.first, c, s.inode[c]);
      ParkedKeys(s, moved, nodes, s.inode[c]);
      ParkedType(s, moved, nodes, s.inode[c]);
    }
    if OfKind(nodes, FullPath(s.first, c), s.first[c].ty) {
      var x :| x in nodes && LiveAt(nodes, x, FullPath(s.first, c)) && nodes[x].ty == s.first[c].ty;
      StatusTells(s, moved, nodes, c, x);
    }
  }

  /** The index names the live children of t. */
  lemma ChildListed(state: State, dmap: DirectoryMap, t: Tid, c: Tid)
    requires Agrees(state, dmap) && LiveChild(state, t, c)
    ensures t in dmap && state[c].name in dmap[t] && dmap[t][state[c].name] == (state[c].ty, c)
  {
    assert Indexed(state, dmap, c);
  }

  lemma ListedChild(state: State, dmap: DirectoryMap, t: Tid, n: Name)
    requires Agrees(state, dmap) && t in dmap && n in dmap[t]
    ensures var c := dmap[t][n].1; c in state && state[c] == Item(t, dmap[t][n].0, n)
  {
    assert EntryAt(dmap, t, n) == Some(dmap[t][n]);
  }

  lemma NothingInFile(ps: State, t: Tid)
    requires Tree(ps) && t in ps && ps[t].ty.File?
    ensures Subtree(ps, t) == {}
  {
    forall u | u in Subtree(ps, t)
      ensures false
    {
      NothingBelowFile(ps, u, t);
    }
  }

  lemma BranchesNone(ps: State, t: Tid)
    ensures Branches(ps, t, {}) == {}
  {
  }

  /** The next name in a directory leads to a child not seen before. */
  lemma NextChild(state: State, dmap: DirectoryMap, t: Tid, kids: set<Tid>, names: seq<Name>, k: nat)
    requires Agrees(state, dmap) && t in dmap && k < |names| && names[k] in dmap[t] && names[k] !in names[..k]
    requires forall c :: c in kids ==> c in state && state[c].name in names[..k]
    ensures var c := dmap[t][names[k]].1;
      c in state && state[c].name == names[k] && c !in kids && (names[k] != NO_NAME ==> LiveChild(state, t, c))
  {
    ListedChild(state, dmap, t, names[k]);
  }

  lemma NextBranch(ps: State, s: set<Tid>, t: Tid, kids: set<Tid>, c: Tid)
    requires Tree(ps) && Unique(ps) && IsLive(ps, t) && LiveChild(ps, t, c) && c !in kids
    requires forall d :: d in kids ==> LiveChild(ps, t, d)
    ensures Apart(ps, s, t) ==> Apart(ps, s + Branches(ps, t, kids), c)
    ensures Branches(ps, t, kids + {c}) == Branches(ps, t, kids) + Branch(ps, c)
    ensures Branch(ps, c) <= Subtree(ps, t)
    ensures IsLive(ps, c)
  {
    hide Tree, Unique, IsLive, Subtree, Branch, Branches, Apart;
    if Apart(ps, s, t) {
      ApartChild(ps, s, t, kids, c);
    }
    BranchesStep(ps, t, kids, c);
    LiveChildPath(ps, t, c);
  }

  lemma AllChildren(state: State, dmap: DirectoryMap, t: Tid, kids: set<Tid>)
    requires Tree(state) && Agrees(state, dmap)
    requires t in dmap ==> forall n :: n in dmap[t] && n != NO_NAME ==> dmap[t][n].1 in kids
    ensures Branches(state, t, kids) == Subtree(state, t)
  {
    hide Tree, Agrees, Branches, Subtree;
    forall c | LiveChild(state, t, c)
      ensures c in kids
    {
      ChildListed(state, dmap, t, c);
    }
    BranchesAll(state, t, kids);
  }

  lemma ReadyTrees(s: Setup)
    requires Ready(s)
    ensures Tree(s.first) && Unique(s.first) && Tree(s.second) && Unique(s.second)
  {
    hide Tree, Unique;
  }

  ghost predicate FirstPass(s: Setup, state: State, dmap: DirectoryMap, tmp: Path, tempName: Tid -> Name) {
    Ready(s) && s.first == state && s.tmp == tmp && s.tempName == tempName && Agrees(state, dmap)
  }

  /** Bottom-up: after the call everything live below t is in the temporary directory as well. */
  method MoveFilesToTmpBottomUp(disk: Disk, t: Tid, tmp: Path, state: State, dmap: DirectoryMap, tempName: Tid -> Name,
                                ghost s: Setup, ghost moved: set<Tid>)
    returns (ok: bool)
    requires disk.Valid() && FirstPass(s, state, dmap, tmp, tempName) && IsLive(state, t)
    requires Parked(s, moved, disk.nodes) && Apart(state, moved, t)
    modifies disk`nodes
    ensures ok && disk.Valid() && Parked(s, moved + Subtree(state, t), disk.nodes)
    decreases Subtree(state, t), 1
  {
    hide Ready, Agrees, IsLive, Parked, Apart, Subtree, Branches, Branch, Fs, LiveChild, Tree, Unique;
    ReadyTrees(s);
    ghost var kids: set<Tid> := {};
    BranchesNone(state, t);
    assert moved + {} == moved;
    ok := true;
    if t in dmap {
      var names := Sorted(dmap[t].Keys);
      var k := 0;
      while k < |names|
        invariant 0 <= k <= |names| && ok && disk.Valid()
        invariant Parked(s, moved + Branches(state, t, kids), disk.nodes)
        invariant forall c :: c in kids ==> LiveChild(state, t, c) && c in state && state[c].name in names[..k]
        invariant forall j :: 0 <= j < k && names[j] != NO_NAME ==> dmap[t][names[j]].1 in kids
      {
        var n := names[k];
        var child := dmap[t][n].1;
        NextChild(state, dmap, t, kids, names, k);
        if state[child].name != NO_NAME {
          NextBranch(state, moved, t, kids, child);
          ok := ParkBranch(disk, child, tmp, state, dmap, tempName, s, moved + Branches(state, t, kids));
          assert moved + Branches(state, t, kids + {child}) == moved + Branches(state, t, kids) + Branch(state, child);
          kids := kids + {child};
        }
        assert names[..k + 1] == names[..k] + [n];
        k := k + 1;
      }
      assert forall n :: n in dmap[t] ==> n in names;
    }
    AllChildren(state, dmap, t, kids);
  }

  method ParkBranch(disk: Disk, child: Tid, tmp: Path, state: State, dmap: DirectoryMap, tempName: Tid -> Name,
                    ghost s: Setup, ghost moved: set<Tid>)
    returns (ok: bool)
    requires disk.Valid() && FirstPass(s, state, dmap, tmp, tempName) && IsLive(state, child) && child in state
    requires Parked(s, moved, disk.nodes) && Apart(state, moved, child)
    modifies disk`nodes
    ensures ok && disk.Valid() && Parked(s, moved + Branch(state, child), disk.nodes)
    decreases Branch(state, child), 0
  {
    hide Ready, Agrees, Parked, Fs, Tree, Unique, Below, Live;
    ReadyTrees(s);
    ok := true;
    if state[child].ty == Directory {
      ok := MoveFilesToTmpBottomUp(disk, child, tmp, state, dmap, tempName, s, moved);
    } else {
      NothingInFile(state, child);
      assert moved + Subtree(state, child) == moved;
    }
    ApartSelf(state, moved, child);
    ApartNoneAbove(state, moved, child);
    ok := ParkEntry(disk, child, state, tmp, tempName, s, moved + Subtree(state, child));
    assert moved + Subtree(state, child) + {child} == moved + Branch(state, child);
  }

  lemma ApartSelf(ps: State, s: set<Tid>, c: Tid)
    requires Apart(ps, s, c)
    ensures c !in s
  {
  }
}
