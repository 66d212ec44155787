// The second pass of apply_rearrangement_to_filesystem in change_set.cc: top-down, every live entry of the second
// state that waits in the temporary directory is moved to its path there; and what both passes achieve together.
module TreeMovesBack {
  import opened Wrappers
  import opened PathStates
  import opened DirectoryMaps
  import opened FileSystem
  import opened TreeMoves

  /** The inode belongs to some entry. */
  ghost predicate Mentioned(s: Setup, x: Tid) {
    exists t :: t in s.inode && s.inode[t] == x
  }

  ghost predicate TemporaryAt(s: Setup, nodes: State) {
    s.tmpDir in nodes && nodes[s.tmpDir].ty.Directory? && LiveAt(nodes, s.tmpDir, s.tmp)
  }

  /** A placed entry is at its new path; one that still waits is in the temporary directory under its tid. */
  ghost predicate EntryOk(s: Setup, placed: set<Tid>, nodes: State, t: Tid)
    requires t in s.inode && s.inode[t] in s.before
  {
    var x := s.inode[t];
    && x in nodes && nodes[x].ty == s.before[x].ty
    && (if t in placed then t in s.second && IsLive(s.second, t) && LiveAt(nodes, x, FullPath(s.second, t))
        else nodes[x].parent == s.tmpDir && nodes[x].name == s.tempName(t))
  }

  /** Only waiting entries are in the temporary directory. */
  ghost predicate OnlyWaiting(s: Setup, placed: set<Tid>, nodes: State) {
    forall y :: y in nodes && nodes[y].parent == s.tmpDir ==> exists t :: t in s.inode && t !in placed && s.inode[t] == y
  }

  /** Whatever belongs to no entry is as it was: in the directory it was in, under its name. */
  ghost predicate OthersKept(s: Setup, nodes: State) {
    forall x :: x in s.before && !Mentioned(s, x) ==> x in nodes && nodes[x] == s.before[x]
  }

  ghost predicate InodesKnown(s: Setup) {
    forall t :: t in s.inode ==> s.inode[t] in s.before
  }

  /** A directory that had to be made is at the path of a directory of the second state that the disk did not have. */
  ghost predicate MadeOnly(s: Setup, nodes: State) {
    forall y :: y in nodes && y !in s.before ==> nodes[y].ty.Directory? && StandsIn(s, nodes, y)
  }

  ghost predicate StandsIn(s: Setup, nodes: State, y: Tid) {
    exists t :: t in s.second && IsLive(s.second, t) && t !in s.inode && LiveAt(nodes, y, FullPath(s.second, t))
  }

  /** The disk once the entries in `placed` are at their new paths. */
  ghost predicate Placed(s: Setup, placed: set<Tid>, nodes: State) {
    && Fs(nodes) && TemporaryAt(s, nodes) && InodesKnown(s)
    && (forall t :: t in s.inode ==> EntryOk(s, placed, nodes, t))
    && OthersKept(s, nodes) && OnlyWaiting(s, placed, nodes) && MadeOnly(s, nodes)
  }

  // ---- what can be in the way ----

  /** The entry t takes the node d along to the path f. */
  ghost predicate Takes(s: Setup, t: Tid, d: Tid, f: Path) {
    t in s.inode && s.inode[t] == d && t in s.second && IsLive(s.second, t) && FullPath(s.second, t) == f
  }

  /** A node that belongs to no entry ends up at q: its directory stays, or goes where an entry goes. */
  ghost predicate EndsAt(s: Setup, x: Tid, q: Path)
    decreases |q|
  {
    && x in s.before && !Mentioned(s, x) && q != [] && s.before[x].name == q[|q| - 1]
    && var d, f := s.before[x].parent, q[..|q| - 1];
       if d == ROOT then f == []
       else if Mentioned(s, d) then exists t :: Takes(s, t, d, f)
       else EndsAt(s, d, f)
  }

  /** A file that ends up where a directory above the path is to be. */
  ghost predicate FileAbove(s: Setup, x: Tid, p: Path, k: int) {
    0 < k < |p| && x in s.before && s.before[x].ty.File? && EndsAt(s, x, p[..k])
  }

  ghost predicate Walled(s: Setup, p: Path) {
    exists x, k :: FileAbove(s, x, p, k)
  }

  ghost predicate Occupied(s: Setup, p: Path) {
    exists x :: EndsAt(s, x, p)
  }

  /** Something that belongs to no entry ends up where the entry is to go, or as a file where a directory above it is to be. */
  ghost predicate Blocked(s: Setup, c: Tid) {
    && c in s.inode && c in s.second && IsLive(s.second, c)
    && (Occupied(s, FullPath(s.second, c)) || Walled(s, FullPath(s.second, c)))
  }

  /** Everything below the root of the first state: nothing has been placed yet. */
  lemma ParkedPlaced(s: Setup, nodes: State)
    requires Ready(s) && Parked(s, Subtree(s.first, ROOT), nodes)
    ensures Placed(s, {}, nodes) && nodes.Keys == s.before.Keys
  {
    hide Tree, Unique, Subtree, LiveAt, States, Below, Live, Grounded;
    var all := Subtree(s.first, ROOT);
    TemporaryStays(s, all, nodes);
    forall t | t in s.inode
      ensures s.inode[t] in s.before && t in all && EntryOk(s, {}, nodes, t)
    {
      assert Holds(s.before, s.first, t, s.inode[t]);
      AllLive(s, t);
    }
    forall x | x in s.before && !Mentioned(s, x)
      ensures x in nodes && nodes[x] == s.before[x]
    {
      assert !MovedNode(s, all, x);
    }
    forall y | y in nodes && nodes[y].parent == s.tmpDir
      ensures exists t :: t in s.inode && t !in {} && s.inode[t] == y
    {
      assert MovedNode(s, all, y);
    }
  }

  lemma AllLive(s: Setup, t: Tid)
    requires States(s) && t in s.first && IsLive(s.first, t)
    ensures t in Subtree(s.first, ROOT)
  {
    FirstIsNotRoot(s, t);
    BelowRoot(s.first, t);
  }

  lemma {:induction false} BelowRoot(ps: State, t: Tid)
    requires Grounded(ps, t)
    ensures Below(ps, t, ROOT)
    decreases Height(ps, t)
  {
    if t != ROOT {
      ParentLower(ps, t);
      BelowRoot(ps, ps[t].parent);
    }
  }

  // ---- placing one entry ----

  ghost predicate Awaited(s: Setup, placed: set<Tid>, nodes: State, c: Tid) {
    Ready(s) && Placed(s, placed, nodes) && c in s.second && IsLive(s.second, c) && c !in placed && AllAbove(s, placed, c)
  }

  /** Whatever is above c in the second state has been placed. */
  ghost predicate AllAbove(s: Setup, placed: set<Tid>, c: Tid) {
    forall u :: u in s.second && u != c && HangsOff(s.second, c, u) ==> u in placed
  }

  lemma TargetStart(s: Setup, c: Tid)
    requires Ready(s) && c in s.second && IsLive(s.second, c)
    ensures s.tmp != []
    ensures var p := FullPath(s.second, c); p != [] && p[0] != s.tmp[0] && NO_NAME !in p && p[|p| - 1] == s.second[c].name
  {
    hide Tree, Unique, Located;
    FirstIsNotRoot(s, c);
    PathStart(s.second, c, s.tmp[0]);
    LivePathNamed(s.second, c);
    ParentLower(s.second, c);
  }

  /** The waiting entry is found under its tid, and nothing else is. */
  lemma WaitingThere(s: Setup, placed: set<Tid>, nodes: State, c: Tid)
    requires Awaited(s, placed, nodes, c)
    ensures OfKind(nodes, TempPath(s, c), s.second[c].ty) <==> c in s.inode
    ensures c in s.inode ==> LiveAt(nodes, s.inode[c], TempPath(s, c)) && nodes[s.inode[c]].ty == s.second[c].ty
  {
    hide Tree, Unique, LiveAt;
    assert TempPath(s, c)[..|s.tmp|] == s.tmp;
    if c in s.inode {
      var x := s.inode[c];
      assert EntryOk(s, placed, nodes, c);
      assert Holds(s.before, s.first, c, x);
      EntryLive(nodes, s.tmpDir, s.tmp, x, s.tempName(c));
      FirstIsNotRoot(s, c);
    }
    if OfKind(nodes, TempPath(s, c), s.second[c].ty) {
      var x :| x in nodes && LiveAt(nodes, x, TempPath(s, c)) && nodes[x].ty == s.second[c].ty;
      InTemporary(s, nodes, x, c);
      var t :| t in s.inode && t !in placed && s.inode[t] == x;
      assert EntryOk(s, placed, nodes, t);
    }
  }

  lemma InTemporary(s: Setup, nodes: State, x: Tid, c: Tid)
    requires Fs(nodes) && TemporaryAt(s, nodes) && x in nodes && LiveAt(nodes, x, TempPath(s, c))
    ensures nodes[x].parent == s.tmpDir && nodes[x].name == s.tempName(c)
  {
    ParentLower(nodes, x);
    assert FullPath(nodes, nodes[x].parent) == TempPath(s, c)[..|s.tmp|] == s.tmp;
    PathsDiffer(nodes, nodes[x].parent, s.tmpDir);
  }

  /** Directories made for a target disturb nothing. */
  lemma MadeKeepsPlaced(s: Setup, placed: set<Tid>, nodes: State, after: State, c: Tid)
    requires Awaited(s, placed, nodes, c) && Fs(after) && Extends(nodes, after)
    requires forall y :: y in after && y !in nodes ==> MadeFor(after, FullPath(s.second, c), y) && after[y].ty == Directory
    ensures Placed(s, placed, after)
  {
    hide Tree, Unique, LiveAt, Ready, Mentioned;
    var dst := FullPath(s.second, c);
    TargetStart(s, c);
    ExtendsLive(nodes, after, s.tmpDir, s.tmp);
    forall t | t in s.inode
      ensures EntryOk(s, placed, after, t)
    {
      assert EntryOk(s, placed, nodes, t);
      if t in placed {
        ExtendsLive(nodes, after, s.inode[t], FullPath(s.second, t));
      }
    }
    forall y | y in after && y !in s.before
      ensures after[y].ty.Directory? && StandsIn(s, after, y)
    {
      MadeStands(s, placed, nodes, after, c, y);
    }
    forall y | y in after && after[y].parent == s.tmpDir
      ensures y in nodes && nodes[y].parent == s.tmpDir
    {
      if y !in nodes {
        var k :| 0 < k < |dst| && LiveAt(after, y, dst[..k]);
        StartsInTemporary(s, after, y, dst[..k]);
      }
    }
  }

  /** What is made for a target stands in for a directory that the disk did not have. */
  lemma MadeStands(s: Setup, placed: set<Tid>, nodes: State, after: State, c: Tid, y: Tid)
    requires Awaited(s, placed, nodes, c) && Fs(after) && Extends(nodes, after) && y in after && y !in s.before
    requires y !in nodes ==> MadeFor(after, FullPath(s.second, c), y) && after[y].ty == Directory
    ensures after[y].ty.Directory? && StandsIn(s, after, y)
  {
    hide Tree, Unique, LiveAt, Ready, Mentioned, AllAbove;
    if y in nodes {
      var t :| t in s.second && IsLive(s.second, t) && t !in s.inode && LiveAt(nodes, y, FullPath(s.second, t));
      ExtendsLive(nodes, after, y, FullPath(s.second, t));
    } else {
      var p := FullPath(s.second, c);
      var k :| 0 < k < |p| && LiveAt(after, y, p[..k]);
      var t := PrefixAbove(s.second, c, k);
      PrefixKnown(s, c, t, k);
      ReadyStates(s);
      AboveAt(s, placed, c, t, k);
      if t in s.inode {
        assert EntryOk(s, placed, nodes, t);
        ExtendsLive(nodes, after, s.inode[t], p[..k]);
        OnePath(after, s.inode[t], y, p[..k]);
      }
    }
  }

  lemma PrefixKnown(s: Setup, c: Tid, t: Tid, k: nat)
    requires IsLive(s.second, c) && Grounded(s.second, t) && Live(s.second, t) && 0 < k <= |FullPath(s.second, c)|
    requires FullPath(s.second, t) == FullPath(s.second, c)[..k]
    ensures t in s.second && IsLive(s.second, t)
  {
    if t != ROOT {
      ParentLower(s.second, t);
    }
  }

  lemma StartsInTemporary(s: Setup, nodes: State, y: Tid, p: Path)
    requires Fs(nodes) && LiveAt(nodes, s.tmpDir, s.tmp) && s.tmp != []
    requires y in nodes && nodes[y].parent == s.tmpDir && LiveAt(nodes, y, p)
    ensures p != [] && p[0] == s.tmp[0]
  {
    ParentLower(nodes, y);
  }

  /** Moving a waiting entry to its target places it and leaves everything else where it is. */
  lemma MoveKeepsPlaced(s: Setup, placed: set<Tid>, nodes: State, after: State, c: Tid)
    requires Awaited(s, placed, nodes, c) && c in s.inode && Fs(after)
    requires Moved(nodes, after, TempPath(s, c), FullPath(s.second, c), s.second[c].ty)
    ensures Placed(s, placed + {c}, after) && after.Keys == nodes.Keys
  {
    hide Tree, Unique, LiveAt, Ready, Placed, Free, Below, Live, Grounded;
    var src, dst := TempPath(s, c), FullPath(s.second, c);
    var x, d :| CanMove(nodes, x, d, src, dst, s.second[c].ty) && IsRenamed(nodes, after, x, d, dst[|dst| - 1]);
    WaitingThere(s, placed, nodes, c);
    PlacedFs(s, placed, nodes);
    OnePath(nodes, x, s.inode[c], src);
    LiveKnown(nodes, d, dst[..|dst| - 1]);
    EntriesAfterMove(s, placed, nodes, after, d, c);
    RestAfterMove(s, placed, nodes, after, d, c);
    MadeAfterMove(s, placed, nodes, after, d, c);
    PlacedFrom(s, placed, nodes, after, c);
  }

  lemma PlacedFs(s: Setup, placed: set<Tid>, nodes: State)
    requires Placed(s, placed, nodes)
    ensures Fs(nodes) && InodesKnown(s)
  {
    hide Fs, InodesKnown;
  }

  lemma PlacedFrom(s: Setup, placed: set<Tid>, nodes: State, after: State, c: Tid)
    requires Placed(s, placed, nodes) && Fs(after) && TemporaryAt(s, after)
    requires InodesKnown(s) && forall t :: t in s.inode ==> EntryOk(s, placed + {c}, after, t)
    requires OthersKept(s, after) && OnlyWaiting(s, placed + {c}, after) && MadeOnly(s, after)
    ensures Placed(s, placed + {c}, after)
  {
    hide Fs, TemporaryAt, EntryOk, OthersKept, OnlyWaiting, MadeOnly;
  }

  /** Directories made earlier stay where they are. */
  lemma MadeAfterMove(s: Setup, placed: set<Tid>, nodes: State, after: State, d: Tid, c: Tid)
    requires Awaited(s, placed, nodes, c) && c in s.inode && InodesKnown(s) && Fs(nodes)
    requires Grounded(nodes, d) && GoesHome(s, nodes, after, d, c)
    ensures MadeOnly(s, after)
  {
    hide Tree, Unique, LiveAt, Ready, EntryOk, Free, Below, Live, OthersKept, OnlyWaiting, AllAbove, TemporaryAt;
    var x := s.inode[c];
    forall y | y in after && y !in s.before
      ensures after[y].ty.Directory? && StandsIn(s, after, y)
    {
      var t :| t in s.second && IsLive(s.second, t) && t !in s.inode && LiveAt(nodes, y, FullPath(s.second, t));
      TargetStart(s, t);
      TargetApart(s, nodes, x, c, y, FullPath(s.second, t));
      StaysPut(s, nodes, after, x, d, c, y, FullPath(s.second, t));
    }
  }

  /** The renaming that takes a waiting entry to its target. */
  ghost predicate GoesHome(s: Setup, nodes: State, after: State, d: Tid, c: Tid)
    requires c in s.inode && c in s.second && IsLive(s.second, c)
  {
    var dst := FullPath(s.second, c);
    && CanMove(nodes, s.inode[c], d, TempPath(s, c), dst, s.second[c].ty)
    && IsRenamed(nodes, after, s.inode[c], d, dst[|dst| - 1])
  }

  lemma EntriesAfterMove(s: Setup, placed: set<Tid>, nodes: State, after: State, d: Tid, c: Tid)
    requires Awaited(s, placed, nodes, c) && c in s.inode && InodesKnown(s) && Fs(nodes) && Fs(after)
    requires Grounded(nodes, d) && GoesHome(s, nodes, after, d, c)
    ensures forall t :: t in s.inode ==> EntryOk(s, placed + {c}, after, t)
  {
    hide Tree, Unique, LiveAt, Ready, OthersKept, OnlyWaiting, Free, Below, Live, TemporaryAt;
    var dst := FullPath(s.second, c);
    MovedTo(nodes, after, s.inode[c], d, dst);
    forall t | t in s.inode
      ensures EntryOk(s, placed + {c}, after, t)
    {
      assert EntryOk(s, placed, nodes, t);
      if t != c {
        EntryUnmoved(s, placed, nodes, after, s.inode[c], d, c, t);
      }
    }
  }

  lemma RestAfterMove(s: Setup, placed: set<Tid>, nodes: State, after: State, d: Tid, c: Tid)
    requires Awaited(s, placed, nodes, c) && c in s.inode && InodesKnown(s) && Fs(nodes)
    requires Grounded(nodes, d) && GoesHome(s, nodes, after, d, c)
    ensures TemporaryAt(s, after) && OthersKept(s, after) && OnlyWaiting(s, placed + {c}, after)
  {
    hide Tree, Unique, LiveAt, Ready, Mentioned, EntryOk, Free, Below, Live;
    var x := s.inode[c];
    TargetStart(s, c);
    StaysPut(s, nodes, after, x, d, c, s.tmpDir, s.tmp);
    PathIs(nodes, x, TempPath(s, c));
    TemporaryNotItself(s, nodes, x, c);
    IsMentioned(s, c);
    TemporaryNotTarget(s, nodes, d, c);
    forall y | y in after && after[y].parent == s.tmpDir
      ensures exists t :: t in s.inode && t !in placed + {c} && s.inode[t] == y
    {
      var t :| t in s.inode && t !in placed && s.inode[t] == y;
      assert t != c;
    }
  }

  lemma TemporaryNotItself(s: Setup, nodes: State, x: Tid, c: Tid)
    requires TemporaryAt(s, nodes) && LiveAt(nodes, x, TempPath(s, c))
    ensures x != s.tmpDir
  {
  }

  /** The other entries stay as they are, placed or waiting. */
  lemma EntryUnmoved(s: Setup, placed: set<Tid>, nodes: State, after: State, x: Tid, d: Tid, c: Tid, t: Tid)
    requires Awaited(s, placed, nodes, c) && c in s.inode && t in s.inode && t != c && s.inode[t] in s.before
    requires x == s.inode[c] && x in nodes && LiveAt(nodes, x, TempPath(s, c)) && EntryOk(s, placed, nodes, t)
    requires exists n :: IsRenamed(nodes, after, x, d, n)
    ensures EntryOk(s, placed + {c}, after, t)
  {
    hide Tree, Unique, LiveAt, Ready, Mentioned, Free, Below, OnlyWaiting, OthersKept, TemporaryAt;
    ReadyInodes(s, t, c);
    if t in placed {
      TargetStart(s, t);
      TargetApart(s, nodes, x, c, s.inode[t], FullPath(s.second, t));
      StaysPut(s, nodes, after, x, d, c, s.inode[t], FullPath(s.second, t));
    }
  }

  lemma ReadyInodes(s: Setup, t: Tid, c: Tid)
    requires Ready(s) && t in s.inode && c in s.inode && t != c
    ensures s.inode[t] != s.inode[c]
  {
    if s.inode[t] == s.inode[c] {
      InodesDiffer(s, t, c);
    }
  }

  lemma IsMentioned(s: Setup, c: Tid)
    requires c in s.inode
    ensures Mentioned(s, s.inode[c])
  {
  }

  /** What has a path that does not lead through the entry's place in the temporary directory keeps it. */
  lemma StaysPut(s: Setup, nodes: State, after: State, x: Tid, d: Tid, c: Tid, y: Tid, p: Path)
    requires Fs(nodes) && x in nodes && LiveAt(nodes, x, TempPath(s, c)) && LiveAt(nodes, y, p) && !(TempPath(s, c) <= p)
    requires exists n :: IsRenamed(nodes, after, x, d, n)
    ensures LiveAt(after, y, p)
  {
    hide Tree, Unique;
    var n :| IsRenamed(nodes, after, x, d, n);
    if Below(nodes, y, x) {
      BelowPath(nodes, y, x);
    }
    RenameElsewhere(nodes, after, x, d, n, y);
  }

  lemma TargetApart(s: Setup, nodes: State, x: Tid, c: Tid, y: Tid, p: Path)
    requires s.tmp != [] && p != [] && p[0] != s.tmp[0]
    ensures !(TempPath(s, c) <= p)
  {
    assert TempPath(s, c)[0] == s.tmp[0];
  }

  lemma MovedTo(nodes: State, after: State, x: Tid, d: Tid, dst: Path)
    requires Fs(nodes) && Fs(after) && dst != [] && IsRenamed(nodes, after, x, d, dst[|dst| - 1])
    requires LiveAt(nodes, d, dst[..|dst| - 1]) && !Below(nodes, d, x)
    ensures LiveAt(after, x, dst)
  {
    hide Unique;
    RenameElsewhere(nodes, after, x, d, dst[|dst| - 1], d);
    ParentLower(after, x);
    NamedLive(after, x);
    assert dst == dst[..|dst| - 1] + [dst[|dst| - 1]];
  }

  lemma TemporaryNotTarget(s: Setup, nodes: State, d: Tid, c: Tid)
    requires Ready(s) && c in s.second && IsLive(s.second, c) && TemporaryAt(s, nodes)
    requires var p := FullPath(s.second, c); p != [] && LiveAt(nodes, d, p[..|p| - 1])
    ensures d != s.tmpDir
  {
    TargetStart(s, c);
  }

  lemma NotLocated(s: Setup, placed: set<Tid>, nodes: State, c: Tid)
    requires Placed(s, placed, nodes) && c !in s.inode
    ensures Placed(s, placed + {c}, nodes)
  {
    hide Fs, LiveAt, IsLive;
    forall t | t in s.inode
      ensures EntryOk(s, placed + {c}, nodes, t)
    {
      assert EntryOk(s, placed, nodes, t);
    }
  }

  // ---- when placing succeeds ----

  /** The entry of the second state at a proper prefix of the entry's path. */
  lemma AboveAt(s: Setup, placed: set<Tid>, c: Tid, t: Tid, k: nat)
    requires States(s) && c in s.second && IsLive(s.second, c) && AllAbove(s, placed, c)
    requires t in s.second && IsLive(s.second, t) && k < |FullPath(s.second, c)|
    requires FullPath(s.second, t) == FullPath(s.second, c)[..k]
    ensures t in placed && s.second[t].ty.Directory?
  {
    hide Tree, Unique;
    var a := PrefixAbove(s.second, c, k);
    PathsDiffer(s.second, a, t);
    assert HangsOff(s.second, c, t);
    if s.second[t].ty.File? {
      NothingBelowFile(s.second, c, t);
    }
  }

  lemma NodeKind(s: Setup, placed: set<Tid>, nodes: State, t: Tid)
    requires Ready(s) && Placed(s, placed, nodes) && t in s.inode && t in s.second
    ensures s.inode[t] in nodes && nodes[s.inode[t]].ty == s.second[t].ty
  {
    hide Tree, Unique, LiveAt, OnlyWaiting, OthersKept, MadeOnly;
    assert EntryOk(s, placed, nodes, t);
    assert Holds(s.before, s.first, t, s.inode[t]);
  }

  /** A node of an entry that is on the way to c has been placed. */
  lemma NotWaiting(s: Setup, placed: set<Tid>, nodes: State, c: Tid, u: Tid, k: nat)
    requires Awaited(s, placed, nodes, c) && u in s.inode && k <= |FullPath(s.second, c)|
    requires LiveAt(nodes, s.inode[u], FullPath(s.second, c)[..k])
    ensures u in placed && u in s.second && IsLive(s.second, u) && FullPath(s.second, u) == FullPath(s.second, c)[..k]
  {
    hide Tree, Unique, Ready, OnlyWaiting, OthersKept, MadeOnly, Fs;
    TargetStart(s, c);
    assert EntryOk(s, placed, nodes, u);
    if u !in placed {
      PlacedFs(s, placed, nodes);
      StartsInTemporary(s, nodes, s.inode[u], FullPath(s.second, c)[..k]);
    }
  }

  /** A node of no entry that is on the way to c ends up there. */
  lemma {:induction false} OtherEnds(s: Setup, placed: set<Tid>, nodes: State, c: Tid, x: Tid, k: nat)
    requires Awaited(s, placed, nodes, c) && 0 < k <= |FullPath(s.second, c)|
    requires x in s.before && !Mentioned(s, x) && LiveAt(nodes, x, FullPath(s.second, c)[..k])
    ensures EndsAt(s, x, FullPath(s.second, c)[..k])
    decreases k
  {
    hide Tree, Unique, Ready, OnlyWaiting, EntryOk, MadeOnly, AllAbove;
    var q := FullPath(s.second, c)[..k];
    var d := s.before[x].parent;
    assert nodes[x] == s.before[x];
    StepUp(nodes, x, q);
    assert q[..k - 1] == FullPath(s.second, c)[..k - 1];
    ParentKnown(s, x);
    if d != ROOT {
      PathNotEmpty(nodes, d, q[..k - 1]);
      if Mentioned(s, d) {
        var u :| u in s.inode && s.inode[u] == d;
        NotWaiting(s, placed, nodes, c, u, k - 1);
        assert Takes(s, u, d, q[..k - 1]);
      } else {
        OtherEnds(s, placed, nodes, c, d, k - 1);
      }
    } else {
      PathIs(nodes, ROOT, q[..k - 1]);
    }
  }

  lemma StepUp(nodes: State, x: Tid, q: Path)
    requires q != [] && LiveAt(nodes, x, q) && x != ROOT
    ensures x in nodes && LiveAt(nodes, nodes[x].parent, q[..|q| - 1]) && nodes[x].name == q[|q| - 1]
  {
    ParentLower(nodes, x);
  }

  lemma PathNotEmpty(nodes: State, d: Tid, q: Path)
    requires d != ROOT && LiveAt(nodes, d, q)
    ensures q != []
  {
  }

  lemma ParentKnown(s: Setup, x: Tid)
    requires Ready(s) && x in s.before
    ensures x != ROOT && (s.before[x].parent == ROOT || s.before[x].parent in s.before)
  {
    RootNotListed(s.before);
  }

  /** A node of no entry that ends up on the way to c is there when c is to be placed. */
  lemma {:induction false} EndsThere(s: Setup, placed: set<Tid>, nodes: State, c: Tid, x: Tid, k: nat)
    requires Awaited(s, placed, nodes, c) && k <= |FullPath(s.second, c)| && EndsAt(s, x, FullPath(s.second, c)[..k])
    ensures x in nodes && x in s.before && nodes[x] == s.before[x] && LiveAt(nodes, x, FullPath(s.second, c)[..k])
    decreases k
  {
    hide Tree, Unique, Ready, OnlyWaiting, MadeOnly, AllAbove, LiveAt;
    var q := FullPath(s.second, c)[..k];
    var d, f := s.before[x].parent, q[..k - 1];
    assert f == FullPath(s.second, c)[..k - 1];
    if d == ROOT {
      RootLive(nodes);
    } else if Mentioned(s, d) {
      var t :| Takes(s, t, d, f);
      ReadyStates(s);
      AboveAt(s, placed, c, t, k - 1);
      assert EntryOk(s, placed, nodes, t);
    } else {
      EndsThere(s, placed, nodes, c, d, k - 1);
    }
    EntryLive(nodes, d, f, x, q[k - 1]);
    assert q == f + [q[k - 1]];
  }

  lemma ReadyStates(s: Setup)
    requires Ready(s)
    ensures States(s)
  {
  }

  /** On the way to a waiting entry there is nothing but directories, and what is going to be in the way. */
  lemma WhatIsThere(s: Setup, placed: set<Tid>, nodes: State, c: Tid, y: Tid, k: nat)
    requires Awaited(s, placed, nodes, c) && c in s.inode && 0 < k <= |FullPath(s.second, c)|
    requires y in nodes && LiveAt(nodes, y, FullPath(s.second, c)[..k])
    ensures (y in s.before && s.before[y] == nodes[y] && EndsAt(s, y, FullPath(s.second, c)[..k]))
         || (nodes[y].ty.Directory? && k < |FullPath(s.second, c)|)
  {
    hide Tree, Unique, Ready, OnlyWaiting, EntryOk, AllAbove, LiveAt, EndsAt;
    var p := FullPath(s.second, c);
    ReadyStates(s);
    if y !in s.before {
      var t :| t in s.second && IsLive(s.second, t) && t !in s.inode && LiveAt(nodes, y, FullPath(s.second, t));
      PathIs(nodes, y, p[..k]);
      PathIs(nodes, y, FullPath(s.second, t));
      if k == |p| {
        OneEntry(s, t, c);
      }
    } else if Mentioned(s, y) {
      var u :| u in s.inode && s.inode[u] == y;
      NotWaiting(s, placed, nodes, c, u, k);
      NodeKind(s, placed, nodes, u);
      if k == |p| {
        OneEntry(s, u, c);
      } else {
        AboveAt(s, placed, c, u, k);
      }
    } else {
      OtherEnds(s, placed, nodes, c, y, k);
    }
  }

  lemma OneEntry(s: Setup, t: Tid, c: Tid)
    requires States(s) && t in s.second && IsLive(s.second, t) && c in s.second && IsLive(s.second, c)
    requires FullPath(s.second, t) == FullPath(s.second, c)[..|FullPath(s.second, c)|]
    ensures t == c
  {
    PathsDiffer(s.second, t, c);
  }

  /** The directories above the target can be made exactly if no file ends up in their place. */
  lemma WayOpen(s: Setup, placed: set<Tid>, nodes: State, c: Tid)
    requires Awaited(s, placed, nodes, c) && c in s.inode
    ensures var p := FullPath(s.second, c);
      && p != []
      && (Open(nodes, p[..|p| - 1], Directory) <==> !Walled(s, p))
  {
    hide Tree, Unique, Ready, Placed, AllAbove, LiveAt, EndsAt;
    var p := FullPath(s.second, c);
    TargetStart(s, c);
    var front := p[..|p| - 1];
    forall x, k | FileAbove(s, x, p, k)
      ensures !Open(nodes, front, Directory)
    {
      EndsThere(s, placed, nodes, c, x, k);
      assert front[..k] == p[..k];
      assert KindOnWay(front, k, Directory) == Directory;
    }
    if !Open(nodes, front, Directory) {
      var k: nat, u :| 0 < k <= |front| && u in nodes && LiveAt(nodes, u, front[..k])
        && nodes[u].ty != KindOnWay(front, k, Directory);
      assert front[..k] == p[..k];
      WhatIsThere(s, placed, nodes, c, u, k);
      assert KindOnWay(front, k, Directory) == Directory;
      assert FileAbove(s, u, p, k);
    }
  }

  /** The target is free exactly if nothing ends up there. */
  lemma TargetFree(s: Setup, placed: set<Tid>, nodes: State, c: Tid)
    requires Awaited(s, placed, nodes, c) && c in s.inode
    ensures Free(nodes, FullPath(s.second, c)) <==> !Occupied(s, FullPath(s.second, c))
  {
    hide Tree, Unique, Ready, Placed, AllAbove, LiveAt, EndsAt;
    var p := FullPath(s.second, c);
    TargetStart(s, c);
    assert p[..|p|] == p;
    forall x | EndsAt(s, x, p)
      ensures !Free(nodes, p)
    {
      EndsThere(s, placed, nodes, c, x, |p|);
    }
    if !Free(nodes, p) {
      var y :| LiveAt(nodes, y, p);
      NotTheRootHere(nodes, y, p);
      LiveKnown(nodes, y, p);
      WhatIsThere(s, placed, nodes, c, y, |p|);
    }
  }

  /** With the target free and its directory there, the move goes through. */
  lemma CanPlace(s: Setup, placed: set<Tid>, nodes: State, c: Tid, d: Tid)
    requires Awaited(s, placed, nodes, c) && c in s.inode && Free(nodes, FullPath(s.second, c))
    requires FullPath(s.second, c) != [] && IsDirectory(nodes, d)
    requires LiveAt(nodes, d, FullPath(s.second, c)[..|FullPath(s.second, c)| - 1])
    ensures CanMove(nodes, s.inode[c], d, TempPath(s, c), FullPath(s.second, c), s.second[c].ty)
  {
    hide Tree, Unique, LiveAt, Ready, Free, Below, Placed, AllAbove;
    var p := FullPath(s.second, c);
    TargetStart(s, c);
    WaitingThere(s, placed, nodes, c);
    LiveKnown(nodes, s.inode[c], TempPath(s, c));
    PathIs(nodes, d, p[..|p| - 1]);
    PathIs(nodes, s.inode[c], TempPath(s, c));
    assert TempPath(s, c)[0] == s.tmp[0];
    if Below(nodes, d, s.inode[c]) {
      BelowPath(nodes, d, s.inode[c]);
    }
    RootNotWaiting(s, placed, nodes, c);
  }

  lemma RootNotWaiting(s: Setup, placed: set<Tid>, nodes: State, c: Tid)
    requires Awaited(s, placed, nodes, c) && c in s.inode
    ensures s.inode[c] in nodes
  {
    assert EntryOk(s, placed, nodes, c);
  }

  /** Moves one entry to its new path, if it waits in the temporary directory. */
  method PlaceEntry(disk: Disk, child: Tid, state: State, tmp: Path, tempName: Tid -> Name,
                    ghost s: Setup, ghost placed: set<Tid>)
    returns (ok: bool)
    requires disk.Valid() && s.second == state && s.tmp == tmp && s.tempName == tempName
    requires Awaited(s, placed, disk.nodes, child)
    modifies disk
    ensures disk.Valid()
    ensures ok ==> Placed(s, placed + {child}, disk.nodes)
    ensures ok <==> !Blocked(s, child)
  {
    hide Tree, Unique, LiveAt, Live, Placed, Ready, OfKind, CanMove, Below, Occupied, Walled, Free, Moved, Open, AllAbove;
    var ty := state[child].ty;
    var dst := GetFullPath(state, child);
    var src := tmp + [tempName(child)];
    assert src == TempPath(s, child);
    ghost var before := disk.nodes;
    TargetStart(s, child);
    WaitingThere(s, placed, before, child);
    var found := disk.Exists(src, ty);
    if !found {
      NotLocated(s, placed, before, child);
      return true;
    }
    WayOpen(s, placed, before, child);
    ok := disk.MakeDirFor(dst);
    if !ok {
      return;
    }
    ghost var made := disk.nodes;
    DiskFs(disk);
    MadeKeepsPlaced(s, placed, before, made, child);
    WaitingThere(s, placed, made, child);
    TargetFree(s, placed, made, child);
    if Free(made, dst) {
      ghost var d :| LiveAt(made, d, dst[..|dst| - 1]) && IsDirectory(made, d);
      CanPlace(s, placed, made, child, d);
    }
    ok := disk.Move(src, dst, ty);
    DiskFs(disk);
    if ok {
      MoveNeedsRoom(made, disk.nodes, src, dst, ty);
      MoveKeepsPlaced(s, placed, made, disk.nodes, child);
    }
  }

  lemma MoveNeedsRoom(before: State, after: State, src: Path, dst: Path, ty: Ptype)
    requires Moved(before, after, src, dst, ty)
    ensures Free(before, dst)
  {
    hide LiveAt;
  }

  // ---- the whole second pass ----

  lemma BranchDisjoint(ps: State, t: Tid, kids: set<Tid>, c: Tid)
    requires Tree(ps) && Unique(ps) && IsLive(ps, t) && LiveChild(ps, t, c) && c !in kids
    requires forall d :: d in kids ==> LiveChild(ps, t, d)
    ensures Branches(ps, t, kids) * Branch(ps, c) == {}
  {
    hide Tree, Unique, LiveChild;
    forall u | u in Branches(ps, t, kids)
      ensures u !in Branch(ps, c)
    {
      var d :| d in kids && HangsOff(ps, u, d);
      ChildrenApart(ps, t, c, d, u);
    }
  }

  ghost predicate SecondPass(s: Setup, state: State, dmap: DirectoryMap, tmp: Path, tempName: Tid -> Name) {
    Ready(s) && s.second == state && s.tmp == tmp && s.tempName == tempName && Agrees(state, dmap)
  }

  ghost predicate NoneBlocked(s: Setup, among: set<Tid>) {
    forall c :: c in among ==> !Blocked(s, c)
  }

  /** A place in the recursion: t is at its place already, nothing below it is. */
  ghost predicate Reached(s: Setup, placed: set<Tid>, t: Tid) {
    IsLive(s.second, t) && (t == ROOT || t in placed) && placed * Subtree(s.second, t) == {} && AllAbove(s, placed, t)
  }

  /** Success is decided by what is in the way. */
  ghost predicate Decided(s: Setup, among: set<Tid>, ok: bool) {
    ok <==> NoneBlocked(s, among)
  }

  lemma DecidedNothing(s: Setup)
    ensures Decided(s, {}, true)
  {
  }

  lemma DecidedStep(s: Setup, among: set<Tid>, more: set<Tid>, all: set<Tid>, ok: bool)
    requires Decided(s, among, true) && Decided(s, more, ok) && more <= all
    ensures ok ==> Decided(s, among + more, true)
    ensures !ok ==> Decided(s, all, false)
  {
    hide Blocked;
  }

  /** Top-down: after the call everything live below t that waited is at its path in the second state. */
  method MoveFilesFromTmpTopDown(disk: Disk, t: Tid, tmp: Path, state: State, dmap: DirectoryMap, tempName: Tid -> Name,
                                 ghost s: Setup, ghost placed: set<Tid>)
    returns (ok: bool)
    requires disk.Valid() && SecondPass(s, state, dmap, tmp, tempName)
    requires Placed(s, placed, disk.nodes) && Reached(s, placed, t)
    modifies disk
    ensures disk.Valid()
    ensures ok ==> Placed(s, placed + Subtree(state, t), disk.nodes)
    ensures Decided(s, Subtree(state, t), ok)
    decreases Subtree(state, t), 1
  {
    hide Ready, Agrees, Placed, Subtree, Branches, Branch, Fs, LiveChild, Tree, Unique, Decided, IsLive;
    ReadyTrees(s);
    ReadyStates(s);
    ghost var kids: set<Tid> := {};
    BranchesNone(state, t);
    DecidedNothing(s);
    assert placed + {} == placed;
    if t in dmap {
      var names := Sorted(dmap[t].Keys);
      var k := 0;
      while k < |names|
        invariant 0 <= k <= |names| && disk.Valid()
        invariant Placed(s, placed + Branches(state, t, kids), disk.nodes)
        invariant Decided(s, Branches(state, t, kids), true)
        invariant forall c :: c in kids ==> LiveChild(state, t, c) && c in state && state[c].name in names[..k]
        invariant forall j :: 0 <= j < k && names[j] != NO_NAME ==> dmap[t][names[j]].1 in kids
      {
        var n := names[k];
        var child := dmap[t][n].1;
        NextChild(state, dmap, t, kids, names, k);
        if state[child].name != NO_NAME {
          NextBranch(state, {}, t, kids, child);
          NextReached(s, placed, t, kids, child);
          ok := PlaceBranch(disk, child, tmp, state, dmap, tempName, s, placed + Branches(state, t, kids));
          DecidedStep(s, Branches(state, t, kids), Branch(state, child), Subtree(state, t), ok);
          if !ok {
            return;
          }
          assert placed + Branches(state, t, kids + {child}) == placed + Branches(state, t, kids) + Branch(state, child);
          kids := kids + {child};
        }
        assert names[..k + 1] == names[..k] + [n];
        k := k + 1;
      }
      assert forall n :: n in dmap[t] ==> n in names;
    }
    AllChildren(state, dmap, t, kids);
    ok := true;
  }

  lemma NextReached(s: Setup, placed: set<Tid>, t: Tid, kids: set<Tid>, c: Tid)
    requires States(s) && Reached(s, placed, t) && LiveChild(s.second, t, c) && c !in kids
    requires forall d :: d in kids ==> LiveChild(s.second, t, d)
    ensures var placed' := placed + Branches(s.second, t, kids);
      placed' * Branch(s.second, c) == {} && AllAbove(s, placed', c) && IsLive(s.second, c)
  {
    hide Tree, Unique, Subtree, Branches, Branch;
    BranchDisjoint(s.second, t, kids, c);
    BranchesStep(s.second, t, kids, c);
    LiveChildPath(s.second, t, c);
    ParentLower(s.second, c);
    forall u | u in s.second && u != c && HangsOff(s.second, c, u)
      ensures u in placed
    {
      FirstIsNotRoot(s, u);
      assert HangsOff(s.second, t, u);
    }
  }

  method PlaceBranch(disk: Disk, child: Tid, tmp: Path, state: State, dmap: DirectoryMap, tempName: Tid -> Name,
                     ghost s: Setup, ghost placed: set<Tid>)
    returns (ok: bool)
    requires disk.Valid() && SecondPass(s, state, dmap, tmp, tempName)
    requires Placed(s, placed, disk.nodes) && child in state && IsLive(state, child)
    requires placed * Branch(state, child) == {} && AllAbove(s, placed, child)
    modifies disk
    ensures disk.Valid()
    ensures ok ==> Placed(s, placed + Branch(state, child), disk.nodes)
    ensures Decided(s, Branch(state, child), ok)
    decreases Branch(state, child), 0
  {
    hide Ready, Agrees, Placed, Fs, Tree, Unique, Blocked, IsLive, Subtree;
    ReadyTrees(s);
    assert child in Branch(state, child);
    assert child in placed ==> child in placed * Branch(state, child);
    ok := PlaceEntry(disk, child, state, tmp, tempName, s, placed);
    if !ok {
      return;
    }
    NotInOwnSubtree(state, child);
    if state[child].ty == Directory {
      ok := MoveFilesFromTmpTopDown(disk, child, tmp, state, dmap, tempName, s, placed + {child});
    } else {
      NothingInFile(state, child);
      assert placed + {child} + Subtree(state, child) == placed + {child};
    }
    assert placed + {child} + Subtree(state, child) == placed + Branch(state, child);
  }

  lemma NotInOwnSubtree(ps: State, c: Tid)
    ensures c !in Subtree(ps, c)
  {
  }

  // ---- both passes ----

  /** The whole rearrangement has happened at once. */
  ghost predicate Realized(before: State, after: State, first: State, second: State, tmpDir: Tid, tempName: Tid -> Name) {
    // nothing is lost or overwritten
    && Fs(after)
    && (forall x :: x in before ==> x in after && after[x].ty == before[x].ty)
    // what an entry stood for is where the entry is now, or left in the temporary directory when it is gone
    && (forall t, x :: Holds(before, first, t, x) ==>
          x in after && Arrived(after, second, t, x, tmpDir, tempName))
    // everything else is in the directory it was in
    && (forall x :: x in before && (forall t :: !Holds(before, first, t, x)) ==> x in after && after[x] == before[x])
  }

  ghost predicate Arrived(after: State, second: State, t: Tid, x: Tid, tmpDir: Tid, tempName: Tid -> Name)
    requires x in after
  {
    if t in second && IsLive(second, t) then LiveAt(after, x, FullPath(second, t))
    else after[x].parent == tmpDir && after[x].name == tempName(t)
  }

  lemma PlacedRealizes(s: Setup, nodes: State)
    requires Ready(s) && Placed(s, Subtree(s.second, ROOT), nodes)
    ensures Realized(s.before, nodes, s.first, s.second, s.tmpDir, s.tempName)
  {
    hide Tree, Unique, LiveAt, TemporaryOk, OnlyWaiting, TemporaryAt, Below, Live, Holds, Fs, States;
    forall t, x | Holds(s.before, s.first, t, x)
      ensures x in nodes && Arrived(nodes, s.second, t, x, s.tmpDir, s.tempName)
    {
      assert EntryOk(s, Subtree(s.second, ROOT), nodes, t);
      if t in s.second && IsLive(s.second, t) {
        SecondLive(s, t);
      }
    }
    forall x | x in s.before
      ensures x in nodes && nodes[x].ty == s.before[x].ty
      ensures (forall t :: !Holds(s.before, s.first, t, x)) ==> nodes[x] == s.before[x]
    {
      if Mentioned(s, x) {
        var t :| t in s.inode && s.inode[t] == x;
        assert EntryOk(s, Subtree(s.second, ROOT), nodes, t);
        assert Holds(s.before, s.first, t, x);
      }
    }
  }

  lemma SecondLive(s: Setup, t: Tid)
    requires States(s) && t in s.second && IsLive(s.second, t)
    ensures t in Subtree(s.second, ROOT)
  {
    FirstIsNotRoot(s, t);
    BelowRoot(s.second, t);
  }

  /** The entries of a state that are on a disk, and where. */
  lemma Locate(before: State, ps: State) returns (inode: map<Tid, Tid>)
    requires Fs(before)
    ensures forall t :: t in inode ==> Holds(before, ps, t, inode[t])
    ensures forall t, x :: Holds(before, ps, t, x) ==> t in inode && inode[t] == x
  {
    hide Tree, Unique, LiveAt;
    inode := map t | t in ps && (exists x :: Holds(before, ps, t, x)) :: (var x :| Holds(before, ps, t, x); x);
    forall t, x | Holds(before, ps, t, x)
      ensures t in inode && inode[t] == x
    {
      OnePath(before, x, inode[t], FullPath(ps, t));
    }
  }

  /** What a sane analysis and the work space guarantee. */
  ghost predicate Prepared(before: State, first: State, second: State, tmpDir: Tid, tmp: Path, tempName: Tid -> Name) {
    var s := Setup(before, map[], tmpDir, tmp, tempName, first, second);
    Fs(before) && States(s) && TemporaryOk(s) && first.Keys == second.Keys
  }

  /** Some target is taken by something that belongs to no entry. */
  ghost predicate SomeBlocked(s: Setup) {
    exists c :: c in s.second && IsLive(s.second, c) && Blocked(s, c)
  }

  lemma PreparedReady(s: Setup)
    requires Prepared(s.before, s.first, s.second, s.tmpDir, s.tmp, s.tempName)
    requires forall t :: t in s.inode ==> Holds(s.before, s.first, t, s.inode[t])
    requires forall t, x :: Holds(s.before, s.first, t, x) ==> t in s.inode && s.inode[t] == x
    ensures Ready(s)
  {
    hide Holds, Tree, Unique, LiveAt;
  }

  lemma StartApart(s: Setup)
    requires Ready(s)
    ensures Parked(s, {}, s.before) && IsLive(s.first, ROOT) && Apart(s.first, {}, ROOT) && Reached(s, {}, ROOT)
  {
    hide Tree, Unique, LiveAt, Holds;
    assert Within(s.first, ROOT, 0) && Within(s.second, ROOT, 0);
  }

  lemma NothingToDo(s: Setup)
    requires Ready(s) && s.first == map[] && s.second == map[]
    ensures Realized(s.before, s.before, s.first, s.second, s.tmpDir, s.tempName) && !SomeBlocked(s)
  {
  }

  lemma BlockedSomewhere(s: Setup)
    requires Ready(s)
    ensures NoneBlocked(s, Subtree(s.second, ROOT)) <==> !SomeBlocked(s)
  {
    hide Tree, Unique, LiveAt, Holds, Blocked, Below, Live, Grounded, States, TemporaryOk;
    forall c | c in s.second && IsLive(s.second, c)
      ensures c in Subtree(s.second, ROOT)
    {
      SecondLive(s, c);
    }
  }

  /** When both passes go through, every entry is where the second state says; they do exactly if nothing is in the way. */
  method ApplyAnalysis(disk: Disk, first: State, second: State, tmp: Path, tempName: Tid -> Name, ghost tmpDir: Tid)
    returns (ok: bool, ghost inode: map<Tid, Tid>)
    requires disk.Valid() && Prepared(disk.nodes, first, second, tmpDir, tmp, tempName)
    modifies disk
    ensures disk.Valid()
    ensures ok ==> Realized(old(disk.nodes), disk.nodes, first, second, tmpDir, tempName)
    ensures forall t, x :: Holds(old(disk.nodes), first, t, x) <==> t in inode && inode[t] == x
    ensures var s := Setup(old(disk.nodes), inode, tmpDir, tmp, tempName, first, second);
      Shallow(first) && Shallow(second) ==> (ok <==> !SomeBlocked(s))
  {
    hide Tree, Unique, Agrees, LiveAt, IsLive, Within, Fs, Placed, Parked, Subtree, Realized, TemporaryOk, States;
    hide Holds, Blocked, SomeBlocked, NoneBlocked, Ready, Reached;
    ghost var before := disk.nodes;
    DiskFs(disk);
    inode := Locate(before, first);
    ghost var s := Setup(before, inode, tmpDir, tmp, tempName, first, second);
    PreparedReady(s);
    ReadyTrees(s);
    var firstDmap := BuildDirectoryMap(first);
    var secondDmap := BuildDirectoryMap(second);
    if firstDmap.None? || secondDmap.None? {
      ok := false;
      return;
    }
    if first == map[] {
      ok := true;
      NothingToDo(s);
      return;
    }
    StartApart(s);
    ok := MoveFilesToTmpBottomUp(disk, ROOT, tmp, first, firstDmap.value, tempName, s, {});
    assert {} + Subtree(first, ROOT) == Subtree(first, ROOT);
    ParkedPlaced(s, disk.nodes);
    ok := MoveFilesFromTmpTopDown(disk, ROOT, tmp, second, secondDmap.value, tempName, s, {});
    assert {} + Subtree(second, ROOT) == Subtree(second, ROOT);
    if ok {
      PlacedRealizes(s, disk.nodes);
    }
    BlockedSomewhere(s);
  }
}
