// A file system as the rearrangement code of change_set.cc sees it through file_io.cc: a tree of inodes, found by
// path, renamed one at a time; a renamed directory takes its contents along.
module FileSystem {
  import opened Wrappers
  import opened PathStates
  import opened DirectoryMaps

  type Path = seq<Name>

  /** A tree with unique, named entries. */
  ghost predicate Fs(nodes: State) {
    Tree(nodes) && Unique(nodes) && forall x :: x in nodes ==> nodes[x].name != NO_NAME
  }

  /** t is a, or lies below it. */
  ghost predicate Below(ps: State, t: Tid, a: Tid)
    requires Grounded(ps, t)
    decreases Height(ps, t)
  {
    t == a || (t != ROOT && (ParentLower(ps, t); Below(ps, ps[t].parent, a)))
  }

  lemma {:induction false} NamedLive(ps: State, t: Tid)
    requires Grounded(ps, t) && forall x :: x in ps ==> ps[x].name != NO_NAME
    ensures Live(ps, t)
    decreases Height(ps, t)
  {
    if t != ROOT {
      ParentLower(ps, t);
      NamedLive(ps, ps[t].parent);
    }
  }

  /** What lies above t has a prefix of its path. */
  lemma {:induction false} BelowPath(ps: State, t: Tid, a: Tid)
    requires Grounded(ps, t) && Below(ps, t, a)
    ensures Grounded(ps, a) && FullPath(ps, a) <= FullPath(ps, t)
    ensures t != a ==> |FullPath(ps, a)| < |FullPath(ps, t)|
    ensures Live(ps, t) ==> Live(ps, a)
    decreases Height(ps, t)
  {
    if t != a {
      ParentLower(ps, t);
      BelowPath(ps, ps[t].parent, a);
    }
  }

  /** For every prefix of a path there is the entry above that has it. */
  lemma {:induction false} PrefixAbove(ps: State, t: Tid, k: nat) returns (a: Tid)
    requires Grounded(ps, t) && k <= |FullPath(ps, t)|
    ensures Below(ps, t, a) && Grounded(ps, a) && FullPath(ps, a) == FullPath(ps, t)[..k]
    ensures Live(ps, t) ==> Live(ps, a)
    decreases Height(ps, t)
  {
    if k == |FullPath(ps, t)| {
      a := t;
      assert FullPath(ps, t)[..k] == FullPath(ps, t);
    } else {
      ParentLower(ps, t);
      a := PrefixAbove(ps, ps[t].parent, k);
      assert FullPath(ps, t)[..k] == FullPath(ps, ps[t].parent)[..k];
    }
  }

  lemma {:induction false} BelowTransitive(ps: State, s: Tid, t: Tid, a: Tid)
    requires Grounded(ps, s) && Below(ps, s, t) && Grounded(ps, t) && Below(ps, t, a)
    ensures Below(ps, s, a)
    decreases Height(ps, s)
  {
    if s != t {
      ParentLower(ps, s);
      BelowTransitive(ps, ps[s].parent, t, a);
    }
  }

  // ---- moving one node ----

  ghost predicate IsRenamed(ps: State, qs: State, x: Tid, d: Tid, n: Name)
  {
    x in ps && qs == ps[x := Item(d, ps[x].ty, n)]
  }

  /** What is not at or below the moved node keeps its path. */
  lemma {:induction false} RenameElsewhere(ps: State, qs: State, x: Tid, d: Tid, n: Name, t: Tid)
    requires IsRenamed(ps, qs, x, d, n) && Grounded(ps, t) && !Below(ps, t, x)
    ensures Grounded(qs, t) && FullPath(qs, t) == FullPath(ps, t) && (Live(qs, t) <==> Live(ps, t))
    decreases Height(ps, t)
  {
    if t == ROOT {
      assert Within(qs, t, 0);
    } else {
      ParentLower(ps, t);
      RenameElsewhere(ps, qs, x, d, n, ps[t].parent);
      assert Within(qs, t, Height(qs, ps[t].parent) + 1);
      ParentLower(qs, t);
    }
  }

  lemma {:induction false} RenameGrounded(ps: State, qs: State, x: Tid, d: Tid, n: Name, t: Tid)
    requires IsRenamed(ps, qs, x, d, n) && Grounded(ps, t) && Grounded(ps, d) && !Below(ps, d, x)
    ensures Grounded(qs, t)
    decreases Height(ps, t)
  {
    if t == ROOT {
      assert Within(qs, t, 0);
    } else if t == x {
      RenameElsewhere(ps, qs, x, d, n, d);
      assert Within(qs, x, Height(qs, d) + 1);
    } else {
      ParentLower(ps, t);
      RenameGrounded(ps, qs, x, d, n, ps[t].parent);
      assert Within(qs, t, Height(qs, ps[t].parent) + 1);
    }
  }

  /** Renaming to a free name in a directory that is not inside the node itself keeps the tree a tree. */
  lemma RenameKeeps(ps: State, qs: State, x: Tid, d: Tid, n: Name)
    requires Fs(ps) && IsRenamed(ps, qs, x, d, n) && IsDirectory(ps, d) && Grounded(ps, d) && !Below(ps, d, x)
    requires n != NO_NAME && forall y :: y in ps ==> !(ps[y].parent == d && ps[y].name == n)
    ensures Fs(qs) && LiveAt(qs, x, FullPath(ps, d) + [n])
  {
    hide Live;
    forall t | t in qs
      ensures Grounded(qs, t) && ParentOk(qs, qs[t])
    {
      RenameGrounded(ps, qs, x, d, n, t);
    }
    RenameElsewhere(ps, qs, x, d, n, d);
    ParentLower(qs, x);
    NamedLive(qs, x);
  }

  // ---- operations ----

  datatype Status = Nonexistent | IsFile | IsDir

  /** Nothing has this path. */
  ghost predicate Free(nodes: State, p: Path) {
    forall x :: !LiveAt(nodes, x, p)
  }

  lemma FreeBelow(nodes: State, p: Path, k: nat, d: Tid)
    requires Fs(nodes) && k < |p| && LiveAt(nodes, d, p[..k])
    requires forall y :: y in nodes ==> !(nodes[y].parent == d && nodes[y].name == p[k])
    ensures Free(nodes, p)
  {
    forall x
      ensures !LiveAt(nodes, x, p)
    {
      if LiveAt(nodes, x, p) {
        var a := PrefixAbove(nodes, x, k + 1);
        ParentLower(nodes, a);
        assert FullPath(nodes, a)[..k] == FullPath(nodes, nodes[a].parent) == p[..k];
        PathsDiffer(nodes, nodes[a].parent, d);
      }
    }
  }

  lemma OnePath(nodes: State, x: Tid, y: Tid, p: Path)
    requires Fs(nodes) && LiveAt(nodes, x, p) && LiveAt(nodes, y, p)
    ensures x == y
  {
    PathsDiffer(nodes, x, y);
  }

  lemma LiveKnown(nodes: State, x: Tid, p: Path)
    requires LiveAt(nodes, x, p)
    ensures (x == ROOT || x in nodes) && Grounded(nodes, x)
  {
  }

  /** The conditions under which renaming x into directory d, from src to dst, goes through. */
  ghost predicate CanMove(nodes: State, x: Tid, d: Tid, src: Path, dst: Path, ty: Ptype) {
    && LiveAt(nodes, x, src) && x in nodes && nodes[x].ty == ty
    && dst != [] && dst[|dst| - 1] != NO_NAME && Free(nodes, dst)
    && LiveAt(nodes, d, dst[..|dst| - 1]) && IsDirectory(nodes, d) && !Below(nodes, d, x)
  }

  ghost predicate Moved(before: State, after: State, src: Path, dst: Path, ty: Ptype) {
    exists x, d :: CanMove(before, x, d, src, dst, ty) && IsRenamed(before, after, x, d, dst[|dst| - 1])
  }

  lemma MoveKeeps(nodes: State, x: Tid, d: Tid, src: Path, dst: Path, ty: Ptype)
    requires Fs(nodes) && CanMove(nodes, x, d, src, dst, ty)
    ensures var after := nodes[x := Item(d, ty, dst[|dst| - 1])];
      Fs(after) && Moved(nodes, after, src, dst, ty) && LiveAt(after, x, dst)
  {
    hide Tree, Unique, LiveAt, Below;
    var n := dst[|dst| - 1];
    var after := nodes[x := Item(d, ty, n)];
    assert dst == dst[..|dst| - 1] + [n];
    LiveKnown(nodes, d, dst[..|dst| - 1]);
    forall y | y in nodes && nodes[y].parent == d && nodes[y].name == n
      ensures false
    {
      EntryLive(nodes, d, dst[..|dst| - 1], y, n);
    }
    assert IsRenamed(nodes, after, x, d, n);
    RenameKeeps(nodes, after, x, d, n);
    PathIs(nodes, d, dst[..|dst| - 1]);
  }

  lemma PathIs(nodes: State, x: Tid, p: Path)
    requires LiveAt(nodes, x, p)
    ensures Grounded(nodes, x) && FullPath(nodes, x) == p && Live(nodes, x)
  {
  }

  lemma CannotMove(nodes: State, src: Path, dst: Path, ty: Ptype, x: Option<Tid>, d: Option<Tid>)
    requires Fs(nodes)
    requires if x.Some? then LiveAt(nodes, x.value, src) else Free(nodes, src)
    requires d.Some? ==> dst != [] && LiveAt(nodes, d.value, dst[..|dst| - 1])
    requires || x.None? || dst == [] || dst[|dst| - 1] == NO_NAME || !Free(nodes, dst)
             || x.value !in nodes || nodes[x.value].ty != ty
             || (d.None? && Free(nodes, dst[..|dst| - 1]))
             || (d.Some? && (!IsDirectory(nodes, d.value) || Below(nodes, d.value, x.value)))
    ensures forall y, e :: !CanMove(nodes, y, e, src, dst, ty)
  {
    hide LiveAt;
    forall y, e
      ensures !CanMove(nodes, y, e, src, dst, ty)
    {
      if CanMove(nodes, y, e, src, dst, ty) {
        if x.Some? {
          OnePath(nodes, x.value, y, src);
        }
        if d.Some? {
          OnePath(nodes, d.value, e, dst[..|dst| - 1]);
        }
      }
    }
  }

  /** Something of this kind has the path. */
  ghost predicate OfKind(nodes: State, p: Path, ty: Ptype) {
    exists x :: x in nodes && LiveAt(nodes, x, p) && nodes[x].ty == ty
  }

  /** A directory made for p sits at a proper prefix of it. */
  ghost predicate MadeFor(nodes: State, p: Path, y: Tid) {
    exists k :: 0 < k < |p| && LiveAt(nodes, y, p[..k])
  }

  lemma MadeOne(nodes: State, made: Tid, cur: Tid, p: Path, i: nat)
    requires Fs(nodes) && made !in nodes && made != ROOT && i < |p| - 1 && p[i] != NO_NAME
    requires LiveAt(nodes, cur, p[..i]) && IsDirectory(nodes, cur)
    requires forall y :: y in nodes ==> !(nodes[y].parent == cur && nodes[y].name == p[i])
    ensures var after := nodes[made := Item(cur, Directory, p[i])];
      && Fs(after) && Extends(nodes, after) && LiveAt(after, made, p[..i + 1]) && MadeFor(after, p, made)
      && forall y :: MadeFor(nodes, p, y) ==> MadeFor(after, p, y)
  {
    hide LiveAt, Unique;
    var after := nodes[made := Item(cur, Directory, p[i])];
    AddItem(nodes, made, Item(cur, Directory, p[i]));
    ExtendsLive(nodes, after, cur, p[..i]);
    EntryLive(after, cur, p[..i], made, p[i]);
    assert p[..i + 1] == p[..i] + [p[i]];
    forall y | MadeFor(nodes, p, y)
      ensures MadeFor(after, p, y)
    {
      var k :| 0 < k < |p| && LiveAt(nodes, y, p[..k]);
      ExtendsLive(nodes, after, y, p[..k]);
    }
  }

  /** Nothing but the file itself can be where a file is, and nothing is below it. */
  lemma FileInTheWay(nodes: State, y: Tid, p: Path, i: nat)
    requires Fs(nodes) && i < |p| - 1 && y in nodes && nodes[y].ty.File? && LiveAt(nodes, y, p[..i + 1])
    ensures forall d :: LiveAt(nodes, d, p[..|p| - 1]) ==> !IsDirectory(nodes, d)
  {
    hide Unique;
    forall d | LiveAt(nodes, d, p[..|p| - 1])
      ensures !IsDirectory(nodes, d)
    {
      var a := PrefixAbove(nodes, d, i + 1);
      assert p[..|p| - 1][..i + 1] == p[..i + 1];
      OnePath(nodes, a, y, p[..i + 1]);
      NothingBelowFile(nodes, d, y);
      NotTheRootHere(nodes, d, p[..|p| - 1]);
    }
  }

  lemma NotTheRootHere(nodes: State, d: Tid, p: Path)
    requires LiveAt(nodes, d, p) && p != []
    ensures d != ROOT
  {
  }

  lemma {:induction false} NothingBelowFile(ps: State, t: Tid, a: Tid)
    requires Tree(ps) && Grounded(ps, t) && Below(ps, t, a) && a in ps && ps[a].ty.File?
    ensures t == a
    decreases Height(ps, t)
  {
    if t != a {
      ParentLower(ps, t);
      NothingBelowFile(ps, ps[t].parent, a);
    }
  }

  lemma StillFree(before: State, nodes: State, front: Path)
    requires Extends(before, nodes)
    requires forall d :: LiveAt(nodes, d, front) ==> !IsDirectory(nodes, d)
    ensures forall d :: LiveAt(before, d, front) ==> !IsDirectory(before, d)
  {
    hide LiveAt;
    forall d | LiveAt(before, d, front)
      ensures !IsDirectory(before, d)
    {
      ExtendsLive(before, nodes, d, front);
      assert !IsDirectory(nodes, d);
    }
  }

  lemma RootNotListed(nodes: State)
    requires Fs(nodes)
    ensures ROOT !in nodes
  {
  }

  class Disk {
    var nodes: State
    var unused: Tid

    ghost predicate Valid()
      reads this
    {
      Fs(nodes) && unused != ROOT && forall x :: x in nodes ==> x < unused
    }

    method Find(p: Path) returns (x: Option<Tid>)
      requires Valid()
      ensures x.Some? ==> LiveAt(nodes, x.value, p)
      ensures x.None? ==> Free(nodes, p)
    {
      hide LiveAt, Free, Tree, Unique;
      var cur, i := ROOT, 0;
      RootLive(nodes);
      while i < |p|
        invariant 0 <= i <= |p| && LiveAt(nodes, cur, p[..i])
      {
        if y :| y in nodes && nodes[y].parent == cur && nodes[y].name == p[i] {
          EntryLive(nodes, cur, p[..i], y, p[i]);
          assert p[..i + 1] == p[..i] + [p[i]];
          cur, i := y, i + 1;
        } else {
          FreeBelow(nodes, p, i, cur);
          return None;
        }
      }
      assert p[..i] == p;
      x := Some(cur);
    }

    method PathStatus(p: Path) returns (s: Status)
      requires Valid()
      ensures s.Nonexistent? <==> Free(nodes, p)
      ensures s.IsFile? <==> exists x :: LiveAt(nodes, x, p) && !IsDirectory(nodes, x)
      ensures s.IsDir? <==> exists x :: LiveAt(nodes, x, p) && IsDirectory(nodes, x)
    {
      hide LiveAt;
      var x := Find(p);
      if x.None? {
        return Nonexistent;
      }
      forall y | LiveAt(nodes, y, p)
        ensures y == x.value
      {
        OnePath(nodes, x.value, y, p);
      }
      LiveKnown(nodes, x.value, p);
      s := if x.value == ROOT || nodes[x.value].ty == Directory then IsDir else IsFile;
    }

    /** file_exists and directory_exists. */
    method Exists(p: Path, ty: Ptype) returns (found: bool)
      requires Valid()
      ensures p != [] ==> (found <==> OfKind(nodes, p, ty))
    {
      hide LiveAt;
      var s := PathStatus(p);
      found := if ty == File then s.IsFile? else s.IsDir?;
      if p != [] {
        forall x | LiveAt(nodes, x, p)
          ensures x in nodes
        {
          LiveKnown(nodes, x, p);
          NotTheRootHere(nodes, x, p);
        }
      }
    }

    method IsBelow(d: Tid, x: Tid) returns (r: bool)
      requires Grounded(nodes, d)
      ensures r <==> Below(nodes, d, x)
    {
      var cur := d;
      while cur != x
        invariant Grounded(nodes, cur) && (Below(nodes, d, x) <==> Below(nodes, cur, x))
        decreases Height(nodes, cur)
      {
        if cur == ROOT {
          return false;
        }
        ParentLower(nodes, cur);
        cur := nodes[cur].parent;
      }
      r := true;
    }

    /** Renaming fails unless the source is there and of its kind, the target is free, and its directory exists. */
    method Move(src: Path, dst: Path, ty: Ptype) returns (ok: bool)
      requires Valid()
      modifies this`nodes
      ensures Valid() && (!ok ==> nodes == old(nodes))
      ensures ok ==> Moved(old(nodes), nodes, src, dst, ty)
      ensures forall x, d :: CanMove(old(nodes), x, d, src, dst, ty) ==> ok
    {
      hide LiveAt, Tree, Unique, Grounded, Below;
      RootNotListed(nodes);
      var x := Find(src);
      var target := Find(dst);
      if x.None? || target.Some? || dst == [] || dst[|dst| - 1] == NO_NAME {
        CannotMove(nodes, src, dst, ty, x, None);
        return false;
      }
      LiveKnown(nodes, x.value, src);
      var d := Find(dst[..|dst| - 1]);
      if x.value == ROOT || nodes[x.value].ty != ty || d.None? {
        CannotMove(nodes, src, dst, ty, x, d);
        return false;
      }
      LiveKnown(nodes, d.value, dst[..|dst| - 1]);
      if d.value != ROOT && nodes[d.value].ty != Directory {
        CannotMove(nodes, src, dst, ty, x, d);
        return false;
      }
      var inside := IsBelow(d.value, x.value);
      if inside {
        CannotMove(nodes, src, dst, ty, x, d);
        return false;
      }
      MoveKeeps(nodes, x.value, d.value, src, dst, ty);
      nodes := nodes[x.value := Item(d.value, ty, dst[|dst| - 1])];
      ok := true;
    }

    /** Every missing directory above a path is created; it fails exactly on a file in the way, or on a null name. */
    method MakeDirFor(p: Path) returns (ok: bool)
      requires Valid()
      modifies this
      ensures Valid() && Extends(old(nodes), nodes)
      ensures ok <==> p == [] || Open(old(nodes), p[..|p| - 1], Directory)
      ensures ok && p != [] ==> exists d :: LiveAt(nodes, d, p[..|p| - 1]) && IsDirectory(nodes, d)
      ensures forall y :: y in nodes && y !in old(nodes) ==> MadeFor(nodes, p, y) && nodes[y].ty == Directory
      ensures forall d :: p != [] && LiveAt(old(nodes), d, p[..|p| - 1]) && IsDirectory(old(nodes), d) ==> ok && nodes == old(nodes)
    {
      hide LiveAt, Tree, Unique, Open, AllOnWay, OnWay;
      if p == [] {
        return true;
      }
      ghost var front := p[..|p| - 1];
      var cur, i := ROOT, 0;
      RootLive(nodes);
      assert front[..0] == [] && AllOnWay(nodes, front, 0, Directory) by { NothingOnWay(nodes, front); }
      ghost var missing := false;
      while i < |p| - 1
        invariant 0 <= i < |p| && Valid() && Extends(old(nodes), nodes)
        invariant LiveAt(nodes, cur, front[..i]) && IsDirectory(nodes, cur) && AllOnWay(nodes, front, i, Directory)
        invariant forall y :: y in nodes && y !in old(nodes) ==> MadeFor(nodes, p, y) && nodes[y].ty == Directory
        invariant nodes == old(nodes) || missing
        invariant missing ==> Free(old(nodes), front)
      {
        assert front[..i] == p[..i] && front[i] == p[i];
        ghost var before, above := nodes, cur;
        if y :| y in nodes && nodes[y].parent == cur && nodes[y].name == p[i] {
          EntryLive(nodes, cur, front[..i], y, p[i]);
          assert front[..i + 1] == front[..i] + [p[i]] == p[..i + 1];
          if nodes[y].ty == File {
            FileInTheWay(nodes, y, p, i);
            StillFree(old(nodes), nodes, front);
            WayTaken(old(nodes), nodes, y, front, i);
            return false;
          }
          cur := y;
        } else {
          if !missing {
            FreeBelow(nodes, front, i, cur);
          }
          missing := true;
          if p[i] == NO_NAME {
            NullOnWay(old(nodes), front, i);
            return false;
          }
          MadeOne(nodes, unused, cur, p, i);
          nodes := nodes[unused := Item(cur, Directory, p[i])];
          cur := unused;
          unused := unused + 1;
        }
        StepTaken(before, nodes, above, front, i, cur, Directory);
        i := i + 1;
      }
      assert front[..i] == front;
      WholeWay(old(nodes), nodes, cur, front, Directory);
      ok := true;
    }
  }

  lemma NothingOnWay(nodes: State, pth: Path)
    ensures AllOnWay(nodes, pth, 0, Directory)
  {
  }

  lemma WayTaken(before: State, nodes: State, y: Tid, pth: Path, i: nat)
    requires Tree(before) && Extends(before, nodes) && i < |pth| && y in before && before[y].ty == File
    requires LiveAt(nodes, y, pth[..i + 1])
    ensures !Open(before, pth, Directory)
  {
    hide LiveAt, Tree;
    ShrinksLive(before, nodes, y, pth[..i + 1]);
    assert KindOnWay(pth, i + 1, Directory) == Directory;
  }

  lemma NullOnWay(nodes: State, pth: Path, i: nat)
    requires i < |pth| && pth[i] == NO_NAME
    ensures !Open(nodes, pth, Directory)
  {
  }
}
