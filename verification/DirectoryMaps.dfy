// The directory index of a path state in change_set.cc: looking paths up, building the index, and the functions
// that extend state and index together.
module DirectoryMaps {
  import opened Wrappers
  import opened Digraph
  import opened PathStates

  type DirectoryNode = map<Name, (Ptype, Tid)>
  type DirectoryMap = map<Tid, DirectoryNode>

  const MAX_PATH_DEPTH: nat := 300

  /** The one number that is never handed out. */
  const LAST_TID: Tid := 0xffffffff

  function EntryAt(dir: DirectoryMap, d: Tid, n: Name): Option<(Ptype, Tid)> {
    if d in dir && n in dir[d] then Some(dir[d][n]) else None
  }

  ghost predicate Indexed(ps: State, dir: DirectoryMap, t: Tid)
    requires t in ps
  {
    ps[t].name != NO_NAME ==> EntryAt(dir, ps[t].parent, ps[t].name) == Some((ps[t].ty, t))
  }

  ghost predicate OnlyEntries(ps: State, dir: DirectoryMap) {
    forall d, n :: EntryAt(dir, d, n).Some? ==> IsEntry(ps, d, n, EntryAt(dir, d, n).value)
  }

  ghost predicate IsEntry(ps: State, d: Tid, n: Name, e: (Ptype, Tid)) {
    e.1 in ps && ps[e.1] == Item(d, e.0, n)
  }

  /** The index lists exactly the named entries of the state; of the null entries it may list some. */
  ghost predicate Agrees(ps: State, dir: DirectoryMap) {
    OnlyEntries(ps, dir) && forall t :: t in ps ==> Indexed(ps, dir, t)
  }

  ghost predicate Sane(ps: State, dir: DirectoryMap) {
    Tree(ps) && Unique(ps) && Agrees(ps, dir)
  }

  method SanityCheck(ps: State) returns (ok: bool)
    ensures ok ==> Tree(ps) && Unique(ps)
    ensures Tree(ps) && Unique(ps) && Shallow(ps) ==> ok
  {
    hide Within, Tree, Unique;
    ok := ConfirmProperTree(ps, MAX_PATH_DEPTH);
    if ok {
      ok := ConfirmUniqueEntries(ps);
    }
  }

  // ---- looking paths up ----

  function Lookup(dir: DirectoryMap, from: Tid, pth: seq<Name>): Option<Tid>
    decreases |pth|
  {
    if pth == [] then Some(from) else
      match EntryAt(dir, from, pth[0])
      case None => None
      case Some(e) => Lookup(dir, e.1, pth[1..])
  }

  method LookupPath(pth: seq<Name>, dir: DirectoryMap) returns (t: Option<Tid>)
    ensures t == Lookup(dir, ROOT, pth)
  {
    var u := ROOT;
    var i := 0;
    while i < |pth|
      invariant 0 <= i <= |pth| && Lookup(dir, ROOT, pth) == Lookup(dir, u, pth[i..])
    {
      assert pth[i..][0] == pth[i] && pth[i..][1..] == pth[i + 1..];
      if u in dir {
        var node := dir[u];
        if pth[i] !in node {
          return None;
        }
        u := node[pth[i]].1;
      } else {
        return None;
      }
      i := i + 1;
    }
    t := Some(u);
  }

  lemma {:induction false} LookupAppend(dir: DirectoryMap, from: Tid, pth: seq<Name>, n: Name)
    ensures var d := Lookup(dir, from, pth);
      Lookup(dir, from, pth + [n]) ==
      if d.Some? && EntryAt(dir, d.value, n).Some? then Some(EntryAt(dir, d.value, n).value.1) else None
    decreases |pth|
  {
    if pth == [] {
      assert (pth + [n])[1..] == [];
    } else {
      assert (pth + [n])[0] == pth[0] && (pth + [n])[1..] == pth[1..] + [n];
      var e := EntryAt(dir, from, pth[0]);
      if e.Some? {
        LookupAppend(dir, e.value.1, pth[1..], n);
      }
    }
  }

  ghost predicate LiveAt(ps: State, t: Tid, pth: seq<Name>) {
    Grounded(ps, t) && Live(ps, t) && FullPath(ps, t) == pth
  }

  /** Looking up the path of a live entry finds that entry. */
  lemma {:induction false} LookupFullPath(ps: State, dir: DirectoryMap, t: Tid)
    requires Agrees(ps, dir) && Grounded(ps, t) && Live(ps, t)
    ensures Lookup(dir, ROOT, FullPath(ps, t)) == Some(t)
    decreases Height(ps, t)
  {
    if t != ROOT {
      ParentLower(ps, t);
      LookupFullPath(ps, dir, ps[t].parent);
      LookupAppend(dir, ROOT, FullPath(ps, ps[t].parent), ps[t].name);
    }
  }

  /** What a lookup finds is live and has the path that was looked up. */
  lemma {:induction false} LookupSound(ps: State, dir: DirectoryMap, pth: seq<Name>, t: Tid)
    requires Tree(ps) && Agrees(ps, dir) && NO_NAME !in pth && Lookup(dir, ROOT, pth) == Some(t)
    ensures LiveAt(ps, t, pth)
    decreases |pth|
  {
    if pth == [] {
      assert Within(ps, ROOT, 0);
    } else {
      var front, n := pth[..|pth| - 1], pth[|pth| - 1];
      assert pth == front + [n];
      LookupAppend(dir, ROOT, front, n);
      var d := Lookup(dir, ROOT, front).value;
      LookupSound(ps, dir, front, d);
      assert ps[t].parent == d && ps[t].name == n;
      ParentLower(ps, t);
    }
  }

  /** Paths and live entries correspond one to one. */
  lemma LookupIffPath(ps: State, dir: DirectoryMap, pth: seq<Name>, t: Tid)
    requires Tree(ps) && Agrees(ps, dir) && NO_NAME !in pth
    ensures Lookup(dir, ROOT, pth) == Some(t) <==> LiveAt(ps, t, pth)
  {
    if LiveAt(ps, t, pth) {
      LookupFullPath(ps, dir, t);
    }
    if Lookup(dir, ROOT, pth) == Some(t) {
      LookupSound(ps, dir, pth, t);
    }
  }

  lemma {:induction false} LivePathNamed(ps: State, t: Tid)
    requires Grounded(ps, t)
    ensures Live(ps, t) <==> NO_NAME !in FullPath(ps, t)
    decreases Height(ps, t)
  {
    if t != ROOT {
      ParentLower(ps, t);
      LivePathNamed(ps, ps[t].parent);
    }
  }

  // ---- building the index ----

  /** The node of a directory, created when it is not there. */
  function WithNode(dir: DirectoryMap, t: Tid): DirectoryMap {
    if t in dir then dir else dir[t := map[]]
  }

  /** An insertion that leaves an existing entry of the same name alone. */
  function WithEntry(dir: DirectoryMap, d: Tid, name: Name, ty: Ptype, t: Tid): DirectoryMap {
    var e := WithNode(dir, d);
    var node: DirectoryNode := e[d];
    if name in node then e else
      var more: DirectoryNode := node[name := (ty, t)];
      e[d := more]
  }

  lemma WithNodeEntries(dir: DirectoryMap, t: Tid)
    ensures forall c, m :: EntryAt(WithNode(dir, t), c, m) == EntryAt(dir, c, m)
  {
  }

  lemma WithEntryEntries(dir: DirectoryMap, d: Tid, name: Name, ty: Ptype, t: Tid)
    ensures forall c, m :: EntryAt(WithEntry(dir, d, name, ty, t), c, m) ==
                           (if c == d && m == name && EntryAt(dir, d, name).None? then Some((ty, t)) else EntryAt(dir, c, m))
  {
    WithNodeEntries(dir, d);
  }

  lemma IndexOne(ps: State, dir: DirectoryMap, t: Tid)
    requires t in ps && Unique(ps) && OnlyEntries(ps, dir)
    ensures var e := WithEntry(dir, ps[t].parent, ps[t].name, ps[t].ty, t);
      OnlyEntries(ps, e) && Indexed(ps, e, t) && forall u :: u in ps && Indexed(ps, dir, u) ==> Indexed(ps, e, u)
  {
    hide EntryAt, WithEntry;
    WithEntryEntries(dir, ps[t].parent, ps[t].name, ps[t].ty, t);
  }

  lemma EmptyIndex(ps: State)
    ensures OnlyEntries(ps, map[])
  {
  }

  lemma NodeKeepsIndex(ps: State, dir: DirectoryMap, t: Tid)
    requires OnlyEntries(ps, dir)
    ensures OnlyEntries(ps, WithNode(dir, t))
    ensures forall u :: u in ps && Indexed(ps, dir, u) ==> Indexed(ps, WithNode(dir, t), u)
  {
    hide EntryAt, WithNode;
    WithNodeEntries(dir, t);
  }

  /** Fails exactly when the state is not accepted; otherwise every entry is indexed, null ones as far as there is room. */
  method BuildDirectoryMap(ps: State) returns (dir: Option<DirectoryMap>)
    ensures dir.Some? ==> Sane(ps, dir.value)
    ensures Tree(ps) && Unique(ps) && Shallow(ps) ==> dir.Some?
  {
    hide Within, Tree;
    var ok := SanityCheck(ps);
    if !ok {
      return None;
    }
    hide Unique, WithEntry, OnlyEntries, Indexed;
    var tids := Sorted(ps.Keys);
    var d: DirectoryMap := map[];
    EmptyIndex(ps);
    for k := 0 to |tids|
      invariant OnlyEntries(ps, d)
      invariant forall j :: 0 <= j < k ==> tids[j] in ps && Indexed(ps, d, tids[j])
    {
      var curr := tids[k];
      assert curr in ps;
      var item := ps[curr];
      IndexOne(ps, d, curr);
      d := WithEntry(d, item.parent, item.name, item.ty, curr);
      if item.ty.Directory? {
        NodeKeepsIndex(ps, d, curr);
        d := WithNode(d, curr);
      }
    }
    assert forall t :: t in ps ==> t in tids && Indexed(ps, d, t);
    dir := Some(d);
  }

  // ---- extending state and index together ----

  /** Every old item is unchanged. */
  ghost predicate Extends(ps: State, qs: State) {
    forall t :: t in ps ==> t in qs && qs[t] == ps[t]
  }

  lemma {:induction false} ExtendsWithin(ps: State, qs: State, t: Tid, n: nat)
    requires Extends(ps, qs) && Within(ps, t, n)
    ensures Within(qs, t, n)
    decreases n
  {
    if t != ROOT {
      ExtendsWithin(ps, qs, ps[t].parent, n - 1);
    }
  }

  /** A larger state gives every old entry the path it had. */
  lemma {:induction false} ExtendsPath(ps: State, qs: State, t: Tid)
    requires Extends(ps, qs) && Grounded(ps, t)
    ensures Grounded(qs, t) && FullPath(qs, t) == FullPath(ps, t) && (Live(qs, t) <==> Live(ps, t))
    decreases Height(ps, t)
  {
    ExtendsWithin(ps, qs, t, Height(ps, t));
    if t != ROOT {
      ParentLower(ps, t);
      ParentLower(qs, t);
      ExtendsPath(ps, qs, ps[t].parent);
    }
  }

  lemma AddItem(ps: State, t: Tid, item: Item)
    requires Tree(ps) && Unique(ps) && t !in ps && t != ROOT && ParentOk(ps, item)
    requires item.name == NO_NAME ==> item.parent == ROOT
    requires item.name != NO_NAME ==> forall s :: s in ps ==> !(ps[s].parent == item.parent && ps[s].name == item.name)
    ensures Extends(ps, ps[t := item]) && Tree(ps[t := item]) && Unique(ps[t := item])
  {
    var qs := ps[t := item];
    forall s | s in qs
      ensures Grounded(qs, s)
    {
      if s == t {
        assert item.parent != ROOT ==> Grounded(ps, item.parent);
        var n: nat :| Within(ps, item.parent, n) || item.parent == ROOT;
        if item.parent != ROOT {
          n := Height(ps, item.parent);
          ExtendsWithin(ps, qs, item.parent, n);
        }
        assert Within(qs, t, n + 1);
      } else {
        ExtendsWithin(ps, qs, s, Height(ps, s));
      }
    }
  }

  /** The item an entry of a directory gets. */
  function EntryItem(ps: State, dirTid: Tid, ty: Ptype, entry: Name): Item {
    if dirTid in ps && dirTid != ROOT && ps[dirTid].name == NO_NAME then Item(ROOT, ty, NO_NAME) else Item(dirTid, ty, entry)
  }

  lemma AddNull(ps: State, dir: DirectoryMap, t: Tid, ty: Ptype)
    requires Sane(ps, dir) && t !in ps && t != ROOT
    ensures var qs := ps[t := Item(ROOT, ty, NO_NAME)];
      Extends(ps, qs) && Sane(qs, dir)
  {
    hide EntryAt, Tree;
    AddItem(ps, t, Item(ROOT, ty, NO_NAME));
  }

  lemma NodeKeepsAgreement(ps: State, dir: DirectoryMap, t: Tid)
    requires Agrees(ps, dir)
    ensures Agrees(ps, WithNode(dir, t))
  {
    hide EntryAt, WithNode;
    WithNodeEntries(dir, t);
  }

  lemma FoundEntry(ps: State, dir: DirectoryMap, d: Tid, n: Name)
    requires Agrees(ps, dir) && EntryAt(dir, d, n).Some?
    ensures IsEntry(ps, d, n, EntryAt(dir, d, n).value)
  {
  }

  lemma AddNamed(ps: State, dir: DirectoryMap, t: Tid, item: Item)
    requires Sane(ps, dir) && t !in ps && t != ROOT && item.name != NO_NAME
    requires ParentOk(ps, item) && EntryAt(dir, item.parent, item.name).None?
    ensures var qs := ps[t := item];
      Extends(ps, qs) && Sane(qs, WithEntry(dir, item.parent, item.name, item.ty, t))
  {
    hide EntryAt, WithEntry, Tree;
    forall s | s in ps && ps[s].parent == item.parent
      ensures ps[s].name != item.name
    {
      assert Indexed(ps, dir, s);
    }
    AddItem(ps, t, item);
    WithEntryEntries(dir, item.parent, item.name, item.ty, t);
  }

  lemma EntryLive(ps: State, d: Tid, pth: seq<Name>, t: Tid, entry: Name)
    requires Tree(ps) && LiveAt(ps, d, pth) && t in ps && ps[t].parent == d && ps[t].name == entry != NO_NAME
    ensures LiveAt(ps, t, pth + [entry])
  {
    ParentLower(ps, t);
  }

  lemma ExtendsLive(ps: State, qs: State, t: Tid, pth: seq<Name>)
    requires Extends(ps, qs) && LiveAt(ps, t, pth)
    ensures LiveAt(qs, t, pth)
  {
    ExtendsPath(ps, qs, t);
  }

  lemma RootLive(ps: State)
    ensures LiveAt(ps, ROOT, [])
  {
    assert Within(ps, ROOT, 0);
  }

  predicate IsDirectory(ps: State, t: Tid) {
    t == ROOT || (t in ps && ps[t].ty.Directory?)
  }

  /** An entry of another state is accounted for: a null one, or one with a counterpart of its kind at its path. */
  ghost predicate HasCounterpart(from: State, t: Tid, ps: State)
    requires t in from && Tree(from)
  {
    from[t].name == NO_NAME || exists u :: u in ps && ps[u].ty == from[t].ty && LiveAt(ps, u, FullPath(from, t))
  }

  lemma CounterpartKept(from: State, t: Tid, ps: State, qs: State)
    requires t in from && Tree(from) && HasCounterpart(from, t, ps) && Extends(ps, qs)
    ensures HasCounterpart(from, t, qs)
  {
    if from[t].name != NO_NAME {
      var u :| u in ps && ps[u].ty == from[t].ty && LiveAt(ps, u, FullPath(from, t));
      ExtendsLive(ps, qs, u, FullPath(from, t));
    }
  }

  // ---- when an entry can be added ----

  ghost predicate NullDirectory(ps: State, d: Tid) {
    d != ROOT && d in ps && ps[d].name == NO_NAME
  }

  ghost predicate Listed(ps: State, d: Tid, n: Name, t: Tid) {
    t in ps && ps[t].parent == d && ps[t].name == n
  }

  /** No such directory, no name, or the name is taken by something of the other kind. */
  ghost predicate Refused(ps: State, d: Tid, ty: Ptype, n: Name) {
    || n == NO_NAME || (d != ROOT && d !in ps)
    || (!NullDirectory(ps, d) && exists t :: Listed(ps, d, n, t) && ps[t].ty != ty)
  }

  /** The entry is not there yet, so it takes a new number. */
  ghost predicate Missing(ps: State, d: Tid, n: Name) {
    NullDirectory(ps, d) || forall t :: !Listed(ps, d, n, t)
  }

  lemma EntryListed(ps: State, dir: DirectoryMap, d: Tid, n: Name)
    requires Agrees(ps, dir) && n != NO_NAME
    ensures EntryAt(dir, d, n).Some? ==>
      Listed(ps, d, n, EntryAt(dir, d, n).value.1) && ps[EntryAt(dir, d, n).value.1].ty == EntryAt(dir, d, n).value.0
    ensures forall t :: Listed(ps, d, n, t) ==> EntryAt(dir, d, n) == Some((ps[t].ty, t))
  {
    hide EntryAt;
    forall t | Listed(ps, d, n, t)
      ensures EntryAt(dir, d, n) == Some((ps[t].ty, t))
    {
      assert Indexed(ps, dir, t);
    }
    if EntryAt(dir, d, n).Some? {
      FoundEntry(ps, dir, d, n);
    }
  }

  /** The kind something at pth[..k] has to be for an entry of a kind to be at pth. */
  function KindOnWay(pth: seq<Name>, k: nat, ty: Ptype): Ptype {
    if k < |pth| then Directory else ty
  }

  /** Nothing at the path or above it is of the wrong kind. */
  ghost predicate Open(ps: State, pth: seq<Name>, ty: Ptype) {
    NO_NAME !in pth && forall k: nat, u :: 0 < k <= |pth| && u in ps && LiveAt(ps, u, pth[..k]) ==> ps[u].ty == KindOnWay(pth, k, ty)
  }

  ghost predicate FoundOnWay(ps: State, pth: seq<Name>, k: nat, ty: Ptype)
    requires k <= |pth|
  {
    exists u :: u in ps && LiveAt(ps, u, pth[..k]) && ps[u].ty == KindOnWay(pth, k, ty)
  }

  /** Made on the way to an entry of a kind: the entry itself, or a directory above it. */
  ghost predicate OnWay(ps: State, u: Tid, pth: seq<Name>, ty: Ptype) {
    exists k: nat :: 0 < k <= |pth| && LiveAt(ps, u, pth[..k]) && u in ps && ps[u].ty == KindOnWay(pth, k, ty)
  }

  /** What a larger state has at a path is what was there before, if it is one of the old items. */
  lemma ShrinksLive(ps: State, qs: State, t: Tid, pth: seq<Name>)
    requires Extends(ps, qs) && Tree(ps) && t in ps && LiveAt(qs, t, pth)
    ensures LiveAt(ps, t, pth)
  {
    ExtendsPath(ps, qs, t);
  }

  lemma OpenBefore(ps: State, qs: State, pth: seq<Name>, ty: Ptype)
    requires Extends(ps, qs) && Open(qs, pth, ty)
    ensures Open(ps, pth, ty)
  {
    hide LiveAt;
    forall k: nat, u | 0 < k <= |pth| && u in ps && LiveAt(ps, u, pth[..k])
      ensures ps[u].ty == KindOnWay(pth, k, ty)
    {
      ExtendsLive(ps, qs, u, pth[..k]);
      assert LiveAt(qs, u, pth[..k]);
    }
  }

  lemma OnWayKept(ps: State, qs: State, u: Tid, pth: seq<Name>, ty: Ptype)
    requires Extends(ps, qs) && OnWay(ps, u, pth, ty)
    ensures OnWay(qs, u, pth, ty)
  {
    hide LiveAt;
    var k: nat :| 0 < k <= |pth| && LiveAt(ps, u, pth[..k]) && u in ps && ps[u].ty == KindOnWay(pth, k, ty);
    ExtendsLive(ps, qs, u, pth[..k]);
  }

  /** A directory found or made at the next step of the way. */
  lemma StepOnWay(before: State, now: State, d: Tid, pth: seq<Name>, i: nat, t: Tid, ty: Ptype)
    requires Tree(now) && Extends(before, now) && i < |pth| && LiveAt(before, d, pth[..i])
    requires t in now && now[t] == Item(d, KindOnWay(pth, i + 1, ty), pth[i]) && pth[i] != NO_NAME
    ensures LiveAt(now, t, pth[..i + 1]) && OnWay(now, t, pth, ty)
  {
    ExtendsLive(before, now, d, pth[..i]);
    EntryLive(now, d, pth[..i], t, pth[i]);
    assert pth[..i + 1] == pth[..i] + [pth[i]];
  }

  /** On an open way the next step is refused only for want of a name. */
  lemma OpenStep(ps: State, now: State, d: Tid, pth: seq<Name>, i: nat, ty: Ptype)
    requires Tree(ps) && Tree(now) && Unique(now) && Extends(ps, now) && Open(ps, pth, ty)
    requires i < |pth| && LiveAt(now, d, pth[..i]) && (d != ROOT ==> d in now)
    requires forall u :: u in now && u !in ps ==> OnWay(now, u, pth, ty)
    ensures !Refused(now, d, KindOnWay(pth, i + 1, ty), pth[i])
  {
    hide OnWay;
    LiveNamed(now, d, pth[..i]);
    assert pth[i] in pth;
    forall t | Listed(now, d, pth[i], t)
      ensures now[t].ty == KindOnWay(pth, i + 1, ty)
    {
      EntryLive(now, d, pth[..i], t, pth[i]);
      assert pth[..i + 1] == pth[..i] + [pth[i]];
      if t in ps {
        ShrinksLive(ps, now, t, pth[..i + 1]);
      } else {
        KindFixed(now, t, pth, i + 1, ty);
      }
    }
  }

  lemma KindFixed(now: State, t: Tid, pth: seq<Name>, k: nat, ty: Ptype)
    requires OnWay(now, t, pth, ty) && k <= |pth| && LiveAt(now, t, pth[..k])
    ensures t in now && now[t].ty == KindOnWay(pth, k, ty)
  {
    var j: nat :| 0 < j <= |pth| && LiveAt(now, t, pth[..j]) && t in now && now[t].ty == KindOnWay(pth, j, ty);
    assert |pth[..j]| == |pth[..k]|;
  }

  /** What came to be at a path and above it shows that the way was open. */
  lemma OpenAfter(ps: State, now: State, pth: seq<Name>, ty: Ptype)
    requires Tree(now) && Unique(now) && Extends(ps, now) && NO_NAME !in pth
    requires forall k: nat :: 0 < k <= |pth| ==> FoundOnWay(now, pth, k, ty)
    ensures Open(ps, pth, ty)
  {
    hide LiveAt;
    forall k: nat, u | 0 < k <= |pth| && u in ps && LiveAt(ps, u, pth[..k])
      ensures ps[u].ty == KindOnWay(pth, k, ty)
    {
      ExtendsLive(ps, now, u, pth[..k]);
      assert FoundOnWay(now, pth, k, ty);
      var v :| v in now && LiveAt(now, v, pth[..k]) && now[v].ty == KindOnWay(pth, k, ty);
      SamePlace(now, u, v, pth[..k]);
    }
  }

  /** Up to i, everything on the way is there and of the kind it has to be. */
  ghost predicate AllOnWay(ps: State, pth: seq<Name>, i: nat, ty: Ptype)
    requires i <= |pth|
  {
    forall k: nat :: 0 < k <= i ==> FoundOnWay(ps, pth, k, ty)
  }

  lemma StepTaken(before: State, now: State, d: Tid, pth: seq<Name>, i: nat, t: Tid, ty: Ptype)
    requires Tree(now) && Extends(before, now) && i < |pth| && LiveAt(before, d, pth[..i]) && AllOnWay(before, pth, i, ty)
    requires t in now && now[t] == Item(d, KindOnWay(pth, i + 1, ty), pth[i]) && pth[i] != NO_NAME
    ensures LiveAt(now, t, pth[..i + 1]) && OnWay(now, t, pth, ty) && AllOnWay(now, pth, i + 1, ty)
  {
    hide LiveAt, Tree;
    StepOnWay(before, now, d, pth, i, t, ty);
    forall k: nat | 0 < k <= i
      ensures FoundOnWay(now, pth, k, ty)
    {
      assert FoundOnWay(before, pth, k, ty);
      var u :| u in before && LiveAt(before, u, pth[..k]) && before[u].ty == KindOnWay(pth, k, ty);
      ExtendsLive(before, now, u, pth[..k]);
      assert u in now && LiveAt(now, u, pth[..k]);
    }
  }

  lemma WholeWay(ps: State, now: State, t: Tid, pth: seq<Name>, ty: Ptype)
    requires Tree(now) && Unique(now) && Extends(ps, now) && LiveAt(now, t, pth) && AllOnWay(now, pth, |pth|, ty)
    ensures Open(ps, pth, ty)
  {
    hide LiveAt, Open;
    LiveNamed(now, t, pth);
    OpenAfter(ps, now, pth, ty);
  }

  lemma NoNameAtEnd(ps: State, pth: seq<Name>)
    ensures pth != [] && pth[|pth| - 1] == NO_NAME ==> forall ty :: !Open(ps, pth, ty)
  {
  }

  lemma OpenPrefix(ps: State, pth: seq<Name>, ty: Ptype)
    requires pth != []
    ensures Open(ps, pth, ty) ==> Open(ps, pth[..|pth| - 1], Directory)
  {
    hide LiveAt;
    var front := pth[..|pth| - 1];
    assert forall k: nat :: k <= |front| ==> front[..k] == pth[..k];
  }

  lemma PrefixOnWay(ps: State, pth: seq<Name>, ty: Ptype)
    requires pth != [] && AllOnWay(ps, pth[..|pth| - 1], |pth| - 1, Directory)
    ensures AllOnWay(ps, pth, |pth| - 1, ty)
  {
    hide LiveAt;
    var front := pth[..|pth| - 1];
    forall k: nat | 0 < k <= |front|
      ensures FoundOnWay(ps, pth, k, ty)
    {
      assert FoundOnWay(ps, front, k, Directory);
      var u :| u in ps && LiveAt(ps, u, front[..k]) && ps[u].ty == KindOnWay(front, k, Directory);
      assert front[..k] == pth[..k];
    }
  }

  lemma FurtherOnWay(ps: State, t: Tid, pth: seq<Name>, ty: Ptype)
    requires pth != [] && OnWay(ps, t, pth[..|pth| - 1], Directory)
    ensures OnWay(ps, t, pth, ty)
  {
    hide LiveAt;
    var front := pth[..|pth| - 1];
    var k: nat :| 0 < k <= |front| && LiveAt(ps, t, front[..k]) && t in ps && ps[t].ty == KindOnWay(front, k, Directory);
    assert front[..k] == pth[..k];
  }

  lemma SamePlace(ps: State, u: Tid, v: Tid, pth: seq<Name>)
    requires Unique(ps) && LiveAt(ps, u, pth) && LiveAt(ps, v, pth)
    ensures u == v
  {
    PathsDiffer(ps, u, v);
  }

  lemma LiveNamed(ps: State, t: Tid, pth: seq<Name>)
    requires Tree(ps) && LiveAt(ps, t, pth)
    ensures t != ROOT && t in ps ==> ps[t].name != NO_NAME
    ensures ROOT !in ps && NO_NAME !in pth
  {
    LivePathNamed(ps, t);
  }

  /** Whatever is missing from ps could be added at the path it has. */
  ghost predicate Receivable(from: State, ps: State)
    requires Tree(from)
  {
    forall t :: t in from && t !in ps && from[t].name != NO_NAME ==> Open(ps, FullPath(from, t), from[t].ty)
  }

  /** No deeper than the checks allow. */
  ghost predicate Shallow(ps: State) {
    forall t :: t in ps ==> Within(ps, t, MAX_PATH_DEPTH)
  }

  ghost predicate Fitted(from: State, t: Tid, ps: State)
    requires Tree(from) && t in from
  {
    from[t].name == NO_NAME || Open(ps, FullPath(from, t), from[t].ty)
  }

  lemma ReceivableOne(from: State, ps: State, t: Tid)
    requires Tree(from) && t in from && Receivable(from, ps)
    ensures t in ps || Fitted(from, t, ps)
  {
  }

  lemma AllFitted(from: State, ps: State, tids: seq<Tid>)
    requires Tree(from) && forall t :: t in tids <==> t in from
    requires forall j :: 0 <= j < |tids| ==> tids[j] in ps || Fitted(from, tids[j], ps)
    ensures Receivable(from, ps)
  {
    forall t | t in from && t !in ps
      ensures Fitted(from, t, ps)
    {
      assert t in tids;
    }
  }

  lemma FittedBefore(from: State, t: Tid, ps: State, qs: State)
    requires Tree(from) && t in from && Extends(ps, qs) && Fitted(from, t, qs)
    ensures Fitted(from, t, ps)
  {
    hide Open;
    if from[t].name != NO_NAME {
      OpenBefore(ps, qs, FullPath(from, t), from[t].ty);
    }
  }

  lemma ReceivedOne(from: State, before: State, now: State, t: Tid)
    requires Tree(from) && Unique(from) && Tree(before) && Extends(before, now) && Receivable(from, before) && t in from
    requires forall u :: u in now && u !in before ==>
      t !in before && from[t].name != NO_NAME && OnWay(now, u, FullPath(from, t), from[t].ty)
    ensures Receivable(from, now)
  {
    hide OnWay, Open, Tree, Unique;
    if u :| u in now && u !in before {
      ReceivableOne(from, before, t);
      OpenNamed(from, before, t);
      StillReceivable(from, before, now, t);
    } else {
      assert now == before;
    }
  }

  lemma OpenNamed(from: State, ps: State, t: Tid)
    requires Tree(from) && t in from && Open(ps, FullPath(from, t), from[t].ty)
    ensures Live(from, t)
  {
    LivePathNamed(from, t);
  }

  lemma PathNotEmpty(ps: State, t: Tid)
    requires Tree(ps) && t in ps
    ensures FullPath(ps, t) != []
  {
    ParentLower(ps, t);
  }

  /** A tree has something of the right kind at every step of the way to a live entry. */
  lemma {:induction false} EntryOnWay(ps: State, t: Tid, k: nat) returns (s: Tid)
    requires Tree(ps) && t in ps && Live(ps, t) && 0 < k <= |FullPath(ps, t)|
    ensures s in ps && LiveAt(ps, s, FullPath(ps, t)[..k]) && ps[s].ty == KindOnWay(FullPath(ps, t), k, ps[t].ty)
    decreases Height(ps, t)
  {
    var p := FullPath(ps, t);
    if k == |p| {
      assert p[..k] == p;
      s := t;
    } else {
      ParentLower(ps, t);
      var front := FullPath(ps, ps[t].parent);
      s := EntryOnWay(ps, ps[t].parent, k);
      assert front[..k] == p[..k];
    }
  }

  /** Making one missing entry does not stand in the way of the others. */
  lemma StillReceivable(from: State, before: State, now: State, t: Tid)
    requires Tree(from) && Unique(from) && Tree(before) && Extends(before, now) && Receivable(from, before)
    requires t in from && Live(from, t) && t !in before
    requires forall u :: u in now && u !in before ==> OnWay(now, u, FullPath(from, t), from[t].ty)
    ensures Receivable(from, now)
  {
    hide LiveAt, Live, FullPath, Unique, OnWay;
    forall s | s in from && s !in now && from[s].name != NO_NAME
      ensures Open(now, FullPath(from, s), from[s].ty)
    {
      var q := FullPath(from, s);
      assert Open(before, q, from[s].ty);
      forall k: nat, u | 0 < k <= |q| && u in now && LiveAt(now, u, q[..k])
        ensures now[u].ty == KindOnWay(q, k, from[s].ty)
      {
        if u in before {
          ShrinksLive(before, now, u, q[..k]);
        } else {
          SameKind(from, now, t, s, k, u);
        }
      }
    }
  }

  lemma SameKind(from: State, now: State, t: Tid, s: Tid, k: nat, u: Tid)
    requires Tree(from) && Unique(from) && t in from && Live(from, t) && s in from && NO_NAME !in FullPath(from, s)
    requires OnWay(now, u, FullPath(from, t), from[t].ty) && 0 < k <= |FullPath(from, s)| && LiveAt(now, u, FullPath(from, s)[..k])
    ensures u in now && now[u].ty == KindOnWay(FullPath(from, s), k, from[s].ty)
  {
    hide Unique;
    var p, q := FullPath(from, t), FullPath(from, s);
    var j: nat :| 0 < j <= |p| && LiveAt(now, u, p[..j]) && u in now && now[u].ty == KindOnWay(p, j, from[t].ty);
    assert p[..j] == q[..k] && |p[..j]| == |q[..k]|;
    LivePathNamed(from, s);
    var a := EntryOnWay(from, t, j);
    var b := EntryOnWay(from, s, k);
    SamePlace(from, a, b, q[..k]);
  }

  lemma {:induction false} PathLength(ps: State, t: Tid, n: nat)
    requires Within(ps, t, n)
    ensures Grounded(ps, t) && |FullPath(ps, t)| <= n
    decreases n
  {
    if t != ROOT {
      ParentLower(ps, t);
      PathLength(ps, ps[t].parent, n - 1);
    }
  }

  class TidSource {
    var ctr: Tid

    constructor ()
      ensures ctr == ROOT + 1
    {
      ctr := ROOT + 1;
    }

    method Next() returns (t: Option<Tid>)
      modifies this
      ensures t == if old(ctr) == LAST_TID then None else Some(old(ctr))
      ensures ctr == if t.Some? then old(ctr) + 1 else old(ctr)
    {
      if ctr == LAST_TID {
        return None;
      }
      t := Some(ctr);
      ctr := ctr + 1;
    }
  }

  /** One side of a path analysis under construction: a state and its index. */
  class Half {
    var state: State
    var dmap: DirectoryMap

    ghost predicate Valid()
      reads this
    {
      Sane(state, dmap)
    }

    /** The numbers still to be handed out are unused. */
    ghost predicate Below(ts: TidSource)
      reads this, ts
    {
      ts.ctr != ROOT && forall t :: t in state ==> t < ts.ctr
    }

    constructor ()
      ensures Valid() && state == map[] && dmap == map[]
    {
      state, dmap := map[], map[];
    }

    /** An entry of a directory, found or made; below a null directory, a new null entry at the root. */
    method EnsureEntry(dirTid: Tid, entryTy: Ptype, entry: Name, ts: TidSource) returns (r: Option<Tid>)
      requires Valid() && Below(ts) && (dirTid in state ==> state[dirTid].ty.Directory?)
      modifies this, ts
      ensures Valid() && Below(ts) && old(ts.ctr) <= ts.ctr
      ensures Extends(old(state), state)
      ensures r.Some? ==> r.value in state && entry != NO_NAME && (dirTid == ROOT || dirTid in old(state))
      ensures r.Some? ==> state[r.value] == EntryItem(old(state), dirTid, entryTy, entry)
      ensures state == old(state) || (r.Some? && r.value !in old(state) && state == old(state)[r.value := state[r.value]])
      ensures r.None? ==> state == old(state)
      ensures r.None? <==>
        old(Refused(state, dirTid, entryTy, entry)) || (old(Missing(state, dirTid, entry)) && old(ts.ctr) == LAST_TID)
      ensures ts.ctr == old(ts.ctr) + if r.Some? && old(Missing(state, dirTid, entry)) then 1 else 0
      ensures forall t :: t in state ==> t in old(state) || t >= old(ts.ctr)
    {
      hide EntryAt, WithEntry, WithNode, Tree, Unique, Agrees;
      if entry == NO_NAME {
        return None;
      }
      if dirTid != ROOT {
        if dirTid !in state {
          return None;
        }
        if state[dirTid].name == NO_NAME {
          r := ts.Next();
          if r.Some? {
            AddNull(state, dmap, r.value, entryTy);
            state := state[r.value := Item(ROOT, entryTy, NO_NAME)];
          }
          return;
        }
      }
      NodeKeepsAgreement(state, dmap, dirTid);
      dmap := WithNode(dmap, dirTid);
      EntryListed(state, dmap, dirTid, entry);
      var found := EntryAt(dmap, dirTid, entry);
      if found.Some? {
        if found.value.0 != entryTy {
          return None;
        }
        FoundEntry(state, dmap, dirTid, entry);
        r := Some(found.value.1);
      } else {
        r := ts.Next();
        if r.Some? {
          AddNamed(state, dmap, r.value, Item(dirTid, entryTy, entry));
          state := state[r.value := Item(dirTid, entryTy, entry)];
          dmap := WithEntry(dmap, dirTid, entry, entryTy, r.value);
        }
      }
    }

    /** The directory at a path, made with whatever is missing above it; no existing path changes. */
    method EnsureDirInMap(pth: seq<Name>, ts: TidSource) returns (r: Option<Tid>)
      requires Valid() && Below(ts)
      modifies this, ts
      ensures Valid() && Below(ts) && old(ts.ctr) <= ts.ctr <= old(ts.ctr) + |pth| && Extends(old(state), state)
      ensures r.Some? ==> IsDirectory(state, r.value) && LiveAt(state, r.value, pth)
      ensures r.Some? ==> Open(old(state), pth, Directory) && AllOnWay(state, pth, |pth|, Directory)
      ensures Open(old(state), pth, Directory) && old(ts.ctr) + |pth| <= LAST_TID ==> r.Some?
      ensures forall t :: t in state && t !in old(state) ==> t >= old(ts.ctr) && OnWay(state, t, pth, Directory)
    {
      hide Tree, Unique, Agrees, LiveAt, Open, OnWay, Refused, Missing;
      var dirTid := ROOT;
      RootLive(state);
      assert pth[..0] == [];
      var i := 0;
      while i < |pth|
        invariant 0 <= i <= |pth| && Valid() && Below(ts) && old(ts.ctr) <= ts.ctr <= old(ts.ctr) + i && Extends(old(state), state)
        invariant IsDirectory(state, dirTid) && LiveAt(state, dirTid, pth[..i])
        invariant forall t :: t in state && t !in old(state) ==> t >= old(ts.ctr) && OnWay(state, t, pth, Directory)
        invariant AllOnWay(state, pth, i, Directory)
      {
        ghost var before := state;
        LiveNamed(before, dirTid, pth[..i]);
        r := EnsureEntry(dirTid, Directory, pth[i], ts);
        if r.None? {
          if Open(old(state), pth, Directory) {
            OpenStep(old(state), before, dirTid, pth, i, Directory);
          }
          return;
        }
        StepTaken(before, state, dirTid, pth, i, r.value, Directory);
        forall t | t in before && t !in old(state)
          ensures OnWay(state, t, pth, Directory)
        {
          OnWayKept(before, state, t, pth, Directory);
        }
        dirTid, i := r.value, i + 1;
      }
      assert pth[..i] == pth;
      WholeWay(old(state), state, dirTid, pth, Directory);
      r := Some(dirTid);
    }

    method EnsureFileInMap(pth: seq<Name>, ts: TidSource) returns (r: Option<Tid>)
      requires Valid() && Below(ts)
      modifies this, ts
      ensures Valid() && Below(ts) && old(ts.ctr) <= ts.ctr <= old(ts.ctr) + |pth| && Extends(old(state), state)
      ensures r.Some? ==> r.value in state && state[r.value].ty.File? && LiveAt(state, r.value, pth)
      ensures r.Some? ==> Open(old(state), pth, File)
      ensures pth != [] && Open(old(state), pth, File) && old(ts.ctr) + |pth| <= LAST_TID ==> r.Some?
      ensures forall t :: t in state && t !in old(state) ==> t >= old(ts.ctr) && OnWay(state, t, pth, File)
    {
      hide Tree, Unique, Agrees, LiveAt, Open, OnWay, Refused, Missing;
      if pth == [] || pth[|pth| - 1] == NO_NAME {
        NoNameAtEnd(state, pth);
        return None;
      }
      var prefix, leaf := pth[..|pth| - 1], pth[|pth| - 1];
      var dir := EnsureDirInMap(prefix, ts);
      ghost var before := state;
      forall t | t in before && t !in old(state)
        ensures OnWay(before, t, pth, File)
      {
        FurtherOnWay(before, t, pth, File);
      }
      if dir.None? {
        OpenPrefix(old(state), pth, File);
        return None;
      }
      LiveNamed(before, dir.value, prefix);
      r := EnsureEntry(dir.value, File, leaf, ts);
      if r.None? {
        if Open(old(state), pth, File) {
          OpenStep(old(state), before, dir.value, pth, |pth| - 1, File);
        }
        return;
      }
      PrefixOnWay(before, pth, File);
      StepTaken(before, state, dir.value, pth, |pth| - 1, r.value, File);
      forall t | t in before && t !in old(state)
        ensures OnWay(state, t, pth, File)
      {
        OnWayKept(before, state, t, pth, File);
      }
      assert pth[..|pth|] == pth;
      WholeWay(old(state), state, r.value, pth, File);
    }

    /** Every entry of the other half gets a counterpart in this one; what was here keeps its number and path. */
    method EnsureEntriesExist(other: Half, ts: TidSource) returns (ok: bool)
      requires this != other && Valid() && Below(ts) && other.Valid() && other.Below(ts)
      modifies this, ts
      ensures Valid() && Below(ts) && Extends(old(state), state)
      ensures ok ==> forall t :: t in other.state ==> t in old(state) || HasCounterpart(other.state, t, state)
      ensures ok ==> Receivable(other.state, old(state))
      ensures Receivable(other.state, old(state)) && Shallow(other.state) && old(ts.ctr) + MAX_PATH_DEPTH * |other.state| <= LAST_TID
        ==> ok
    {
      hide Tree, Unique, Agrees, HasCounterpart, Extends, Grounded, Open, Receivable, Within, OnWay;
      var tids := Sorted(other.state.Keys);
      ExtendsSelf(state);
      var k := 0;
      while k < |tids|
        invariant 0 <= k <= |tids| && Valid() && Below(ts) && Extends(old(state), state)
        invariant other.state == old(other.state) && old(ts.ctr) <= ts.ctr
        invariant Shallow(other.state) ==> ts.ctr <= old(ts.ctr) + MAX_PATH_DEPTH * k
        invariant Receivable(other.state, old(state)) ==> Receivable(other.state, state)
        invariant forall t :: t in state ==> t in old(state) || t >= old(ts.ctr)
        invariant forall j :: 0 <= j < k ==> tids[j] in old(state) || HasCounterpart(other.state, tids[j], state)
        invariant forall j :: 0 <= j < k ==> tids[j] in old(state) || Fitted(other.state, tids[j], old(state))
      {
        ghost var before := state;
        ok := EnsureCounterpart(other, tids[k], ts);
        ExtendsTransitive(old(state), before, state);
        if Shallow(other.state) {
          PathLength(other.state, tids[k], MAX_PATH_DEPTH);
        }
        if !ok {
          if Receivable(other.state, before) {
            ReceivableOne(other.state, before, tids[k]);
          }
          return;
        }
        if Receivable(other.state, before) {
          ReceivedOne(other.state, before, state, tids[k]);
        }
        if tids[k] !in before {
          FittedBefore(other.state, tids[k], old(state), before);
        }
        forall j | 0 <= j < k && HasCounterpart(other.state, tids[j], before)
          ensures HasCounterpart(other.state, tids[j], state)
        {
          CounterpartKept(other.state, tids[j], before, state);
        }
        k := k + 1;
      }
      AllFitted(other.state, old(state), tids);
      ok := true;
    }

    /** One entry of the other half that is not here gets a counterpart at its path, if the way to it is open. */
    method EnsureCounterpart(other: Half, t: Tid, ts: TidSource) returns (ok: bool)
      requires this != other && Valid() && Below(ts) && other.Valid() && other.Below(ts) && t in other.state
      modifies this, ts
      ensures Valid() && Below(ts) && Extends(old(state), state)
      ensures old(ts.ctr) <= ts.ctr <= old(ts.ctr) + |FullPath(other.state, t)|
      ensures ok ==> t in old(state) || (HasCounterpart(other.state, t, state) && Fitted(other.state, t, old(state)))
      ensures (t in old(state) || Fitted(other.state, t, old(state))) && old(ts.ctr) + |FullPath(other.state, t)| <= LAST_TID
        ==> ok
      ensures forall u :: u in state && u !in old(state) ==>
        u >= old(ts.ctr) && t !in old(state) && other.state[t].name != NO_NAME && OnWay(state, u, FullPath(other.state, t), other.state[t].ty)
    {
      hide Unique, Agrees, Within, LiveAt, Open, OnWay;
      if t in state || other.state[t].name == NO_NAME {
        return true;
      }
      var full := GetFullPath(other.state, t);
      PathNotEmpty(other.state, t);
      if other.state[t].ty == Directory {
        var u := EnsureDirInMap(full, ts);
        ok := u.Some?;
        if ok {
          NotRoot(other.state, t, state, u.value);
        }
      } else {
        var u := EnsureFileInMap(full, ts);
        ok := u.Some?;
      }
    }

    lemma NotRoot(from: State, t: Tid, ps: State, u: Tid)
      requires Tree(from) && t in from && LiveAt(ps, u, FullPath(from, t))
      ensures u != ROOT
    {
      ParentLower(from, t);
      assert |FullPath(from, t)| > 0;
    }

    lemma ExtendsSelf(ps: State)
      ensures Extends(ps, ps)
    {
    }

    lemma ExtendsTransitive(ps: State, qs: State, rs: State)
      requires Extends(ps, qs) && Extends(qs, rs)
      ensures Extends(ps, rs)
    {
    }
  }
}
