// Path states of change_set.cc: a tree held as tid -> (parent, type, name), its paths, and the checks that
// accept only trees with unique entries.
module PathStates {
  import opened Wrappers
  import opened Digraph

  type Tid = nat

  /** An interned path component; zero is the null name. */
  type Name = nat

  const ROOT: Tid := 0
  const NO_NAME: Name := 0

  datatype Ptype = Directory | File

  datatype Item = Item(parent: Tid, ty: Ptype, name: Name)

  type State = map<Tid, Item>

  /** The root can be reached from t in at most n steps. */
  ghost predicate Within(ps: State, t: Tid, n: nat)
    decreases n
  {
    t == ROOT || (n > 0 && t in ps && Within(ps, ps[t].parent, n - 1))
  }

  ghost predicate Grounded(ps: State, t: Tid) {
    exists n: nat :: Within(ps, t, n)
  }

  /** What the checks demand of an item's parent: the root or a known directory, null if the item is null. */
  ghost predicate ParentOk(ps: State, item: Item) {
    item.parent == ROOT ||
    (item.parent in ps && ps[item.parent].ty.Directory? && (item.name == NO_NAME ==> ps[item.parent].name == NO_NAME))
  }

  ghost predicate ParentsOk(ps: State) {
    ROOT !in ps && forall t :: t in ps ==> ParentOk(ps, ps[t])
  }

  ghost predicate Tree(ps: State) {
    ParentsOk(ps) && forall t :: t in ps ==> Grounded(ps, t)
  }

  ghost predicate Unique(ps: State) {
    && (forall t :: t in ps && ps[t].name == NO_NAME ==> ps[t].parent == ROOT)
    && (forall s, t :: s in ps && t in ps && ps[s].name == ps[t].name != NO_NAME && ps[s].parent == ps[t].parent ==> s == t)
  }

  lemma {:induction false} WithinMonotone(ps: State, t: Tid, m: nat, n: nat)
    requires Within(ps, t, m) && m <= n
    ensures Within(ps, t, n)
    decreases m
  {
    if t != ROOT {
      WithinMonotone(ps, ps[t].parent, m - 1, n - 1);
    }
  }

  ghost function Least(ps: State, t: Tid, m: nat): (n: nat)
    requires Within(ps, t, m)
    ensures Within(ps, t, n) && (n > 0 ==> !Within(ps, t, n - 1))
  {
    if m > 0 && Within(ps, t, m - 1) then Least(ps, t, m - 1) else m
  }

  /** The number of steps from t up to the root. */
  ghost function Height(ps: State, t: Tid): (n: nat)
    requires Grounded(ps, t)
    ensures Within(ps, t, n) && (n > 0 ==> !Within(ps, t, n - 1))
  {
    var m: nat :| Within(ps, t, m);
    Least(ps, t, m)
  }

  lemma ParentLower(ps: State, t: Tid)
    requires Grounded(ps, t) && t != ROOT
    ensures t in ps && Grounded(ps, ps[t].parent) && Height(ps, ps[t].parent) < Height(ps, t)
  {
    var n := Height(ps, t);
    assert Within(ps, ps[t].parent, n - 1);
    var h := Height(ps, ps[t].parent);
    if h >= n {
      WithinMonotone(ps, ps[t].parent, n - 1, h - 1);
    }
  }

  ghost function ParentEdges(ps: State): set<(Tid, Tid)> {
    set t | t in ps :: (t, ps[t].parent)
  }

  /** Going up terminates exactly when there is no cycle of parents. */
  lemma TreeIffAcyclic(ps: State)
    ensures Tree(ps) <==> ParentsOk(ps) && Acyclic<Tid>(ParentEdges(ps))
  {
    if Tree(ps) {
      TreeAcyclic(ps);
    }
    if ParentsOk(ps) && Acyclic<Tid>(ParentEdges(ps)) {
      var rank := AcyclicRanked<Tid>(ParentEdges(ps));
      forall t | t in ps
        ensures Grounded(ps, t)
      {
        RankedWithin(ps, rank, t);
      }
    }
  }

  lemma TreeAcyclic(ps: State)
    requires Tree(ps)
    ensures Acyclic<Tid>(ParentEdges(ps))
  {
    var rank: Tid -> nat := t => if Grounded(ps, t) then Height(ps, t) else 0;
    forall t: Tid, p: Tid | (t, p) in ParentEdges(ps)
      ensures rank(p) < rank(t)
    {
      ParentLower(ps, t);
    }
    RankedAcyclic<Tid>(ParentEdges(ps), rank);
  }

  lemma {:induction false} RankedWithin(ps: State, rank: Tid -> nat, t: Tid)
    requires ParentsOk(ps) && Ranked<Tid>(ParentEdges(ps), rank) && t in ps
    ensures Within(ps, t, rank(t) + 1)
    decreases rank(t)
  {
    var p := ps[t].parent;
    assert (t, p) in ParentEdges(ps);
    if p in ps {
      RankedWithin(ps, rank, p);
      WithinMonotone(ps, p, rank(p) + 1, rank(t));
    }
  }

  // ---- paths ----

  /** The names from the root down to t. */
  ghost function FullPath(ps: State, t: Tid): seq<Name>
    requires Grounded(ps, t)
    decreases Height(ps, t)
  {
    if t == ROOT then [] else
      ParentLower(ps, t);
      FullPath(ps, ps[t].parent) + [ps[t].name]
  }

  /** No name on the way down to t is null. */
  ghost predicate Live(ps: State, t: Tid)
    requires Grounded(ps, t)
    decreases Height(ps, t)
  {
    t == ROOT || (ParentLower(ps, t); ps[t].name != NO_NAME && Live(ps, ps[t].parent))
  }

  /** Different live entries have different paths. */
  lemma {:induction false} PathsDiffer(ps: State, s: Tid, t: Tid)
    requires Unique(ps) && Grounded(ps, s) && Grounded(ps, t) && Live(ps, s) && Live(ps, t)
    requires FullPath(ps, s) == FullPath(ps, t)
    ensures s == t
    decreases Height(ps, s)
  {
    if s != ROOT && t != ROOT {
      ParentLower(ps, s);
      ParentLower(ps, t);
      var p, q := FullPath(ps, s), FullPath(ps, t);
      assert p[..|p| - 1] == FullPath(ps, ps[s].parent) && q[..|q| - 1] == FullPath(ps, ps[t].parent);
      assert p[|p| - 1] == ps[s].name && q[|q| - 1] == ps[t].name;
      PathsDiffer(ps, ps[s].parent, ps[t].parent);
    }
  }

  method GetFullPath(ps: State, t: Tid) returns (pth: seq<Name>)
    requires Grounded(ps, t)
    ensures pth == FullPath(ps, t)
  {
    var tmp: seq<Name> := [];
    var u := t;
    while u != ROOT
      invariant Grounded(ps, u) && FullPath(ps, t) == FullPath(ps, u) + Backwards(tmp)
      decreases Height(ps, u)
    {
      ParentLower(ps, u);
      assert Backwards(tmp + [ps[u].name]) == [ps[u].name] + Backwards(tmp);
      tmp := tmp + [ps[u].name];
      u := ps[u].parent;
    }
    pth := Backwards(tmp);
  }

  /** The reversed copy that turns names collected upwards into a path. */
  function Backwards(s: seq<Name>): seq<Name> {
    seq(|s|, i requires 0 <= i < |s| => s[|s| - 1 - i])
  }

  // ---- the sanity checks ----

  function InsertTid(k: Tid, s: seq<Tid>): (r: seq<Tid>)
    requires forall i, j :: 0 <= i < j < |s| ==> s[i] < s[j]
    requires k !in s
    ensures forall i, j :: 0 <= i < j < |r| ==> r[i] < r[j]
    ensures |r| == |s| + 1 && forall x :: x in r <==> x == k || x in s
  {
    if s == [] || k < s[0] then
      assert forall x :: x in s ==> k < x;
      [k] + s
    else
      TailGreater(s);
      var rest := InsertTid(k, s[1..]);
      assert forall x :: x in rest ==> s[0] < x;
      assert forall j :: 0 <= j < |rest| ==> rest[j] in rest;
      [s[0]] + rest
  }

  lemma TailGreater(s: seq<Tid>)
    requires s != [] && forall i, j :: 0 <= i < j < |s| ==> s[i] < s[j]
    ensures forall x :: x in s[1..] ==> s[0] < x
    ensures forall x :: x in s <==> x == s[0] || x in s[1..]
  {
  }

  /** The keys of a map in the order in which it is traversed. */
  method Sorted(keys: set<nat>) returns (tids: seq<nat>)
    ensures forall i, j :: 0 <= i < j < |tids| ==> tids[i] < tids[j]
    ensures |tids| == |keys| && forall t :: t in tids <==> t in keys
  {
    tids := [];
    var left := keys;
    while left != {}
      invariant left <= keys && |tids| + |left| == |keys|
      invariant forall i, j :: 0 <= i < j < |tids| ==> tids[i] < tids[j]
      invariant forall t :: t in tids <==> t in keys && t !in left
      decreases |left|
    {
      var t :| t in left;
      left := left - {t};
      tids := InsertTid(t, tids);
    }
  }

  /** The first k keys of a traversal. */
  ghost function Passed(tids: seq<Tid>, k: nat): set<Tid>
    requires k <= |tids|
  {
    set i | 0 <= i < k :: tids[i]
  }

  lemma PassOne(tids: seq<Tid>, k: nat)
    requires k < |tids| && forall i, j :: 0 <= i < j < |tids| ==> tids[i] < tids[j]
    ensures tids[k] !in Passed(tids, k) && Passed(tids, k + 1) == Passed(tids, k) + {tids[k]}
  {
    var more := Passed(tids, k) + {tids[k]};
    forall t | t in Passed(tids, k + 1)
      ensures t in more
    {
      var i :| 0 <= i < k + 1 && tids[i] == t;
      assert i == k || t in Passed(tids, k);
    }
  }

  lemma NonePassed(tids: seq<Tid>)
    ensures Passed(tids, 0) == {}
  {
  }

  lemma PassedKnown(tids: seq<Tid>, k: nat, keys: set<Tid>)
    requires k <= |tids| && forall t :: t in tids <==> t in keys
    ensures Passed(tids, k) <= keys
  {
  }

  lemma PassAll(tids: seq<Tid>, keys: set<Tid>)
    requires forall t :: t in tids <==> t in keys
    ensures Passed(tids, |tids|) == keys
  {
    forall t | t in keys
      ensures t in Passed(tids, |tids|)
    {
      var i :| 0 <= i < |tids| && tids[i] == t;
    }
  }

  /** A tid marked as checked is a directory from which the root is reached. */
  ghost predicate CheckedOk(ps: State, checked: seq<bool>, minTid: Tid) {
    && (forall t :: t in ps ==> minTid <= t < minTid + |checked|)
    && (forall i: nat :: i < |checked| && checked[i] ==>
          minTid + i in ps && ps[minTid + i].ty.Directory? && Grounded(ps, minTid + i))
  }

  /** None is a failed check; a tid outside the table of checked tids counts as one. */
  method CheckDepth(ps: State, p: Item, ttl: nat, checked: array<bool>, minTid: Tid) returns (r: Option<bool>)
    requires CheckedOk(ps, checked[..], minTid)
    modifies checked
    ensures CheckedOk(ps, checked[..], minTid)
    ensures r == Some(true) ==> ParentOk(ps, p) && Grounded(ps, p.parent)
    ensures ParentsOk(ps) && ParentOk(ps, p) && ttl > 0 && Within(ps, p.parent, ttl - 1) ==> r == Some(true)
    decreases ttl
  {
    if ttl == 0 {
      return Some(false);
    }
    if p.parent == ROOT {
      assert Within(ps, ROOT, 0);
      return Some(true);
    }
    if p.name != NO_NAME {
      if p.parent < minTid || p.parent - minTid >= checked.Length {
        return None;
      }
      if checked[p.parent - minTid] {
        assert checked[..][p.parent - minTid];
        return Some(true);
      }
    }
    if p.parent !in ps || !ps[p.parent].ty.Directory? {
      return None;
    }
    var par := ps[p.parent];
    if p.name == NO_NAME && par.name != NO_NAME {
      return None;
    }
    r := CheckDepth(ps, par, ttl - 1, checked, minTid);
    if r.Some? {
      if r.value {
        ghost var n: nat :| Within(ps, par.parent, n);
        assert Within(ps, p.parent, n + 1);
      }
      checked[p.parent - minTid] := r.value;
    }
  }

  /** Whatever is accepted is a tree, and every tree no deeper than the limit is accepted. */
  method ConfirmProperTree(ps: State, maxDepth: nat) returns (ok: bool)
    ensures ok ==> Tree(ps)
    ensures Tree(ps) && (forall t :: t in ps ==> Within(ps, t, maxDepth)) ==> ok
  {
    if ps == map[] {
      return true;
    }
    if ROOT in ps {
      return false;
    }
    var tids := Sorted(ps.Keys);
    assert tids != [] by {
      var t :| t in ps;
      assert t in tids;
    }
    var minTid, maxTid := tids[0], tids[|tids| - 1];
    var checked := new bool[maxTid - minTid + 1](_ => false);
    ok := CheckAll(ps, maxDepth, tids, minTid, checked);
  }

  method CheckAll(ps: State, maxDepth: nat, tids: seq<Tid>, minTid: Tid, checked: array<bool>) returns (ok: bool)
    requires ROOT !in ps && (forall t :: t in tids <==> t in ps)
    requires CheckedOk(ps, checked[..], minTid)
    modifies checked
    ensures ok ==> Tree(ps)
    ensures Tree(ps) && (forall t :: t in ps ==> Within(ps, t, maxDepth)) ==> ok
  {
    for k := 0 to |tids|
      invariant CheckedOk(ps, checked[..], minTid)
      invariant forall j :: 0 <= j < k ==> ParentOk(ps, ps[tids[j]]) && Grounded(ps, tids[j])
    {
      var t := tids[k];
      assert t in ps;
      var r := CheckDepth(ps, ps[t], maxDepth, checked, minTid);
      if r != Some(true) {
        return false;
      }
      ghost var n: nat :| Within(ps, ps[t].parent, n);
      assert Within(ps, t, n + 1);
    }
    ok := true;
  }

  // ---- unique entries ----

  type Entry = (Tid, Name)

  predicate EntryLess(a: Entry, b: Entry) {
    a.0 < b.0 || (a.0 == b.0 && a.1 < b.1)
  }

  /** Neither an earlier entry nor the same one again comes after an entry. */
  ghost predicate SortedEntries(s: seq<Entry>) {
    forall i, j :: 0 <= i < j < |s| ==> !EntryLess(s[j], s[i])
  }

  function InsertEntry(e: Entry, s: seq<Entry>): (r: seq<Entry>)
    requires SortedEntries(s)
    ensures SortedEntries(r) && (forall x :: x in r <==> x == e || x in s)
    ensures multiset(r) == multiset(s) + multiset{e}
  {
    if s == [] || !EntryLess(s[0], e) then
      assert forall x :: x in s ==> !EntryLess(x, e);
      [e] + s
    else
      SplitEntries(s);
      var rest := InsertEntry(e, s[1..]);
      assert forall x :: x in rest ==> !EntryLess(x, s[0]);
      [s[0]] + rest
  }

  lemma SplitEntries(s: seq<Entry>)
    requires s != []
    ensures (forall x :: x in s <==> x == s[0] || x in s[1..]) && multiset(s) == multiset{s[0]} + multiset(s[1..])
    ensures SortedEntries(s) ==> SortedEntries(s[1..])
  {
    assert s == [s[0]] + s[1..];
  }

  function SortEntries(s: seq<Entry>): (r: seq<Entry>)
    ensures SortedEntries(r) && multiset(r) == multiset(s)
  {
    if s == [] then [] else
      SplitEntries(s);
      InsertEntry(s[0], SortEntries(s[1..]))
  }

  ghost predicate Distinct(s: seq<Entry>) {
    forall i, j :: 0 <= i < j < |s| ==> s[i] != s[j]
  }

  lemma {:induction false} DistinctIffCounts(s: seq<Entry>)
    ensures Distinct(s) <==> forall x :: multiset(s)[x] <= 1
  {
    if s != [] {
      SplitEntries(s);
      DistinctIffCounts(s[1..]);
      if Distinct(s) {
        assert s[0] !in s[1..];
      } else {
        var i, j :| 0 <= i < j < |s| && s[i] == s[j];
        if i > 0 {
          assert s[1..][i - 1] == s[1..][j - 1];
          var x :| multiset(s[1..])[x] > 1;
          assert multiset(s)[x] > 1;
        } else {
          assert s[1..][j - 1] == s[0];
          assert multiset(s)[s[0]] > 1;
        }
      }
    }
  }

  lemma SameDistinct(s: seq<Entry>, r: seq<Entry>)
    requires multiset(r) == multiset(s)
    ensures Distinct(s) <==> Distinct(r)
  {
    DistinctIffCounts(s);
    DistinctIffCounts(r);
  }

  /** In a sorted list a duplicate has a neighbour equal to it. */
  method AdjacentDiffer(entries: seq<Entry>) returns (ok: bool)
    requires SortedEntries(entries) && entries != []
    ensures ok <==> Distinct(entries)
  {
    var leader := 1;
    while leader < |entries|
      invariant 1 <= leader <= |entries|
      invariant Distinct(entries[..leader])
    {
      if entries[leader] == entries[leader - 1] {
        return false;
      }
      assert forall i :: 0 <= i < leader ==> !EntryLess(entries[leader], entries[i]) && !EntryLess(entries[leader - 1], entries[i]);
      leader := leader + 1;
    }
    assert entries[..leader] == entries;
    ok := true;
  }

  /** The entries are those of the named items, in order. */
  ghost predicate Lists(ps: State, named: seq<Tid>, entries: seq<Entry>) {
    && |named| == |entries|
    && forall i :: 0 <= i < |named| ==>
         named[i] in ps && ps[named[i]].name != NO_NAME && entries[i] == (ps[named[i]].parent, ps[named[i]].name)
  }

  /** The entries of all named items, unless a null one sits below the root. */
  method CollectEntries(ps: State) returns (entries: Option<seq<Entry>>, ghost named: seq<Tid>)
    ensures entries.None? ==> exists t :: t in ps && ps[t].name == NO_NAME && ps[t].parent != ROOT
    ensures entries.Some? ==> Lists(ps, named, entries.value)
    ensures entries.Some? ==> forall t :: t in ps ==> if ps[t].name == NO_NAME then ps[t].parent == ROOT else t in named
    ensures forall i, j :: 0 <= i < j < |named| ==> named[i] < named[j]
  {
    var tids := Sorted(ps.Keys);
    entries, named := Some([]), [];
    for k := 0 to |tids|
      invariant entries.Some? && Lists(ps, named, entries.value)
      invariant forall j :: 0 <= j < k ==> if ps[tids[j]].name == NO_NAME then ps[tids[j]].parent == ROOT else tids[j] in named
      invariant forall i, j :: 0 <= i < j < |named| ==> named[i] < named[j]
      invariant forall t :: t in named ==> t in tids[..k]
    {
      var t := tids[k];
      assert t in ps;
      if ps[t].name == NO_NAME {
        if ps[t].parent != ROOT {
          return None, named;
        }
      } else {
        assert forall i :: 0 <= i < |named| ==> named[i] in named && named[i] < t;
        entries := Some(entries.value + [(ps[t].parent, ps[t].name)]);
        named := named + [t];
      }
    }
  }

  /** Accepts exactly the states whose named entries differ within their directory and whose null ones hang off the root. */
  method ConfirmUniqueEntries(ps: State) returns (ok: bool)
    ensures ok <==> Unique(ps)
  {
    var entries, named := CollectEntries(ps);
    if entries.None? {
      return false;
    }
    DistinctIffUnique(ps, named, entries.value);
    if entries.value == [] {
      return true;
    }
    var sorted := SortEntries(entries.value);
    SameDistinct(entries.value, sorted);
    ok := AdjacentDiffer(sorted);
  }

  lemma DistinctIffUnique(ps: State, named: seq<Tid>, entries: seq<Entry>)
    requires Lists(ps, named, entries)
    requires forall t :: t in ps ==> if ps[t].name == NO_NAME then ps[t].parent == ROOT else t in named
    requires forall i, j :: 0 <= i < j < |named| ==> named[i] < named[j]
    ensures Distinct(entries) <==> Unique(ps)
  {
    if !Unique(ps) {
      var s, t :| s in ps && t in ps && ps[s].name == ps[t].name != NO_NAME && ps[s].parent == ps[t].parent && s != t;
      var i :| 0 <= i < |named| && named[i] == s;
      var j :| 0 <= j < |named| && named[j] == t;
      assert entries[i] == entries[j];
    }
  }
}
