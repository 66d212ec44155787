// Versions in database.cc: one pair of tables with the shared cache, reconstruction over the deltas, and the
// operations that add versions or re-base them on a child.
module VersionStore {
  import opened Wrappers
  import opened Digraph
  import opened VersionTables
  import opened VersionCache
  import opened VersionSearch
  import opened Piecewise
  import opened DeltaChains

  /** What can be asked of the store: the packets it accepts and the re-basing done for a new revision. */
  datatype Operation =
    | Full(id: Id, dat: Data)
    | ForwardDelta(oldId: Id, newId: Id, del: Delta, writeFull: bool)
    | ReverseDelta(newId: Id, oldId: Id, del: Delta)
    | RebaseManifest(oldId: Id, newId: Id)
    | RebaseFile(oldId: Id, newId: Id)

  /**
   What an operation has to meet to do no harm: the empty file is not re-based on itself, and a received reverse
   delta fits its base.
   */
  ghost predicate SaneOperation(c: Calculus, op: Operation) {
    && (op.RebaseFile? ==> op.oldId != op.newId || op.oldId != c.ident(""))
    && (op.ReverseDelta? ==> FitsVersion(c, op.newId, op.del))
  }

  /** What an operation adds to the versions one has: the announced id, if the data or the delta really gives it. */
  ghost function Learned(c: Calculus, ids: set<Id>, op: Operation): set<Id> {
    match op
    case Full(id, dat) => if c.ident(dat) == id then ids + {id} else ids
    case ForwardDelta(oldId, newId, del, writeFull) =>
      if oldId in ids && Produces(c, oldId, del, newId) then ids + {newId} else ids
    case ReverseDelta(newId, oldId, del) => if newId in ids && Produces(c, newId, del, oldId) then ids + {oldId} else ids
    case RebaseManifest(oldId, newId) => ids
    case RebaseFile(oldId, newId) => ids
  }

  /** What an operation does to the rows. */
  ghost predicate Leaves(c: Calculus, before: Tables, op: Operation, after: Tables) {
    match op
    case Full(id, dat) =>
      after == if !before.Stored(id) && c.ident(dat) == id then Tables(before.files[id := dat], before.deltas) else before
    case ForwardDelta(oldId, newId, del, writeFull) =>
      if before.Stored(newId) || !before.Stored(oldId) || !Produces(c, oldId, del, newId) then after == before
      else if writeFull then Gained(c, before, after, newId)
      else Replaced(c, before, after, oldId, newId)
    case ReverseDelta(newId, oldId, del) =>
      if before.Stored(oldId) || !before.Stored(newId) || !Produces(c, newId, del, oldId) then after == before
      else after == Tables(before.files, before.deltas[(oldId, newId) := del])
    case RebaseManifest(oldId, newId) => Rebased(c, before, after, oldId, newId)
    case RebaseFile(oldId, newId) => Rebased(c, before, after, oldId, newId)
  }

  /** One more full text. */
  ghost predicate Gained(c: Calculus, before: Tables, after: Tables, id: Id) {
    && id in after.files && c.ident(after.files[id]) == id
    && after == Tables(before.files[id := after.files[id]], before.deltas)
  }

  ghost predicate Rebased(c: Calculus, before: Tables, after: Tables, oldId: Id, newId: Id) {
    if oldId in before.files && oldId != newId && before.Stored(newId) then Replaced(c, before, after, oldId, newId)
    else after == before
  }

  ghost predicate Performed(c: Calculus, before: Tables, ops: seq<Operation>, after: Tables) {
    if ops == [] then before == after
    else
      var front, last := ops[..|ops| - 1], ops[|ops| - 1];
      exists t :: Performed(c, before, front, t) && Leaves(c, t, last, after)
  }

  ghost function LearnedAll(c: Calculus, ids: set<Id>, ops: seq<Operation>): set<Id> {
    if ops == [] then ids else Learned(c, LearnedAll(c, ids, ops[..|ops| - 1]), ops[|ops| - 1])
  }

  class Store {
    const calculus: Calculus
    const vcache: Cache
    var t: Tables

    /** Cached texts are what their ids say. */
    ghost predicate CacheOk()
      reads vcache
    {
      vcache.Valid() && forall id :: id in vcache.cache ==> calculus.ident(vcache.cache[id]) == id
    }

    ghost predicate Valid()
      reads this, vcache
    {
      Lawful(calculus) && CacheOk() && ValidTables(calculus, t)
    }

    /** Enough to rebuild one version: it is at hand, or every base is stored. */
    ghost predicate Ready(ident: Id)
      reads this, vcache
    {
      && Lawful(calculus) && CacheOk() && Sound(calculus, t) && Acyclic(t.Edges())
      && (IsRoot(t, vcache.cache.Keys, ident) || Based(t))
    }

    ghost predicate Available(ident: Id)
      reads this, vcache
    {
      ident in vcache.cache || t.Stored(ident)
    }

    constructor (calculus: Calculus, vcache: Cache)
      ensures this.calculus == calculus && this.vcache == vcache && t == Tables(map[], map[])
    {
      this.calculus, this.vcache, t := calculus, vcache, Tables(map[], map[]);
    }

    /** The nodes of a path to the wanted version occur on it once. */
    lemma StartIsUnique(p: Path, ident: Id, j: nat)
      requires Acyclic(t.Edges()) && PathTo(t, p, ident) && 0 < j < |p|
      ensures p[j] != ident
    {
      if p[j] == ident {
        assert (p[0], p[1]) in t.Edges();
        SuffixReaches(t, p[..j + 1], 1);
      }
    }

    /** Back along the path, applying the deltas on chunks; versions met on the way are cached. */
    method ReplayPath(path: Path, ident: Id, begin: Data) returns (text: Option<Data>)
      requires Lawful(calculus) && CacheOk() && Sound(calculus, t) && Acyclic(t.Edges())
      requires PathTo(t, path, ident) && ident !in vcache.cache
      requires calculus.ident(begin) == path[|path| - 1]
      modifies vcache
      ensures CacheOk() && ident !in vcache.cache && vcache.Waste() == old(vcache.Waste())
      ensures text.Some? && calculus.ident(text.value) == ident
      ensures |path| > 1 ==> path[1] in vcache.cache
    {
      hide Acyclic, Lawful, Sound, Replays, Good, Clean, Current, Started, Turned, Applying;
      var app := new PiecewiseApplicator();
      app.Begin(begin);
      StartedClean(begin);
      var curr, k := path[|path| - 1], |path| - 1;
      while k > 0
        invariant 0 <= k < |path| && curr == path[k]
        invariant At(app.State(), curr) && (k + 1 < |path| ==> path[k + 1] in vcache.cache)
        invariant CacheOk() && ident !in vcache.cache && vcache.Waste() == old(vcache.Waste())
      {
        var nxt := path[k - 1];
        StartIsUnique(path, ident, k);
        CleanGood(app.State());
        if curr !in vcache.cache {
          var tmp := app.Finish();
          vcache.Put(curr, tmp);
        }
        assert (nxt, curr) in t.Edges();
        Applies(curr, nxt, app.State());
        var ok := ApplyDelta(app, t.deltas[(nxt, curr)]);
        if !ok {
          return None;
        }
        app.Next();
        curr, k := nxt, k - 1;
      }
      CleanGood(app.State());
      var tmp := app.Finish();
      text := Some(tmp);
    }

    /** The applicator holds the content of an id. */
    ghost predicate At(s: Chunked, id: Id) {
      Clean(s) && calculus.ident(Current(s)) == id
    }

    /** A delta that is recorded takes the applicator from the content of its base to that of its id. */
    lemma Applies(base: Id, id: Id, s: Chunked)
      requires Sound(calculus, t) && (id, base) in t.deltas && At(s, base)
      ensures var u := Applying(s, t.deltas[(id, base)]); u.Some? && At(Turned(u.value), id)
    {
      hide Fits, After, Good, Current, Applying, Turned, Clean;
      assert Replays(calculus, base, t.deltas[(id, base)], id);
      FitsGoesThrough(s, t.deltas[(id, base)]);
    }

    /**
     Every version that is stored or cached is rebuilt, and it is the one asked for; no check on the way fails, and
     nothing is put in the cache that is there already.
     */
    method GetVersion(ident: Id) returns (dat: Option<Data>)
      requires Ready(ident)
      modifies vcache
      ensures CacheOk()
      ensures dat.Some? <==> old(Available(ident))
      ensures dat.Some? ==> calculus.ident(dat.value) == ident && ident in vcache.cache
      ensures vcache.Waste() == old(vcache.Waste())
    {
      hide Acyclic, Based;
      if ident == "" {
        NoEmptyId();
        return None;
      }
      if ident in vcache.cache {
        return Some(vcache.cache[ident]);
      } else if ident in t.files {
        dat := Some(t.files[ident]);
      } else {
        if !t.HasDelta(ident) {
          return None;
        }
        var path := SelectPath(t, vcache.cache.Keys, ident);
        var root := path[|path| - 1];
        var begin := if root in vcache.cache then vcache.cache[root] else t.files[root];
        dat := ReplayPath(path, ident, begin);
      }
      if dat.None? || calculus.ident(dat.value) != ident {
        return None;
      }
      vcache.Put(ident, dat.value);
    }

    lemma NoEmptyId()
      requires Ready("")
      ensures !Available("")
    {
      if t.HasDelta("") && !IsRoot(t, vcache.cache.Keys, "") {
        var rank := AcyclicRanked(t.Edges());
        var chain := ChainExists(t, rank, "");
        ReplaySound(calculus, t, chain, "");
      }
    }

    /** A full text is stored once, under its own id. */
    method PutRow(ident: Id, dat: Data) returns (ok: bool)
      requires Lawful(calculus)
      modifies this`t
      ensures ok <==> calculus.ident(dat) == ident && ident !in old(t.files)
      ensures t == if ok then Tables(old(t.files)[ident := dat], old(t.deltas)) else old(t)
    {
      if ident == "" || calculus.ident(dat) != ident || ident in t.files {
        return false;
      }
      t := Tables(t.files[ident := dat], t.deltas);
      ok := true;
    }

    method PutDelta(ident: Id, base: Id, del: Delta) returns (ok: bool)
      modifies this`t
      ensures ok <==> ident != "" && base != "" && (ident, base) !in old(t.deltas)
      ensures t == if ok then Tables(old(t.files), old(t.deltas)[(ident, base) := del]) else old(t)
    {
      if ident == "" || base == "" || (ident, base) in t.deltas {
        return false;
      }
      t := Tables(t.files, t.deltas[(ident, base) := del]);
      ok := true;
    }

    /** When put_version goes through. */
    ghost predicate Accepts(oldId: Id, newId: Id, del: Delta)
      reads this, vcache
    {
      Available(oldId) && Produces(calculus, oldId, del, newId) && newId !in t.files - {oldId} && (oldId, newId) !in t.deltas
    }

    method PutVersion(oldId: Id, newId: Id, del: Delta) returns (ok: bool)
      requires Ready(oldId) && BasedExcept(t, newId)
      modifies this`t, vcache
      ensures CacheOk()
      ensures ok <==> old(Accepts(oldId, newId, del))
      ensures !ok ==> t == old(t)
      ensures ok ==> VersionPut(calculus, old(t), t, oldId, newId)
      ensures ok ==> (Valid() <==> !Reaches(old(t).Edges(), newId, oldId))
    {
      hide Acyclic, Reaches, Based, Sound, BasedExcept, Produces, Lawful;
      var oldData := GetVersion(oldId);
      if oldData.None? {
        return false;
      }
      var newData := ApplySimple(oldData.value, del);
      SingleContent(oldId, oldData.value, del, newId);
      if newData.None? {
        return false;
      }
      var reverse := calculus.diff(newData.value, oldData.value);
      var saved := t;
      if oldId in t.files {
        t := Tables(t.files - {oldId}, t.deltas);
      }
      ok := PutRow(newId, newData.value);
      if ok {
        ok := PutDelta(oldId, newId, reverse);
      }
      if !ok {
        t := saved;
      } else {
        assert t == WithVersion(saved, oldId, newId, newData.value, reverse);
        WithVersionValid(calculus, saved, oldId, newId, oldData.value, newData.value);
      }
    }

    /** The content of an id being unique, what a delta makes of one text it makes of the version. */
    lemma SingleContent(oldId: Id, text: Data, del: Delta, newId: Id)
      requires Lawful(calculus) && calculus.ident(text) == oldId
      ensures var r := Patched(text, del);
        Produces(calculus, oldId, del, newId) <==> r.Some? && calculus.ident(r.value) == newId
      ensures oldId != "" && (Produces(calculus, oldId, del, newId) ==> newId != "")
    {
      forall d | calculus.ident(d) == oldId
        ensures d == text
      {
      }
    }

    /** A delta towards an older version, recorded as it came. */
    method PutReverseVersion(newId: Id, oldId: Id, del: Delta) returns (ok: bool)
      requires Ready(newId)
      modifies this`t, vcache
      ensures CacheOk()
      ensures ok <==> old(Available(newId)) && Produces(calculus, newId, del, oldId) && (oldId, newId) !in old(t.deltas)
      ensures t == if ok then Tables(old(t.files), old(t.deltas)[(oldId, newId) := del]) else old(t)
    {
      hide Acyclic, Based;
      var newData := GetVersion(newId);
      if newData.None? {
        return false;
      }
      SingleContent(newId, newData.value, del, oldId);
      var oldData := ApplySimple(newData.value, del);
      if oldData.None? || calculus.ident(oldData.value) != oldId {
        return false;
      }
      SingleContent(oldId, oldData.value, del, oldId);
      ok := PutDelta(oldId, newId, del);
    }

    /** The state between two operations. */
    ghost predicate Consistent()
      reads this, vcache
    {
      Valid() && Exclusive(t)
    }

    method ReceiveFull(id: Id, dat: Data)
      requires Consistent()
      modifies this`t, vcache
      ensures Consistent() && Leaves(calculus, old(t), Full(id, dat), t)
      ensures forall x :: t.Stored(x) <==> old(t).Stored(x) || (x == id && calculus.ident(dat) == id)
    {
      hide ValidTables, Exclusive, Lawful;
      FullIsNew(id);
      if !t.Stored(id) {
        ghost var before := t;
        var ok := PutRow(id, dat);
        if ok {
          WithFullValid(calculus, before, id, dat);
        }
      }
    }

    lemma FullIsNew(id: Id)
      ensures id in t.files ==> t.Stored(id)
    {
    }

    /**
     A delta is taken only onto a stored version, and only if it gives the announced id.  The new version is held in
     full; the old one from then on as a delta from it, unless all is to be written in full.
     */
    method ReceiveDelta(oldId: Id, newId: Id, del: Delta, writeFull: bool) returns (ok: bool)
      requires Consistent()
      modifies this`t, vcache
      ensures Consistent()
      ensures ok <==> !old(t).Stored(newId) && old(t).Stored(oldId) && Produces(calculus, oldId, del, newId)
      ensures !ok ==> t == old(t)
      ensures ok && writeFull ==> Gained(calculus, old(t), t, newId)
      ensures ok && !writeFull ==> Replaced(calculus, old(t), t, oldId, newId) && oldId !in t.files
      ensures forall x :: t.Stored(x) <==>
        old(t).Stored(x) || (x == newId && old(t).Stored(oldId) && Produces(calculus, oldId, del, newId))
    {
      hide Acyclic, Based, Reaches, Produces, Sound, Replaced;
      FullIsNew(newId);
      if t.Stored(newId) || !t.Stored(oldId) {
        return false;
      }
      var oldData := GetVersion(oldId);
      var newData := ApplySimple(oldData.value, del);
      SingleContent(oldId, oldData.value, del, newId);
      if newData.None? || calculus.ident(newData.value) != newId {
        return false;
      }
      if writeFull {
        WithFullValid(calculus, t, newId, newData.value);
        ok := PutRow(newId, newData.value);
      } else {
        ok := AddChild(oldId, newId, del);
      }
    }

    method AddChild(oldId: Id, newId: Id, del: Delta) returns (ok: bool)
      requires Consistent() && !t.Stored(newId) && t.Stored(oldId) && Produces(calculus, oldId, del, newId)
      modifies this`t, vcache
      ensures ok && Consistent() && Replaced(calculus, old(t), t, oldId, newId) && oldId !in t.files
      ensures forall x :: t.Stored(x) <==> old(t).Stored(x) || x == newId
    {
      hide Acyclic, Based, Reaches, Produces, Sound, Replaced;
      NewVersionAccepted(oldId, newId);
      ghost var before := t;
      ok := PutVersion(oldId, newId, del);
      VersionPutStores(calculus, before, t, oldId, newId);
      VersionPutReplaces(calculus, before, t, oldId, newId);
    }

    /** What makes a new child acceptable. */
    lemma NewVersionAccepted(oldId: Id, newId: Id)
      requires Consistent() && !t.Stored(newId) && t.Stored(oldId)
      ensures BasedExcept(t, newId) && newId !in t.files - {oldId} && (oldId, newId) !in t.deltas
      ensures !Reaches(t.Edges(), newId, oldId)
    {
      UnstoredReachesNothing(t, newId, oldId);
    }

    /** When a reverse delta is taken: onto a stored version, if patching with it gives an id that is not stored. */
    ghost predicate Takes(newId: Id, oldId: Id, del: Delta)
      reads this`t
    {
      !t.Stored(oldId) && t.Stored(newId) && Produces(calculus, newId, del, oldId)
    }

    /** What is taken is recorded as it came; the store stays consistent exactly if the delta fits its base as well. */
    method ReceiveReverseDelta(newId: Id, oldId: Id, del: Delta)
      requires Consistent()
      modifies this`t, vcache
      ensures t == if old(Takes(newId, oldId, del)) then Tables(old(t.files), old(t.deltas)[(oldId, newId) := del]) else old(t)
      ensures Consistent() <==> !old(Takes(newId, oldId, del)) || FitsVersion(calculus, newId, del)
      ensures forall x :: t.Stored(x) <==>
        old(t).Stored(x) || (x == oldId && old(t).Stored(newId) && Produces(calculus, newId, del, oldId))
    {
      hide Acyclic, Based, Reaches, Produces, FitsVersion, Replays, Exclusive;
      if t.Stored(oldId) || !t.Stored(newId) {
        return;
      }
      ghost var before := t;
      var ok := PutReverseVersion(newId, oldId, del);
      HasDeltaAfter(before, oldId, newId, del);
      if ok {
        ReplaysIfFits(calculus, newId, del, oldId);
        if FitsVersion(calculus, newId, del) {
          WithDeltaValid(calculus, before, oldId, newId, del);
        }
      }
    }

    /** The shared part of re-basing: the child's rows are dropped and it is put again, over its parent. */
    method Redeltify(oldId: Id, newId: Id) returns (ok: bool)
      requires Consistent() && oldId in t.files && t.Stored(newId)
      modifies this`t, vcache
      ensures CacheOk()
      ensures ok <==> oldId != newId || old(t).files[oldId] == ""
      ensures !ok ==> t == old(t)
      ensures Consistent() <==> oldId != newId || old(t).files[oldId] != ""
      ensures forall x :: oldId != newId ==> (t.Stored(x) <==> old(t).Stored(x))
      ensures ok && oldId != newId ==> Replaced(calculus, old(t), t, oldId, newId)
      ensures ok && oldId == newId ==> t == Tables(old(t).files, old(t).deltas[(oldId, oldId) := ""])
    {
      hide Acyclic, Based, Reaches, Sound, Produces, BasedExcept, Lawful, Replaced;
      var saved := t;
      FileIs(oldId);
      var oldData := GetVersion(oldId);
      var newData := GetVersion(newId);
      var del := calculus.diff(oldData.value, newData.value);
      t := WithoutRows(t, newId);
      WithoutRowsKeeps(calculus, saved, newId);
      WithoutRowsStores(saved, newId);
      ghost var dropped := t;
      if oldId != newId {
        DiffAccepted(oldId, newId, oldData.value, newData.value);
        UnstoredReachesNothing(t, newId, oldId);
      } else {
        SelfDelta(oldId, oldData.value, saved.files[oldId]);
        SelfDelta(oldId, newData.value, saved.files[oldId]);
        ReachesSelf(t.Edges(), oldId);
      }
      ok := PutVersion(oldId, newId, del);
      if !ok {
        t := saved;
      } else if oldId != newId {
        VersionPutStores(calculus, dropped, t, oldId, newId);
        VersionPutReplaces(calculus, dropped, t, oldId, newId);
        ReplacedOver(calculus, saved, t, oldId, newId);
      } else {
        SelfPut(saved, oldId);
      }
    }

    lemma DiffAccepted(oldId: Id, newId: Id, d: Data, e: Data)
      requires Lawful(calculus) && calculus.ident(d) == oldId && calculus.ident(e) == newId && oldId != newId
      ensures Produces(calculus, oldId, calculus.diff(d, e), newId)
    {
      assert Leads(calculus.diff(d, e), d, e);
      SingleContent(oldId, d, calculus.diff(d, e), newId);
    }

    /** The empty file put again over itself. */
    lemma SelfPut(before: Tables, id: Id)
      requires Lawful(calculus) && Exclusive(before) && id in before.files && before.files[id] == "" && calculus.ident("") == id
      requires VersionPut(calculus, WithoutRows(before, id), t, id, id)
      ensures t == Tables(before.files, before.deltas[(id, id) := ""])
    {
      var was, text :| calculus.ident(was) == id && calculus.ident(text) == id
        && t == WithVersion(WithoutRows(before, id), id, id, text, calculus.diff(text, was));
      assert was == text == "";
      assert !before.HasDelta(id);
      assert WithoutRows(before, id).deltas == before.deltas;
    }

    lemma FileIs(id: Id)
      requires Sound(calculus, t) && id in t.files
      ensures calculus.ident(t.files[id]) == id
    {
    }

    /** The delta of a text to itself gives that text exactly if it is empty. */
    lemma SelfDelta(id: Id, d: Data, f: Data)
      requires Lawful(calculus) && calculus.ident(d) == id && calculus.ident(f) == id
      ensures d == f && (Produces(calculus, id, calculus.diff(d, d), id) <==> f == "")
    {
      PatchNothing(f);
    }

    /** Re-basing a parent manifest on its child's, unless the two are the same. */
    method RebaseManifest(oldId: Id, newId: Id)
      requires Consistent()
      modifies this`t, vcache
      ensures Consistent()
      ensures forall x :: t.Stored(x) <==> old(t).Stored(x)
      ensures Rebased(calculus, old(t), t, oldId, newId)
    {
      hide Replaced;
      if oldId in t.files && oldId != newId && t.Stored(newId) {
        var ok := Redeltify(oldId, newId);
      }
    }

    /** The same for files does not compare the ids; that does harm exactly to the empty file, and only for equal ids. */
    method RebaseFile(oldId: Id, newId: Id)
      requires Consistent()
      modifies this`t, vcache
      ensures Consistent() <==> !(oldId == newId && oldId in old(t).files && old(t).files[oldId] == "")
      ensures oldId != newId ==> forall x :: t.Stored(x) <==> old(t).Stored(x)
      ensures if Consistent() then Rebased(calculus, old(t), t, oldId, newId)
        else t == Tables(old(t).files, old(t).deltas[(oldId, oldId) := ""])
    {
      hide Replaced;
      if oldId != "" && oldId in t.files && t.Stored(newId) {
        var ok := Redeltify(oldId, newId);
      }
    }

    /** One operation: the store stays consistent, its rows change as told, and it holds exactly the versions it should. */
    method Perform(op: Operation)
      requires Consistent() && SaneOperation(calculus, op)
      modifies this`t, vcache
      ensures Consistent() && Leaves(calculus, old(t), op, t)
      ensures t.Ids() == Learned(calculus, old(t).Ids(), op)
    {
      hide Acyclic, Based, Sound, Produces, Exclusive, Lawful, Gained, Replaced;
      match op
      case Full(id, dat) => ReceiveFull(id, dat);
      case ForwardDelta(oldId, newId, del, writeFull) => var ok := ReceiveDelta(oldId, newId, del, writeFull);
      case ReverseDelta(newId, oldId, del) => ReceiveReverseDelta(newId, oldId, del);
      case RebaseManifest(oldId, newId) => RebaseManifest(oldId, newId);
      case RebaseFile(oldId, newId) =>
        if oldId in t.files {
          FileIs(oldId);
        }
        RebaseFile(oldId, newId);
    }

    /**
     Over every run the delta graph stays acyclic, the store holds exactly the versions that the operations announced
     and backed up, and every one of them can be rebuilt to its content.  Its rows are those the operations lead to, one
     after the other.
     */
    method Run(ops: seq<Operation>)
      requires Consistent() && forall i :: 0 <= i < |ops| ==> SaneOperation(calculus, ops[i])
      modifies this`t, vcache
      ensures Consistent() && Acyclic(t.Edges()) && Performed(calculus, old(t), ops, t)
      ensures t.Ids() == LearnedAll(calculus, old(t).Ids(), ops)
      ensures forall x :: x in old(t).Ids() ==> x in t.Ids()
      ensures forall x :: x in t.Ids() ==> Reconstructible(calculus, t, x)
    {
      hide Reconstructible, Acyclic, Sound, Based, Learned, Leaves;
      var i := 0;
      assert ops[..0] == [];
      while i < |ops|
        invariant 0 <= i <= |ops| && Consistent()
        invariant t.Ids() == LearnedAll(calculus, old(t).Ids(), ops[..i]) && Performed(calculus, old(t), ops[..i], t)
      {
        assert ops[..i + 1][..i] == ops[..i];
        Perform(ops[i]);
        i := i + 1;
      }
      assert ops[..i] == ops;
      NothingForgotten(calculus, old(t).Ids(), ops);
      forall x | x in t.Ids()
        ensures Reconstructible(calculus, t, x)
      {
        ValidReconstructs(calculus, t, x);
      }
    }
  }

  lemma {:induction false} NothingForgotten(c: Calculus, ids: set<Id>, ops: seq<Operation>)
    ensures ids <= LearnedAll(c, ids, ops)
  {
    if ops != [] {
      NothingForgotten(c, ids, ops[..|ops| - 1]);
    }
  }
}
