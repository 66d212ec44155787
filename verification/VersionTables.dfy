// The two tables behind one kind of version in database.cc: full texts by id, and deltas by (id, base).
// What it means for every stored id to be rebuilt to its own content, and what the updates keep.
module VersionTables {
  import opened Wrappers
  import opened Digraph
  import opened Piecewise
  import opened DeltaText
  import opened DeltaChains
  import Xdelta

  type Id = string
  type Data = string
  type Delta = string

  /** Identifiers of contents, and the computed deltas between them. */
  datatype Calculus = Calculus(ident: Data -> Id, diff: (Data, Data) -> Delta)

  /**
   An id determines its content; the delta of a text to itself is empty; and the delta between two different texts
   leads from the first to the second, whichever way it is applied.
   */
  ghost predicate Lawful(c: Calculus) {
    && (forall a :: c.ident(a) != "")
    && (forall a, b :: c.ident(a) == c.ident(b) ==> a == b)
    && (forall a :: c.diff(a, a) == "")
    && (forall a, b :: a != b ==> Leads(c.diff(a, b), a, b))
  }

  datatype Tables = Tables(files: map<Id, Data>, deltas: map<(Id, Id), Delta>) {
    ghost function Edges(): set<(Id, Id)> {
      deltas.Keys
    }

    predicate HasDelta(id: Id) {
      exists k :: k in deltas && k.0 == id
    }

    predicate Stored(id: Id) {
      id in files || HasDelta(id)
    }

    /** Everything there is a row for. */
    ghost function Ids(): (ids: set<Id>)
      ensures forall id :: id in ids <==> Stored(id)
    {
      var ids := files.Keys + set k | k in deltas :: k.0;
      assert forall id :: id in ids <==> Stored(id);
      ids
    }
  }

  /** Patching the content of base with the delta, by copying strings, gives the content of id. */
  ghost predicate Produces(c: Calculus, base: Id, del: Delta, id: Id) {
    forall d: Data :: c.ident(d) == base ==> Patched(d, del).Some? && c.ident(Patched(d, del).value) == id
  }

  /** The applicator on chunks takes the delta from the content of base. */
  ghost predicate FitsVersion(c: Calculus, base: Id, del: Delta) {
    forall d: Data :: c.ident(d) == base ==> Fits(del, d)
  }

  /** On chunks the delta leads from the content of base to the content of id. */
  ghost predicate Replays(c: Calculus, base: Id, del: Delta, id: Id) {
    forall d: Data :: c.ident(d) == base ==> Fits(del, d) && c.ident(After(d, del).value) == id
  }

  /** A delta that was accepted by patching replays exactly if it fits. */
  lemma ReplaysIfFits(c: Calculus, base: Id, del: Delta, id: Id)
    requires Produces(c, base, del, id)
    ensures Replays(c, base, del, id) <==> FitsVersion(c, base, del)
  {
    hide Fits, Patched, After;
    forall d: Data | c.ident(d) == base && Fits(del, d)
      ensures After(d, del).Some? && c.ident(After(d, del).value) == id
    {
      FitsAfter(del, d);
      BothAgree(d, del);
    }
  }

  ghost predicate Sound(c: Calculus, t: Tables) {
    && (forall id :: id in t.files ==> c.ident(t.files[id]) == id)
    && (forall k :: k in t.deltas ==> Replays(c, k.1, t.deltas[k], k.0))
  }

  /** Every base of a delta is stored, except perhaps one id. */
  ghost predicate BasedExcept(t: Tables, hole: Id) {
    forall k :: k in t.deltas && k.1 != hole ==> t.Stored(k.1)
  }

  ghost predicate Based(t: Tables) {
    forall k :: k in t.deltas ==> t.Stored(k.1)
  }

  ghost predicate ValidTables(c: Calculus, t: Tables) {
    Sound(c, t) && Based(t) && Acyclic(t.Edges())
  }

  /** No version is stored both ways. */
  ghost predicate Exclusive(t: Tables) {
    forall id :: id in t.files ==> !t.HasDelta(id)
  }

  /** Where the applicator gets along a chain of deltas, from its far end, which is held in full. */
  ghost function Replayed(t: Tables, chain: seq<Id>): (s: Option<Chunked>)
    requires Walk(t.Edges(), chain)
    ensures s.Some? ==> Good(s.value)
    decreases |chain|
  {
    if |chain| == 1 then
      if chain[0] in t.files then (StartedText(t.files[chain[0]]); Some(Started(t.files[chain[0]]))) else None
    else
      assert (chain[0], chain[1]) in t.Edges();
      var s :- Replayed(t, chain[1..]);
      var u :- Applying(s, t.deltas[(chain[0], chain[1])]);
      TurnedText(u);
      Some(Turned(u))
  }

  /** The text a chain of deltas leads to. */
  ghost function Rebuilt(t: Tables, chain: seq<Id>): Option<Data>
    requires Walk(t.Edges(), chain)
  {
    var s :- Replayed(t, chain);
    Some(Current(s))
  }

  /** A walk along the deltas from a version to one held in full. */
  ghost predicate Chain(t: Tables, chain: seq<Id>, id: Id) {
    Walk(t.Edges(), chain) && chain[0] == id && chain[|chain| - 1] in t.files
  }

  /** There is a way to rebuild id, and every way of doing so gives its content. */
  ghost predicate Reconstructible(c: Calculus, t: Tables, id: Id) {
    && (exists chain :: Chain(t, chain, id))
    && forall chain :: Chain(t, chain, id) ==>
         Rebuilt(t, chain).Some? && c.ident(Rebuilt(t, chain).value) == id
  }

  lemma {:induction false} ReplaySound(c: Calculus, t: Tables, chain: seq<Id>, id: Id)
    requires Sound(c, t) && Chain(t, chain, id)
    ensures Replayed(t, chain).Some? && Clean(Replayed(t, chain).value)
    ensures Rebuilt(t, chain).Some? && c.ident(Rebuilt(t, chain).value) == id
    decreases |chain|
  {
    hide Good, Current, Applying, Clean, Started, Turned, Fits;
    if |chain| == 1 {
      StartedClean(t.files[id]);
    } else {
      assert (chain[0], chain[1]) in t.Edges();
      ReplaySound(c, t, chain[1..], chain[1]);
      var s, del := Replayed(t, chain[1..]).value, t.deltas[(chain[0], chain[1])];
      assert Replays(c, chain[1], del, chain[0]);
      FitsGoesThrough(s, del);
    }
  }

  /** Going from base to base comes down to a full text, because the bases descend in rank. */
  lemma {:induction false} ChainExists(t: Tables, rank: Id -> nat, id: Id) returns (chain: seq<Id>)
    requires Based(t) && Ranked(t.Edges(), rank) && t.Stored(id)
    ensures Chain(t, chain, id)
    decreases rank(id)
  {
    if id in t.files {
      chain := [id];
    } else {
      var k :| k in t.deltas && k.0 == id;
      assert (id, k.1) in t.Edges();
      var rest := ChainExists(t, rank, k.1);
      chain := [id] + rest;
    }
  }

  /** In valid tables every stored id can be rebuilt. */
  lemma ValidReconstructs(c: Calculus, t: Tables, id: Id)
    requires ValidTables(c, t) && t.Stored(id)
    ensures Reconstructible(c, t, id)
  {
    var rank := AcyclicRanked(t.Edges());
    var chain := ChainExists(t, rank, id);
    forall chain | Chain(t, chain, id)
      ensures Rebuilt(t, chain).Some? && c.ident(Rebuilt(t, chain).value) == id
    {
      ReplaySound(c, t, chain, id);
    }
  }

  /** An id names one content: however the tables change, a rebuilt version is the version it was. */
  lemma SameContent(c: Calculus, t: Tables, u: Tables, id: Id, p: seq<Id>, q: seq<Id>)
    requires Lawful(c) && Reconstructible(c, t, id) && Reconstructible(c, u, id)
    requires Chain(t, p, id) && Chain(u, q, id)
    ensures Rebuilt(t, p) == Rebuilt(u, q)
  {
    var d, e := Rebuilt(t, p).value, Rebuilt(u, q).value;
    assert c.ident(d) == c.ident(e);
  }

  /** Deleting every row of an id. */
  function WithoutRows(t: Tables, id: Id): Tables {
    Tables(t.files - {id}, map k | k in t.deltas && k.0 != id :: t.deltas[k])
  }

  /** A new full text, standing in for the full text of the version it descends from. */
  function WithVersion(t: Tables, oldId: Id, newId: Id, text: Data, reverse: Delta): Tables {
    Tables((t.files - {oldId})[newId := text], t.deltas[(oldId, newId) := reverse])
  }

  lemma WithoutRowsKeeps(c: Calculus, t: Tables, id: Id)
    requires Sound(c, t) && Based(t) && Acyclic(t.Edges())
    ensures var u := WithoutRows(t, id);
      Sound(c, u) && BasedExcept(u, id) && Acyclic(u.Edges()) && !u.Stored(id)
  {
    var u := WithoutRows(t, id);
    AcyclicSubset(u.Edges(), t.Edges());
    forall k | k in u.deltas && k.1 != id
      ensures u.Stored(k.1)
    {
      assert k in t.deltas;
      if k.1 !in t.files {
        var l :| l in t.deltas && l.0 == k.1;
        assert l in u.deltas;
      }
    }
  }

  lemma NewEdges(t: Tables, oldId: Id, newId: Id, text: Data, reverse: Delta)
    ensures WithVersion(t, oldId, newId, text, reverse).Edges() == t.Edges() + {(oldId, newId)}
  {
  }

  /** Nothing that was stored is lost, and every base is stored again. */
  lemma WithVersionStores(t: Tables, oldId: Id, newId: Id, text: Data, reverse: Delta)
    ensures var u := WithVersion(t, oldId, newId, text, reverse);
      && (forall id :: u.Stored(id) <==> t.Stored(id) || id == oldId || id == newId)
      && (BasedExcept(t, newId) ==> Based(u))
  {
    var u := WithVersion(t, oldId, newId, text, reverse);
    assert (oldId, newId) in u.deltas;
    forall id | t.HasDelta(id)
      ensures u.HasDelta(id)
    {
      var k :| k in t.deltas && k.0 == id;
      assert k in u.deltas;
    }
  }

  lemma WithVersionSound(c: Calculus, t: Tables, oldId: Id, newId: Id, was: Data, text: Data)
    requires Lawful(c) && Sound(c, t) && oldId != newId && c.ident(was) == oldId && c.ident(text) == newId
    ensures Sound(c, WithVersion(t, oldId, newId, text, c.diff(text, was)))
  {
    hide Fits, After, Patched;
    assert was != text;
    forall d | c.ident(d) == newId
      ensures Leads(c.diff(text, was), d, was)
    {
      assert d == text;
    }
    assert Replays(c, newId, c.diff(text, was), oldId);
  }

  /** Storing a descendant keeps the tables valid exactly when its text was not itself built on the old version. */
  lemma WithVersionValid(c: Calculus, t: Tables, oldId: Id, newId: Id, was: Data, text: Data)
    requires Lawful(c) && Sound(c, t) && BasedExcept(t, newId) && Acyclic(t.Edges())
    requires c.ident(was) == oldId && c.ident(text) == newId
    ensures ValidTables(c, WithVersion(t, oldId, newId, text, c.diff(text, was))) <==> !Reaches(t.Edges(), newId, oldId)
  {
    hide Reaches, Acyclic, Sound;
    var reverse := c.diff(text, was);
    NewEdges(t, oldId, newId, text, reverse);
    AddEdge(t.Edges(), oldId, newId);
    WithVersionStores(t, oldId, newId, text, reverse);
    if oldId == newId {
      ReachesSelf(t.Edges(), oldId);
    } else {
      WithVersionSound(c, t, oldId, newId, was, text);
    }
  }

  /** A version with no rows of its own is built on nothing. */
  lemma UnstoredReachesNothing(t: Tables, newId: Id, oldId: Id)
    requires !t.HasDelta(newId) && newId != oldId
    ensures !Reaches(t.Edges(), newId, oldId)
  {
    if Reaches(t.Edges(), newId, oldId) {
      ReachesBetween(t.Edges(), newId, oldId);
    }
  }

  /** A version that nothing stands for yet can be stored in full. */
  lemma WithFullValid(c: Calculus, t: Tables, id: Id, text: Data)
    requires ValidTables(c, t) && Exclusive(t) && !t.Stored(id) && c.ident(text) == id
    ensures var u := Tables(t.files[id := text], t.deltas);
      ValidTables(c, u) && Exclusive(u) && forall x :: u.Stored(x) <==> t.Stored(x) || x == id
  {
    hide Acyclic, Replays;
    var u := Tables(t.files[id := text], t.deltas);
    assert u.Edges() == t.Edges();
    assert Sound(c, u);
    assert forall x :: u.HasDelta(x) == t.HasDelta(x);
    assert forall x :: u.Stored(x) <==> t.Stored(x) || x == id;
  }

  /** A version that nothing stands for yet can be stored as a delta from one that is stored. */
  lemma WithDeltaValid(c: Calculus, t: Tables, id: Id, base: Id, del: Delta)
    requires ValidTables(c, t) && Exclusive(t) && !t.Stored(id) && t.Stored(base) && Replays(c, base, del, id)
    ensures var u := Tables(t.files, t.deltas[(id, base) := del]);
      ValidTables(c, u) && Exclusive(u) && forall x :: u.Stored(x) <==> t.Stored(x) || x == id
  {
    hide Acyclic, Replays, Sound;
    WithDeltaAcyclic(t, id, base, del);
    WithDeltaSound(c, t, id, base, del);
    HasDeltaAfter(t, id, base, del);
  }

  lemma WithDeltaSound(c: Calculus, t: Tables, id: Id, base: Id, del: Delta)
    requires Sound(c, t) && Replays(c, base, del, id)
    ensures Sound(c, Tables(t.files, t.deltas[(id, base) := del]))
  {
    hide Replays;
  }

  lemma WithDeltaAcyclic(t: Tables, id: Id, base: Id, del: Delta)
    requires Based(t) && Acyclic(t.Edges()) && !t.Stored(id) && t.Stored(base)
    ensures Acyclic(Tables(t.files, t.deltas[(id, base) := del]).Edges())
  {
    hide Acyclic, Reaches;
    assert Tables(t.files, t.deltas[(id, base) := del]).Edges() == t.Edges() + {(id, base)};
    if Reaches(t.Edges(), base, id) {
      ReachesBetween(t.Edges(), base, id);
    }
    AddEdge(t.Edges(), id, base);
  }

  lemma HasDeltaAfter(t: Tables, id: Id, base: Id, del: Delta)
    ensures forall x :: Tables(t.files, t.deltas[(id, base) := del]).HasDelta(x) <==> t.HasDelta(x) || x == id
  {
    var u := Tables(t.files, t.deltas[(id, base) := del]);
    assert (id, base) in u.deltas;
    forall x | t.HasDelta(x)
      ensures u.HasDelta(x)
    {
      var k :| k in t.deltas && k.0 == x;
      assert k in u.deltas;
    }
  }

  /** Putting a version over one held in full keeps every version stored one way only. */
  lemma WithVersionExclusive(t: Tables, oldId: Id, newId: Id, text: Data, reverse: Delta)
    requires Exclusive(t) && !t.HasDelta(newId) && oldId != newId
    ensures Exclusive(WithVersion(t, oldId, newId, text, reverse))
  {
  }

  /** The new text replaces the old one, which is from now on built from it. */
  ghost predicate VersionPut(c: Calculus, before: Tables, after: Tables, oldId: Id, newId: Id) {
    exists was, text :: c.ident(was) == oldId && c.ident(text) == newId
      && after == WithVersion(before, oldId, newId, text, c.diff(text, was))
  }

  lemma VersionPutStores(c: Calculus, before: Tables, after: Tables, oldId: Id, newId: Id)
    requires VersionPut(c, before, after, oldId, newId)
    requires Exclusive(before) && !before.HasDelta(newId) && oldId != newId
    ensures forall x :: after.Stored(x) <==> before.Stored(x) || x == oldId || x == newId
    ensures Exclusive(after) && newId in after.files && oldId !in after.files && (oldId, newId) in after.deltas
  {
    var was, text :| c.ident(was) == oldId && c.ident(text) == newId
      && after == WithVersion(before, oldId, newId, text, c.diff(text, was));
    WithVersionStores(before, oldId, newId, text, c.diff(text, was));
    WithVersionExclusive(before, oldId, newId, text, c.diff(text, was));
  }

  /**
   Row by row: the new version is held in full and the old one as a delta from it that leads back, all other rows being
   what they were.
   */
  ghost predicate Replaced(c: Calculus, before: Tables, after: Tables, oldId: Id, newId: Id) {
    && newId in after.files && c.ident(after.files[newId]) == newId
    && (oldId, newId) in after.deltas && Replays(c, newId, after.deltas[(oldId, newId)], oldId)
    && (forall id :: id in after.files <==> id == newId || (id in before.files && id != oldId))
    && (forall id :: id in after.files && id != newId ==> after.files[id] == before.files[id])
    && (forall k :: k in after.deltas <==> k == (oldId, newId) || (k in before.deltas && k.0 != newId))
    && (forall k :: k in after.deltas && k != (oldId, newId) ==> after.deltas[k] == before.deltas[k])
  }

  /** The delta that is stored leads back to the old version. */
  lemma VersionPutReplaces(c: Calculus, before: Tables, after: Tables, oldId: Id, newId: Id)
    requires Lawful(c) && VersionPut(c, before, after, oldId, newId) && oldId != newId && !before.HasDelta(newId)
    ensures Replaced(c, before, after, oldId, newId)
  {
    hide Fits, Patched, After;
    var was, text :| c.ident(was) == oldId && c.ident(text) == newId
      && after == WithVersion(before, oldId, newId, text, c.diff(text, was));
    assert Leads(c.diff(text, was), text, was);
    forall d: Data | c.ident(d) == newId
      ensures Fits(c.diff(text, was), d) && c.ident(After(d, c.diff(text, was)).value) == oldId
    {
      assert d == text;
    }
  }

  /** Dropping the rows of the new version first makes no difference. */
  lemma ReplacedOver(c: Calculus, before: Tables, after: Tables, oldId: Id, newId: Id)
    requires Replaced(c, WithoutRows(before, newId), after, oldId, newId)
    ensures Replaced(c, before, after, oldId, newId)
  {
    hide Replays;
  }

  lemma WithoutRowsStores(t: Tables, id: Id)
    ensures forall x :: WithoutRows(t, id).Stored(x) <==> t.Stored(x) && x != id
    ensures Exclusive(t) ==> Exclusive(WithoutRows(t, id))
  {
    var u := WithoutRows(t, id);
    forall x | t.HasDelta(x) && x != id
      ensures u.HasDelta(x)
    {
      var k :| k in t.deltas && k.0 == x;
      assert k in u.deltas;
    }
  }

  /** Put again over itself, the empty file ends up as a delta from itself. */
  lemma EmptyFileRow(c: Calculus)
    requires Lawful(c)
    ensures var id := c.ident("");
      var t := Tables(map[id := ""], map[]);
      var u := WithVersion(WithoutRows(t, id), id, id, "", c.diff("", ""));
      ValidTables(c, t) && Exclusive(t) && VersionPut(c, WithoutRows(t, id), u, id, id) && !Acyclic(u.Edges()) && !Exclusive(u)
  {
    var id := c.ident("");
    var t := Tables(map[id := ""], map[]);
    var u := WithVersion(WithoutRows(t, id), id, id, "", c.diff("", ""));
    RankedAcyclic(t.Edges(), i => 0);
    assert (id, id) in u.deltas;
    ReachesSelf(u.Edges(), id);
  }

  /** A delta that copies past the end is accepted, and the version recorded with it can never be rebuilt. */
  lemma OverlongRow(c: Calculus)
    requires Lawful(c)
    ensures var del := Render([Xdelta.Copy(0, 99), Xdelta.Insert("x")]);
      var base, id := c.ident("a"), c.ident("ax");
      var t := Tables(map[base := "a"], map[]);
      ValidTables(c, t) && Produces(c, base, del, id) && !FitsVersion(c, base, del)
      && !Reconstructible(c, Tables(t.files, t.deltas[(id, base) := del]), id)
  {
    hide Patched, After, Fits, Good, Current, Applying, Started;
    OverlongCopy();
    var del := Render([Xdelta.Copy(0, 99), Xdelta.Insert("x")]);
    var base, id := c.ident("a"), c.ident("ax");
    var u := Tables(map[base := "a"], map[(id, base) := del]);
    RankedAcyclic(Tables(map[base := "a"], map[]).Edges(), i => 0);
    var chain := [id, base];
    assert (chain[0], chain[1]) in u.Edges() && chain[1..] == [base];
    assert Chain(u, chain, id);
    StartedClean("a");
    assert Replayed(u, [base]) == Some(Started("a"));
    assert Rebuilt(u, chain) == None;
  }

  /**
   A delta with an empty insert is accepted, and the version recorded with it can be rebuilt, but a version recorded
   on top of it cannot, although the second delta fits its base.
   */
  lemma EmptyInsertRow(c: Calculus)
    requires Lawful(c)
    ensures var first, second := Render([Xdelta.Insert(""), Xdelta.Copy(0, 1)]), Render([Xdelta.Copy(0, 1), Xdelta.Insert("c")]);
      var base, id, top := c.ident("ab"), c.ident("a"), c.ident("ac");
      Produces(c, base, first, id) && !FitsVersion(c, base, first) && Produces(c, id, second, top) && FitsVersion(c, id, second)
      && !Reconstructible(c, Tables(map[base := "ab"], map[(id, base) := first, (top, id) := second]), top)
  {
    hide Patched, After, Fits, Good, Current, Applying, Started;
    EmptyInsert();
    var first, second := Render([Xdelta.Insert(""), Xdelta.Copy(0, 1)]), Render([Xdelta.Copy(0, 1), Xdelta.Insert("c")]);
    var base, id, top := c.ident("ab"), c.ident("a"), c.ident("ac");
    var u := Tables(map[base := "ab"], map[(id, base) := first, (top, id) := second]);
    var chain := [top, id, base];
    assert (chain[0], chain[1]) in u.Edges() && (chain[1], chain[2]) in u.Edges();
    assert chain[1..] == [id, base] && chain[1..][1..] == [base];
    assert Chain(u, chain, top);
    StartedText("ab");
    assert Replayed(u, [base]) == Some(Started("ab"));
    TwoDeltas("ab", first, second);
    var s := Applying(Started("ab"), first);
    assert Replayed(u, [id, base]) == if s.Some? then Some(Turned(s.value)) else None;
    assert Replayed(u, chain) == None;
  }

  /** A replay of two deltas, step by step. */
  lemma TwoDeltas(base: Data, first: Delta, second: Delta)
    requires DeltaChains.Replayed(base, [first, second]) == None && Good(Started(base))
    ensures var s := Applying(Started(base), first);
      s.Some? ==> Good(Turned(s.value)) && Applying(Turned(s.value), second) == None
  {
    hide Good, Current, Started;
    var s := Applying(Started(base), first);
    assert [first, second][1..] == [second] && [second][1..] == [];
    if s.Some? {
      TurnedText(s.value);
      assert ReplayFrom(Turned(s.value), [second]) == None;
    }
  }

  /** Going back to a version that has meanwhile been built on its child closes a cycle. */
  lemma BackAndForth(c: Calculus, a: Data, b: Data)
    requires Lawful(c) && a != b
    ensures var t := Tables(map[c.ident(a) := a], map[]);
      var u := WithVersion(t, c.ident(a), c.ident(b), b, c.diff(b, a));
      var v := WithVersion(u, c.ident(b), c.ident(a), a, c.diff(a, b));
      ValidTables(c, t) && ValidTables(c, u) && !ValidTables(c, v)
  {
    hide Reaches, Acyclic;
    var x, y := c.ident(a), c.ident(b);
    var t := Tables(map[x := a], map[]);
    RankedAcyclic(t.Edges(), i => 0);
    UnstoredReachesNothing(t, y, x);
    WithVersionValid(c, t, x, y, a, b);
    var u := WithVersion(t, x, y, b, c.diff(b, a));
    assert (x, y) in u.Edges();
    ReachesSelf(u.Edges(), y);
    ReachesStep(u.Edges(), x, y, y);
    WithVersionValid(c, u, y, x, b, a);
  }
}
