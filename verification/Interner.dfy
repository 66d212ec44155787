// The string interner of interner.hh: strings to consecutive numbers and back.
module Interner {

  import opened Wrappers

  class Table {
    var fwd: map<string, nat>
    var rev: seq<string>

    /** The two tables are inverse to each other, so numbers and interned strings correspond one to one. */
    ghost predicate Valid()
      reads this
    {
      && (forall i :: 0 <= i < |rev| ==> rev[i] in fwd && fwd[rev[i]] == i)
      && (forall s :: s in fwd ==> fwd[s] < |rev| && rev[fwd[s]] == s)
    }

    constructor ()
      ensures Valid() && rev == []
    {
      fwd, rev := map[], [];
    }

    /** None is the failed check for a number never handed out. */
    method Lookup(k: nat) returns (s: Option<string>)
      requires Valid()
      ensures s == if k < |rev| then Some(rev[k]) else None
      ensures s.Some? ==> s.value in fwd && fwd[s.value] == k
    {
      if k < |rev| {
        s := Some(rev[k]);
      } else {
        s := None;
      }
    }

    method Intern(s: string) returns (t: nat, isNew: bool)
      requires Valid()
      modifies this
      ensures Valid() && t < |rev| && rev[t] == s
      ensures isNew <==> s !in old(rev)
      ensures rev == if isNew then old(rev) + [s] else old(rev)
    {
      t := |rev|;
      isNew := s !in fwd;
      if isNew {
        fwd := fwd[s := t];
        rev := rev + [s];
      } else {
        t := fwd[s];
      }
    }

    /** A file's lines as numbers.  Numbers given out before keep their strings. */
    method InternLines(lines: seq<string>) returns (ids: seq<nat>)
      requires Valid()
      modifies this
      ensures Valid() && old(rev) <= rev
      ensures |ids| == |lines| && forall i :: 0 <= i < |lines| ==> ids[i] < |rev| && rev[ids[i]] == lines[i]
    {
      ids := [];
      while |ids| < |lines|
        invariant Valid() && old(rev) <= rev
        invariant |ids| <= |lines| && forall i :: 0 <= i < |ids| ==> ids[i] < |rev| && rev[ids[i]] == lines[i]
      {
        var t, isNew := Intern(lines[|ids|]);
        ids := ids + [t];
      }
    }

    /** Lines of two interned files are equal exactly when their numbers are. */
    method InternBoth(lines1: seq<string>, lines2: seq<string>) returns (ids1: seq<nat>, ids2: seq<nat>)
      requires Valid()
      modifies this
      ensures Valid() && |ids1| == |lines1| && |ids2| == |lines2|
      ensures forall i, j :: 0 <= i < |lines1| && 0 <= j < |lines2| ==> (ids1[i] == ids2[j] <==> lines1[i] == lines2[j])
      ensures forall i :: 0 <= i < |lines1| ==> ids1[i] < |rev| && rev[ids1[i]] == lines1[i]
      ensures forall j :: 0 <= j < |lines2| ==> ids2[j] < |rev| && rev[ids2[j]] == lines2[j]
    {
      ids1 := InternLines(lines1);
      ids2 := InternLines(lines2);
      forall i, j | 0 <= i < |lines1| && 0 <= j < |lines2|
        ensures ids1[i] == ids2[j] <==> lines1[i] == lines2[j]
      {
        assert fwd[rev[ids1[i]]] == ids1[i] && fwd[rev[ids2[j]]] == ids2[j];
      }
    }
  }
}
