/**
 The reference side of lcs.cc: insert/delete distance, edit scripts and common
 subsequences, defined with no mention of how the search finds them.
 */
module EditDistance {

  function Min(x: int, y: int): int {
    if x <= y then x else y
  }

  function Max(x: int, y: int): int {
    if x >= y then x else y
  }

  function Init<T>(s: seq<T>): seq<T>
    requires s != []
  {
    s[..|s| - 1]
  }

  function Last<T>(s: seq<T>): T
    requires s != []
  {
    s[|s| - 1]
  }

  lemma ReverseInit<T>(s: seq<T>)
    requires s != []
    ensures Reverse(s) == [Last(s)] + Reverse(Init(s))
  {
  }

  lemma InitTakeDrop<T>(s: seq<T>, m: nat)
    requires m < |s|
    ensures Init(s)[..m] == s[..m]
    ensures s[m..] != [] && Init(s[m..]) == Init(s)[m..] && Last(s[m..]) == Last(s)
  {
  }

  lemma SliceSplit<T>(s: seq<T>, i: int, m: int, e: int)
    requires 0 <= i <= m <= e <= |s|
    ensures s[i..e] == s[i..m] + s[m..e]
  {
  }

  function Reverse<T>(s: seq<T>): (r: seq<T>)
    ensures |r| == |s|
    ensures forall i :: 0 <= i < |s| ==> r[i] == s[|s| - 1 - i]
  {
    seq(|s|, i requires 0 <= i < |s| => s[|s| - 1 - i])
  }

  // ---------------------------------------------------------------- distance

  /** The least number of insertions plus deletions that turn a into b. */
  function Dist(a: seq<int>, b: seq<int>): nat
    decreases |a| + |b|
  {
    if a == [] then |b|
    else if b == [] then |a|
    else if Last(a) == Last(b) then Dist(Init(a), Init(b))
    else 1 + Min(Dist(Init(a), b), Dist(a, Init(b)))
  }

  /** The length of a longest common subsequence, read off the same recursion. */
  ghost function Common(a: seq<int>, b: seq<int>): (k: nat)
    ensures |a| + |b| == Dist(a, b) + 2 * k
    decreases |a| + |b|
  {
    if a == [] || b == [] then 0
    else if Last(a) == Last(b) then 1 + Common(Init(a), Init(b))
    else if Dist(Init(a), b) <= Dist(a, Init(b)) then Common(Init(a), b)
    else Common(a, Init(b))
  }

  /** Dropping one element from either side moves the distance by exactly one. */
  lemma {:induction false} DistStep(a: seq<int>, b: seq<int>)
    ensures a != [] ==> Dist(Init(a), b) == Dist(a, b) + 1 || Dist(Init(a), b) == Dist(a, b) - 1
    ensures b != [] ==> Dist(a, Init(b)) == Dist(a, b) + 1 || Dist(a, Init(b)) == Dist(a, b) - 1
    decreases |a| + |b|
  {
    var k := Common(a, b);
    if a != [] { k := Common(Init(a), b); }
    if b != [] { k := Common(a, Init(b)); }
    if a != [] && b != [] {
      DistStep(Init(a), b);
      DistStep(a, Init(b));
    }
  }

  lemma {:induction false} DistBounds(a: seq<int>, b: seq<int>)
    ensures |b| - |a| <= Dist(a, b)
    ensures |a| - |b| <= Dist(a, b)
    ensures Dist(a, b) <= |a| + |b|
    decreases |a| + |b|
  {
    if a == [] || b == [] {
    } else if Last(a) == Last(b) {
      DistBounds(Init(a), Init(b));
    } else {
      DistBounds(Init(a), b);
      DistBounds(a, Init(b));
    }
  }

  lemma {:induction false} DistSelf(a: seq<int>)
    ensures Dist(a, a) == 0
  {
    if a != [] { DistSelf(Init(a)); }
  }

  /** Distance zero means equal. */
  lemma {:induction false} DistZero(a: seq<int>, b: seq<int>)
    requires Dist(a, b) == 0
    ensures a == b
    decreases |a| + |b|
  {
    if a != [] && b != [] {
      DistZero(Init(a), Init(b));
      assert a == Init(a) + [Last(a)] && b == Init(b) + [Last(b)];
    }
  }

  lemma {:induction false} DistSymmetric(a: seq<int>, b: seq<int>)
    ensures Dist(a, b) == Dist(b, a)
    decreases |a| + |b|
  {
    if a == [] || b == [] {
    } else if Last(a) == Last(b) {
      DistSymmetric(Init(a), Init(b));
    } else {
      DistSymmetric(Init(a), b);
      DistSymmetric(a, Init(b));
    }
  }

  /** Editing two pieces separately is one way to edit their concatenation. */
  lemma {:induction false} DistConcat(a1: seq<int>, a2: seq<int>, b1: seq<int>, b2: seq<int>)
    ensures Dist(a1 + a2, b1 + b2) <= Dist(a1, b1) + Dist(a2, b2)
    decreases |a2| + |b2|
  {
    if a2 == [] && b2 == [] {
      assert a1 + a2 == a1 && b1 + b2 == b1;
    } else if a2 == [] || (b2 != [] && Last(a2) != Last(b2) && Dist(a2, b2) == 1 + Dist(a2, Init(b2))) {
      DistConcat(a1, a2, b1, Init(b2));
      assert Init(b1 + b2) == b1 + Init(b2);
      DistStep(a1 + a2, b1 + b2);
    } else if b2 == [] || Last(a2) != Last(b2) {
      DistConcat(a1, Init(a2), b1, b2);
      assert Init(a1 + a2) == a1 + Init(a2);
      DistStep(a1 + a2, b1 + b2);
    } else {
      DistConcat(a1, Init(a2), b1, Init(b2));
      assert Init(a1 + a2) == a1 + Init(a2) && Init(b1 + b2) == b1 + Init(b2);
    }
  }

  ghost predicate OptimalSplit(a: seq<int>, b: seq<int>, m: nat, y: nat) {
    m <= |a| && y <= |b| && Dist(a[..m], b[..y]) + Dist(a[m..], b[y..]) == Dist(a, b)
  }

  lemma SplitLowerBound(a: seq<int>, b: seq<int>, m: nat, y: nat)
    requires m <= |a| && y <= |b|
    ensures Dist(a, b) <= Dist(a[..m], b[..y]) + Dist(a[m..], b[y..])
  {
    DistConcat(a[..m], a[m..], b[..y], b[y..]);
    assert a[..m] + a[m..] == a && b[..y] + b[y..] == b;
  }

  /** Every row of a is crossed by an optimal edit at some column of b. */
  lemma {:induction false} SplitExists(a: seq<int>, b: seq<int>, m: nat) returns (y: nat)
    requires m <= |a|
    ensures OptimalSplit(a, b, m, y)
    decreases |a| + |b|
  {
    if m == |a| {
      y := |b|;
      assert a[..m] == a && b[..y] == b;
    } else if b == [] {
      y := 0;
      assert b[..0] == [] && b[0..] == [];
    } else if Last(a) == Last(b) {
      y := SplitExists(Init(a), Init(b), m);
      InitTakeDrop(a, m);
      InitTakeDrop(b, y);
    } else if Dist(a, b) == 1 + Dist(Init(a), b) {
      y := SplitExists(Init(a), b, m);
      InitTakeDrop(a, m);
      DistStep(a[m..], b[y..]);
      SplitLowerBound(a, b, m, y);
    } else {
      y := SplitExists(a, Init(b), m);
      InitTakeDrop(b, y);
      DistStep(a[m..], b[y..]);
      SplitLowerBound(a, b, m, y);
    }
  }

  lemma {:induction false} DistReverseUpper(a: seq<int>, b: seq<int>)
    ensures Dist(Reverse(a), Reverse(b)) <= Dist(a, b)
    decreases |a| + |b|
  {
    if a == [] || b == [] {
      DistBounds(Reverse(a), Reverse(b));
    } else if Last(a) == Last(b) {
      ReverseInit(a);
      ReverseInit(b);
      DistReverseUpper(Init(a), Init(b));
      DistConcat([Last(a)], Reverse(Init(a)), [Last(b)], Reverse(Init(b)));
      DistSelf([Last(a)]);
    } else if Dist(a, b) == 1 + Dist(Init(a), b) {
      ReverseInit(a);
      DistReverseUpper(Init(a), b);
      DistConcat([Last(a)], Reverse(Init(a)), [], Reverse(b));
      assert [] + Reverse(b) == Reverse(b);
    } else {
      ReverseInit(b);
      DistReverseUpper(a, Init(b));
      DistConcat([], Reverse(a), [Last(b)], Reverse(Init(b)));
      assert [] + Reverse(a) == Reverse(a);
    }
  }

  /** Reading both sequences backwards does not change their distance. */
  lemma DistReverse(a: seq<int>, b: seq<int>)
    ensures Dist(Reverse(a), Reverse(b)) == Dist(a, b)
  {
    DistReverseUpper(a, b);
    DistReverseUpper(Reverse(a), Reverse(b));
    assert Reverse(Reverse(a)) == a && Reverse(Reverse(b)) == b;
  }

  lemma {:induction false} DistTrimSuffix(a: seq<int>, b: seq<int>, s: seq<int>)
    ensures Dist(a + s, b + s) == Dist(a, b)
  {
    if s == [] {
      assert a + s == a && b + s == b;
    } else {
      DistTrimSuffix(a, b, Init(s));
      assert Init(a + s) == a + Init(s) && Init(b + s) == b + Init(s);
    }
  }

  /** Common leading and trailing stretches cost nothing. */
  lemma DistTrim(p: seq<int>, a: seq<int>, b: seq<int>, s: seq<int>)
    ensures Dist(p + a + s, p + b + s) == Dist(a, b)
  {
    DistTrimSuffix(p + a, p + b, s);
    DistReverse(p + a, p + b);
    DistReverse(a, b);
    DistTrimSuffix(Reverse(a), Reverse(b), Reverse(p));
    assert Reverse(p + a) == Reverse(a) + Reverse(p) && Reverse(p + b) == Reverse(b) + Reverse(p);
  }

  // ------------------------------------------------------------------ scripts

  /** a[i..ie] is carried over, unchanged, as b[j..je]. */
  ghost predicate Carried(a: seq<int>, i: nat, ie: int, b: seq<int>, j: nat, je: int) {
    i <= ie <= |a| && j <= je <= |b| && a[i..ie] == b[j..je]
  }

  lemma CarriedJoin(a: seq<int>, i: nat, im: nat, ie: int, b: seq<int>, j: nat, jm: nat, je: int)
    requires Carried(a, i, im, b, j, jm) && Carried(a, im, ie, b, jm, je)
    ensures Carried(a, i, ie, b, j, je) && ie - i == je - j
  {
    assert a[i..ie] == a[i..im] + a[im..ie] && b[j..je] == b[j..jm] + b[jm..je];
    assert |a[i..im]| == im - i && |a[im..ie]| == ie - im;
  }

  lemma CarriedLength(a: seq<int>, i: nat, ie: int, b: seq<int>, j: nat, je: int)
    requires Carried(a, i, ie, b, j, je)
    ensures ie - i == je - j
  {
    assert |a[i..ie]| == ie - i && |b[j..je]| == je - j;
  }

  /** Where, in a and in b, an edit x met after reaching (i, j) takes place. */
  function EditRow(x: int, i: int, j: int): int {
    if x < 0 then -1 - x else i + (x - 1 - j)
  }

  function EditColumn(x: int, i: int, j: int): int {
    if x < 0 then j + (-1 - x - i) else x - 1
  }

  function RowAfter(x: int, i: int, j: int): int {
    if x < 0 then -x else i + (x - 1 - j)
  }

  function ColumnAfter(x: int, i: int, j: int): int {
    if x < 0 then j + (-1 - x - i) else x
  }

  /**
   e is an edit script from a[i..ie] to b[j..je], read left to right: a negative
   entry -(d+1) deletes a[d], a positive entry c+1 inserts b[c], and what lies
   between two edits is carried over unchanged.
   */
  ghost predicate Script(e: seq<int>, a: seq<int>, b: seq<int>, i: nat, ie: int, j: nat, je: int)
    decreases |e|
  {
    if e == [] then Carried(a, i, ie, b, j, je)
    else
      && Carried(a, i, EditRow(e[0], i, j), b, j, EditColumn(e[0], i, j))
      && RowAfter(e[0], i, j) <= ie && ColumnAfter(e[0], i, j) <= je
      && Script(e[1..], a, b, RowAfter(e[0], i, j), ie, ColumnAfter(e[0], i, j), je)
  }

  lemma {:induction false} ScriptInRange(e: seq<int>, a: seq<int>, b: seq<int>, i: nat, ie: int, j: nat, je: int)
    requires Script(e, a, b, i, ie, j, je)
    ensures i <= ie <= |a| && j <= je <= |b|
    decreases |e|
  {
    if e != [] {
      ScriptInRange(e[1..], a, b, RowAfter(e[0], i, j), ie, ColumnAfter(e[0], i, j), je);
    }
  }

  /** Scripts for adjacent regions join into a script for the whole region. */
  lemma {:induction false} ScriptConcat(e: seq<int>, f: seq<int>, a: seq<int>, b: seq<int>,
                                        i: nat, im: nat, ie: int, j: nat, jm: nat, je: int)
    requires Script(e, a, b, i, im, j, jm) && Script(f, a, b, im, ie, jm, je)
    ensures Script(e + f, a, b, i, ie, j, je)
    decreases |e|
  {
    ScriptInRange(f, a, b, im, ie, jm, je);
    if e != [] {
      assert (e + f)[1..] == e[1..] + f;
      ScriptConcat(e[1..], f, a, b, RowAfter(e[0], i, j), im, ie, ColumnAfter(e[0], i, j), jm, je);
    } else if f == [] {
      CarriedJoin(a, i, im, ie, b, j, jm, je);
      assert e + f == [];
    } else {
      CarriedJoin(a, i, im, EditRow(f[0], im, jm), b, j, jm, EditColumn(f[0], im, jm));
      assert e + f == f;
    }
  }

  function Negate(e: seq<int>): (r: seq<int>)
    ensures |r| == |e| && forall i :: 0 <= i < |e| ==> r[i] == -e[i]
  {
    seq(|e|, i requires 0 <= i < |e| => -e[i])
  }

  /** Negating every entry turns a script from a to b into one from b to a. */
  lemma {:induction false} ScriptSwap(e: seq<int>, a: seq<int>, b: seq<int>, i: nat, ie: int, j: nat, je: int)
    requires Script(e, a, b, i, ie, j, je)
    ensures Script(Negate(e), b, a, j, je, i, ie)
    decreases |e|
  {
    if e != [] {
      assert Negate(e)[1..] == Negate(e[1..]);
      CarriedLength(a, i, EditRow(e[0], i, j), b, j, EditColumn(e[0], i, j));
      ScriptSwap(e[1..], a, b, RowAfter(e[0], i, j), ie, ColumnAfter(e[0], i, j), je);
    }
  }

  /** No script is shorter than the distance. */
  lemma {:induction false} ScriptAtLeastDist(e: seq<int>, a: seq<int>, b: seq<int>, i: nat, ie: int, j: nat, je: int)
    requires Script(e, a, b, i, ie, j, je)
    ensures i <= ie <= |a| && j <= je <= |b| && Dist(a[i..ie], b[j..je]) <= |e|
    decreases |e|
  {
    ScriptInRange(e, a, b, i, ie, j, je);
    if e == [] {
      DistSelf(a[i..ie]);
    } else {
      var d, c := EditRow(e[0], i, j), EditColumn(e[0], i, j);
      var d', c' := RowAfter(e[0], i, j), ColumnAfter(e[0], i, j);
      ScriptAtLeastDist(e[1..], a, b, d', ie, c', je);
      OneEditDist(a, i, d, d', ie, b, j, c, c', je);
    }
  }

  lemma OneEditDist(a: seq<int>, i: nat, d: int, d': int, ie: int, b: seq<int>, j: nat, c: int, c': int, je: int)
    requires Carried(a, i, d, b, j, c)
    requires d <= d' <= ie <= |a| && c <= c' <= je <= |b| && (d' - d) + (c' - c) == 1
    ensures Dist(a[i..ie], b[j..je]) <= 1 + Dist(a[d'..ie], b[c'..je])
  {
    SliceSplit(a, i, d, ie);
    SliceSplit(b, j, c, je);
    SliceSplit(a, d, d', ie);
    SliceSplit(b, c, c', je);
    OneEditHead(a[i..d], a[d..d'], a[d'..ie], b[c..c'], b[c'..je]);
  }

  lemma OneEditHead(p: seq<int>, a1: seq<int>, a2: seq<int>, b1: seq<int>, b2: seq<int>)
    requires |a1| + |b1| == 1
    ensures Dist(p + (a1 + a2), p + (b1 + b2)) <= 1 + Dist(a2, b2)
  {
    DistSelf(p);
    DistConcat(p, a1 + a2, p, b1 + b2);
    DistConcat(a1, a2, b1, b2);
    DistBounds(a1, b1);
  }

  // -------------------------------------------- the set of edits behind a script

  ghost predicate Distinct(e: seq<int>) {
    forall i, j :: 0 <= i < j < |e| ==> e[i] != e[j]
  }

  function DeletionOf(d: int): int {
    -1 - d
  }

  function InsertionOf(c: int): int {
    c + 1
  }

  /** The positions below n of the first sequence that e deletes. */
  ghost function Deleted(e: seq<int>, n: nat): set<int> {
    set d | 0 <= d < n && DeletionOf(d) in e
  }

  /** The positions below n of the second sequence that e inserts. */
  ghost function Inserted(e: seq<int>, n: nat): set<int> {
    set c | 0 <= c < n && InsertionOf(c) in e
  }

  /** What is left of s[i..ie] once the positions in gone are dropped. */
  ghost function Kept(s: seq<int>, gone: set<int>, i: nat, ie: nat): (r: seq<int>)
    requires i <= ie <= |s|
    ensures |r| <= ie - i
    decreases ie - i
  {
    if i == ie then []
    else if i in gone then Kept(s, gone, i + 1, ie)
    else [s[i]] + Kept(s, gone, i + 1, ie)
  }

  lemma {:induction false} KeptSplit(s: seq<int>, gone: set<int>, i: nat, im: nat, ie: nat)
    requires i <= im <= ie <= |s|
    ensures Kept(s, gone, i, ie) == Kept(s, gone, i, im) + Kept(s, gone, im, ie)
    decreases im - i
  {
    if i < im {
      KeptSplit(s, gone, i + 1, im, ie);
    }
  }

  lemma {:induction false} KeptAll(s: seq<int>, gone: set<int>, i: nat, ie: nat)
    requires i <= ie <= |s|
    requires forall k :: i <= k < ie ==> k !in gone
    ensures Kept(s, gone, i, ie) == s[i..ie]
    decreases ie - i
  {
    if i < ie {
      KeptAll(s, gone, i + 1, ie);
      assert s[i..ie] == [s[i]] + s[i + 1..ie];
    }
  }

  lemma {:induction false} KeptSame(s: seq<int>, g1: set<int>, g2: set<int>, i: nat, ie: nat)
    requires i <= ie <= |s|
    requires forall k :: i <= k < ie ==> (k in g1 <==> k in g2)
    ensures Kept(s, g1, i, ie) == Kept(s, g2, i, ie)
    decreases ie - i
  {
    if i < ie {
      KeptSame(s, g1, g2, i + 1, ie);
    }
  }

  /**
   What a script says about its edits as a set: no entry twice, every position in
   range, deletions in increasing order, and the undeleted part of a equal to the
   uninserted part of b.
   */
  ghost predicate EditSet(e: seq<int>, a: seq<int>, b: seq<int>, i: nat, ie: nat, j: nat, je: nat)
    requires i <= ie <= |a| && j <= je <= |b|
  {
    && Distinct(e)
    && (forall x :: x in e ==> x != 0 && (x < 0 ==> i <= -1 - x < ie) && (x > 0 ==> j <= x - 1 < je))
    && Kept(a, Deleted(e, |a|), i, ie) == Kept(b, Inserted(e, |b|), j, je)
    && 2 * |Kept(a, Deleted(e, |a|), i, ie)| == (ie - i) + (je - j) - |e|
  }

  ghost predicate DeletionsAscend(e: seq<int>) {
    forall p, q :: 0 <= p < q < |e| && e[p] < 0 && e[q] < 0 ==> e[p] > e[q]
  }

  lemma {:induction false} ScriptEditSet(e: seq<int>, a: seq<int>, b: seq<int>, i: nat, ie: nat, j: nat, je: nat)
    requires Script(e, a, b, i, ie, j, je)
    ensures i <= ie <= |a| && j <= je <= |b|
    ensures EditSet(e, a, b, i, ie, j, je) && DeletionsAscend(e)
    decreases |e|
  {
    ScriptInRange(e, a, b, i, ie, j, je);
    if e == [] {
      KeptAll(a, Deleted(e, |a|), i, ie);
      KeptAll(b, Inserted(e, |b|), j, je);
    } else {
      var d, c := EditRow(e[0], i, j), EditColumn(e[0], i, j);
      var d', c' := RowAfter(e[0], i, j), ColumnAfter(e[0], i, j);
      var f := e[1..];
      ScriptEditSet(f, a, b, d', ie, c', je);
      CarriedLength(a, i, d, b, j, c);
      assert e == [e[0]] + f;
      EditSetHead(e[0], f, d, d', ie, c, c', je, |a|, |b|);
      KeptHead(a, Deleted(e, |a|), Deleted(f, |a|), i, d, d', ie);
      KeptHead(b, Inserted(e, |b|), Inserted(f, |b|), j, c, c', je);
      EditSetCount(e, f, a, b, i, d, d', ie, j, c, c', je);
    }
  }

  lemma EditSetCount(e: seq<int>, f: seq<int>, a: seq<int>, b: seq<int>,
                     i: nat, d: nat, d': nat, ie: nat, j: nat, c: nat, c': nat, je: nat)
    requires Carried(a, i, d, b, j, c) && d - i == c - j
    requires d <= d' <= ie <= |a| && c <= c' <= je <= |b| && (d' - d) + (c' - c) == 1
    requires EditSet(f, a, b, d', ie, c', je) && |e| == 1 + |f| && Distinct(e)
    requires forall x :: x in e ==> x != 0 && (x < 0 ==> i <= -1 - x < ie) && (x > 0 ==> j <= x - 1 < je)
    requires Kept(a, Deleted(e, |a|), i, ie) == a[i..d] + Kept(a, Deleted(f, |a|), d', ie)
    requires Kept(b, Inserted(e, |b|), j, je) == b[j..c] + Kept(b, Inserted(f, |b|), c', je)
    ensures EditSet(e, a, b, i, ie, j, je)
  {
    assert |a[i..d]| == d - i;
  }

  /** Dropping one position (or none) at d leaves s[i..d] and what is left after it. */
  lemma KeptHead(s: seq<int>, gone: set<int>, rest: set<int>, i: nat, d: nat, d': nat, ie: nat)
    requires i <= d <= d' <= ie <= |s| && d' <= d + 1
    requires forall k :: d' <= k ==> (k in gone <==> k in rest)
    requires forall k :: k < d ==> k !in gone
    requires d' == d + 1 ==> d in gone
    ensures Kept(s, gone, i, ie) == s[i..d] + Kept(s, rest, d', ie)
  {
    KeptSplit(s, gone, i, d, ie);
    KeptAll(s, gone, i, d);
    KeptSame(s, gone, rest, d', ie);
  }

  lemma EditSetHead(x: int, f: seq<int>, d: int, d': int, ie: int, c: int, c': int, je: int, n: nat, m: nat)
    requires if x < 0 then d' == d + 1 == -x && c' == c else d' == d && c' == c + 1 == x
    requires 0 <= d && 0 <= c && d' <= ie <= n && c' <= je <= m
    requires forall y :: y in f ==> y != 0 && (y < 0 ==> d' <= -1 - y < ie) && (y > 0 ==> c' <= y - 1 < je)
    requires Distinct(f) && DeletionsAscend(f)
    ensures Distinct([x] + f) && DeletionsAscend([x] + f)
    ensures Deleted([x] + f, n) == (if x < 0 then {d} else {}) + Deleted(f, n)
    ensures Inserted([x] + f, m) == (if x > 0 then {c} else {}) + Inserted(f, m)
    ensures forall y :: y in [x] + f ==> y != 0 && (y < 0 ==> d <= -1 - y < ie) && (y > 0 ==> c <= y - 1 < je)
    ensures forall k :: k in Deleted(f, n) ==> d' <= k
    ensures forall k :: k in Inserted(f, m) ==> c' <= k
  {
    var e := [x] + f;
    forall p, q | 0 <= p < q < |e|
      ensures e[p] != e[q] && (e[p] < 0 && e[q] < 0 ==> e[p] > e[q])
    {
      assert e[q] == f[q - 1] && e[q] in f;
      if p > 0 { assert e[p] == f[p - 1]; }
    }
    assert forall y :: y in e <==> y == x || y in f;
  }

  // -------------------------------------------------------- common subsequences

  ghost predicate Subsequence(s: seq<int>, a: seq<int>) {
    s == [] ||
    (a != [] && ((Last(s) == Last(a) && Subsequence(Init(s), Init(a))) || Subsequence(s, Init(a))))
  }

  /** A common subsequence bounds the distance, so distance bounds its length. */
  lemma {:induction false} CommonSubsequenceBound(s: seq<int>, a: seq<int>, b: seq<int>)
    requires Subsequence(s, a) && Subsequence(s, b)
    ensures Dist(a, b) + 2 * |s| <= |a| + |b|
    decreases |a| + |b|
  {
    if s == [] {
      DistBounds(a, b);
    } else if Subsequence(s, Init(a)) {
      CommonSubsequenceBound(s, Init(a), b);
      DistStep(a, b);
    } else if Subsequence(s, Init(b)) {
      CommonSubsequenceBound(s, a, Init(b));
      DistStep(a, b);
    } else {
      CommonSubsequenceBound(Init(s), Init(a), Init(b));
    }
  }

  lemma {:induction false} KeptSubsequence(s: seq<int>, gone: set<int>, ie: nat)
    requires ie <= |s|
    ensures Subsequence(Kept(s, gone, 0, ie), s[..ie])
  {
    if ie > 0 {
      KeptSubsequence(s, gone, ie - 1);
      KeptSplit(s, gone, 0, ie - 1, ie);
      assert Init(s[..ie]) == s[..ie - 1];
      var k, tail := Kept(s, gone, 0, ie - 1), Kept(s, gone, ie - 1, ie);
      if ie - 1 in gone {
        assert k + tail == k;
      } else {
        assert Kept(s, gone, ie, ie) == [];
        assert tail == [s[ie - 1]];
        assert Init(k + tail) == k;
      }
    }
  }
}
