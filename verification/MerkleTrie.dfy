/**
 What insert_into_merkle_tree does to the table, and why the table is always the
 canonical trie of the leaves put in: which nodes exist, what every slot holds, and
 that the depth assertion never fires.
 */
module MerkleTrie {
  import opened MerkleNodes

  /** Nodes by prefix; the level of a node is the length of its prefix. */
  type Table = map<Digits, Node>

  /** The leaves put in so far, each with the liveness last given for it. */
  type Leaves = map<Digits, bool>

  // ------------------------------------------------------------------ insertion

  function NewNode(ty: ItemType, p: Digits, s: Digit, live: bool, leaf: Id): Node {
    Node(|p|, p, 1, SetState(EmptyBitmap(), s, LeafState(live)), EmptySlots()[s := leaf], ty)
  }

  /** A slot turned into a subtree whose hash is not known yet. */
  function Blanked(node: Node, s: Digit): Node {
    node.WithSlot(s, []).WithState(s, SubtreeState)
  }

  /** Changing the liveness of a leaf that is already there. */
  function Flipped(node: Node, s: Digit, live: bool): Node {
    if node.State(s) == DeadLeafState && live then node.WithState(s, LiveLeafState)
    else if node.State(s) == LiveLeafState && !live then node.WithState(s, DeadLeafState)
    else node
  }

  /**
   The table after one insertion at a level.  Where the code would hit an assertion
   (a slot that does not hold a full id, or a descent below the last level) the table
   is left alone; NeverTooDeep shows that this does not happen.
   */
  function Insert(tab: Table, ty: ItemType, live: bool, leaf: Leaf, level: nat): (r: Table)
    requires level < 40
    ensures forall q :: q in tab ==> q in r
    ensures leaf[..level] in r
    decreases 40 - level
  {
    var p, s := leaf[..level], leaf[level];
    if p !in tab then tab[p := NewNode(ty, p, s, live, leaf)]
    else
      var node := tab[p];
      match node.State(s)
      case EmptyState =>
        tab[p := node.(totalNumLeaves := node.totalNumLeaves + 1).WithState(s, LeafState(live)).WithSlot(s, leaf)]
      case SubtreeState =>
        if level + 1 >= 40 then tab
        else
          var t := Insert(tab, ty, live, leaf, level + 1);
          t[p := Blanked(t[p], s)]
      case _ =>
        if node.slots[s] == leaf then tab[p := Flipped(node, s, live)]
        else if level + 1 >= 40 || |node.slots[s]| != 40 then tab
        else
          var t := Insert(tab, ty, node.State(s) == LiveLeafState, node.slots[s], level + 1);
          var t' := Insert(t, ty, live, leaf, level + 1);
          t'[p := Blanked(t'[p], s)]
  }

  // ------------------------------------------------------------- the canonical trie

  ghost predicate None(m: Leaves, p: Digits) {
    forall x :: x in m ==> !(p <= x)
  }

  ghost predicate Lone(m: Leaves, p: Digits, x: Digits) {
    x in m && p <= x && forall y :: y in m && p <= y ==> y == x
  }

  ghost predicate Many(m: Leaves, p: Digits) {
    exists x, y :: x in m && y in m && x != y && p <= x && p <= y
  }

  ghost predicate SlotOk(node: Node, s: Digit, q: Digits, m: Leaves) {
    match node.State(s)
    case EmptyState => None(m, q) && node.slots[s] == []
    case LiveLeafState => Lone(m, q, node.slots[s]) && m[node.slots[s]]
    case DeadLeafState => Lone(m, q, node.slots[s]) && !m[node.slots[s]]
    case SubtreeState => Many(m, q)
  }

  /** The node at p says, slot by slot, how many leaves lie below it. */
  ghost predicate NodeOk(node: Node, p: Digits, m: Leaves, ty: ItemType) {
    && node.level == |p| && node.pref == p && node.itemType == ty
    && node.totalNumLeaves == Occupied(node.bitmap, 16)
    && forall s: Digit :: SlotOk(node, s, p + [s], m)
  }

  ghost predicate LeavesUnder(m: Leaves, p: Digits) {
    forall x :: x in m ==> |x| == 40 && p <= x
  }

  /** A node below the top of the subtree exists exactly when two leaves share its prefix. */
  ghost predicate Present(m: Leaves, p: Digits, q: Digits) {
    if q == p then m != map[] else Many(m, q)
  }

  /** The nodes at and below p are exactly the trie of the leaves m. */
  ghost predicate Trie(tab: Table, p: Digits, m: Leaves, ty: ItemType) {
    && LeavesUnder(m, p)
    && (forall q :: p <= q ==> (q in tab <==> Present(m, p, q)))
    && (forall q :: p <= q && q in tab ==> NodeOk(tab[q], q, m, ty))
  }

  /** The leaves below p. */
  ghost function Below(m: Leaves, p: Digits): Leaves {
    map x | x in m && p <= x :: m[x]
  }

  // ---------------------------------------------------------- facts about prefixes

  lemma PrefixTransitive(p: Digits, q: Digits, x: Digits)
    requires p <= q && q <= x
    ensures p <= x
  {
    assert x[..|p|] == q[..|p|];
  }

  /** A longer prefix goes through exactly one slot. */
  lemma PrefixStep(p: Digits, q: Digits)
    requires p <= q && p != q
    ensures |p| < |q| && p + [q[|p|]] <= q
    ensures forall k: Digit :: p + [k] <= q <==> k == q[|p|]
  {
    forall k: Digit
      ensures p + [k] <= q <==> k == q[|p|]
    {
      assert (p + [k])[|p|] == k;
      assert (p + [k])[..|p|] == p;
    }
  }

  lemma SlotBelow(p: Digits, s: Digit, q: Digits)
    requires p + [s] <= q
    ensures p <= q && p != q && !(p + [s] <= p) && q[|p|] == s
  {
    PrefixTransitive(p, p + [s], q);
  }

  lemma DistinctSlots(p: Digits, s: Digit, k: Digit, q: Digits)
    requires s != k && p + [k] <= q
    ensures !(p + [s] <= q)
  {
    SlotBelow(p, k, q);
    PrefixStep(p, q);
  }

  // ----------------------------------------------- the trie looks only at what is below

  /** m and m' agree on the leaves below p. */
  ghost predicate Agree(m: Leaves, m': Leaves, p: Digits) {
    forall x :: p <= x ==> (x in m <==> x in m') && (x in m ==> m[x] == m'[x])
  }

  lemma AgreeBelow(m: Leaves, m': Leaves, p: Digits, q: Digits)
    requires Agree(m, m', p) && p <= q
    ensures Agree(m, m', q)
  {
    forall x | q <= x
      ensures (x in m <==> x in m') && (x in m ==> m[x] == m'[x])
    {
      PrefixTransitive(p, q, x);
    }
  }

  lemma SlotOkAgree(node: Node, s: Digit, q: Digits, m: Leaves, m': Leaves)
    requires Agree(m, m', q) && SlotOk(node, s, q, m)
    ensures SlotOk(node, s, q, m')
  {
  }

  lemma NodeOkAgree(node: Node, p: Digits, m: Leaves, m': Leaves, ty: ItemType)
    requires Agree(m, m', p) && NodeOk(node, p, m, ty)
    ensures NodeOk(node, p, m', ty)
  {
    forall s: Digit
      ensures SlotOk(node, s, p + [s], m')
    {
      assert SlotOk(node, s, p + [s], m);
      AgreeBelow(m, m', p, p + [s]);
      SlotOkAgree(node, s, p + [s], m, m');
    }
  }

  lemma ManyAgree(m: Leaves, m': Leaves, p: Digits)
    requires Agree(m, m', p)
    ensures Many(m, p) <==> Many(m', p)
  {
  }

  lemma BelowAgrees(m: Leaves, p: Digits, q: Digits)
    requires p <= q
    ensures Agree(m, Below(m, p), q)
  {
    forall x | q <= x
      ensures x in m <==> x in Below(m, p)
    {
      PrefixTransitive(p, q, x);
    }
  }

  lemma ManyUp(m: Leaves, p: Digits, q: Digits)
    requires p <= q && Many(m, q)
    ensures Many(m, p)
  {
    var x, y :| x in m && y in m && x != y && q <= x && q <= y;
    PrefixTransitive(p, q, x);
    PrefixTransitive(p, q, y);
  }

  lemma LoneNotMany(m: Leaves, p: Digits, q: Digits, x: Digits)
    requires p <= q && (None(m, p) || Lone(m, p, x))
    ensures !Many(m, q)
  {
    if Many(m, q) {
      ManyUp(m, p, q);
    }
  }

  // -------------------------------------------------------- going down into a subtree

  lemma TrieBelowEmpty(tab: Table, p: Digits, m: Leaves, ty: ItemType, s: Digit, x: Digits)
    requires Trie(tab, p, m, ty) && (None(m, p + [s]) || Lone(m, p + [s], x))
    ensures Trie(tab, p + [s], map[], ty)
  {
    var q := p + [s];
    forall r | q <= r
      ensures r !in tab
    {
      SlotBelow(p, s, r);
      LoneNotMany(m, q, r, x);
    }
  }

  lemma TrieBelow(tab: Table, p: Digits, m: Leaves, ty: ItemType, s: Digit)
    requires Trie(tab, p, m, ty) && Many(m, p + [s])
    ensures Trie(tab, p + [s], Below(m, p + [s]), ty)
  {
    var q := p + [s];
    var c := Below(m, q);
    BelowAgrees(m, q, q);
    ManyAgree(m, c, q);
    forall r | q <= r
      ensures r in tab <==> Present(c, q, r)
      ensures r in tab ==> NodeOk(tab[r], r, c, ty)
    {
      SlotBelow(p, s, r);
      BelowAgrees(m, q, r);
      ManyAgree(m, c, r);
      if r in tab {
        NodeOkAgree(tab[r], r, m, c, ty);
      }
    }
  }

  // ----------------------------------------------------------------- and back up again

  ghost predicate SameOutside(t: Table, t': Table, p: Digits) {
    forall q :: !(p <= q) ==> (q in t <==> q in t') && (q in t ==> t'[q] == t[q])
  }

  /** m' differs from m only below q. */
  ghost predicate AgreeOutside(m: Leaves, m': Leaves, q: Digits) {
    forall x :: !(q <= x) ==> (x in m <==> x in m') && (x in m ==> m[x] == m'[x])
  }

  lemma AgreeElsewhere(m: Leaves, m': Leaves, p: Digits, s: Digit, k: Digit, r: Digits)
    requires AgreeOutside(m, m', p + [s]) && s != k && p + [k] <= r
    ensures Agree(m, m', r)
  {
    forall x | r <= x
      ensures (x in m <==> x in m') && (x in m ==> m[x] == m'[x])
    {
      PrefixTransitive(p + [k], r, x);
      DistinctSlots(p, s, k, x);
    }
  }

  lemma TopNodeOk(node: Node, p: Digits, m: Leaves, m': Leaves, ty: ItemType, s: Digit, node': Node)
    requires NodeOk(node, p, m, ty) && AgreeOutside(m, m', p + [s])
    requires node'.level == node.level && node'.pref == node.pref && node'.itemType == node.itemType
    requires node'.totalNumLeaves == Occupied(node'.bitmap, 16)
    requires forall k: Digit :: k != s ==> node'.State(k) == node.State(k) && node'.slots[k] == node.slots[k]
    requires SlotOk(node', s, p + [s], m')
    ensures NodeOk(node', p, m', ty)
  {
    forall k: Digit
      ensures SlotOk(node', k, p + [k], m')
    {
      if k != s {
        assert SlotOk(node, k, p + [k], m);
        AgreeElsewhere(m, m', p, s, k, p + [k]);
        SlotOkAgree(node, k, p + [k], m, m');
      }
    }
  }

  /** What lies outside the slot of the leaf keeps its place when only that slot changes. */
  lemma TrieElsewhere(tab: Table, t: Table, p: Digits, m: Leaves, m': Leaves, ty: ItemType, s: Digit, r: Digits)
    requires Trie(tab, p, m, ty) && AgreeOutside(m, m', p + [s]) && SameOutside(tab, t, p + [s])
    requires p <= r && r != p && !(p + [s] <= r)
    ensures r in t <==> Present(m', p, r)
    ensures r in t ==> NodeOk(t[r], r, m', ty)
  {
    PrefixStep(p, r);
    AgreeElsewhere(m, m', p, s, r[|p|], r);
    ManyAgree(m, m', r);
    if r in t {
      NodeOkAgree(tab[r], r, m, m', ty);
    }
  }

  /** A subtree made right again, and its slot blanked, leave the whole trie right. */
  lemma TrieUp(tab: Table, t: Table, p: Digits, m: Leaves, m': Leaves, ty: ItemType, s: Digit)
    requires Trie(tab, p, m, ty) && p in tab && tab[p].State(s) != EmptyState
    requires SameOutside(tab, t, p + [s]) && Trie(t, p + [s], Below(m', p + [s]), ty) && p in t
    requires LeavesUnder(m', p) && AgreeOutside(m, m', p + [s]) && Many(m', p + [s])
    ensures Trie(t[p := Blanked(t[p], s)], p, m', ty)
    ensures SameOutside(tab, t[p := Blanked(t[p], s)], p)
  {
    hide Many, NodeOk, GetState, SetState;
    var q := p + [s];
    var t' := t[p := Blanked(t[p], s)];
    assert !(q <= p) && t[p] == tab[p];
    TopBlanked(tab[p], p, m, m', ty, s);
    forall r | p <= r
      ensures r in t' <==> Present(m', p, r)
      ensures r in t' ==> NodeOk(t'[r], r, m', ty)
    {
      if r == p {
        ManyUp(m', p, q);
        assert m' != map[] by { assert Many(m', p); ManyNotEmpty(m', p); }
      } else if q <= r {
        TrieUpBelow(t, q, m', ty, r);
      } else {
        TrieElsewhere(tab, t, p, m, m', ty, s, r);
      }
    }
    OutsideGrows(tab, t, p, q);
  }

  lemma ManyNotEmpty(m: Leaves, p: Digits)
    requires Many(m, p)
    ensures m != map[]
  {
  }

  lemma TopBlanked(node: Node, p: Digits, m: Leaves, m': Leaves, ty: ItemType, s: Digit)
    requires NodeOk(node, p, m, ty) && node.State(s) != EmptyState
    requires AgreeOutside(m, m', p + [s]) && Many(m', p + [s])
    ensures NodeOk(Blanked(node, s), p, m', ty)
  {
    OccupiedAfterSet(node.bitmap, s, SubtreeState, 16);
    TopNodeOk(node, p, m, m', ty, s, Blanked(node, s));
  }

  lemma TrieUpBelow(t: Table, q: Digits, m: Leaves, ty: ItemType, r: Digits)
    requires Trie(t, q, Below(m, q), ty) && Many(m, q) && q <= r
    ensures r in t <==> Many(m, r)
    ensures r in t ==> NodeOk(t[r], r, m, ty)
  {
    BelowAgrees(m, q, r);
    BelowAgrees(m, q, q);
    ManyAgree(m, Below(m, q), r);
    ManyAgree(m, Below(m, q), q);
    if r in t {
      NodeOkAgree(t[r], r, Below(m, q), m, ty);
    }
  }

  lemma OutsideGrows(t: Table, t': Table, p: Digits, q: Digits)
    requires SameOutside(t, t', q) && p <= q
    ensures SameOutside(t, t', p)
  {
    forall r | !(p <= r)
      ensures (r in t <==> r in t') && (r in t ==> t'[r] == t[r])
    {
      if q <= r { PrefixTransitive(p, q, r); }
    }
  }

  // ------------------------------------------------------------------ one insertion

  lemma NewNodeTrie(tab: Table, ty: ItemType, live: bool, leaf: Leaf, level: nat)
    requires level < 40 && Trie(tab, leaf[..level], map[], ty)
    ensures Trie(Insert(tab, ty, live, leaf, level), leaf[..level], map[leaf := live], ty)
  {
    var p, s := leaf[..level], leaf[level];
    hide Many;
    var m := map[leaf := live];
    var t := Insert(tab, ty, live, leaf, level);
    NewNodeOk(ty, p, s, live, leaf);
    forall r | p <= r
      ensures r in t <==> Present(m, p, r)
      ensures r in t ==> NodeOk(t[r], r, m, ty)
    {
      LoneNotMany(m, r, r, leaf);
      LoneNotMany(map[], r, r, leaf);
    }
  }

  lemma NewNodeSlots(ty: ItemType, p: Digits, s: Digit, live: bool, leaf: Leaf, k: Digit)
    ensures var node := NewNode(ty, p, s, live, leaf);
            && node.State(k) == (if k == s then LeafState(live) else EmptyState)
            && node.slots[k] == if k == s then leaf else []
  {
    assert GetState(EmptyBitmap(), k) == EmptyState && EmptySlots()[k] == [];
  }

  lemma NewNodeOk(ty: ItemType, p: Digits, s: Digit, live: bool, leaf: Leaf)
    requires p + [s] <= leaf
    ensures NodeOk(NewNode(ty, p, s, live, leaf), p, map[leaf := live], ty)
  {
    var node := NewNode(ty, p, s, live, leaf);
    assert node.level == |p|;
    assert node.pref == p;
    OccupiedNone(EmptyBitmap(), 16);
    OccupiedAfterSet(EmptyBitmap(), s, LeafState(live), 16);
    forall k: Digit
      ensures SlotOk(NewNode(ty, p, s, live, leaf), k, p + [k], map[leaf := live])
    {
      NewNodeSlot(ty, p, s, live, leaf, k);
    }
  }

  lemma NewNodeSlot(ty: ItemType, p: Digits, s: Digit, live: bool, leaf: Leaf, k: Digit)
    requires p + [s] <= leaf
    ensures SlotOk(NewNode(ty, p, s, live, leaf), k, p + [k], map[leaf := live])
  {
    hide NewNode, GetState;
    NewNodeSlots(ty, p, s, live, leaf, k);
    if k != s {
      DistinctSlots(p, k, s, leaf);
    }
  }

  /** Only the slot of the leaf changes, and it still holds a single leaf. */
  lemma LeafSlotTrie(tab: Table, ty: ItemType, live: bool, leaf: Leaf, level: nat, m: Leaves, node: Node)
    requires level < 40 && Trie(tab, leaf[..level], m, ty) && leaf[..level] in tab
    requires forall x :: x in m && leaf[..level] + [leaf[level]] <= x ==> x == leaf
    requires var was := tab[leaf[..level]];
             && node == was.(totalNumLeaves := node.totalNumLeaves, bitmap := node.bitmap).WithSlot(leaf[level], leaf)
             && node.totalNumLeaves == Occupied(node.bitmap, 16)
             && node.State(leaf[level]) == LeafState(live)
             && forall k: Digit :: k != leaf[level] ==> node.State(k) == was.State(k)
    ensures Trie(tab[leaf[..level] := node], leaf[..level], m[leaf := live], ty)
    ensures SameOutside(tab, tab[leaf[..level] := node], leaf[..level])
  {
    var p, s := leaf[..level], leaf[level];
    var q, m' := p + [s], m[leaf := live];
    PrefixStep(p, leaf);
    assert AgreeOutside(m, m', q);
    assert Lone(m', q, leaf);
    TopNodeOk(tab[p], p, m, m', ty, s, node);
    var t := tab[p := node];
    forall r | p <= r
      ensures r in t <==> Present(m', p, r)
      ensures r in t ==> NodeOk(t[r], r, m', ty)
    {
      if r != p {
        if q <= r {
          LoneNotMany(m', q, r, leaf);
          if leaf in m { LoneNotMany(m, q, r, leaf); } else { LoneNotMany(m, q, r, leaf); }
        } else {
          TrieElsewhere(tab, tab, p, m, m', ty, s, r);
        }
      }
    }
  }

  lemma BelowUpdate(m: Leaves, q: Digits, x: Digits, live: bool)
    requires q <= x
    ensures Below(m[x := live], q) == Below(m, q)[x := live]
  {
  }

  /**
   One insertion turns the trie of the leaves so far into the trie of the leaves with
   this one set to its new liveness, and touches nothing outside the subtree.
   */
  lemma {:induction false} InsertTrie(tab: Table, ty: ItemType, live: bool, leaf: Leaf, level: nat, m: Leaves)
    requires level < 40 && Trie(tab, leaf[..level], m, ty)
    ensures Trie(Insert(tab, ty, live, leaf, level), leaf[..level], m[leaf := live], ty)
    ensures SameOutside(tab, Insert(tab, ty, live, leaf, level), leaf[..level])
    decreases 40 - level, 2
  {
    hide NodeOk, Many, Lone, None, Occupied;
    var p, s := leaf[..level], leaf[level];
    if p !in tab {
      assert m == map[];
      NewNodeTrie(tab, ty, live, leaf, level);
      NewNodeOutside(tab, ty, live, leaf, level);
    } else if tab[p].State(s) == EmptyState {
      InsertInEmpty(tab, ty, live, leaf, level, m);
    } else if tab[p].State(s) == SubtreeState {
      InsertInSubtree(tab, ty, live, leaf, level, m);
    } else if tab[p].slots[s] == leaf {
      InsertAgain(tab, ty, live, leaf, level, m);
    } else {
      InsertDisplacing(tab, ty, live, leaf, level, m);
    }
  }

  lemma NewNodeOutside(tab: Table, ty: ItemType, live: bool, leaf: Leaf, level: nat)
    requires level < 40 && leaf[..level] !in tab
    ensures SameOutside(tab, Insert(tab, ty, live, leaf, level), leaf[..level])
  {
  }

  lemma InsertInEmpty(tab: Table, ty: ItemType, live: bool, leaf: Leaf, level: nat, m: Leaves)
    requires level < 40 && Trie(tab, leaf[..level], m, ty) && leaf[..level] in tab
    requires tab[leaf[..level]].State(leaf[level]) == EmptyState
    ensures Trie(Insert(tab, ty, live, leaf, level), leaf[..level], m[leaf := live], ty)
    ensures SameOutside(tab, Insert(tab, ty, live, leaf, level), leaf[..level])
  {
    hide Many;
    var p, s := leaf[..level], leaf[level];
    assert NodeOk(tab[p], p, m, ty) && SlotOk(tab[p], s, p + [s], m);
    OccupiedAfterSet(tab[p].bitmap, s, LeafState(live), 16);
    LeafSlotTrie(tab, ty, live, leaf, level, m, Insert(tab, ty, live, leaf, level)[p]);
  }

  lemma InsertAgain(tab: Table, ty: ItemType, live: bool, leaf: Leaf, level: nat, m: Leaves)
    requires level < 40 && Trie(tab, leaf[..level], m, ty) && leaf[..level] in tab
    requires var st := tab[leaf[..level]].State(leaf[level]); st == LiveLeafState || st == DeadLeafState
    requires tab[leaf[..level]].slots[leaf[level]] == leaf
    ensures Trie(Insert(tab, ty, live, leaf, level), leaf[..level], m[leaf := live], ty)
    ensures SameOutside(tab, Insert(tab, ty, live, leaf, level), leaf[..level])
  {
    hide Many;
    var p, s := leaf[..level], leaf[level];
    assert NodeOk(tab[p], p, m, ty) && SlotOk(tab[p], s, p + [s], m);
    FlippedIsSet(tab[p], s, live, leaf);
    LeafSlotTrie(tab, ty, live, leaf, level, m, Flipped(tab[p], s, live));
  }

  lemma InsertInSubtree(tab: Table, ty: ItemType, live: bool, leaf: Leaf, level: nat, m: Leaves)
    requires level < 40 && Trie(tab, leaf[..level], m, ty) && leaf[..level] in tab
    requires tab[leaf[..level]].State(leaf[level]) == SubtreeState
    ensures Trie(Insert(tab, ty, live, leaf, level), leaf[..level], m[leaf := live], ty)
    ensures SameOutside(tab, Insert(tab, ty, live, leaf, level), leaf[..level])
    decreases 40 - level, 0
  {
    hide Many, Lone, None, Occupied;
    var p, s := leaf[..level], leaf[level];
    var q := leaf[..level + 1];
    assert q == p + [s];
    assert NodeOk(tab[p], p, m, ty) && SlotOk(tab[p], s, q, m);
    DeepEnough(m, p, q);
    TrieBelow(tab, p, m, ty, s);
    InsertTrie(tab, ty, live, leaf, level + 1, Below(m, q));
    BelowUpdate(m, q, leaf, live);
    ManyMore(m, q, leaf, live);
    LeavesMore(m, p, leaf, live, q);
    TrieUp(tab, Insert(tab, ty, live, leaf, level + 1), p, m, m[leaf := live], ty, s);
  }

  lemma LeavesMore(m: Leaves, p: Digits, leaf: Leaf, live: bool, q: Digits)
    requires LeavesUnder(m, p) && p <= q <= leaf
    ensures LeavesUnder(m[leaf := live], p) && AgreeOutside(m, m[leaf := live], q)
  {
    PrefixTransitive(p, q, leaf);
  }

  lemma FlippedIsSet(node: Node, s: Digit, live: bool, leaf: Leaf)
    requires node.State(s) == LiveLeafState || node.State(s) == DeadLeafState
    requires node.slots[s] == leaf
    ensures Flipped(node, s, live).State(s) == LeafState(live)
    ensures Flipped(node, s, live) == node.(bitmap := Flipped(node, s, live).bitmap).WithSlot(s, leaf)
    ensures Occupied(Flipped(node, s, live).bitmap, 16) == Occupied(node.bitmap, 16)
  {
    OccupiedAfterSet(node.bitmap, s, LeafState(live), 16);
    assert node.slots[s := leaf] == node.slots;
  }

  lemma FullPrefix(q: Digits, x: Digits)
    requires q <= x
    ensures |x| <= |q| ==> x == q
  {
  }

  /** Two full ids that share a prefix differ beyond it, so there is a level below. */
  lemma DeepEnough(m: Leaves, p: Digits, q: Digits)
    requires LeavesUnder(m, p) && Many(m, q)
    ensures |q| < 40
  {
    var x, y :| x in m && y in m && x != y && q <= x && q <= y;
    FullPrefix(q, x);
    FullPrefix(q, y);
  }

  lemma ManyMore(m: Leaves, q: Digits, x: Digits, live: bool)
    requires Many(m, q)
    ensures Many(m[x := live], q)
  {
    var y, z :| y in m && z in m && y != z && q <= y && q <= z;
    assert y in m[x := live] && z in m[x := live];
  }

  /** The leaf already in the slot goes down one level first, then the new one. */
  lemma InsertDisplacing(tab: Table, ty: ItemType, live: bool, leaf: Leaf, level: nat, m: Leaves)
    requires level < 40 && Trie(tab, leaf[..level], m, ty) && leaf[..level] in tab
    requires var st := tab[leaf[..level]].State(leaf[level]); st == LiveLeafState || st == DeadLeafState
    requires tab[leaf[..level]].slots[leaf[level]] != leaf
    ensures Trie(Insert(tab, ty, live, leaf, level), leaf[..level], m[leaf := live], ty)
    ensures SameOutside(tab, Insert(tab, ty, live, leaf, level), leaf[..level])
    decreases 40 - level, 1
  {
    var p, s := leaf[..level], leaf[level];
    var q, m' := leaf[..level + 1], m[leaf := live];
    assert q == p + [s];
    assert NodeOk(tab[p], p, m, ty) && SlotOk(tab[p], s, q, m);
    var x := tab[p].slots[s];
    DisplacedLeaf(m, p, q, x, leaf, live);
    DisplaceSteps(tab, ty, live, leaf, level, m, x);
  }

  lemma DisplaceSteps(tab: Table, ty: ItemType, live: bool, leaf: Leaf, level: nat, m: Leaves, x: Leaf)
    requires level + 1 < 40 && Trie(tab, leaf[..level], m, ty) && leaf[..level] in tab
    requires var st := tab[leaf[..level]].State(leaf[level]); st == if x in m && m[x] then LiveLeafState else DeadLeafState
    requires tab[leaf[..level]].slots[leaf[level]] == x != leaf
    requires Lone(m, leaf[..level + 1], x) && x[..level + 1] == leaf[..level + 1]
    requires Many(m[leaf := live], leaf[..level + 1])
    requires Below(m[leaf := live], leaf[..level + 1]) == map[x := m[x]][leaf := live]
    ensures Trie(Insert(tab, ty, live, leaf, level), leaf[..level], m[leaf := live], ty)
    ensures SameOutside(tab, Insert(tab, ty, live, leaf, level), leaf[..level])
    decreases 40 - level, 0
  {
    var p, s := leaf[..level], leaf[level];
    var q, m' := leaf[..level + 1], m[leaf := live];
    assert q == p + [s];
    hide Many, Lone, None, Occupied, SameOutside;
    TrieBelowEmpty(tab, p, m, ty, s, x);
    InsertTrie(tab, ty, m[x], x, level + 1, map[]);
    var t := Insert(tab, ty, m[x], x, level + 1);
    InsertTrie(t, ty, live, leaf, level + 1, map[x := m[x]]);
    LeavesMore(m, p, leaf, live, q);
    OutsideTransitive(tab, t, Insert(t, ty, live, leaf, level + 1), q);
    TrieUp(tab, Insert(t, ty, live, leaf, level + 1), p, m, m', ty, s);
  }

  lemma OutsideTransitive(t: Table, t': Table, t'': Table, q: Digits)
    requires SameOutside(t, t', q) && SameOutside(t', t'', q)
    ensures SameOutside(t, t'', q)
  {
  }

  lemma DisplacedLeaf(m: Leaves, p: Digits, q: Digits, x: Digits, leaf: Leaf, live: bool)
    requires LeavesUnder(m, p) && p <= q && q <= leaf && Lone(m, q, x) && x != leaf
    ensures |x| == 40 && |q| < 40 && x[..|q|] == q
    ensures Many(m[leaf := live], q)
    ensures Below(m[leaf := live], q) == map[x := m[x]][leaf := live]
  {
    var m' := m[leaf := live];
    PrefixTransitive(p, q, leaf);
    assert x in m' && leaf in m';
    assert Many(m', q);
    DeepEnough(m', p, q);
    var pair := map[x := m[x]][leaf := live];
    assert Below(m', q).Keys == pair.Keys;
  }

  // ------------------------------------------------- runs, and what they all agree on

  datatype Entry = Entry(leaf: Leaf, live: bool)

  /** Insert the entries at the top level, first to last. */
  function InsertAll(tab: Table, ty: ItemType, run: seq<Entry>): Table
    decreases |run|
  {
    if run == [] then tab
    else InsertAll(Insert(tab, ty, run[0].live, run[0].leaf, 0), ty, run[1..])
  }

  /** The liveness each leaf was last given. */
  function LastWritten(m: Leaves, run: seq<Entry>): Leaves
    decreases |run|
  {
    if run == [] then m
    else LastWritten(m[run[0].leaf := run[0].live], run[1..])
  }

  lemma EmptyTrie(ty: ItemType)
    ensures Trie(map[], [], map[], ty)
  {
  }

  /** Every run from a trie ends in the trie of the leaves as last written. */
  lemma {:induction false} InsertAllTrie(tab: Table, ty: ItemType, run: seq<Entry>, m: Leaves)
    requires Trie(tab, [], m, ty)
    ensures Trie(InsertAll(tab, ty, run), [], LastWritten(m, run), ty)
    decreases |run|
  {
    if run != [] {
      InsertTrie(tab, ty, run[0].live, run[0].leaf, 0, m);
      InsertAllTrie(Insert(tab, ty, run[0].live, run[0].leaf, 0), ty, run[1..], m[run[0].leaf := run[0].live]);
    }
  }

  /** Two nodes that differ at most in the hashes they hold for their subtrees. */
  ghost predicate SameShape(n: Node, n': Node) {
    && n.level == n'.level && n.pref == n'.pref && n.totalNumLeaves == n'.totalNumLeaves
    && n.bitmap == n'.bitmap && n.itemType == n'.itemType
    && forall s: Digit :: n.State(s) != SubtreeState ==> n.slots[s] == n'.slots[s]
  }

  lemma SameBitmap(b: Bitmap, b': Bitmap)
    requires forall k: Digit :: GetState(b, k) == GetState(b', k)
    ensures b == b'
  {
    forall i | 0 <= i < 32
      ensures b[i] == b'[i]
    {
      var k: Digit := i / 2;
      assert GetState(b, k) == GetState(b', k);
    }
  }

  lemma SlotDetermined(n: Node, n': Node, s: Digit, q: Digits, m: Leaves)
    requires SlotOk(n, s, q, m) && SlotOk(n', s, q, m)
    ensures n.State(s) == n'.State(s)
    ensures n.State(s) != SubtreeState ==> n.slots[s] == n'.slots[s]
  {
  }

  lemma NodeDetermined(n: Node, n': Node, p: Digits, m: Leaves, ty: ItemType)
    requires NodeOk(n, p, m, ty) && NodeOk(n', p, m, ty)
    ensures SameShape(n, n')
  {
    hide Occupied;
    forall s: Digit
      ensures GetState(n.bitmap, s) == GetState(n'.bitmap, s)
      ensures n.State(s) != SubtreeState ==> n.slots[s] == n'.slots[s]
    {
      assert SlotOk(n, s, p + [s], m) && SlotOk(n', s, p + [s], m);
      SlotDetermined(n, n', s, p + [s], m);
    }
    SameBitmap(n.bitmap, n'.bitmap);
  }

  /** The leaves determine the table: nodes, states, counts, and every slot but the hashes. */
  lemma TrieDetermined(t: Table, t': Table, p: Digits, m: Leaves, ty: ItemType, q: Digits)
    requires Trie(t, p, m, ty) && Trie(t', p, m, ty) && p <= q
    ensures q in t <==> q in t'
    ensures q in t ==> SameShape(t[q], t'[q])
  {
    hide NodeOk, Many;
    if q in t {
      NodeDetermined(t[q], t'[q], q, m, ty);
    }
  }

  /** Runs that leave every leaf with the same liveness build the same trie. */
  lemma OrderDoesNotMatter(ty: ItemType, run: seq<Entry>, run': seq<Entry>, q: Digits)
    requires LastWritten(map[], run) == LastWritten(map[], run')
    ensures q in InsertAll(map[], ty, run) <==> q in InsertAll(map[], ty, run')
    ensures q in InsertAll(map[], ty, run) ==> SameShape(InsertAll(map[], ty, run)[q], InsertAll(map[], ty, run')[q])
  {
    EmptyTrie(ty);
    InsertAllTrie(map[], ty, run, map[]);
    InsertAllTrie(map[], ty, run', map[]);
    TrieDetermined(InsertAll(map[], ty, run), InsertAll(map[], ty, run'), [], LastWritten(map[], run), ty, q);
  }
}
