/**
 Lazy re-hashing of the merkle trie.  A subtree slot holds either nothing or the
 up-to-date hash of a subtree in which every hash is filled in; insertion keeps this
 by blanking its whole path, so filling only the blanks is as good as starting over.
 */
module MerkleHash {
  import opened MerkleNodes
  import opened MerkleTrie

  /** The hash of one node's contents; never empty. */
  type NodeHash = Node -> Id

  ghost predicate HashOk(h: NodeHash) {
    forall n :: |h(n)| == 40
  }

  /** The hash of the subtree at p computed afresh from its leaves. */
  ghost function FullHash(tab: Table, p: Digits, h: NodeHash): Id
    decreases 40 - |p|, 1
  {
    if p !in tab || |p| >= 40 then [] else h(FilledNode(tab, p, h))
  }

  /** The node at p with every subtree slot set to the fresh hash of its subtree. */
  ghost function FilledNode(tab: Table, p: Digits, h: NodeHash): Node
    requires p in tab && |p| < 40
    decreases 40 - |p|, 0
  {
    tab[p].(slots := seq(16, s requires 0 <= s < 16 =>
      if tab[p].State(s) == SubtreeState then FullHash(tab, p + [s], h) else tab[p].slots[s]))
  }

  /** The table with every hash at and below p recomputed. */
  ghost function Filled(tab: Table, p: Digits, h: NodeHash): Table {
    map q | q in tab :: if p <= q && |q| < 40 then FilledNode(tab, q, h) else tab[q]
  }

  ghost predicate SameBelow(t: Table, t': Table, p: Digits) {
    forall q :: p <= q ==> (q in t <==> q in t') && (q in t ==> t'[q] == t[q])
  }

  lemma SameBelowDeeper(t: Table, t': Table, p: Digits, q: Digits)
    requires SameBelow(t, t', p) && p <= q
    ensures SameBelow(t, t', q)
  {
    forall r | q <= r
      ensures (r in t <==> r in t') && (r in t ==> t'[r] == t[r])
    {
      PrefixTransitive(p, q, r);
    }
  }

  /** Fresh hashes depend only on what is below. */
  lemma {:induction false} FullHashBelow(t: Table, t': Table, p: Digits, h: NodeHash)
    requires SameBelow(t, t', p)
    ensures FullHash(t, p, h) == FullHash(t', p, h)
    ensures p in t && |p| < 40 ==> FilledNode(t, p, h) == FilledNode(t', p, h)
    decreases 40 - |p|
  {
    if p in t && |p| < 40 {
      forall s | 0 <= s < 16
        ensures FilledNode(t, p, h).slots[s] == FilledNode(t', p, h).slots[s]
      {
        SameBelowDeeper(t, t', p, p + [s]);
        FullHashBelow(t, t', p + [s], h);
      }
      assert FilledNode(t, p, h).slots == FilledNode(t', p, h).slots;
    }
  }

  /** Fresh hashes depend only on the leaves: equal leaf sets have equal root hashes. */
  lemma {:induction false} FullHashOfLeaves(t: Table, t': Table, p: Digits, q: Digits, m: Leaves, ty: ItemType, h: NodeHash)
    requires Trie(t, p, m, ty) && Trie(t', p, m, ty) && p <= q
    ensures FullHash(t, q, h) == FullHash(t', q, h)
    decreases 40 - |q|
  {
    TrieDetermined(t, t', p, m, ty, q);
    if q in t && |q| < 40 {
      forall s | 0 <= s < 16
        ensures FilledNode(t, q, h).slots[s] == FilledNode(t', q, h).slots[s]
      {
        PrefixTransitive(p, q, q + [s]);
        FullHashOfLeaves(t, t', p, q + [s], m, ty, h);
      }
      assert FilledNode(t, q, h).slots == FilledNode(t', q, h).slots;
    }
  }

  // ------------------------------------------------------------------ the invariant

  /** No subtree slot at or below p is blank. */
  ghost predicate Refreshed(tab: Table, p: Digits) {
    forall q, s: Digit :: q in tab && p <= q && tab[q].State(s) == SubtreeState ==> tab[q].slots[s] != []
  }

  ghost predicate CleanSlot(tab: Table, q: Digits, s: Digit, h: NodeHash)
    requires q in tab
  {
    tab[q].State(s) == SubtreeState && tab[q].slots[s] != [] ==>
      tab[q].slots[s] == FullHash(tab, q + [s], h) && Refreshed(tab, q + [s])
  }

  /** Every hash held at or below p is the up-to-date hash of a fully clean subtree. */
  ghost predicate Clean(tab: Table, p: Digits, h: NodeHash) {
    forall q, s: Digit :: q in tab && p <= q ==> CleanSlot(tab, q, s, h)
  }

  lemma RefreshedBelow(t: Table, t': Table, p: Digits)
    requires SameBelow(t, t', p) && Refreshed(t, p)
    ensures Refreshed(t', p)
  {
  }

  lemma CleanSlotBelow(t: Table, t': Table, q: Digits, s: Digit, h: NodeHash)
    requires q in t && q in t' && SameBelow(t, t', q + [s]) && CleanSlot(t, q, s, h)
    requires t'[q].State(s) == t[q].State(s) && t'[q].slots[s] == t[q].slots[s]
    ensures CleanSlot(t', q, s, h)
  {
    FullHashBelow(t, t', q + [s], h);
    if Refreshed(t, q + [s]) {
      RefreshedBelow(t, t', q + [s]);
    }
  }

  // ------------------------------------------------------- insertion keeps it

  /** A slot that is a subtree after the insertion is blank on the path of the leaf, as before off it. */
  ghost predicate SlotOnPath(tab: Table, t: Table, leaf: Leaf, q: Digits, s: Digit)
    requires q in t && |q| < 40
  {
    t[q].State(s) == SubtreeState ==>
      if s == leaf[|q|] then t[q].slots[s] == []
      else q in tab && tab[q].State(s) == SubtreeState && tab[q].slots[s] == t[q].slots[s]
  }

  /** Only nodes on the path of the leaf change, and their slots towards it are blanked. */
  ghost predicate PathBlanked(tab: Table, t: Table, leaf: Leaf, level: nat) {
    && (forall q :: !(q <= leaf) || |q| < level ==> (q in t <==> q in tab) && (q in tab ==> t[q] == tab[q]))
    && (forall q, s: Digit :: q in t && q <= leaf && level <= |q| < 40 ==> SlotOnPath(tab, t, leaf, q, s))
  }

  lemma PathBlankedTop(tab: Table, t: Table, leaf: Leaf, level: nat, node: Node)
    requires level < 40 && PathBlanked(tab, t, leaf, level + 1) && leaf[..level] in tab
    requires forall s: Digit :: s != leaf[level] ==>
               node.State(s) == tab[leaf[..level]].State(s) && node.slots[s] == tab[leaf[..level]].slots[s]
    requires node.State(leaf[level]) == SubtreeState ==> node.slots[leaf[level]] == []
    ensures PathBlanked(tab, t[leaf[..level] := node], leaf, level)
  {
    var p := leaf[..level];
    var t' := t[p := node];
    forall q, s: Digit | q in t' && q <= leaf && level <= |q| < 40
      ensures SlotOnPath(tab, t', leaf, q, s)
    {
      if |q| == level {
        assert q == p;
      } else {
        assert SlotOnPath(tab, t, leaf, q, s);
      }
    }
  }

  lemma NoChange(tab: Table, leaf: Leaf, level: nat)
    requires level <= 40 && forall q :: q in tab && leaf[..level] <= q ==> forall s: Digit :: tab[q].State(s) != SubtreeState
    ensures PathBlanked(tab, tab, leaf, level)
  {
    forall q, s: Digit | q in tab && q <= leaf && level <= |q| < 40
      ensures SlotOnPath(tab, tab, leaf, q, s)
    {
      assert leaf[..level] <= q;
    }
  }

  /** Below a slot that is not a subtree there are no nodes at all. */
  lemma NothingBelow(tab: Table, p: Digits, m: Leaves, ty: ItemType, s: Digit, q: Digits)
    requires Trie(tab, p, m, ty) && p in tab && tab[p].State(s) != SubtreeState && p + [s] <= q
    ensures q !in tab
  {
    assert NodeOk(tab[p], p, m, ty) && SlotOk(tab[p], s, p + [s], m);
    TrieBelowEmpty(tab, p, m, ty, s, tab[p].slots[s]);
  }

  lemma {:induction false} InsertBlanks(tab: Table, ty: ItemType, live: bool, leaf: Leaf, level: nat, m: Leaves)
    requires level < 40 && Trie(tab, leaf[..level], m, ty)
    ensures PathBlanked(tab, Insert(tab, ty, live, leaf, level), leaf, level)
    decreases 40 - level
  {
    hide Trie, PathBlanked;
    var p, s := leaf[..level], leaf[level];
    if p !in tab {
      FreshPath(tab, ty, live, leaf, level, m);
    } else if tab[p].State(s) == SubtreeState {
      SubtreePath(tab, ty, leaf, level, m);
      InsertBlanks(tab, ty, live, leaf, level + 1, Below(m, leaf[..level + 1]));
      BlankedTop(tab, Insert(tab, ty, live, leaf, level + 1), leaf, level);
    } else if tab[p].State(s) == EmptyState || tab[p].slots[s] == leaf {
      SlotPath(tab, ty, leaf, level, m);
      LeafTop(tab, ty, live, leaf, level);
    } else {
      DisplacedPath(tab, ty, live, leaf, level, m);
      var x := tab[p].slots[s];
      var t1 := Insert(tab, ty, tab[p].State(s) == LiveLeafState, x, level + 1);
      InsertBlanks(t1, ty, live, leaf, level + 1, map[x := m[x]]);
      NewNodeNoSubtree(ty, leaf[..level + 1], x[level + 1], m[x], x);
      AfterDisplaced(tab, t1, Insert(t1, ty, live, leaf, level + 1), leaf, level + 1);
      BlankedTop(tab, Insert(t1, ty, live, leaf, level + 1), leaf, level);
    }
  }

  lemma NewNodeNoSubtree(ty: ItemType, p: Digits, s: Digit, live: bool, leaf: Leaf)
    ensures forall k: Digit :: NewNode(ty, p, s, live, leaf).State(k) != SubtreeState
  {
    forall k: Digit
      ensures NewNode(ty, p, s, live, leaf).State(k) != SubtreeState
    {
      NewNodeSlots(ty, p, s, live, leaf, k);
    }
  }

  lemma BlankedTop(tab: Table, t: Table, leaf: Leaf, level: nat)
    requires level < 40 && PathBlanked(tab, t, leaf, level + 1) && leaf[..level] in tab && leaf[..level] in t
    ensures PathBlanked(tab, t[leaf[..level] := Blanked(t[leaf[..level]], leaf[level])], leaf, level)
  {
    var p := leaf[..level];
    assert t[p] == tab[p];
    PathBlankedTop(tab, t, leaf, level, Blanked(tab[p], leaf[level]));
  }

  lemma LeafTop(tab: Table, ty: ItemType, live: bool, leaf: Leaf, level: nat)
    requires level < 40 && PathBlanked(tab, tab, leaf, level + 1) && leaf[..level] in tab
    requires var st := tab[leaf[..level]].State(leaf[level]);
             st == EmptyState || (st != SubtreeState && tab[leaf[..level]].slots[leaf[level]] == leaf)
    ensures PathBlanked(tab, Insert(tab, ty, live, leaf, level), leaf, level)
  {
    hide PathBlanked;
    PathBlankedTop(tab, tab, leaf, level, Insert(tab, ty, live, leaf, level)[leaf[..level]]);
  }

  lemma FreshPath(tab: Table, ty: ItemType, live: bool, leaf: Leaf, level: nat, m: Leaves)
    requires level < 40 && Trie(tab, leaf[..level], m, ty) && leaf[..level] !in tab
    ensures PathBlanked(tab, Insert(tab, ty, live, leaf, level), leaf, level)
  {
    var p, s := leaf[..level], leaf[level];
    var t := Insert(tab, ty, live, leaf, level);
    forall q, k: Digit | q in t && q <= leaf && level <= |q| < 40
      ensures SlotOnPath(tab, t, leaf, q, k)
    {
      assert p <= q;
      if q == p {
        NewNodeSlots(ty, p, s, live, leaf, k);
      } else {
        LoneNotMany(map[], q, q, leaf);
      }
    }
  }

  lemma SubtreePath(tab: Table, ty: ItemType, leaf: Leaf, level: nat, m: Leaves)
    requires level < 40 && Trie(tab, leaf[..level], m, ty) && leaf[..level] in tab
    requires tab[leaf[..level]].State(leaf[level]) == SubtreeState
    ensures level + 1 < 40 && Trie(tab, leaf[..level + 1], Below(m, leaf[..level + 1]), ty)
  {
    var p, s := leaf[..level], leaf[level];
    assert leaf[..level + 1] == p + [s];
    assert NodeOk(tab[p], p, m, ty) && SlotOk(tab[p], s, p + [s], m);
    DeepEnough(m, p, p + [s]);
    TrieBelow(tab, p, m, ty, s);
  }

  lemma SlotPath(tab: Table, ty: ItemType, leaf: Leaf, level: nat, m: Leaves)
    requires level < 40 && Trie(tab, leaf[..level], m, ty) && leaf[..level] in tab
    requires tab[leaf[..level]].State(leaf[level]) != SubtreeState
    ensures PathBlanked(tab, tab, leaf, level + 1)
  {
    var p, s := leaf[..level], leaf[level];
    assert leaf[..level + 1] == p + [s];
    forall q | q in tab && leaf[..level + 1] <= q
      ensures false
    {
      NothingBelow(tab, p, m, ty, s, q);
    }
    NoChange(tab, leaf, level + 1);
  }

  /** The displaced leaf gets a node of its own, right where the new leaf will pass. */
  lemma DisplacedPath(tab: Table, ty: ItemType, live: bool, leaf: Leaf, level: nat, m: Leaves)
    requires level < 40 && Trie(tab, leaf[..level], m, ty) && leaf[..level] in tab
    requires var st := tab[leaf[..level]].State(leaf[level]); st == LiveLeafState || st == DeadLeafState
    requires tab[leaf[..level]].slots[leaf[level]] != leaf
    ensures var x, q := tab[leaf[..level]].slots[leaf[level]], leaf[..level + 1];
            && level + 1 < 40 && |x| == 40 && x in m && x[..level + 1] == q && q !in tab
            && m[x] == (tab[leaf[..level]].State(leaf[level]) == LiveLeafState)
            && Insert(tab, ty, m[x], x, level + 1) == tab[q := NewNode(ty, q, x[level + 1], m[x], x)]
            && Trie(Insert(tab, ty, m[x], x, level + 1), q, map[x := m[x]], ty)
            && (forall r :: q <= r ==> r !in tab)
  {
    var p, s := leaf[..level], leaf[level];
    var q := leaf[..level + 1];
    assert q == p + [s];
    assert NodeOk(tab[p], p, m, ty) && SlotOk(tab[p], s, q, m);
    var x := tab[p].slots[s];
    DisplacedLeaf(m, p, q, x, leaf, live);
    TrieBelowEmpty(tab, p, m, ty, s, x);
    InsertTrie(tab, ty, m[x], x, level + 1, map[]);
    assert forall r :: q <= r ==> r !in tab by {
      forall r | q <= r ensures r !in tab { NothingBelow(tab, p, m, ty, s, r); }
    }
  }

  lemma AfterDisplaced(tab: Table, t1: Table, t2: Table, leaf: Leaf, level: nat)
    requires level < 40 && PathBlanked(t1, t2, leaf, level)
    requires leaf[..level] in t1 && t1 == tab[leaf[..level] := t1[leaf[..level]]]
    requires forall k: Digit :: t1[leaf[..level]].State(k) != SubtreeState
    ensures PathBlanked(tab, t2, leaf, level)
  {
    forall q, k: Digit | q in t2 && q <= leaf && level <= |q| < 40
      ensures SlotOnPath(tab, t2, leaf, q, k)
    {
      assert SlotOnPath(t1, t2, leaf, q, k);
    }
  }

  /** Nodes below a slot off the path are themselves off the path. */
  lemma OffPath(tab: Table, t: Table, leaf: Leaf, q: Digits, s: Digit)
    requires PathBlanked(tab, t, leaf, 0) && !(q + [s] <= leaf)
    ensures SameBelow(tab, t, q + [s])
  {
    forall r | q + [s] <= r
      ensures (r in t <==> r in tab) && (r in tab ==> t[r] == tab[r])
    {
      if r <= leaf { PrefixTransitive(q + [s], r, leaf); }
    }
  }

  lemma OnPath(leaf: Leaf, q: Digits, s: Digit)
    requires q + [s] <= leaf
    ensures q <= leaf && |q| < 40 && leaf[|q|] == s
  {
    SlotBelow(q, s, leaf);
  }

  /** One insertion keeps every held hash up to date, because it blanks its whole path. */
  lemma InsertClean(tab: Table, ty: ItemType, live: bool, leaf: Leaf, m: Leaves, h: NodeHash)
    requires Trie(tab, [], m, ty) && Clean(tab, [], h)
    ensures Clean(Insert(tab, ty, live, leaf, 0), [], h)
  {
    hide Trie, Refreshed, FullHash, Insert, CleanSlot;
    var t := Insert(tab, ty, live, leaf, 0);
    assert leaf[..0] == [];
    InsertBlanks(tab, ty, live, leaf, 0, m);
    InsertTrie(tab, ty, live, leaf, 0, m);
    forall q, s: Digit | q in t && [] <= q
      ensures CleanSlot(t, q, s, h)
    {
      TrieKeysShort(t, [], m[leaf := live], ty, q);
      PathSlotClean(tab, t, leaf, q, s, h);
    }
  }

  lemma PathSlotClean(tab: Table, t: Table, leaf: Leaf, q: Digits, s: Digit, h: NodeHash)
    requires PathBlanked(tab, t, leaf, 0) && Clean(tab, [], h) && q in t && |q| < 40
    ensures CleanSlot(t, q, s, h)
  {
    hide Refreshed, FullHash;
    if q <= leaf { PrefixStep(q, leaf); }
    if q + [s] <= leaf {
      OnPath(leaf, q, s);
      assert SlotOnPath(tab, t, leaf, q, s);
    } else {
      OffPath(tab, t, leaf, q, s);
      if q <= leaf {
        assert SlotOnPath(tab, t, leaf, q, s);
      }
      if t[q].State(s) == SubtreeState {
        assert CleanSlot(tab, q, s, h);
        CleanSlotBelow(tab, t, q, s, h);
      }
    }
  }

  lemma TrieKeysShort(tab: Table, p: Digits, m: Leaves, ty: ItemType, q: Digits)
    requires Trie(tab, p, m, ty) && |p| < 40 && p <= q && q in tab
    ensures |q| < 40
  {
    if q != p {
      DeepEnough(m, p, q);
    }
  }

  // ------------------------------------------------------------- lazy re-hashing

  /** The node at p with its first k subtree slots set to fresh hashes. */
  ghost function FilledSlots(tab: Table, p: Digits, k: nat, h: NodeHash): Node
    requires p in tab && |p| < 40
  {
    tab[p].(slots := seq(16, s requires 0 <= s < 16 =>
      if s < k && tab[p].State(s) == SubtreeState then FullHash(tab, p + [s], h) else tab[p].slots[s]))
  }

  /** The table when the first k slots of the node at p have been brought up to date. */
  ghost function FilledUpTo(tab: Table, p: Digits, k: nat, h: NodeHash): Table
    requires p in tab && |p| < 40
  {
    map q | q in tab ::
      if q == p then FilledSlots(tab, p, k, h)
      else if p <= q && |q| < 40 && q[|p|] < k then FilledNode(tab, q, h)
      else tab[q]
  }

  lemma FilledUpToStart(tab: Table, p: Digits, h: NodeHash)
    requires p in tab && |p| < 40
    ensures FilledUpTo(tab, p, 0, h) == tab
  {
    hide FullHash, FilledNode;
    assert FilledSlots(tab, p, 0, h).slots == tab[p].slots;
  }

  lemma FilledUpToEnd(tab: Table, p: Digits, h: NodeHash)
    requires p in tab && |p| < 40
    ensures FilledUpTo(tab, p, 16, h) == Filled(tab, p, h)
    ensures FilledSlots(tab, p, 16, h) == FilledNode(tab, p, h)
    ensures FullHash(tab, p, h) == h(FilledSlots(tab, p, 16, h))
  {
    hide FullHash;
    assert FullHash(tab, p, h) == h(FilledSlots(tab, p, 16, h)) by { FullHashIs(tab, p, h); }
    assert FilledSlots(tab, p, 16, h).slots == FilledNode(tab, p, h).slots;
    forall q | q in tab
      ensures FilledUpTo(tab, p, 16, h)[q] == Filled(tab, p, h)[q]
    {
      if p <= q && q != p { PrefixStep(p, q); }
    }
  }

  lemma FullHashIs(tab: Table, p: Digits, h: NodeHash)
    requires p in tab && |p| < 40
    ensures FullHash(tab, p, h) == h(FilledSlots(tab, p, 16, h))
  {
    assert FilledSlots(tab, p, 16, h).slots == FilledNode(tab, p, h).slots;
  }

  /** A slot that is no subtree, or is already clean, needs nothing done. */
  lemma NothingToFill(tab: Table, p: Digits, m: Leaves, ty: ItemType, k: Digit, h: NodeHash)
    requires Trie(tab, p, m, ty) && Clean(tab, p, h) && p in tab && |p| < 40
    requires tab[p].State(k) == SubtreeState ==> tab[p].slots[k] != []
    ensures FilledUpTo(tab, p, k + 1, h) == FilledUpTo(tab, p, k, h)
  {
    hide Trie, Clean, FilledSlots, FilledNode;
    forall q | q in tab
      ensures FilledUpTo(tab, p, k + 1, h)[q] == FilledUpTo(tab, p, k, h)[q]
    {
      NothingToFillAt(tab, p, m, ty, k, h, q);
    }
  }

  lemma NothingToFillAt(tab: Table, p: Digits, m: Leaves, ty: ItemType, k: Digit, h: NodeHash, q: Digits)
    requires Trie(tab, p, m, ty) && Clean(tab, p, h) && p in tab && |p| < 40 && q in tab
    requires tab[p].State(k) == SubtreeState ==> tab[p].slots[k] != []
    ensures FilledUpTo(tab, p, k + 1, h)[q] == FilledUpTo(tab, p, k, h)[q]
  {
    hide FullHash, Trie;
    assert CleanSlot(tab, p, k, h);
    if q == p {
      assert FilledSlots(tab, p, k + 1, h).slots == FilledSlots(tab, p, k, h).slots;
    } else if p + [k] <= q && |q| < 40 {
      SlotBelow(p, k, q);
      if tab[p].State(k) != SubtreeState {
        NothingBelow(tab, p, m, ty, k, q);
      } else {
        AlreadyFilled(tab, p, k, q, h);
      }
    } else if p <= q {
      PrefixStep(p, q);
    }
  }

  lemma AlreadyFilled(tab: Table, p: Digits, k: Digit, q: Digits, h: NodeHash)
    requires Clean(tab, p, h) && Refreshed(tab, p + [k])
    requires q in tab && p + [k] <= q && |q| < 40
    ensures FilledNode(tab, q, h) == tab[q]
  {
    SlotBelow(p, k, q);
    forall s | 0 <= s < 16
      ensures FilledNode(tab, q, h).slots[s] == tab[q].slots[s]
    {
      assert CleanSlot(tab, q, s, h);
    }
    assert FilledNode(tab, q, h).slots == tab[q].slots;
  }

  /** Before slot k is reached, everything below it is as it was. */
  lemma NotYetFilled(tab: Table, p: Digits, k: Digit, h: NodeHash)
    requires p in tab && |p| < 40
    ensures SameBelow(tab, FilledUpTo(tab, p, k, h), p + [k])
  {
    var t := FilledUpTo(tab, p, k, h);
    forall q | p + [k] <= q
      ensures (q in t <==> q in tab) && (q in tab ==> t[q] == tab[q])
    {
      SlotBelow(p, k, q);
    }
  }

  lemma CleanBelow(t: Table, t': Table, p: Digits, q: Digits, h: NodeHash)
    requires Clean(t, p, h) && p <= q && SameBelow(t, t', q)
    ensures Clean(t', q, h)
  {
    forall r, s: Digit | r in t' && q <= r
      ensures CleanSlot(t', r, s, h)
    {
      PrefixTransitive(p, q, r);
      assert CleanSlot(t, r, s, h);
      SlotBelow(r, s, r + [s]);
      PrefixTransitive(q, r, r + [s]);
      SameBelowDeeper(t, t', q, r + [s]);
      CleanSlotBelow(t, t', r, s, h);
    }
  }

  lemma TrieSameBelow(t: Table, t': Table, q: Digits, m: Leaves, ty: ItemType)
    requires Trie(t, q, m, ty) && SameBelow(t, t', q)
    ensures Trie(t', q, m, ty)
  {
  }

  /** Filling the subtree below slot k and storing its hash completes one more slot. */
  lemma FillOneSlot(tab: Table, t: Table, p: Digits, k: Digit, h: NodeHash)
    requires p in tab && |p| + 1 < 40 && tab[p].State(k) == SubtreeState
    requires t == FilledUpTo(tab, p, k, h)
    ensures var t' := Filled(t, p + [k], h);
            p in t' && FullHash(t, p + [k], h) == FullHash(tab, p + [k], h)
            && t'[p := t'[p].WithSlot(k, FullHash(tab, p + [k], h))] == FilledUpTo(tab, p, k + 1, h)
  {
    hide FullHash, FilledNode, FilledSlots;
    NotYetFilled(tab, p, k, h);
    FullHashBelow(tab, t, p + [k], h);
    var t' := Filled(t, p + [k], h);
    var t'' := t'[p := t'[p].WithSlot(k, FullHash(tab, p + [k], h))];
    forall q | q in tab
      ensures t''[q] == FilledUpTo(tab, p, k + 1, h)[q]
    {
      if q == p {
        FillOwnSlot(tab, p, k, h);
      } else {
        FillOneSlotAt(tab, t, p, k, h, q);
      }
    }
  }

  lemma FillOwnSlot(tab: Table, p: Digits, k: Digit, h: NodeHash)
    requires p in tab && |p| < 40 && tab[p].State(k) == SubtreeState
    ensures FilledSlots(tab, p, k, h).WithSlot(k, FullHash(tab, p + [k], h)) == FilledSlots(tab, p, k + 1, h)
    ensures !(p + [k] <= p)
  {
    hide FullHash;
    assert FilledSlots(tab, p, k, h).WithSlot(k, FullHash(tab, p + [k], h)).slots == FilledSlots(tab, p, k + 1, h).slots;
  }

  lemma FillOneSlotAt(tab: Table, t: Table, p: Digits, k: Digit, h: NodeHash, q: Digits)
    requires p in tab && |p| + 1 < 40 && t == FilledUpTo(tab, p, k, h)
    requires SameBelow(tab, t, p + [k]) && q in tab && q != p
    ensures Filled(t, p + [k], h)[q] == FilledUpTo(tab, p, k + 1, h)[q]
  {
    hide FullHash;
    if p + [k] <= q {
      SlotBelow(p, k, q);
      SameBelowDeeper(tab, t, p + [k], q);
      FullHashBelow(tab, t, q, h);
    } else if p <= q {
      PrefixStep(p, q);
    }
  }

  // ----------------------------------------------------- what re-hashing leaves behind

  lemma FilledShape(tab: Table, p: Digits, h: NodeHash, q: Digits)
    requires q in tab
    ensures q in Filled(tab, p, h) && SameShape(tab[q], Filled(tab, p, h)[q])
  {
  }

  lemma SlotOkShape(n: Node, n': Node, s: Digit, q: Digits, m: Leaves)
    requires SameShape(n, n') && SlotOk(n, s, q, m)
    ensures SlotOk(n', s, q, m)
  {
    assert n'.State(s) == n.State(s);
  }

  lemma NodeOkShape(n: Node, n': Node, p: Digits, m: Leaves, ty: ItemType)
    requires SameShape(n, n') && NodeOk(n, p, m, ty)
    ensures NodeOk(n', p, m, ty)
  {
    forall s: Digit
      ensures SlotOk(n', s, p + [s], m)
    {
      assert SlotOk(n, s, p + [s], m);
      SlotOkShape(n, n', s, p + [s], m);
    }
  }

  /** Re-hashing keeps the trie. */
  lemma FilledTrie(tab: Table, p: Digits, m: Leaves, ty: ItemType, h: NodeHash)
    requires Trie(tab, p, m, ty)
    ensures Trie(Filled(tab, p, h), p, m, ty)
  {
    hide NodeOk, Many;
    var t := Filled(tab, p, h);
    forall q | p <= q && q in t
      ensures NodeOk(t[q], q, m, ty)
    {
      FilledShape(tab, p, h, q);
      NodeOkShape(tab[q], t[q], q, m, ty);
    }
  }

  /** Re-hashing does not change what fresh hashes would be. */
  lemma {:induction false} FilledFullHash(tab: Table, p: Digits, q: Digits, h: NodeHash)
    ensures FullHash(Filled(tab, p, h), q, h) == FullHash(tab, q, h)
    decreases 40 - |q|
  {
    var t := Filled(tab, p, h);
    if q in tab && |q| < 40 {
      forall s | 0 <= s < 16
        ensures FilledNode(t, q, h).slots[s] == FilledNode(tab, q, h).slots[s]
      {
        FilledFullHash(tab, p, q + [s], h);
      }
      assert FilledNode(t, q, h).slots == FilledNode(tab, q, h).slots;
    }
  }

  /** Below a subtree slot there is a node, and room for it. */
  lemma SubtreeHasNode(tab: Table, p: Digits, m: Leaves, ty: ItemType, q: Digits, s: Digit)
    requires Trie(tab, p, m, ty) && p <= q && q in tab && tab[q].State(s) == SubtreeState
    ensures q + [s] in tab && |q| + 1 < 40
  {
    assert NodeOk(tab[q], q, m, ty) && SlotOk(tab[q], s, q + [s], m);
    DeepEnough(m, p, q + [s]);
    PrefixTransitive(p, q, q + [s]);
  }

  lemma NoBlanks(t: Table, p: Digits)
    requires forall q, s: Digit :: q in t && t[q].State(s) == SubtreeState ==> t[q].slots[s] != []
    ensures Refreshed(t, p)
  {
  }

  /** After re-hashing from the top every subtree slot is filled, and with the right hash. */
  lemma FilledClean(tab: Table, m: Leaves, ty: ItemType, h: NodeHash)
    requires Trie(tab, [], m, ty) && HashOk(h)
    ensures Refreshed(Filled(tab, [], h), []) && Clean(Filled(tab, [], h), [], h)
  {
    hide Trie, FullHash, Refreshed;
    var t := Filled(tab, [], h);
    forall q, s: Digit | q in t && t[q].State(s) == SubtreeState
      ensures t[q].slots[s] != [] && t[q].slots[s] == FullHash(t, q + [s], h)
    {
      TrieKeysShort(tab, [], m, ty, q);
      FilledSlotIsHash(tab, m, ty, h, q, s);
    }
    NoBlanks(t, []);
    forall q, s: Digit | q in t && [] <= q
      ensures CleanSlot(t, q, s, h)
    {
      NoBlanks(t, q + [s]);
    }
  }

  lemma FilledSlotIsHash(tab: Table, m: Leaves, ty: ItemType, h: NodeHash, q: Digits, s: Digit)
    requires Trie(tab, [], m, ty) && HashOk(h) && q in tab && |q| < 40 && tab[q].State(s) == SubtreeState
    ensures var t := Filled(tab, [], h); t[q].slots[s] != [] && t[q].slots[s] == FullHash(t, q + [s], h)
  {
    SubtreeHasNode(tab, [], m, ty, q, s);
    FilledFullHash(tab, [], q + [s], h);
  }
}
