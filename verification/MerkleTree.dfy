/**
 merkle_tree.cc as it runs: node objects shared through a table and updated in place
 during recursion.  Each method is tied to the table function or fresh hash that
 MerkleTrie and MerkleHash reason about.
 */
module MerkleTree {
  import opened MerkleNodes
  import opened MerkleTrie
  import opened MerkleHash

  class MerkleNode {
    var level: nat
    var pref: Digits
    var totalNumLeaves: nat
    var bitmap: Bitmap
    var slots: Slots
    var itemType: ItemType

    constructor ()
      ensures View() == BlankNode()
    {
      level, pref, totalNumLeaves := 0, [], 0;
      bitmap, slots, itemType := EmptyBitmap(), EmptySlots(), ManifestItem;
    }

    ghost function View(): Node
      reads this
    {
      Node(level, pref, totalNumLeaves, bitmap, slots, itemType)
    }

    function GetSlotState(n: Digit): (st: SlotState)
      reads this
      ensures st == View().State(n)
    {
      GetState(bitmap, n)
    }

    method SetSlotState(n: Digit, st: SlotState)
      modifies this
      ensures View() == old(View()).WithState(n, st)
    {
      bitmap := SetState(bitmap, n, st);
    }

    method SetRawSlot(n: Digit, val: Id)
      modifies this
      ensures View() == old(View()).WithSlot(n, val)
    {
      slots := slots[n := val];
    }
  }

  class MerkleTable {
    var tab: map<Digits, MerkleNode>
    /** The hash of a node's contents; HashOk says all it needs to satisfy. */
    const hash: NodeHash

    constructor (hash: NodeHash)
      ensures Valid() && tab == map[] && View() == map[] && this.hash == hash
    {
      tab := map[];
      this.hash := hash;
    }

    /** No two prefixes share a node object. */
    ghost predicate Valid()
      reads this
    {
      forall p, q :: p in tab && q in tab && p != q ==> tab[p] != tab[q]
    }

    ghost function View(): Table
      reads this, tab.Values
    {
      map p | p in tab :: tab[p].View()
    }

    /** Writing one node writes one entry of the table. */
    twostate lemma OneNodeChanged(p: Digits)
      requires old(Valid()) && tab == old(tab) && p in tab
      requires forall q :: q in tab && q != p ==> unchanged(tab[q])
      ensures View() == old(View())[p := tab[p].View()]
    {
    }

    /** Set the hash of a subtree slot to the empty one. */
    method BlankSlot(pref: Digits, slotnum: Digit)
      requires Valid() && pref in tab
      modifies tab[pref]
      ensures View() == old(View())[pref := Blanked(old(View())[pref], slotnum)]
    {
      var node := tab[pref];
      node.SetRawSlot(slotnum, []);
      node.SetSlotState(slotnum, SubtreeState);
      OneNodeChanged(pref);
    }

    /** Put a leaf in an empty slot. */
    method FillSlot(pref: Digits, slotnum: Digit, live: bool, leaf: Leaf)
      requires Valid() && pref in tab
      modifies tab[pref]
      ensures var was := old(View())[pref];
              View() == old(View())[pref :=
                was.(totalNumLeaves := was.totalNumLeaves + 1).WithState(slotnum, LeafState(live)).WithSlot(slotnum, leaf)]
    {
      var node := tab[pref];
      node.totalNumLeaves := node.totalNumLeaves + 1;
      node.SetSlotState(slotnum, LeafState(live));
      node.SetRawSlot(slotnum, leaf);
      OneNodeChanged(pref);
    }

    /** Set the liveness of a leaf that is already in the slot. */
    method FlipSlot(pref: Digits, slotnum: Digit, live: bool)
      requires Valid() && pref in tab
      modifies tab[pref]
      ensures View() == old(View())[pref := Flipped(old(View())[pref], slotnum, live)]
    {
      var node := tab[pref];
      var st := node.GetSlotState(slotnum);
      if st == DeadLeafState && live {
        node.SetSlotState(slotnum, LiveLeafState);
      } else if st == LiveLeafState && !live {
        node.SetSlotState(slotnum, DeadLeafState);
      }
      OneNodeChanged(pref);
    }

    static method MakeNode(ty: ItemType, pref: Digits, slotnum: Digit, live: bool, leaf: Leaf) returns (node: MerkleNode)
      ensures fresh(node) && node.View() == NewNode(ty, pref, slotnum, live, leaf)
    {
      hide GetState, SetState, LeafState, EmptyBitmap, EmptySlots;
      node := new MerkleNode();
      node.itemType := ty;
      node.level := |pref|;
      node.pref := pref;
      node.totalNumLeaves := 1;
      node.SetSlotState(slotnum, LeafState(live));
      node.SetRawSlot(slotnum, leaf);
    }

    method AddNode(ty: ItemType, pref: Digits, slotnum: Digit, live: bool, leaf: Leaf)
      requires Valid() && pref !in tab
      modifies this
      ensures Valid() && tab.Keys == old(tab.Keys) + {pref} && fresh(tab[pref])
      ensures forall p :: p in old(tab) ==> tab[p] == old(tab[p])
      ensures View() == old(View())[pref := NewNode(ty, pref, slotnum, live, leaf)]
    {
      var node := MakeNode(ty, pref, slotnum, live, leaf);
      tab := tab[pref := node];
    }

    /** insert_into_merkle_tree */
    method Insert(ty: ItemType, live: bool, leaf: Leaf, level: nat, ghost m: Leaves)
      requires Valid() && level < 40 && Trie(View(), leaf[..level], m, ty)
      modifies this, tab.Values
      ensures Valid() && forall p :: p in old(tab) ==> p in tab && tab[p] == old(tab[p])
      ensures forall p :: p in tab && p !in old(tab) ==> fresh(tab[p])
      ensures View() == MerkleTrie.Insert(old(View()), ty, live, leaf, level)
      decreases 40 - level, 2
    {
      hide Trie, Below, NewNode, Blanked, Flipped, LeafState, GetState, Occupied;
      var slotnum, pref := leaf[level], leaf[..level];
      if pref in tab {
        InsertAtNode(ty, live, leaf, level, m);
      } else {
        AddNode(ty, pref, slotnum, live, leaf);
      }
    }

    /** The node for this prefix exists: act on the state of its slot. */
    method InsertAtNode(ty: ItemType, live: bool, leaf: Leaf, level: nat, ghost m: Leaves)
      requires Valid() && level < 40 && Trie(View(), leaf[..level], m, ty) && leaf[..level] in tab
      modifies this, tab.Values
      ensures Valid() && forall p :: p in old(tab) ==> p in tab && tab[p] == old(tab[p])
      ensures forall p :: p in tab && p !in old(tab) ==> fresh(tab[p])
      ensures View() == MerkleTrie.Insert(old(View()), ty, live, leaf, level)
      decreases 40 - level, 1
    {
      hide Trie, Below, NewNode, Blanked, Flipped, LeafState, GetState, Occupied;
      var slotnum, pref := leaf[level], leaf[..level];
      var node := tab[pref];
      var st := node.GetSlotState(slotnum);
      if st == EmptyState {
        FillSlot(pref, slotnum, live, leaf);
      } else if st == SubtreeState {
        SubtreePath(View(), ty, leaf, level, m);
        Insert(ty, live, leaf, level + 1, Below(m, leaf[..level + 1]));
        BlankSlot(pref, slotnum);
      } else {
        var slotval := node.slots[slotnum];
        if slotval == leaf {
          FlipSlot(pref, slotnum, live);
        } else {
          PushDown(ty, live, leaf, level, st == LiveLeafState, slotval, m);
          BlankSlot(pref, slotnum);
        }
      }
    }

    /** Push the leaf already in the slot into a subtree, then the new one after it. */
    method PushDown(ty: ItemType, live: bool, leaf: Leaf, level: nat, oldLive: bool, slotval: Id, ghost m: Leaves)
      requires Valid() && level < 40 && Trie(View(), leaf[..level], m, ty) && leaf[..level] in View()
      requires var st := View()[leaf[..level]].State(leaf[level]);
               (st == LiveLeafState || st == DeadLeafState) && oldLive == (st == LiveLeafState)
      requires slotval == View()[leaf[..level]].slots[leaf[level]] != leaf
      modifies this, tab.Values
      ensures Valid() && forall p :: p in old(tab) ==> p in tab && tab[p] == old(tab[p])
      ensures forall p :: p in tab && p !in old(tab) ==> fresh(tab[p])
      ensures level + 1 < 40 && |slotval| == 40
      ensures View() == MerkleTrie.Insert(MerkleTrie.Insert(old(View()), ty, oldLive, slotval, level + 1), ty, live, leaf, level + 1)
      decreases 40 - level, 0
    {
      hide Trie, Below, NewNode, Blanked, Flipped, LeafState, GetState, Occupied;
      DisplacedPath(View(), ty, live, leaf, level, m);
      EmptyBelow(View(), leaf[..level + 1], ty);
      Insert(ty, oldLive, slotval, level + 1, map[]);
      Insert(ty, live, leaf, level + 1, map[slotval := m[slotval]]);
    }

    /** recalculate_merkle_codes */
    method Recalculate(p: Digits, ghost m: Leaves, ghost ty: ItemType) returns (code: Id)
      requires Valid() && p in tab && |p| < 40
      requires Trie(View(), p, m, ty) && Clean(View(), p, hash) && HashOk(hash)
      modifies tab.Values
      ensures View() == Filled(old(View()), p, hash)
      ensures code == FullHash(old(View()), p, hash)
      decreases 40 - |p|, 1
    {
      hide Trie, Clean, FullHash, FilledUpTo, Filled;
      ghost var t := View();
      var node := tab[p];
      FilledUpToStart(t, p, hash);
      var slotnum := 0;
      while slotnum < 16
        invariant 0 <= slotnum <= 16
        invariant View() == FilledUpTo(t, p, slotnum, hash)
      {
        RefreshSlot(t, p, slotnum, m, ty);
        slotnum := slotnum + 1;
      }
      FilledUpToEnd(t, p, hash);
      FilledAtTop(t, p, hash);
      code := HashNode(node);
    }

    /** What hash_merkle_node computes from a node. */
    method HashNode(node: MerkleNode) returns (code: Id)
      ensures code == hash(node.View())
    {
      code := hash(Node(node.level, node.pref, node.totalNumLeaves, node.bitmap, node.slots, node.itemType));
    }

    /** One turn of the loop: descend only if the slot is a subtree whose hash is blank. */
    method RefreshSlot(ghost t: Table, p: Digits, slotnum: Digit, ghost m: Leaves, ghost ty: ItemType)
      requires Valid() && p in tab && |p| < 40 && p in t
      requires Trie(t, p, m, ty) && Clean(t, p, hash) && HashOk(hash)
      requires View() == FilledUpTo(t, p, slotnum, hash)
      modifies tab.Values
      ensures View() == FilledUpTo(t, p, slotnum + 1, hash)
      decreases 40 - |p|, 0
    {
      hide Trie, Clean, FullHash, Filled;
      var node := tab[p];
      var st := node.GetSlotState(slotnum);
      SlotBeforeFill(t, p, slotnum, hash);
      if st == SubtreeState && node.slots[slotnum] == [] {
        SubtreeToFill(t, View(), p, m, ty, slotnum, hash);
        var code := Recalculate(p + [slotnum], Below(m, p + [slotnum]), ty);
        StoreHash(p, slotnum, code);
        FillOneSlot(t, FilledUpTo(t, p, slotnum, hash), p, slotnum, hash);
      } else {
        NothingToFill(t, p, m, ty, slotnum, hash);
      }
    }

    method StoreHash(pref: Digits, slotnum: Digit, code: Id)
      requires Valid() && pref in tab
      modifies tab[pref]
      ensures View() == old(View())[pref := old(View())[pref].WithSlot(slotnum, code)]
    {
      var node := tab[pref];
      node.SetRawSlot(slotnum, code);
      OneNodeChanged(pref);
    }
  }

  lemma EmptyBelow(t: Table, q: Digits, ty: ItemType)
    requires forall r :: q <= r ==> r !in t
    ensures Trie(t, q, map[], ty)
  {
  }

  /** Slot k still holds what it held when the loop began. */
  lemma SlotBeforeFill(t: Table, p: Digits, k: Digit, h: NodeHash)
    requires p in t && |p| < 40
    ensures FilledUpTo(t, p, k, h)[p].State(k) == t[p].State(k)
    ensures FilledUpTo(t, p, k, h)[p].slots[k] == t[p].slots[k]
  {
  }

  lemma FilledAtTop(t: Table, p: Digits, h: NodeHash)
    requires p in t && |p| < 40
    ensures FilledUpTo(t, p, 16, h)[p] == FilledSlots(t, p, 16, h)
  {
  }

  /** The subtree of a blank slot is a clean trie of its own. */
  lemma SubtreeToFill(t: Table, now: Table, p: Digits, m: Leaves, ty: ItemType, k: Digit, h: NodeHash)
    requires p in t && |p| < 40 && Trie(t, p, m, ty) && Clean(t, p, h)
    requires now == FilledUpTo(t, p, k, h) && t[p].State(k) == SubtreeState
    ensures |p| + 1 < 40 && p + [k] in now
    ensures Trie(now, p + [k], Below(m, p + [k]), ty) && Clean(now, p + [k], h)
  {
    SubtreeHasNode(t, p, m, ty, p, k);
    assert NodeOk(t[p], p, m, ty) && SlotOk(t[p], k, p + [k], m);
    TrieBelow(t, p, m, ty, k);
    NotYetFilled(t, p, k, h);
    TrieSameBelow(t, now, p + [k], Below(m, p + [k]), ty);
    CleanBelow(t, now, p, p + [k], h);
  }

  // --------------------------------------------------------------- runs of operations

  datatype Operation = Put(entry: Entry) | Rehash

  /** One operation at the top of the tree; re-hashing needs a root to start from. */
  ghost function Step(t: Table, ty: ItemType, h: NodeHash, op: Operation): Table {
    match op
    case Put(e) => MerkleTrie.Insert(t, ty, e.live, e.leaf, 0)
    case Rehash => Filled(t, [], h)
  }

  ghost function LeavesAfter(m: Leaves, op: Operation): Leaves {
    match op
    case Put(e) => m[e.leaf := e.live]
    case Rehash => m
  }

  ghost function Steps(t: Table, ty: ItemType, h: NodeHash, ops: seq<Operation>): Table
    decreases |ops|
  {
    if ops == [] then t else Steps(Step(t, ty, h, ops[0]), ty, h, ops[1..])
  }

  ghost function LeavesAfterAll(m: Leaves, ops: seq<Operation>): Leaves
    decreases |ops|
  {
    if ops == [] then m else LeavesAfterAll(LeavesAfter(m, ops[0]), ops[1..])
  }

  /** Insertions and re-hashings, in any order, keep the trie canonical and its hashes clean. */
  lemma {:induction false} StepsKeep(t: Table, ty: ItemType, h: NodeHash, ops: seq<Operation>, m: Leaves)
    requires Trie(t, [], m, ty) && Clean(t, [], h) && HashOk(h)
    ensures Trie(Steps(t, ty, h, ops), [], LeavesAfterAll(m, ops), ty)
    ensures Clean(Steps(t, ty, h, ops), [], h)
    decreases |ops|
  {
    hide Trie, Clean;
    if ops != [] {
      var t' := Step(t, ty, h, ops[0]);
      if ops[0].Put? {
        assert ops[0].entry.leaf[..0] == [];
        InsertTrie(t, ty, ops[0].entry.live, ops[0].entry.leaf, 0, m);
        InsertClean(t, ty, ops[0].entry.live, ops[0].entry.leaf, m, h);
      } else {
        FilledTrie(t, [], m, ty, h);
        FilledClean(t, m, ty, h);
      }
      StepsKeep(t', ty, h, ops[1..], LeavesAfter(m, ops[0]));
    }
  }

  /**
   The root hash says which leaves are in the tree and nothing else: whatever two runs
   did, if they end with the same leaves then re-hashing yields the same root hash.
   */
  lemma RootHashOfLeaves(ty: ItemType, h: NodeHash, ops: seq<Operation>, ops': seq<Operation>)
    requires HashOk(h) && LeavesAfterAll(map[], ops) == LeavesAfterAll(map[], ops')
    ensures FullHash(Steps(map[], ty, h, ops), [], h) == FullHash(Steps(map[], ty, h, ops'), [], h)
  {
    hide FullHash;
    EmptyTrie(ty);
    StepsKeep(map[], ty, h, ops, map[]);
    StepsKeep(map[], ty, h, ops', map[]);
    FullHashOfLeaves(Steps(map[], ty, h, ops), Steps(map[], ty, h, ops'), [], [], LeavesAfterAll(map[], ops), ty, h);
  }
}
