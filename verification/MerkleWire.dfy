/**
 The tree and its wire form together: hashing a node by hashing what write_node writes,
 and sending the nodes of a re-hashed tree.
 */
module MerkleWire {
  import opened MerkleNodes
  import opened NetIo
  import opened MerkleCodec
  import opened MerkleTrie
  import opened MerkleHash

  /** hash_merkle_node: the leading bytes of the written node, as digits. */
  function HashMerkleNode(sha1: RawHash, n: Node): Id {
    var raw := Written(sha1, n);
    if |raw| < 20 then [] else BytesDigits(raw[..20], 40)
  }

  lemma HashMerkleNodeOk(sha1: RawHash)
    requires RawHashOk(sha1)
    ensures HashOk(n => HashMerkleNode(sha1, n))
    ensures forall n :: HashMerkleNode(sha1, n) == BytesDigits(sha1(Body(n)), 40)
  {
    forall n: Node
      ensures |HashMerkleNode(sha1, n)| == 40
      ensures HashMerkleNode(sha1, n) == BytesDigits(sha1(Body(n)), 40)
    {
      assert Written(sha1, n)[..20] == sha1(Body(n));
    }
  }

  lemma {:induction false} OccupiedAtMost(b: Bitmap, n: nat)
    requires n <= 16
    ensures Occupied(b, n) <= n
  {
    if n > 0 {
      OccupiedAtMost(b, n - 1);
    }
  }

  lemma RehashedNodeComplete(tab: Table, m: Leaves, ty: ItemType, h: NodeHash, q: Digits)
    requires Trie(tab, [], m, ty) && HashOk(h) && !ty.OtherItem? && q in tab
    ensures q in Filled(tab, [], h) && Complete(Filled(tab, [], h)[q])
    ensures Filled(tab, [], h)[q].totalNumLeaves <= 16
  {
    hide Many, FullHash, Occupied;
    TrieKeysShort(tab, [], m, ty, q);
    var t := Filled(tab, [], h);
    assert NodeOk(tab[q], q, m, ty);
    OccupiedAtMost(tab[q].bitmap, 16);
    forall k: Digit
      ensures if t[q].State(k) == EmptyState then t[q].slots[k] == [] else |t[q].slots[k]| == 40
    {
      assert SlotOk(tab[q], k, q + [k], m);
      if tab[q].State(k) == SubtreeState {
        SubtreeHasNode(tab, [], m, ty, q, k);
        FullHashLength(tab, q + [k], h);
      }
    }
  }

  lemma FullHashLength(tab: Table, p: Digits, h: NodeHash)
    requires p in tab && |p| < 40 && HashOk(h)
    ensures |FullHash(tab, p, h)| == 40
  {
  }

  /** Every node of a re-hashed tree reaches the other side as it was. */
  lemma RehashedTreeTravels(sha1: RawHash, tab: Table, m: Leaves, ty: ItemType, q: Digits)
    requires RawHashOk(sha1) && Trie(tab, [], m, ty) && !ty.OtherItem? && q in tab
    ensures var t := Filled(tab, [], n => HashMerkleNode(sha1, n));
            q in t && Read(sha1, Written(sha1, t[q])) == Value(t[q], |Written(sha1, t[q])|)
  {
    hide Trie, Complete, Read, Written, Filled;
    HashMerkleNodeOk(sha1);
    RehashedNodeComplete(tab, m, ty, n => HashMerkleNode(sha1, n), q);
    NodeRoundTrip(sha1, Filled(tab, [], n => HashMerkleNode(sha1, n))[q]);
  }
}
