/**
 The node of a merkle trie (merkle_tree.hh, merkle_tree.cc): sixteen slots, two state
 bits a slot.  An id is seen as its 40 hex digits and a prefix as a list of digits;
 MerkleCodec shows that this is what the bit arithmetic of the code computes.
 */
module MerkleNodes {

  const FANOUT_BITS := 4
  const NUM_SLOTS := 16
  const NUM_LEVELS := 40

  type Digit = d: int | 0 <= d < 16
  type Digits = seq<Digit>

  /** A slot value: 40 digits, or none at all while a subtree's hash is unknown. */
  type Id = Digits
  type Leaf = x: Digits | |x| == 40 witness seq(40, _ => 0)

  type Bitmap = b: seq<bool> | |b| == 32 witness seq(32, _ => false)
  type Slots = s: seq<Id> | |s| == 16 witness seq(16, _ => [])

  datatype ItemType = ManifestItem | FileItem | KeyItem | RevisionItem | CertItem | EpochItem | OtherItem(code: int)
  datatype SlotState = EmptyState | LiveLeafState | DeadLeafState | SubtreeState

  function GetState(b: Bitmap, n: Digit): SlotState {
    if b[2 * n] then
      if b[2 * n + 1] then SubtreeState else LiveLeafState
    else
      if b[2 * n + 1] then DeadLeafState else EmptyState
  }

  function SetState(b: Bitmap, n: Digit, st: SlotState): (r: Bitmap)
    ensures GetState(r, n) == st
    ensures forall k: Digit :: k != n ==> GetState(r, k) == GetState(b, k)
  {
    b[2 * n := st == SubtreeState || st == LiveLeafState][2 * n + 1 := st == SubtreeState || st == DeadLeafState]
  }

  /** How many of the first n slots are in use. */
  function Occupied(b: Bitmap, n: nat): nat
    requires n <= 16
  {
    if n == 0 then 0
    else Occupied(b, n - 1) + if GetState(b, n - 1) == EmptyState then 0 else 1
  }

  /** The counter moves by one exactly when an empty slot comes into use. */
  lemma {:induction false} OccupiedAfterSet(b: Bitmap, k: Digit, st: SlotState, n: nat)
    requires n <= 16 && st != EmptyState
    ensures Occupied(SetState(b, k, st), n) == Occupied(b, n) + if k < n && GetState(b, k) == EmptyState then 1 else 0
  {
    if n > 0 {
      OccupiedAfterSet(b, k, st, n - 1);
    }
  }

  lemma {:induction false} OccupiedNone(b: Bitmap, n: nat)
    requires n <= 16 && forall k: Digit :: GetState(b, k) == EmptyState
    ensures Occupied(b, n) == 0
  {
    if n > 0 {
      OccupiedNone(b, n - 1);
    }
  }

  /** The contents of a node at one moment. */
  datatype Node = Node(level: nat, pref: Digits, totalNumLeaves: nat, bitmap: Bitmap, slots: Slots, itemType: ItemType) {

    function State(n: Digit): SlotState {
      GetState(bitmap, n)
    }

    function WithState(n: Digit, st: SlotState): Node {
      this.(bitmap := SetState(bitmap, n, st))
    }

    function WithSlot(n: Digit, val: Id): Node {
      this.(slots := slots[n := val])
    }
  }

  function EmptyBitmap(): (b: Bitmap)
    ensures forall k: Digit :: GetState(b, k) == EmptyState
  {
    seq(32, _ => false)
  }

  function EmptySlots(): (s: Slots)
    ensures forall k: Digit :: s[k] == []
  {
    seq(16, _ => [])
  }

  function BlankNode(): Node {
    Node(0, [], 0, EmptyBitmap(), EmptySlots(), ManifestItem)
  }

  function LeafState(live: bool): SlotState {
    if live then LiveLeafState else DeadLeafState
  }
}
