/**
 Merkle nodes as bytes (merkle_tree.cc): the bit-level choice of slot and prefix, and
 write_node / read_node, which are inverse to each other.
 */
module MerkleCodec {
  import opened MerkleNodes
  import opened NetIo

  // ------------------------------------------------------------- digits and bits

  /** The bitset a list of digits stands for: four bits a digit, low bit first. */
  function PrefixBits(p: Digits): (r: seq<bool>)
    ensures |r| == 4 * |p|
  {
    seq(4 * |p|, k requires 0 <= k < 4 * |p| => Bit(p[k / 4], k % 4))
  }

  function DigitAt(bits: seq<bool>, i: nat): Digit {
    assert Pow2(4) == 16;
    Number(bits, 4 * i, 4)
  }

  function DigitsOfBits(bits: seq<bool>): (r: Digits)
    ensures |r| == |bits| / 4
  {
    seq(|bits| / 4, i requires 0 <= i => DigitAt(bits, i))
  }

  lemma DigitsRoundTrip(p: Digits)
    ensures DigitsOfBits(PrefixBits(p)) == p
  {
    var bits := PrefixBits(p);
    forall i | 0 <= i < |p|
      ensures DigitAt(bits, i) == p[i]
    {
      assert Pow2(4) == 16;
      ShiftSmall(p[i], 4);
      forall j | 0 <= j < 0 + 4
        ensures Bit(p[i], j) == Padded(bits, 4 * i + j)
      {
        assert (4 * i + j) / 4 == i && (4 * i + j) % 4 == j;
      }
      NumberOfBits(bits, 4 * i, p[i], 0, 4);
    }
  }

  lemma BitsRoundTrip(bits: seq<bool>)
    requires |bits| % 4 == 0
    ensures PrefixBits(DigitsOfBits(bits)) == bits
  {
    forall k | 0 <= k < |bits|
      ensures PrefixBits(DigitsOfBits(bits))[k] == bits[k]
    {
      BitOfNumber(bits, 4 * (k / 4), 4, k % 4);
    }
  }

  /** An id or prefix as the bytes of its bits, and the digits of those bytes. */
  function DigitBytes(p: Digits): seq<Byte> {
    ToBlocks(PrefixBits(p))
  }

  function BytesDigits(bytes: seq<Byte>, n: nat): (r: Digits)
    requires |bytes| == BlockCount(4 * n)
    ensures |r| == n
  {
    DigitsOfBits(FromBlocks(bytes, 4 * n))
  }

  lemma DigitBytesRoundTrip(p: Digits)
    ensures |DigitBytes(p)| == BlockCount(4 * |p|) && BytesDigits(DigitBytes(p), |p|) == p
  {
    BlocksRoundTrip(PrefixBits(p));
    DigitsRoundTrip(p);
  }

  lemma BytesDigitsRoundTrip(bytes: seq<Byte>, n: nat)
    requires n == 2 * |bytes|
    ensures BlockCount(4 * n) == |bytes| && DigitBytes(BytesDigits(bytes, n)) == bytes
  {
    hide FromBlocks, ToBlocks, PrefixBits, DigitsOfBits;
    BytesRoundTrip(bytes);
    assert 4 * n == 8 * |bytes|;
    BitsRoundTrip(FromBlocks(bytes, 4 * n));
  }

  /** Two prefixes of equal length with equal raw bytes are equal: table keys are unambiguous. */
  lemma RawPrefixUnambiguous(p: Digits, q: Digits)
    requires |p| == |q| && DigitBytes(p) == DigitBytes(q)
    ensures p == q
  {
    DigitBytesRoundTrip(p);
    DigitBytesRoundTrip(q);
  }

  lemma PrefixBitsTake(p: Digits, n: nat)
    requires n <= |p|
    ensures PrefixBits(p)[..4 * n] == PrefixBits(p[..n])
  {
  }

  /** pick_slot_and_prefix_for_value: the digit at the level, and the bits before it. */
  method PickSlotAndPrefixForValue(val: seq<Byte>, level: nat) returns (slotnum: nat, pref: seq<bool>)
    requires level < 2 * |val|
    ensures slotnum == BytesDigits(val, 2 * |val|)[level]
    ensures pref == PrefixBits(BytesDigits(val, 2 * |val|)[..level])
  {
    hide Bit, ToBlocks, FromBlocks, PrefixBits;
    pref := FromBlocks(val, 8 * |val|);
    slotnum := SlotNumber(pref, level);
    BitsRoundTrip(pref);
    PrefixBitsTake(BytesDigits(val, 2 * |val|), level);
    pref := pref[..level * FANOUT_BITS];
  }

  /** The loop that shifts the four bits of a level into a slot number, highest first. */
  method SlotNumber(pref: seq<bool>, level: nat) returns (slotnum: nat)
    requires 4 * (level + 1) <= |pref|
    ensures slotnum == DigitAt(pref, level)
  {
    slotnum := 0;
    var i := FANOUT_BITS;
    while i > 0
      invariant 0 <= i <= 4 && slotnum == Number(pref, 4 * level + i, 4 - i)
    {
      slotnum := slotnum * 2;
      if pref[level * FANOUT_BITS + (i - 1)] {
        slotnum := slotnum + 1;
      }
      i := i - 1;
    }
  }

  /** merkle_node::extended_prefix: push the four bits of the slot number. */
  method ExtendedPrefix(pref: seq<bool>, slot: Digit, ghost p: Digits) returns (extended: seq<bool>)
    requires pref == PrefixBits(p)
    ensures extended == PrefixBits(p + [slot])
  {
    extended := pref;
    var i := 0;
    while i < FANOUT_BITS
      invariant 0 <= i <= 4 && |extended| == |pref| + i
      invariant forall k :: 0 <= k < |extended| ==> extended[k] == PrefixBits(p + [slot])[k]
    {
      assert (4 * |p| + i) / 4 == |p| && (4 * |p| + i) % 4 == i;
      extended := extended + [Bit(slot, i)];
      i := i + 1;
    }
  }

  // ---------------------------------------------------------------------- nodes

  function TypeCode(t: ItemType): Byte {
    match t
    case ManifestItem => 1
    case FileItem => 2
    case KeyItem => 3
    case RevisionItem => 4
    case CertItem => 5
    case EpochItem => 6
    case OtherItem(code) => code % 256
  }

  function TypeOfCode(code: Byte): ItemType {
    match code
    case 1 => ManifestItem
    case 2 => FileItem
    case 3 => KeyItem
    case 4 => RevisionItem
    case 5 => CertItem
    case 6 => EpochItem
    case _ => OtherItem(code)
  }

  /** raw_sha1, of which only the length of the digest matters. */
  type RawHash = seq<Byte> -> seq<Byte>

  ghost predicate RawHashOk(sha1: RawHash) {
    forall s :: |sha1(s)| == 20
  }

  /** The occupied slots from slot k on, in order. */
  function SlotBytes(n: Node, k: nat): seq<Byte>
    requires k <= 16
    decreases 16 - k
  {
    if k == 16 then [] else SlotPart(n, k) + SlotBytes(n, k + 1)
  }

  function SlotPart(n: Node, k: Digit): seq<Byte> {
    if n.State(k) == EmptyState then [] else DigitBytes(n.slots[k])
  }

  lemma SlotBytesStep(n: Node, k: Digit)
    ensures SlotBytes(n, k) == SlotPart(n, k) + SlotBytes(n, k + 1)
    ensures SlotBytes(n, 16) == []
  {
  }

  function HeadBytes(n: Node): seq<Byte> {
    [TypeCode(n.itemType)] + Uleb(n.level) + DigitBytes(n.pref) + Uleb(n.totalNumLeaves) + ToBlocks(n.bitmap)
  }

  function Body(n: Node): seq<Byte> {
    HeadBytes(n) + SlotBytes(n, 0)
  }

  function Written(sha1: RawHash, n: Node): seq<Byte> {
    sha1(Body(n)) + Body(n)
  }

  /** write_node */
  method WriteNode(sha1: RawHash, n: Node) returns (outbuf: seq<Byte>)
    requires |n.pref| == n.level && n.level < U64_LIMIT && n.totalNumLeaves < U64_LIMIT
    ensures outbuf == Written(sha1, n)
  {
    hide Uleb, DigitBytes, ToBlocks, HeadBytes, SlotBytes;
    var oss := WriteHead(n);
    var slots := WriteSlots(n);
    oss := oss + slots;
    outbuf := sha1(oss) + oss;
  }

  method WriteHead(n: Node) returns (oss: seq<Byte>)
    requires |n.pref| == n.level && n.level < U64_LIMIT && n.totalNumLeaves < U64_LIMIT
    ensures oss == HeadBytes(n)
  {
    hide Uleb, DigitBytes, ToBlocks;
    oss := [TypeCode(n.itemType)];
    var tmp := InsertUleb(n.level);
    oss := oss + tmp;
    oss := oss + DigitBytes(n.pref);
    tmp := InsertUleb(n.totalNumLeaves);
    oss := oss + tmp;
    oss := oss + ToBlocks(n.bitmap);
  }

  method WriteSlots(n: Node) returns (oss: seq<Byte>)
    ensures oss == SlotBytes(n, 0)
  {
    hide DigitBytes, GetState, SlotBytes;
    oss := [];
    var slot := 0;
    SlotBytesStep(n, 0);
    while slot < NUM_SLOTS
      invariant 0 <= slot <= 16 && oss + SlotBytes(n, slot) == SlotBytes(n, 0)
    {
      SlotBytesStep(n, slot);
      if n.State(slot) != EmptyState {
        oss := oss + DigitBytes(n.slots[slot]);
      }
      slot := slot + 1;
    }
  }

  function ReadBytes(s: seq<Byte>, pos: nat, n: nat): (r: Decoded<seq<Byte>>)
    ensures r.Value? ==> |r.value| == n && r.next == pos + n <= |s|
  {
    if pos + n <= |s| then Value(s[pos..pos + n], pos + n) else BadDecode
  }

  /** The slots from k on, read for those whose state says they are occupied. */
  function ReadSlots(s: seq<Byte>, pos: nat, bitmap: Bitmap, k: nat, slots: Slots): Decoded<Slots>
    requires k <= 16
    decreases 16 - k
  {
    if k == 16 then Value(slots, pos)
    else if GetState(bitmap, k) == EmptyState then ReadSlots(s, pos, bitmap, k + 1, slots)
    else
      var (val, next) :- ReadBytes(s, pos, 20);
      ReadSlots(s, next, bitmap, k + 1, slots[k := BytesDigits(val, 40)])
  }

  function ReadHead(s: seq<Byte>, pos: nat): Decoded<Node> {
    var (code, p1) :- ReadBytes(s, pos, 1);
    var (level, p2) :- ReadUleb(s, p1);
    if level >= NUM_LEVELS then BadDecode
    else
      var (rawPref, p3) :- ReadBytes(s, p2, BlockCount(4 * level));
      var (total, p4) :- ReadUleb(s, p3);
      var (rawBitmap, p5) :- ReadBytes(s, p4, 4);
      Value(Node(level, BytesDigits(rawPref, level), total, FromBlocks(rawBitmap, 32), EmptySlots(), TypeOfCode(code[0])), p5)
  }

  /** What read_node makes of a buffer. */
  function Read(sha1: RawHash, s: seq<Byte>): Decoded<Node> {
    var (hash, p0) :- ReadBytes(s, 0, 20);
    var (head, p1) :- ReadHead(s, p0);
    var (slots, p2) :- ReadSlots(s, p1, head.bitmap, 0, EmptySlots());
    if p2 != |s| || hash != sha1(s[20..]) then BadDecode
    else Value(head.(slots := slots), p2)
  }

  /** read_node */
  method ReadNode(sha1: RawHash, inbuf: seq<Byte>) returns (r: Decoded<Node>)
    ensures r == Read(sha1, inbuf)
  {
    hide ReadBytes, ReadHead, BytesDigits, GetState;
    var hash :- ReadBytes(inbuf, 0, 20);
    var head :- ReadHead(inbuf, hash.1);
    var pos, out, slot := head.1, EmptySlots(), 0;
    while slot < NUM_SLOTS
      invariant 0 <= slot <= 16
      invariant ReadSlots(inbuf, head.1, head.0.bitmap, 0, EmptySlots()) == ReadSlots(inbuf, pos, head.0.bitmap, slot, out)
    {
      if GetState(head.0.bitmap, slot) != EmptyState {
        var val :- ReadBytes(inbuf, pos, 20);
        out := out[slot := BytesDigits(val.0, 40)];
        pos := val.1;
      }
      slot := slot + 1;
    }
    if pos != |inbuf| {
      return BadDecode;
    }
    if hash.0 != sha1(inbuf[20..]) {
      return BadDecode;
    }
    return Value(head.0.(slots := out), pos);
  }

  // ------------------------------------------------------------------ round trip

  /** Full ids in the occupied slots, nothing in the others, and a level that exists. */
  ghost predicate Complete(n: Node) {
    && |n.pref| == n.level < NUM_LEVELS
    && !n.itemType.OtherItem?
    && forall k: Digit :: if n.State(k) == EmptyState then n.slots[k] == [] else |n.slots[k]| == 40
  }

  lemma AtBytes(s: seq<Byte>, pos: nat, w: seq<Byte>)
    requires At(s, pos, w)
    ensures ReadBytes(s, pos, |w|) == Value(w, pos + |w|)
  {
  }

  lemma {:induction false} SlotsRoundTrip(s: seq<Byte>, pos: nat, n: Node, k: nat, slots: Slots)
    requires Complete(n) && k <= 16 && At(s, pos, SlotBytes(n, k))
    requires forall j :: 0 <= j < 16 ==> slots[j] == if j < k then n.slots[j] else []
    ensures ReadSlots(s, pos, n.bitmap, k, slots) == Value(n.slots, pos + |SlotBytes(n, k)|)
    decreases 16 - k
  {
    hide DigitBytes, BytesDigits, GetState, ReadBytes, SlotBytes;
    if k == 16 {
      SlotBytesStep(n, 0);
      assert slots == n.slots;
    } else {
      SlotBytesStep(n, k);
      AtSplit(s, pos, SlotPart(n, k), SlotBytes(n, k + 1));
      SlotPartRoundTrip(s, pos, n, k);
      if n.State(k) == EmptyState {
        assert slots[k] == [] && slots[k := n.slots[k]] == slots;
      }
      SlotsRoundTrip(s, pos + |SlotPart(n, k)|, n, k + 1, slots[k := n.slots[k]]);
    }
  }

  lemma SlotPartRoundTrip(s: seq<Byte>, pos: nat, n: Node, k: Digit)
    requires Complete(n) && At(s, pos, SlotPart(n, k))
    ensures n.State(k) == EmptyState ==> SlotPart(n, k) == [] && n.slots[k] == []
    ensures n.State(k) != EmptyState ==>
              ReadBytes(s, pos, 20) == Value(SlotPart(n, k), pos + |SlotPart(n, k)|)
              && |SlotPart(n, k)| == 20 && BytesDigits(SlotPart(n, k), 40) == n.slots[k]
  {
    hide DigitBytes, BytesDigits, GetState;
    if n.State(k) != EmptyState {
      DigitBytesRoundTrip(n.slots[k]);
      AtBytes(s, pos, SlotPart(n, k));
    }
  }

  lemma HeadRoundTrip(s: seq<Byte>, pos: nat, n: Node)
    requires Complete(n) && n.totalNumLeaves < U64_LIMIT && At(s, pos, HeadBytes(n))
    ensures ReadHead(s, pos) ==
              if n.totalNumLeaves < INT_LIMIT then Value(n.(slots := EmptySlots()), pos + |HeadBytes(n)|) else BadDecode
  {
    hide Uleb, DigitBytes, ToBlocks, FromBlocks, BytesDigits, ReadBytes, ReadUleb;
    var w0 := [TypeCode(n.itemType)];
    var w1, w2, w3, w4 := Uleb(n.level), DigitBytes(n.pref), Uleb(n.totalNumLeaves), ToBlocks(n.bitmap);
    AtSplit(s, pos, w0 + w1 + w2 + w3, w4);
    AtSplit(s, pos, w0 + w1 + w2, w3);
    AtSplit(s, pos, w0 + w1, w2);
    AtSplit(s, pos, w0, w1);
    var p1 := pos + |w0|;
    var p2 := p1 + |w1|;
    var p3 := p2 + |w2|;
    AtBytes(s, pos, w0);
    UlebRoundTrip(s, p1, n.level);
    DigitBytesRoundTrip(n.pref);
    AtBytes(s, p2, w2);
    UlebRoundTrip(s, p3, n.totalNumLeaves);
    BlocksRoundTrip(n.bitmap);
    AtBytes(s, p3 + |w3|, w4);
  }

  /**
   A complete node read back from what was written is the node itself, exactly when
   its leaf count fits the int in which the number decoder shifts.
   */
  lemma NodeRoundTrip(sha1: RawHash, n: Node)
    requires RawHashOk(sha1) && Complete(n) && n.totalNumLeaves < U64_LIMIT
    ensures Read(sha1, Written(sha1, n)) ==
              if n.totalNumLeaves < INT_LIMIT then Value(n, |Written(sha1, n)|) else BadDecode
  {
    hide Uleb, HeadBytes, SlotBytes, ReadHead, ReadSlots;
    var s := Written(sha1, n);
    assert s[20..] == Body(n) && At(s, 0, sha1(Body(n))) && At(s, 20, Body(n));
    AtBytes(s, 0, sha1(Body(n)));
    AtSplit(s, 20, HeadBytes(n), SlotBytes(n, 0));
    HeadRoundTrip(s, 20, n);
    if n.totalNumLeaves < INT_LIMIT {
      SlotsRoundTrip(s, 20 + |HeadBytes(n)|, n, 0, EmptySlots());
    }
  }
}
