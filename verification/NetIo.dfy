/**
 The byte-level encodings of netio.hh and boost's dynamic_bitset that merkle nodes are
 written with: unsigned LEB128 numbers and bits packed least significant first.
 */
module NetIo {

  type Byte = b: int | 0 <= b < 256

  /** A decoded value and the position after it, or a failed decoding. */
  datatype Decoded<+T> = Value(value: T, next: nat) | BadDecode {
    predicate IsFailure() {
      BadDecode?
    }

    function PropagateFailure<U>(): Decoded<U>
      requires BadDecode?
    {
      BadDecode
    }

    function Extract(): (T, nat)
      requires Value?
    {
      (value, next)
    }
  }

  // -------------------------------------------------------------------- uleb128

  const U64_LIMIT := 0x1_0000_0000_0000_0000
  const INT_LIMIT := 0x8000_0000
  /** sizeof(T) + 1 + sizeof(T) / 8 for an eight-byte T. */
  const ULEB_MAX_BYTES := 10

  function Uleb(v: nat): seq<Byte> {
    if v < 128 then [v] else [v % 128 + 128] + Uleb(v / 128)
  }

  function Pow128(n: nat): (p: nat)
    ensures p > 0
  {
    if n == 0 then 1 else 128 * Pow128(n - 1)
  }

  /** insert_datum_uleb128 for a 64-bit number. */
  method InsertUleb(v: nat) returns (out: seq<Byte>)
    requires v < U64_LIMIT
    ensures out == Uleb(v)
  {
    out := [];
    var rest, maxBytes := v, ULEB_MAX_BYTES;
    UnrollPow();
    while maxBytes > 0
      invariant 0 < maxBytes && 0 <= rest < Pow128(maxBytes)
      invariant out + Uleb(rest) == Uleb(v)
      decreases maxBytes
    {
      var item := rest % 128;
      var remainder := rest / 128;
      if remainder == 0 {
        out := out + [item];
        return;
      }
      out := out + [item + 128];
      maxBytes, rest := maxBytes - 1, remainder;
    }
  }

  lemma UnrollPow()
    ensures U64_LIMIT <= Pow128(10)
  {
    assert Pow128(4) == 0x1000_0000 by {
      assert Pow128(2) == 128 * 128;
    }
    assert Pow128(6) == 128 * 128 * Pow128(4);
    assert Pow128(8) == 128 * 128 * Pow128(6);
  }

  /**
   try_extract_datum_uleb128: groups of seven bits, low group first.  The groups do not
   overlap, so or-ing them in is adding them.  Each group is shifted as a 32-bit int
   before it is widened; a shift past that is undefined there and a failure here.
   */
  function ExtractUleb(s: seq<Byte>, pos: nat, scale: nat, maxBytes: nat): Decoded<nat>
    decreases maxBytes
  {
    if maxBytes == 0 || pos >= |s| then BadDecode
    else
      var group := s[pos] % 128 * scale;
      if scale >= 2 * INT_LIMIT || group >= INT_LIMIT then BadDecode
      else if s[pos] < 128 then Value(group, pos + 1)
      else if maxBytes == 1 then BadDecode
      else
        match ExtractUleb(s, pos + 1, scale * 128, maxBytes - 1)
        case Value(rest, next) => Value(group + rest, next)
        case BadDecode => BadDecode
  }

  function ReadUleb(s: seq<Byte>, pos: nat): Decoded<nat> {
    ExtractUleb(s, pos, 1, ULEB_MAX_BYTES)
  }

  ghost predicate At(s: seq<Byte>, pos: nat, w: seq<Byte>) {
    pos + |w| <= |s| && s[pos..pos + |w|] == w
  }

  lemma AtSplit(s: seq<Byte>, pos: nat, v: seq<Byte>, w: seq<Byte>)
    requires At(s, pos, v + w)
    ensures At(s, pos, v) && At(s, pos + |v|, w)
  {
    assert s[pos..pos + |v + w|][..|v|] == s[pos..pos + |v|];
    assert s[pos..pos + |v + w|][|v|..] == s[pos + |v|..pos + |v| + |w|];
  }

  lemma AtUleb(s: seq<Byte>, pos: nat, v: nat)
    requires At(s, pos, Uleb(v))
    ensures pos < |s| && s[pos] == if v < 128 then v else v % 128 + 128
    ensures v >= 128 ==> At(s, pos + 1, Uleb(v / 128)) && |Uleb(v)| == 1 + |Uleb(v / 128)|
  {
    assert s[pos] == s[pos..pos + |Uleb(v)|][0];
    if v >= 128 {
      AtSplit(s, pos, [v % 128 + 128], Uleb(v / 128));
    }
  }

  lemma GroupSum(v: nat, scale: nat)
    ensures v * scale == v % 128 * scale + v / 128 * (scale * 128)
    ensures v >= 128 && scale > 0 ==> scale * 128 <= v * scale
    ensures v % 128 * scale <= v * scale
  {
    var q, r := v / 128, v % 128;
    assert v == q * 128 + r;
    assert v * scale == q * 128 * scale + r * scale;
    assert q * 128 * scale == q * (scale * 128);
    if v >= 128 {
      assert q >= 1;
      assert q * (scale * 128) >= scale * 128;
    }
  }

  lemma {:induction false} UlebFits(s: seq<Byte>, pos: nat, v: nat, scale: nat, maxBytes: nat)
    requires At(s, pos, Uleb(v)) && |Uleb(v)| <= maxBytes
    requires 0 < scale < 2 * INT_LIMIT && v * scale < INT_LIMIT
    ensures ExtractUleb(s, pos, scale, maxBytes) == Value(v * scale, pos + |Uleb(v)|)
    decreases maxBytes
  {
    AtUleb(s, pos, v);
    GroupSum(v, scale);
    if v >= 128 {
      UlebFits(s, pos + 1, v / 128, scale * 128, maxBytes - 1);
    }
  }

  lemma {:induction false} UlebOverflows(s: seq<Byte>, pos: nat, v: nat, i: nat, maxBytes: nat)
    requires At(s, pos, Uleb(v)) && i <= 5 && INT_LIMIT <= v * Pow128(i)
    ensures ExtractUleb(s, pos, Pow128(i), maxBytes) == BadDecode
    decreases maxBytes
  {
    assert Pow128(0) == 1 && Pow128(1) == 128 && Pow128(2) == 0x4000;
    assert Pow128(3) == 0x20_0000 && Pow128(4) == 0x1000_0000 && Pow128(5) == 0x8_0000_0000;
    AtUleb(s, pos, v);
    if i < 5 && v >= 128 && maxBytes > 1 {
      HighGroups(v, i);
      UlebOverflows(s, pos + 1, v / 128, i + 1, maxBytes - 1);
    }
  }

  lemma HighGroups(v: nat, i: nat)
    requires i < 5 && 128 <= v && INT_LIMIT <= v * Pow128(i)
    ensures INT_LIMIT <= v / 128 * Pow128(i + 1)
  {
    assert Pow128(0) == 1 && Pow128(1) == 128 && Pow128(2) == 0x4000;
    assert Pow128(3) == 0x20_0000 && Pow128(4) == 0x1000_0000 && Pow128(5) == 0x8_0000_0000;
  }

  lemma {:induction false} UlebLength(v: nat, n: nat)
    requires v < Pow128(n) && 0 < n
    ensures |Uleb(v)| <= n
  {
    if v >= 128 {
      UlebLength(v / 128, n - 1);
    }
  }

  /** A 64-bit number survives being written and read back if it fits an int, and fails to decode if not. */
  lemma UlebRoundTrip(s: seq<Byte>, pos: nat, v: nat)
    requires v < U64_LIMIT && At(s, pos, Uleb(v))
    ensures ReadUleb(s, pos) == if v < INT_LIMIT then Value(v, pos + |Uleb(v)|) else BadDecode
  {
    UnrollPow();
    UlebLength(v, 10);
    if v < INT_LIMIT {
      UlebFits(s, pos, v, 1, ULEB_MAX_BYTES);
    } else {
      assert Pow128(0) == 1;
      UlebOverflows(s, pos, v, 0, ULEB_MAX_BYTES);
    }
  }

  // ------------------------------------------------------------------- bit blocks

  /** Bit j of x, counting from the least significant. */
  function Bit(x: nat, j: nat): bool {
    if j == 0 then x % 2 == 1 else Bit(x / 2, j - 1)
  }

  function Pow2(n: nat): (p: nat)
    ensures p > 0
  {
    if n == 0 then 1 else 2 * Pow2(n - 1)
  }

  /** A bit of the set, or zero past its end. */
  function Padded(bits: seq<bool>, k: nat): bool {
    k < |bits| && bits[k]
  }

  /** The number whose bits, least significant first, are the n bits from i on. */
  function Number(bits: seq<bool>, i: nat, n: nat): (x: nat)
    ensures x < Pow2(n)
    decreases n
  {
    if n == 0 then 0
    else (if Padded(bits, i) then 1 else 0) + 2 * Number(bits, i + 1, n - 1)
  }

  function BlockCount(n: nat): nat {
    (n + 7) / 8
  }

  function Block(bits: seq<bool>, i: nat): Byte {
    assert Pow2(8) == 256 by { assert Pow2(4) == 16; }
    Number(bits, i, 8)
  }

  /** to_block_range */
  function ToBlocks(bits: seq<bool>): (r: seq<Byte>)
    ensures |r| == BlockCount(|bits|)
  {
    seq(BlockCount(|bits|), k requires 0 <= k => Block(bits, 8 * k))
  }

  /** from_block_range into a bitset of n bits. */
  function FromBlocks(bytes: seq<Byte>, n: nat): (r: seq<bool>)
    requires |bytes| == BlockCount(n)
    ensures |r| == n
  {
    seq(n, k requires 0 <= k < n => Bit(bytes[k / 8], k % 8))
  }

  lemma {:induction false} BitOfNumber(bits: seq<bool>, i: nat, n: nat, j: nat)
    requires j < n
    ensures Bit(Number(bits, i, n), j) == Padded(bits, i + j)
    decreases n
  {
    if j > 0 {
      BitOfNumber(bits, i + 1, n - 1, j - 1);
    }
  }

  /** A bitset survives being packed into bytes and unpacked again. */
  lemma BlocksRoundTrip(bits: seq<bool>)
    ensures FromBlocks(ToBlocks(bits), |bits|) == bits
  {
    forall k | 0 <= k < |bits|
      ensures FromBlocks(ToBlocks(bits), |bits|)[k] == bits[k]
    {
      BitOfNumber(bits, 8 * (k / 8), 8, k % 8);
    }
  }

  /** Shifting x right by j. */
  function Shift(x: nat, j: nat): nat {
    if j == 0 then x else Shift(x / 2, j - 1)
  }

  lemma {:induction false} ShiftSmall(x: nat, n: nat)
    requires x < Pow2(n)
    ensures Shift(x, n) == 0
  {
    if n > 0 {
      ShiftSmall(x / 2, n - 1);
    }
  }

  lemma {:induction false} ShiftStep(x: nat, j: nat)
    ensures Shift(x, j) == 2 * Shift(x, j + 1) + if Bit(x, j) then 1 else 0
  {
    if j > 0 {
      ShiftStep(x / 2, j - 1);
    }
  }

  lemma {:induction false} NumberOfBits(bits: seq<bool>, base: nat, x: nat, j: nat, n: nat)
    requires Shift(x, j + n) == 0
    requires forall k :: j <= k < j + n ==> Bit(x, k) == Padded(bits, base + k)
    ensures Number(bits, base + j, n) == Shift(x, j)
    decreases n
  {
    if n > 0 {
      assert Bit(x, j) == Padded(bits, base + j);
      NumberOfBits(bits, base, x, j + 1, n - 1);
      ShiftStep(x, j);
    }
  }

  /** Whole bytes survive being unpacked and packed again. */
  lemma BytesRoundTrip(bytes: seq<Byte>)
    ensures ToBlocks(FromBlocks(bytes, 8 * |bytes|)) == bytes
  {
    var bits := FromBlocks(bytes, 8 * |bytes|);
    forall k | 0 <= k < |bytes|
      ensures Block(bits, 8 * k) == bytes[k]
    {
      assert Pow2(8) == 256 by { assert Pow2(4) == 16; }
      ShiftSmall(bytes[k], 8);
      forall j | 0 <= j < 0 + 8
        ensures Bit(bytes[k], j) == Padded(bits, 8 * k + j)
      {
        assert (8 * k + j) / 8 == k && (8 * k + j) % 8 == j;
      }
      NumberOfBits(bits, 8 * k, bytes[k], 0, 8);
    }
  }
}
