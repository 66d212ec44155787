// The rolling checksum of adler32.hh: two running sums in 32-bit words, masked to 16 bits after every step,
// from which a byte can be taken out at the front as well as added at the back.
module Adler32 {

  type Byte = c: nat | c < 256

  const WORD := 0x1_0000_0000
  const HALF := 0x1_0000

  /** An unsigned 32-bit result, and the effect of masking it with 0xffff. */
  function Wrap(x: int): nat { x % WORD }
  function Mask(x: nat): nat { x % HALF }

  datatype Sums = Sums(s1: nat, s2: nat, len: nat)

  function AfterIn(s: Sums, c: Byte): Sums {
    var s1 := Mask(Wrap(s.s1 + c));
    Sums(s1, Mask(Wrap(s.s2 + s1)), Wrap(s.len + 1))
  }

  function AfterOut(s: Sums, c: Byte): Sums {
    var s1 := Mask(Wrap(s.s1 - c));
    Sums(s1, Mask(Wrap(s.s2 - Wrap(Wrap(s.len * c) + 1))), Wrap(s.len - 1))
  }

  /** The two masked sums, one above the other, in one word. */
  function Packed(s: Sums): nat {
    Wrap(s.s2 * HALF) + s.s1
  }

  /** The plain sum of a window, and the sum in which each byte counts once for every byte from it to the end. */
  ghost function Total(w: seq<Byte>): nat {
    if w == [] then 0 else w[0] + Total(w[1..])
  }

  ghost function Weighted(w: seq<Byte>): nat {
    if w == [] then 0 else |w| * w[0] + Weighted(w[1..])
  }

  /** The checksum of a window, in closed form. */
  ghost function Checksum(w: seq<Byte>): Sums {
    Sums((1 + Total(w)) % HALF, (|w| + Weighted(w)) % HALF, |w| % WORD)
  }

  /** x and y agree modulo 2^16. */
  ghost predicate Same(x: int, y: int) {
    exists k: int :: x == y + Multiple(k)
  }

  ghost function Multiple(k: int): int { k * HALF }

  lemma SameIntro(x: int, y: int, k: int)
    requires x == y + k * HALF
    ensures Same(x, y)
  {
    assert x == y + Multiple(k);
  }

  lemma SameAdd(x: int, y: int, u: int, v: int)
    requires Same(x, y) && Same(u, v)
    ensures Same(x + u, y + v) && Same(x - u, y - v)
  {
    var k: int :| x == y + Multiple(k);
    var l: int :| u == v + Multiple(l);
    SameIntro(x + u, y + v, k + l);
    SameIntro(x - u, y - v, k - l);
  }

  lemma SameTimes(x: int, y: int, c: int)
    requires Same(x, y)
    ensures Same(x * c, y * c)
  {
    var k: int :| x == y + Multiple(k);
    assert (y + k * HALF) * c == y * c + (k * c) * HALF;
    SameIntro(x * c, y * c, k * c);
  }

  lemma SameRefl(x: int)
    ensures Same(x, x)
  {
    SameIntro(x, x, 0);
  }

  lemma SameTrans(x: int, y: int, z: int)
    requires Same(x, y) && Same(y, z)
    ensures Same(x, z)
  {
    SameAdd(x, y, y, z);
    var k: int :| x + y == y + z + Multiple(k);
    SameIntro(x, z, k);
  }

  /** Neither the 32-bit wrap-around nor the mask changes a number modulo 2^16. */
  lemma WrapSame(x: int)
    ensures Same(Wrap(x), x)
  {
    SameIntro(Wrap(x), x, -(x / WORD) * 0x1_0000);
  }

  lemma MaskSame(x: nat)
    ensures Same(Mask(x), x)
  {
    SameIntro(Mask(x), x, -(x / HALF));
  }

  lemma MaskWrap(x: int, y: int)
    requires Same(x, y)
    ensures Mask(Wrap(x)) == y % HALF
  {
    WrapSame(x);
    SameTrans(Wrap(x), x, y);
    var k: int :| Wrap(x) == y + Multiple(k);
    SameResidue(Wrap(x), y, k);
  }

  lemma SameResidue(x: int, y: int, k: int)
    requires x == y + k * HALF
    ensures x % HALF == y % HALF
  {
    var m := x / HALF - y / HALF - k;
    assert x % HALF - y % HALF == -m * HALF;
    assert -HALF < m * HALF < HALF;
  }

  lemma {:induction false} SumsAppend(w: seq<Byte>, c: Byte)
    ensures Total(w + [c]) == Total(w) + c
    ensures Weighted(w + [c]) == Weighted(w) + Total(w) + c
  {
    if w == [] {
      assert [c][1..] == [];
    } else {
      assert (w + [c])[1..] == w[1..] + [c];
      SumsAppend(w[1..], c);
      assert (|w| + 1) * w[0] == |w| * w[0] + w[0];
    }
  }

  /** Adding a byte at the back extends the window. */
  lemma InExact(w: seq<Byte>, c: Byte)
    ensures AfterIn(Checksum(w), c) == Checksum(w + [c])
  {
    hide Mask, Same, Total, Weighted;
    SumsAppend(w, c);
    var t, u := 1 + Total(w), |w| + Weighted(w);
    ResidueSame(t);
    ResidueSame(u);
    SameRefl(c);
    SameAdd(t % HALF, t, c, c);
    MaskWrap(t % HALF + c, t + c);
    ResidueSame(t + c);
    SameAdd(u % HALF, u, (t + c) % HALF, t + c);
    MaskWrap(u % HALF + (t + c) % HALF, u + t + c);
    LengthWrap(|w|, 1);
  }

  lemma ResidueSame(x: nat)
    ensures Same(x % HALF, x)
  {
    MaskSame(x);
  }

  lemma LengthWrap(n: int, d: int)
    ensures Wrap(n % WORD + d) == (n + d) % WORD
  {
    var k := n / WORD;
    assert n % WORD + d == n + d - k * WORD;
    var m := (n % WORD + d) / WORD - (n + d) / WORD + k;
    assert Wrap(n % WORD + d) - (n + d) % WORD == -m * WORD;
    assert -WORD < m * WORD < WORD;
  }

  /** Taking out the first byte leaves the checksum of the rest, although length and products wrap. */
  lemma OutExact(c: Byte, w: seq<Byte>)
    ensures AfterOut(Checksum([c] + w), c) == Checksum(w)
  {
    hide Mask, Wrap, Same;
    var v := [c] + w;
    assert v[1..] == w;
    var t, u := 1 + Total(v), |v| + Weighted(v);
    ResidueSame(t);
    ResidueSame(u);
    SameRefl(c);
    SameAdd(t % HALF, t, c, c);
    MaskWrap(t % HALF - c, 1 + Total(w));
    var len := |v| % WORD;
    TakenOut(|v|, c);
    SameAdd(u % HALF, u, Wrap(Wrap(len * c) + 1), |v| * c + 1);
    MaskWrap(u % HALF - Wrap(Wrap(len * c) + 1), |w| + Weighted(w));
    LengthWrap(|v|, -1);
  }

  lemma TakenOut(n: nat, c: Byte)
    ensures Same(Wrap(Wrap((n % WORD) * c) + 1), n * c + 1)
  {
    hide Same;
    var p := (n % WORD) * c;
    WrapSame(n);
    SameTimes(n % WORD, n, c);
    WrapSame(p);
    SameTrans(Wrap(p), p, n * c);
    SameRefl(1);
    SameAdd(Wrap(p), n * c, 1, 1);
    WrapSame(Wrap(p) + 1);
    SameTrans(Wrap(Wrap(p) + 1), Wrap(p) + 1, n * c + 1);
  }

  /** The window can be slid along the data: out with its first byte, in with a new one. */
  lemma Slide(c: Byte, w: seq<Byte>, d: Byte)
    ensures AfterIn(AfterOut(Checksum([c] + w), c), d) == Checksum(w + [d])
  {
    OutExact(c, w);
    InExact(w, d);
  }

  class Rolling {
    var s1: nat
    var s2: nat
    var len: nat

    ghost function State(): Sums
      reads this
    {
      Sums(s1, s2, len)
    }

    constructor (ch: seq<Byte>)
      ensures State() == Checksum(ch)
    {
      s1, s2, len := 1, 0, 0;
      new;
      var i := 0;
      assert ch[..0] == [];
      while i < |ch|
        invariant 0 <= i <= |ch| && State() == Checksum(ch[..i])
      {
        In(ch[i]);
        assert ch[..i + 1] == ch[..i] + [ch[i]];
        i := i + 1;
      }
      assert ch[..i] == ch;
    }

    /** The byte joins the window at its back. */
    method In(c: Byte)
      modifies this
      ensures State() == AfterIn(old(State()), c)
      ensures forall w :: old(State()) == Checksum(w) ==> State() == Checksum(w + [c])
    {
      forall w | State() == Checksum(w)
        ensures AfterIn(State(), c) == Checksum(w + [c])
      {
        InExact(w, c);
      }
      s1 := Wrap(s1 + c);
      s1 := Mask(s1);
      s2 := Wrap(s2 + s1);
      s2 := Mask(s2);
      len := Wrap(len + 1);
    }

    /** The byte leaves the window at its front. */
    method Out(c: Byte)
      modifies this
      ensures State() == AfterOut(old(State()), c)
      ensures forall w :: old(State()) == Checksum([c] + w) ==> State() == Checksum(w)
    {
      forall w | State() == Checksum([c] + w)
        ensures AfterOut(State(), c) == Checksum(w)
      {
        OutExact(c, w);
      }
      s1 := Wrap(s1 - c);
      s1 := Mask(s1);
      s2 := Wrap(s2 - Wrap(Wrap(len * c) + 1));
      s2 := Mask(s2);
      len := Wrap(len - 1);
    }

    function Sum(): (sum: nat)
      reads this
      ensures sum == Packed(State())
      ensures s1 < HALF && s2 < HALF ==> sum < WORD && sum % HALF == s1 && sum / HALF == s2
    {
      Wrap(s2 * HALF) + s1
    }
  }
}
