// The text form of a delta in xdelta.cc: written instruction by instruction, read back while it is applied.
module DeltaText {
  import opened Wrappers
  import opened Xdelta

  predicate IsDigit(c: char) {
    '0' <= c <= '9'
  }

  function DigitOf(n: nat): char
    requires n < 10
  {
    ('0' as int + n) as char
  }

  function ValueOf(c: char): nat
    requires IsDigit(c)
  {
    c as int - '0' as int
  }

  /** A number in decimal. */
  function Decimal(n: nat): string {
    if n < 10 then [DigitOf(n)] else Decimal(n / 10) + [DigitOf(n % 10)]
  }

  function RenderInsn(insn: Insn): string {
    match insn
    case Insert(p) => ['I'] + " " + Decimal(|p|) + "\n" + p + "\n"
    case Copy(pos, len) => ['C'] + " " + Decimal(pos) + " " + Decimal(len) + "\n"
  }

  ghost function Render(delta: seq<Insn>): string {
    if delta == [] then "" else RenderInsn(delta[0]) + Render(delta[1..])
  }

  // ---- reading, as functions of the text ahead ----

  ghost function SkipBlank(s: string): string {
    if s != "" && (s[0] == ' ' || '\t' <= s[0] <= '\r') then SkipBlank(s[1..]) else s
  }

  /** The digits ahead, continuing a number. */
  ghost function Digits(s: string, n: nat): (nat, string) {
    if s != "" && IsDigit(s[0]) then Digits(s[1..], 10 * n + ValueOf(s[0])) else (n, s)
  }

  ghost function ReadNumber(s: string): Option<(nat, string)> {
    var t := SkipBlank(s);
    if t == "" || !IsDigit(t[0]) then None else Some(Digits(t, 0))
  }

  /** Exactly this character must come next. */
  ghost function ReadChar(s: string, c: char): Option<string> {
    if s != "" && s[0] == c then Some(s[1..]) else None
  }

  /** One instruction behind its letter. */
  ghost function ReadInsert(s: string): Option<(Insn, string)> {
    var len :- ReadNumber(s);
    var t :- ReadChar(len.1, '\n');
    if |t| < len.0 then None else
      var u :- ReadChar(t[len.0..], '\n');
      Some((Insert(t[..len.0]), u))
  }

  ghost function ReadCopy(s: string): Option<(Insn, string)> {
    var pos :- ReadNumber(s);
    var len :- ReadNumber(pos.1);
    var t :- ReadChar(len.1, '\n');
    Some((Copy(pos.0, len.0), t))
  }

  lemma {:induction false} DigitsShorter(s: string, n: nat)
    ensures |Digits(s, n).1| <= |s|
    decreases |s|
  {
    if s != "" && IsDigit(s[0]) {
      DigitsShorter(s[1..], 10 * n + ValueOf(s[0]));
    }
  }

  lemma {:induction false} SkipBlankShorter(s: string)
    ensures |SkipBlank(s)| <= |s|
  {
    if s != "" && (s[0] == ' ' || '\t' <= s[0] <= '\r') {
      SkipBlankShorter(s[1..]);
    }
  }

  lemma ReadNumberShorter(s: string)
    ensures ReadNumber(s).Some? ==> |ReadNumber(s).value.1| <= |s|
  {
    SkipBlankShorter(s);
    DigitsShorter(SkipBlank(s), 0);
  }

  lemma ReadShorter(s: string)
    ensures ReadInsert(s).Some? ==> |ReadInsert(s).value.1| <= |s|
    ensures ReadCopy(s).Some? ==> |ReadCopy(s).value.1| <= |s|
  {
    hide ReadNumber;
    ReadNumberShorter(s);
    if ReadNumber(s).Some? {
      ReadNumberShorter(ReadNumber(s).value.1);
    }
  }

  /** The instructions of a delta; anything else in the text is an error. */
  ghost function ReadDelta(s: string): Option<seq<Insn>>
    decreases |s|
  {
    if s == "" then Some([])
    else if s[0] != 'I' && s[0] != 'C' then None
    else
      var one :- if s[0] == 'I' then ReadInsert(s[1..]) else ReadCopy(s[1..]);
      ReadShorter(s[1..]);
      var rest :- ReadDelta(one.1);
      Some([one.0] + rest)
  }

  // ---- what was written is read back ----

  /** Ten to the number of digits of n. */
  ghost function Shift(n: nat): nat {
    if n < 10 then 10 else 10 * Shift(n / 10)
  }

  lemma {:induction false} DigitsAfter(n: nat, m: nat, more: string)
    ensures Digits(Decimal(n) + more, m) == Digits(more, m * Shift(n) + n)
    decreases n
  {
    if n < 10 {
      assert ([DigitOf(n)] + more)[1..] == more;
    } else {
      var d := [DigitOf(n % 10)] + more;
      assert Decimal(n) + more == Decimal(n / 10) + d;
      DigitsAfter(n / 10, m, d);
      assert d[1..] == more;
      Tens(m, Shift(n / 10), n);
    }
  }

  lemma Tens(m: nat, k: nat, n: nat)
    ensures 10 * (m * k + n / 10) + n % 10 == m * (10 * k) + n
  {
  }

  lemma ReadDecimal(n: nat, more: string)
    requires more != "" && !IsDigit(more[0])
    ensures ReadNumber(" " + (Decimal(n) + more)) == Some((n, more))
  {
    DigitsAfter(n, 0, more);
    DecimalStart(n);
    var t := Decimal(n) + more;
    assert (" " + t)[1..] == t;
    assert SkipBlank(t) == t;
  }

  lemma {:induction false} DecimalStart(n: nat)
    ensures Decimal(n) != "" && IsDigit(Decimal(n)[0])
  {
    if n >= 10 {
      DecimalStart(n / 10);
    }
  }

  lemma Regroup(u: string, v: string, w: string, x: string, y: string, z: string, more: string)
    ensures u + v + w + x + y + z + more == u + (v + (w + (x + (y + (z + more)))))
  {
    var t1 := y + (z + more);
    assert y + z + more == t1;
    assert u + v + w + x + y + z + more == u + v + w + x + t1;
    assert u + v + w + x + t1 == u + (v + (w + (x + t1)));
  }

  lemma ReadInsertBack(p: string, more: string)
    ensures var s := RenderInsn(Insert(p)) + more;
      s != "" && s[0] == 'I' && ReadInsert(s[1..]) == Some((Insert(p), more))
  {
    hide ReadNumber, Decimal;
    var s := RenderInsn(Insert(p)) + more;
    var u := "\n" + more;
    var t := p + u;
    Regroup(['I'], " ", Decimal(|p|), "\n", p, "\n", more);
    var r := " " + (Decimal(|p|) + ("\n" + t));
    assert s[1..] == r;
    ReadDecimal(|p|, "\n" + t);
    assert ("\n" + t)[1..] == t && u[1..] == more;
    assert t[..|p|] == p && t[|p|..] == u;
  }

  lemma ReadCopyBack(pos: nat, len: nat, more: string)
    ensures var s := RenderInsn(Copy(pos, len)) + more;
      s != "" && s[0] == 'C' && ReadCopy(s[1..]) == Some((Copy(pos, len), more))
  {
    hide ReadNumber, Decimal;
    var s := RenderInsn(Copy(pos, len)) + more;
    var t := "\n" + more;
    var u := " " + (Decimal(len) + t);
    Regroup(['C'], " ", Decimal(pos), " ", Decimal(len), "\n", more);
    assert s[1..] == " " + (Decimal(pos) + u);
    ReadDecimal(pos, u);
    ReadDecimal(len, t);
    assert t[1..] == more;
  }

  /** Reading a written delta gives its instructions. */
  lemma {:induction false} DeltaRoundTrip(delta: seq<Insn>)
    ensures ReadDelta(Render(delta)) == Some(delta)
  {
    hide RenderInsn, ReadInsert, ReadCopy;
    if delta != [] {
      var more := Render(delta[1..]);
      match delta[0] {
        case Insert(p) => ReadInsertBack(p, more);
        case Copy(pos, len) => ReadCopyBack(pos, len, more);
      }
      DeltaRoundTrip(delta[1..]);
      assert delta == [delta[0]] + delta[1..];
    }
  }

  // ---- reading from a position ----

  /** A number in the text; None when there is none. */
  method ParseNumber(s: string, pos: nat) returns (r: Option<(nat, nat)>)
    requires pos <= |s|
    ensures r.None? ==> ReadNumber(s[pos..]) == None
    ensures r.Some? ==> pos <= r.value.1 <= |s| && ReadNumber(s[pos..]) == Some((r.value.0, s[r.value.1..]))
  {
    var i := pos;
    while i < |s| && (s[i] == ' ' || '\t' <= s[i] <= '\r')
      invariant pos <= i <= |s| && SkipBlank(s[i..]) == SkipBlank(s[pos..])
    {
      assert s[i..][1..] == s[i + 1..];
      i := i + 1;
    }
    if i == |s| || !IsDigit(s[i]) {
      return None;
    }
    ghost var start := i;
    var n: nat := 0;
    while i < |s| && IsDigit(s[i])
      invariant start <= i <= |s| && Digits(s[i..], n) == Digits(s[start..], 0)
    {
      assert s[i..][1..] == s[i + 1..];
      n := 10 * n + ValueOf(s[i]);
      i := i + 1;
    }
    r := Some((n, i));
  }

  method ParseInsert(s: string, pos: nat) returns (r: Option<(Insn, nat)>)
    requires pos <= |s|
    ensures r.None? ==> ReadInsert(s[pos..]) == None
    ensures r.Some? ==> pos <= r.value.1 <= |s| && ReadInsert(s[pos..]) == Some((r.value.0, s[r.value.1..]))
  {
    hide ReadNumber;
    var len := ParseNumber(s, pos);
    if len.None? {
      return None;
    }
    var i := len.value.1;
    if i == |s| || s[i] != '\n' {
      return None;
    }
    i := i + 1;
    assert s[len.value.1..][1..] == s[i..];
    var end := i + len.value.0;
    if end > |s| {
      return None;
    }
    var payload := s[i..end];
    assert s[i..][..len.value.0] == payload && s[i..][len.value.0..] == s[end..];
    if end == |s| || s[end] != '\n' {
      return None;
    }
    assert s[end..][1..] == s[end + 1..];
    r := Some((Insert(payload), end + 1));
  }

  method ParseCopy(s: string, pos: nat) returns (r: Option<(Insn, nat)>)
    requires pos <= |s|
    ensures r.None? ==> ReadCopy(s[pos..]) == None
    ensures r.Some? ==> pos <= r.value.1 <= |s| && ReadCopy(s[pos..]) == Some((r.value.0, s[r.value.1..]))
  {
    hide ReadNumber;
    var from := ParseNumber(s, pos);
    if from.None? {
      return None;
    }
    var len := ParseNumber(s, from.value.1);
    if len.None? {
      return None;
    }
    var i := len.value.1;
    if i == |s| || s[i] != '\n' {
      return None;
    }
    assert s[i..][1..] == s[i + 1..];
    r := Some((Copy(from.value.0, len.value.0), i + 1));
  }

  /** Writes the instructions one after the other. */
  method WriteDelta(delta: seq<Insn>) returns (text: string)
    ensures text == Render(delta)
  {
    hide RenderInsn;
    text := "";
    assert delta[0..] == delta;
    for i := 0 to |delta|
      invariant text + Render(delta[i..]) == Render(delta)
    {
      assert delta[i..][1..] == delta[i + 1..];
      assert text + (RenderInsn(delta[i]) + Render(delta[i + 1..])) == (text + RenderInsn(delta[i])) + Render(delta[i + 1..]);
      text := text + RenderInsn(delta[i]);
    }
  }
}
