// The text form of basic_io.hh and basic_io.cc: stanzas of padded keys and quoted or hexadecimal values, and the
// tokenizer with one character of lookahead that reads them back.
module BasicIo {
  import opened Wrappers

  datatype TokenType = TokString | TokHex | TokSymbol | TokNone

  /** The next token of a text and what follows it, or an error. */
  datatype Lexed = Tok(ty: TokenType, val: string, rest: string) | Bad

  predicate IsSpace(c: char) {
    c == ' ' || '\t' <= c <= '\r'
  }

  predicate IsAlpha(c: char) {
    'a' <= c <= 'z' || 'A' <= c <= 'Z'
  }

  predicate IsDigit(c: char) {
    '0' <= c <= '9'
  }

  predicate IsAlnum(c: char) {
    IsAlpha(c) || IsDigit(c)
  }

  predicate IsXdigit(c: char) {
    IsDigit(c) || 'a' <= c <= 'f' || 'A' <= c <= 'F'
  }

  predicate IsWord(c: char) {
    IsAlnum(c) || c == '_'
  }

  // ---- tokens, as functions of the text ahead ----

  ghost function LexString(s: string, val: string): (r: Lexed)
    ensures r.Tok? ==> r.ty == TokString
  {
    if s == "" then Bad
    else if s[0] == '"' then Tok(TokString, val, s[1..])
    else if s[0] == '\\' then
      if |s| > 1 && (s[1] == '"' || s[1] == '\\') then LexString(s[2..], val + [s[1]]) else Bad
    else LexString(s[1..], val + [s[0]])
  }

  ghost function LexHex(s: string, val: string): (r: Lexed)
    ensures r.Tok? ==> r.ty == TokHex
  {
    if s == "" then Bad
    else if s[0] == ']' then Tok(TokHex, val, s[1..])
    else if !IsXdigit(s[0]) then Bad
    else LexHex(s[1..], val + [s[0]])
  }

  ghost function LexSymbol(s: string, val: string): (r: Lexed)
    ensures r.Tok? && r.ty == TokSymbol
  {
    if s != "" && IsWord(s[0]) then LexSymbol(s[1..], val + [s[0]]) else Tok(TokSymbol, val, s)
  }

  ghost function SkipSpace(s: string): string {
    if s != "" && IsSpace(s[0]) then SkipSpace(s[1..]) else s
  }

  ghost function LexHere(s: string): Lexed {
    if s == "" then Tok(TokNone, "", s)
    else if s[0] == '"' then LexString(s[1..], "")
    else if s[0] == '[' then LexHex(s[1..], "")
    else if IsAlpha(s[0]) then LexSymbol(s, "")
    else Tok(TokNone, "", s)
  }

  ghost function Lex(s: string): Lexed {
    LexHere(SkipSpace(s))
  }

  /** Reading a token uses up text, and all but the empty token use up some. */
  lemma LexProgress(s: string)
    ensures Lex(s).Tok? ==> |Lex(s).rest| <= |s| && (Lex(s).ty != TokNone ==> |Lex(s).rest| < |s|)
  {
    SkipShorter(s);
    var t := SkipSpace(s);
    if t != "" {
      StringShorter(t[1..], "");
      HexShorter(t[1..], "");
      SymbolShorter(t, "");
      if IsAlpha(t[0]) {
        SymbolShorter(t[1..], [] + [t[0]]);
      }
    }
  }

  lemma {:induction false} SkipShorter(s: string)
    ensures |SkipSpace(s)| <= |s|
  {
    if s != "" && IsSpace(s[0]) {
      SkipShorter(s[1..]);
    }
  }

  lemma {:induction false} StringShorter(s: string, val: string)
    ensures LexString(s, val).Tok? ==> |LexString(s, val).rest| <= |s|
    decreases |s|
  {
    if s != "" && s[0] != '"' {
      if s[0] == '\\' {
        if |s| > 1 {
          StringShorter(s[2..], val + [s[1]]);
        }
      } else {
        StringShorter(s[1..], val + [s[0]]);
      }
    }
  }

  lemma {:induction false} HexShorter(s: string, val: string)
    ensures LexHex(s, val).Tok? ==> |LexHex(s, val).rest| <= |s|
    decreases |s|
  {
    if s != "" {
      HexShorter(s[1..], val + [s[0]]);
    }
  }

  lemma {:induction false} SymbolShorter(s: string, val: string)
    ensures LexSymbol(s, val).Tok? && |LexSymbol(s, val).rest| <= |s|
    decreases |s|
  {
    if s != "" && IsWord(s[0]) {
      SymbolShorter(s[1..], val + [s[0]]);
    }
  }

  // ---- what is printed is read back ----

  /** The quoted form: quotes and backslashes are escaped with a backslash. */
  ghost function EscapeBody(s: string): string {
    if s == "" then "" else EscapeChar(s[0]) + EscapeBody(s[1..])
  }

  ghost function EscapeChar(c: char): string {
    if c == '\\' || c == '"' then ['\\', c] else [c]
  }

  ghost function Escaped(s: string): string {
    "\"" + EscapeBody(s) + "\""
  }

  ghost predicate AllHex(s: string) {
    forall i :: 0 <= i < |s| ==> IsXdigit(s[i])
  }

  ghost predicate AllWord(s: string) {
    forall i :: 0 <= i < |s| ==> IsWord(s[i])
  }

  lemma {:induction false} UnescapeBody(v: string, more: string, val: string)
    ensures LexString(EscapeBody(v) + "\"" + more, val) == Tok(TokString, val + v, more)
    decreases |v|
  {
    var s := EscapeBody(v) + "\"" + more;
    if v == "" {
      assert s == "\"" + more;
      assert s[1..] == more;
      assert val + v == val;
    } else {
      UnescapeBody(v[1..], more, val + [v[0]]);
      var t := EscapeBody(v[1..]) + "\"" + more;
      if v[0] == '\\' || v[0] == '"' {
        assert s == ['\\', v[0]] + t;
        assert s[2..] == t;
      } else {
        assert s == [v[0]] + t;
        assert s[1..] == t;
      }
      assert val + [v[0]] + v[1..] == val + v;
    }
  }

  /** An escaped string is one string token with the original value. */
  lemma LexEscaped(v: string, more: string)
    ensures Lex(Escaped(v) + more) == Tok(TokString, v, more)
  {
    var s := Escaped(v) + more;
    assert s[0] == '"' && s[1..] == EscapeBody(v) + "\"" + more;
    UnescapeBody(v, more, "");
    assert "" + v == v;
  }

  lemma {:induction false} HexBody(v: string, more: string, val: string)
    requires AllHex(v)
    ensures LexHex(v + "]" + more, val) == Tok(TokHex, val + v, more)
    decreases |v|
  {
    var s := v + "]" + more;
    if v == "" {
      assert s == "]" + more;
      assert s[1..] == more;
      assert val + v == val;
    } else {
      HexBody(v[1..], more, val + [v[0]]);
      assert s == [v[0]] + (v[1..] + "]" + more);
      assert s[1..] == v[1..] + "]" + more;
      assert val + [v[0]] + v[1..] == val + v;
    }
  }

  lemma LexBracketed(v: string, more: string)
    requires AllHex(v)
    ensures Lex("[" + v + "]" + more) == Tok(TokHex, v, more)
  {
    var s := "[" + v + "]" + more;
    assert s[0] == '[' && s[1..] == v + "]" + more;
    HexBody(v, more, "");
    assert "" + v == v;
  }

  lemma {:induction false} SymbolBody(v: string, more: string, val: string)
    requires AllWord(v) && (more == "" || !IsWord(more[0]))
    ensures LexSymbol(v + more, val) == Tok(TokSymbol, val + v, more)
    decreases |v|
  {
    if v == "" {
      assert v + more == more;
      assert val + v == val;
    } else {
      SymbolBody(v[1..], more, val + [v[0]]);
      assert (v + more)[1..] == v[1..] + more;
      assert val + [v[0]] + v[1..] == val + v;
    }
  }

  lemma LexKey(k: string, more: string)
    requires k != "" && IsAlpha(k[0]) && AllWord(k) && (more == "" || !IsWord(more[0]))
    ensures Lex(k + more) == Tok(TokSymbol, k, more)
  {
    SymbolBody(k, more, "");
    assert "" + k == k;
  }

  function Spaces(n: nat): string {
    seq(n, _ => ' ')
  }

  lemma {:induction false} LexSpaces(n: nat, s: string)
    ensures SkipSpace(Spaces(n) + s) == SkipSpace(s)
  {
    if n == 0 {
      assert Spaces(0) + s == s;
    } else {
      LexSpaces(n - 1, s);
      assert (Spaces(n) + s)[1..] == Spaces(n - 1) + s;
    }
  }

  lemma LexSpace(c: char, s: string)
    requires IsSpace(c)
    ensures SkipSpace([c] + s) == SkipSpace(s)
  {
    assert ([c] + s)[1..] == s;
  }

  // ---- the tokenizer ----

  /** A stream with one character of lookahead; None is the end of the stream. */
  /** Where a reader stands behind a text. */
  ghost function LineAfter(s: string): nat {
    if s == "" then 1 else LineAfter(s[..|s| - 1]) + if s[|s| - 1] == '\n' then 1 else 0
  }

  ghost function ColumnAfter(s: string): nat {
    if s == "" || s[|s| - 1] == '\n' then 1 else ColumnAfter(s[..|s| - 1]) + 1
  }

  class InputSource {
    const data: string
    var pos: nat
    var lookahead: Option<char>
    var c: char
    var line: nat
    var col: nat

    ghost predicate Valid()
      reads this
    {
      pos <= |data|
    }

    /** Line and column, both from one, are those of the next character. */
    ghost predicate Placed()
      reads this
    {
      Valid() && line == LineAfter(data[..pos]) && col == ColumnAfter(data[..pos])
    }

    /** The lookahead is up to date. */
    ghost predicate Peeked()
      reads this
    {
      Valid() && lookahead == if pos < |data| then Some(data[pos]) else None
    }

    ghost function Ahead(): string
      requires Valid()
      reads this
    {
      data[pos..]
    }

    constructor (data: string)
      ensures Placed() && this.data == data && pos == 0
    {
      this.data, pos, lookahead, c, line, col := data, 0, None, '\0', 1, 1;
    }

    method Peek()
      requires Valid()
      modifies this`lookahead
      ensures Peeked()
    {
      lookahead := if pos < |data| then Some(data[pos]) else None;
    }

    method Eat()
      requires Valid()
      modifies this`pos, this`c, this`line, this`col
      ensures Valid() && pos == (if old(pos) < |data| then old(pos) + 1 else old(pos))
      ensures c == if old(pos) < |data| then data[old(pos)] else old(c)
      ensures (line, col) == if c == '\n' then (old(line) + 1, 1) else (old(line), old(col) + 1)
      ensures old(pos) < |data| && old(Placed()) ==> Placed()
    {
      assert pos < |data| ==> data[..pos + 1][..pos] == data[..pos];
      if pos < |data| {
        c := data[pos];
        pos := pos + 1;
      }
      col := col + 1;
      if c == '\n' {
        col := 1;
        line := line + 1;
      }
    }

    method Advance()
      requires Valid()
      modifies this
      ensures Peeked() && pos == (if old(pos) < |data| then old(pos) + 1 else old(pos))
      ensures old(pos) < |data| ==> c == data[old(pos)] && Ahead() == old(Ahead())[1..] && (old(Placed()) ==> Placed())
    {
      Eat();
      Peek();
    }
  }

  class Tokenizer {
    const src: InputSource

    constructor (src: InputSource)
      ensures this.src == src
    {
      this.src := src;
    }

    /** The outcome of reading a token, seen from the source: None is an error. */
    ghost predicate Reads(expected: Lexed, ty: Option<TokenType>, val: string)
      reads src
    {
      src.Valid() &&
      match expected
      case Bad => ty.None?
      case Tok(t, v, rest) => ty == Some(t) && val == v && src.Ahead() == rest
    }

    method SkipBlanks()
      requires src.Peeked()
      modifies src
      ensures src.Peeked() && src.Ahead() == SkipSpace(old(src.Ahead())) && (old(src.Placed()) ==> src.Placed())
    {
      while src.lookahead.Some? && IsSpace(src.lookahead.value)
        invariant src.Peeked() && SkipSpace(src.Ahead()) == SkipSpace(old(src.Ahead()))
        invariant old(src.Placed()) ==> src.Placed()
        decreases |src.data| - src.pos
      {
        src.Advance();
      }
    }

    method StringToken() returns (ty: Option<TokenType>, val: string)
      requires src.Peeked()
      modifies src
      ensures Reads(LexString(old(src.Ahead()), ""), ty, val) && (ty.Some? ==> src.lookahead.Some?)
      ensures old(src.Placed()) ==> src.Placed()
    {
      val := "";
      while src.lookahead != Some('"')
        invariant src.Peeked() && LexString(src.Ahead(), val) == LexString(old(src.Ahead()), "")
        invariant old(src.Placed()) ==> src.Placed()
        decreases |src.data| - src.pos
      {
        if src.lookahead == None {
          return None, val;
        }
        if src.lookahead == Some('\\') {
          ghost var s := src.Ahead();
          src.Advance();
          if !(src.lookahead == Some('"') || src.lookahead == Some('\\')) {
            return None, val;
          }
          assert s[2..] == s[1..][1..];
        }
        src.Advance();
        val := val + [src.c];
      }
      src.Eat();
      ty := Some(TokString);
    }

    method HexToken() returns (ty: Option<TokenType>, val: string)
      requires src.Peeked()
      modifies src
      ensures Reads(LexHex(old(src.Ahead()), ""), ty, val) && (ty.Some? ==> src.lookahead.Some?)
      ensures old(src.Placed()) ==> src.Placed()
    {
      val := "";
      while src.lookahead != Some(']')
        invariant src.Peeked() && LexHex(src.Ahead(), val) == LexHex(old(src.Ahead()), "")
        invariant old(src.Placed()) ==> src.Placed()
        decreases |src.data| - src.pos
      {
        if src.lookahead == None || !IsXdigit(src.lookahead.value) {
          return None, val;
        }
        src.Advance();
        val := val + [src.c];
      }
      src.Eat();
      ty := Some(TokHex);
    }

    method SymbolToken() returns (ty: Option<TokenType>, val: string)
      requires src.Peeked()
      modifies src
      ensures Reads(LexSymbol(old(src.Ahead()), ""), ty, val) && src.Peeked() && (old(src.Placed()) ==> src.Placed())
    {
      val := "";
      while src.lookahead.Some? && IsWord(src.lookahead.value)
        invariant src.Peeked() && LexSymbol(src.Ahead(), val) == LexSymbol(old(src.Ahead()), "")
        invariant old(src.Placed()) ==> src.Placed()
        decreases |src.data| - src.pos
      {
        src.Advance();
        val := val + [src.c];
      }
      ty := Some(TokSymbol);
    }

    /**
     The next token, exactly as the text ahead has it; a symbol or no token leaves the lookahead up to date.  Line and
     column stay those of the place reached, which an error names.
     */
    method GetToken() returns (ty: Option<TokenType>, val: string)
      requires src.Valid()
      modifies src
      ensures Reads(Lex(old(src.Ahead())), ty, val) && (old(src.Placed()) ==> src.Placed())
      ensures ty == Some(TokSymbol) || ty == Some(TokNone) ==> src.Peeked()
      ensures ty == Some(TokString) || ty == Some(TokHex) ==> src.lookahead.Some?
    {
      val := "";
      src.Peek();
      SkipBlanks();
      if src.lookahead == None {
        return Some(TokNone), val;
      }
      if src.lookahead == Some('"') {
        src.Advance();
        ty, val := StringToken();
      } else if src.lookahead == Some('[') {
        src.Advance();
        ty, val := HexToken();
      } else if IsAlpha(src.lookahead.value) {
        ty, val := SymbolToken();
      } else {
        ty := Some(TokNone);
      }
    }
  }

  // ---- the printer ----

  lemma {:induction false} EscapeAppend(s: string, c: char)
    ensures EscapeBody(s + [c]) == EscapeBody(s) + EscapeChar(c)
  {
    hide EscapeChar;
    if s == "" {
      assert [c][1..] == "";
      assert EscapeChar(c) + "" == EscapeChar(c);
    } else {
      assert (s + [c])[1..] == s[1..] + [c];
      EscapeAppend(s[1..], c);
      var h, t, u := EscapeChar(s[0]), EscapeBody(s[1..]), EscapeChar(c);
      assert h + (t + u) == (h + t) + u;
    }
  }

  method Escape(s: string) returns (escaped: string)
    ensures escaped == Escaped(s)
  {
    escaped := "\"";
    for i := 0 to |s|
      invariant escaped == "\"" + EscapeBody(s[..i])
    {
      EscapeAppend(s[..i], s[i]);
      assert s[..i + 1] == s[..i] + [s[i]];
      if s[i] == '\\' || s[i] == '"' {
        escaped := escaped + ['\\'];
      }
      escaped := escaped + [s[i]];
    }
    assert s[..|s|] == s;
    escaped := escaped + "\"";
  }

  type Entry = (string, string)

  function LineText(indent: nat, e: Entry): string {
    Spaces(if indent > |e.0| then indent - |e.0| else 0) + e.0 + " " + e.1 + "\n"
  }

  ghost function StanzaText(indent: nat, entries: seq<Entry>): string {
    if entries == [] then "" else StanzaText(indent, entries[..|entries| - 1]) + LineText(indent, entries[|entries| - 1])
  }

  /** A key and its value read back as a symbol and whatever the value holds. */
  lemma LexLine(indent: nat, e: Entry, more: string)
    requires e.0 != "" && IsAlpha(e.0[0]) && AllWord(e.0)
    ensures Lex(LineText(indent, e) + more) == Tok(TokSymbol, e.0, " " + e.1 + "\n" + more)
  {
    var n := if indent > |e.0| then indent - |e.0| else 0;
    var after := " " + e.1 + "\n" + more;
    assert LineText(indent, e) + more == Spaces(n) + (e.0 + after);
    LexSpaces(n, e.0 + after);
    LexKey(e.0, after);
  }

  class Stanza {
    var indent: nat
    var entries: seq<Entry>

    constructor ()
      ensures indent == 0 && entries == []
    {
      indent, entries := 0, [];
    }

    method Push(k: string, v: string)
      modifies this
      ensures entries == old(entries) + [(k, v)] && indent == if |k| > old(indent) then |k| else old(indent)
    {
      entries := entries + [(k, v)];
      if |k| > indent {
        indent := |k|;
      }
    }

    /** Keys and hexadecimal values are checked. */
    method PushHexPair(k: string, v: string) returns (ok: bool)
      modifies this
      ensures ok <==> AllWord(k) && AllHex(v)
      ensures ok ==> entries == old(entries) + [(k, "[" + v + "]")] && indent == if |k| > old(indent) then |k| else old(indent)
    {
      ok := forall i :: 0 <= i < |k| ==> IsWord(k[i]);
      if ok {
        ok := forall i :: 0 <= i < |v| ==> IsXdigit(v[i]);
      }
      if ok {
        Push(k, "[" + v + "]");
      }
    }

    method PushStrPair(k: string, v: string) returns (ok: bool)
      modifies this
      ensures ok <==> AllWord(k)
      ensures ok ==> entries == old(entries) + [(k, Escaped(v))] && indent == if |k| > old(indent) then |k| else old(indent)
    {
      ok := forall i :: 0 <= i < |k| ==> IsWord(k[i]);
      if ok {
        var e := Escape(v);
        Push(k, e);
      }
    }
  }

  class Printer {
    var emptyOutput: bool
    var out: string

    constructor ()
      ensures emptyOutput && out == ""
    {
      emptyOutput, out := true, "";
    }

    method PrintLine(indent: nat, e: Entry)
      modifies this`out
      ensures out == old(out) + LineText(indent, e)
    {
      var k := |e.0|;
      while k < indent
        invariant |e.0| <= k && (k <= indent || k == |e.0|) && out == old(out) + Spaces(k - |e.0|)
      {
        out := out + [' '];
        k := k + 1;
      }
      out := out + e.0 + [' '] + e.1 + ['\n'];
    }

    lemma Grouped(s: string, t: string, u: string)
      ensures (s + t) + u == s + (t + u)
    {
    }

    /** Stanzas are set apart by an empty line. */
    method PrintStanza(st: Stanza)
      modifies this
      ensures !emptyOutput
      ensures out == old(out) + (if old(emptyOutput) then "" else "\n") + StanzaText(st.indent, st.entries)
    {
      if emptyOutput {
        emptyOutput := false;
      } else {
        out := out + "\n";
      }
      ghost var begun := out;
      for i := 0 to |st.entries|
        invariant !emptyOutput && out == begun + StanzaText(st.indent, st.entries[..i])
      {
        PrintLine(st.indent, st.entries[i]);
        assert st.entries[..i + 1][..i] == st.entries[..i];
        Grouped(begun, StanzaText(st.indent, st.entries[..i]), LineText(st.indent, st.entries[i]));
      }
      assert st.entries[..|st.entries|] == st.entries;
    }
  }
}
