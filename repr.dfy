/** Python's `repr` of a text, as `repr(dict)` prints the keys and the text
    values of the cache key's dict, and a reader that takes such a literal
    back. The quote is chosen and the text escaped as CPython's
    `unicode_repr` does it. */
module Repr {
  import opened Base

  /** `repr` quotes with `"` when the text holds `'` and no `"`, and with `'`
      otherwise. */
  function QuoteFor(s: string): (q: char)
    ensures q == '\'' || q == '"'
    ensures q == '"' <==> '\'' in s && '"' !in s
  {
    if '\'' in s && '"' !in s then '"' else '\''
  }

  /** Characters `repr` writes as `\xhh`: the control characters other than
      tab, newline and carriage return, DEL, the C1 controls, the no-break
      space and the soft hyphen. */
  predicate HexEscaped(c: char)
  {
    var n := c as int;
    (n < 0x20 && c != '\t' && c != '\n' && c != '\r') || n == 0x7f || (0x80 <= n <= 0xa0) || n == 0xad
  }

  predicate IsLowerHex(c: char)
  {
    ('0' <= c <= '9') || ('a' <= c <= 'f')
  }

  function LowerHexValue(c: char): (n: int)
    requires IsLowerHex(c)
    ensures 0 <= n < 16
  {
    if '0' <= c <= '9' then c as int - '0' as int else c as int - 'a' as int + 10
  }

  /** The lower-case hex digit `repr` writes for `n`. */
  function LowerHexDigit(n: int): (c: char)
    requires 0 <= n < 16
    ensures IsLowerHex(c) && LowerHexValue(c) == n
  {
    if n < 10 then ('0' as int + n) as char else ('a' as int + n - 10) as char
  }

  /** One character of a text printed between quotes `q`: the quote and the
      backslash get a backslash, tab, newline and carriage return their
      letter escapes, the other non-printable characters `\xhh`. */
  function EscapeChar(c: char, q: char): (r: string)
  {
    if c == q || c == '\\' then ['\\', c]
    else if c == '\t' then "\\t"
    else if c == '\n' then "\\n"
    else if c == '\r' then "\\r"
    else if HexEscaped(c) then ['\\', 'x', LowerHexDigit(c as int / 16), LowerHexDigit(c as int % 16)]
    else [c]
  }

  function Escaped(s: string, q: char): string
  {
    if s == [] then [] else EscapeChar(s[0], q) + Escaped(s[1..], q)
  }

  /** `repr(s)` of a text. */
  function ReprText(s: string): string
  {
    var q := QuoteFor(s);
    [q] + Escaped(s, q) + [q]
  }

  // ------------------------------------------------------------ reading back

  /** The escape after a backslash: the character it stands for and what
      follows it. */
  function Unescape(s: string): (r: Option<(char, string)>)
    ensures r.Some? ==> |r.value.1| < |s|
  {
    if s == [] then None
    else if s[0] == '\\' || s[0] == '\'' || s[0] == '"' then Some((s[0], s[1..]))
    else if s[0] == 't' then Some(('\t', s[1..]))
    else if s[0] == 'n' then Some(('\n', s[1..]))
    else if s[0] == 'r' then Some(('\r', s[1..]))
    else if s[0] == 'x' && |s| >= 3 && IsLowerHex(s[1]) && IsLowerHex(s[2]) then
      Some(((16 * LowerHexValue(s[1]) + LowerHexValue(s[2])) as char, s[3..]))
    else None
  }

  function Prepend(c: char, r: Option<(string, string)>): Option<(string, string)>
  {
    match r
    case None => None
    case Some(p) => Some(([c] + p.0, p.1))
  }

  /** The rest of a literal opened with quote `q`: its text and what follows
      the closing quote. */
  function ReadBody(s: string, q: char): (r: Option<(string, string)>)
    ensures r.Some? ==> |r.value.1| < |s|
    decreases |s|
  {
    if s == [] then None
    else if s[0] == q then Some(([], s[1..]))
    else if s[0] == '\\' then
      match Unescape(s[1..])
      case None => None
      case Some(e) => Prepend(e.0, ReadBody(e.1, q))
    else Prepend(s[0], ReadBody(s[1..], q))
  }

  /** A text literal at the start of `s`: its text and what follows it. */
  function ReadText(s: string): (r: Option<(string, string)>)
    ensures r.Some? ==> |r.value.1| < |s|
  {
    if s != [] && (s[0] == '\'' || s[0] == '"') then ReadBody(s[1..], s[0]) else None
  }

  lemma ReadEscapeChar(c: char, q: char, t: string)
    requires q == '\'' || q == '"'
    ensures ReadBody(EscapeChar(c, q) + t, q) == Prepend(c, ReadBody(t, q))
  {
    if c == q || c == '\\' {
      ReadBackslashed(c, q, t);
    } else if c == '\t' || c == '\n' || c == '\r' {
      ReadLetterEscape(c, q, t);
    } else if HexEscaped(c) {
      ReadHexEscape(c, q, t);
    } else {
      assert (EscapeChar(c, q) + t)[1..] == t;
    }
  }

  lemma ReadBackslashed(c: char, q: char, t: string)
    requires q == '\'' || q == '"'
    requires c == q || c == '\\'
    ensures ReadBody(['\\', c] + t, q) == Prepend(c, ReadBody(t, q))
  {
    assert (['\\', c] + t)[1..] == [c] + t;
    assert ([c] + t)[1..] == t;
  }

  lemma ReadLetterEscape(c: char, q: char, t: string)
    requires q == '\'' || q == '"'
    requires c == '\t' || c == '\n' || c == '\r'
    ensures ReadBody(EscapeChar(c, q) + t, q) == Prepend(c, ReadBody(t, q))
  {
    var e := EscapeChar(c, q);
    assert (e + t)[1..] == [e[1]] + t;
    assert ([e[1]] + t)[1..] == t;
  }

  lemma ReadHexEscape(c: char, q: char, t: string)
    requires q == '\'' || q == '"'
    requires c != q && c != '\\' && c != '\t' && c != '\n' && c != '\r' && HexEscaped(c)
    ensures ReadBody(EscapeChar(c, q) + t, q) == Prepend(c, ReadBody(t, q))
  {
    var n := c as int;
    var e := EscapeChar(c, q);
    assert (e + t)[1..] == ['x', e[2], e[3]] + t;
    assert (['x', e[2], e[3]] + t)[3..] == t;
    assert 16 * (n / 16) + n % 16 == n;
  }

  lemma {:induction false} ReadEscaped(s: string, q: char, rest: string)
    requires q == '\'' || q == '"'
    ensures ReadBody(Escaped(s, q) + [q] + rest, q) == Some((s, rest))
  {
    if s == [] {
      assert Escaped(s, q) + [q] + rest == [q] + rest;
    } else {
      var t := Escaped(s[1..], q) + [q] + rest;
      ReadEscaped(s[1..], q, rest);
      assert Escaped(s, q) + [q] + rest == EscapeChar(s[0], q) + t;
      ReadEscapeChar(s[0], q, t);
      assert [s[0]] + s[1..] == s;
    }
  }

  /** Reading `repr(s)` back gives `s` and leaves what follows untouched. */
  lemma ReprTextRoundTrip(s: string, rest: string)
    ensures ReadText(ReprText(s) + rest) == Some((s, rest))
  {
    var q := QuoteFor(s);
    assert ReprText(s) + rest == [q] + (Escaped(s, q) + [q] + rest);
    ReadEscaped(s, q, rest);
  }

  /** Different texts have different `repr`s. */
  lemma ReprTextInjective(s: string, t: string)
    requires ReprText(s) == ReprText(t)
    ensures s == t
  {
    ReprTextRoundTrip(s, []);
    ReprTextRoundTrip(t, []);
    assert ReprText(s) + [] == ReprText(t) + [];
  }

  /** A character `repr` writes as it is between quotes `q`. */
  predicate Plain(c: char, q: char)
  {
    c != q && c != '\\' && c != '\t' && c != '\n' && c != '\r' && !HexEscaped(c)
  }

  /** A text of such characters is written as it is. */
  lemma {:induction false} EscapedPlain(s: string, q: char)
    requires forall i :: 0 <= i < |s| ==> Plain(s[i], q)
    ensures Escaped(s, q) == s
  {
    if s != [] {
      EscapedPlain(s[1..], q);
      assert [s[0]] + s[1..] == s;
    }
  }

  /** A text with `'` and no `"` is quoted with `"` and its `'` is printed as
      is: `repr("it's")` is `"it's"`. */
  lemma ReprApostrophe()
    ensures ReprText("it's") == "\"it's\""
  {
    assert QuoteFor("it's") == '"' by { assert "it's"[2] == '\''; }
    EscapedPlain("it's", '"');
  }

  /** A text with both quotes is quoted with `'`, which is escaped inside. */
  lemma ReprBothQuotes()
    ensures ReprText("'\"") == "'\\'\"'"
  {
  }
}
