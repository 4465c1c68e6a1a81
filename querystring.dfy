/** Rebuilding a request's query string for the next-page link: grouping the
    request's parameters into a dict, percent-encoding them as `urllib.parse.quote`
    does (section 2.1 of RFC 3986, over the UTF-8 bytes of the text), and
    overwriting the pagination parameters. */
module QueryString {
  import opened Base
  import opened Strings

  newtype byte = b: int | 0 <= b < 256

  // ---------------------------------------------------------------- UTF-8

  /** The UTF-8 encoding of one code point. */
  function Utf8Char(c: char): (bs: seq<byte>)
    ensures 1 <= |bs| <= 4
    ensures (c as int < 0x80) <==> (|bs| == 1 && bs[0] as int == c as int)
  {
    var n := c as int;
    if n < 0x80 then [n as byte]
    else if n < 0x800 then [(0xC0 + n / 64) as byte, (0x80 + n % 64) as byte]
    else if n < 0x10000 then
      [(0xE0 + n / 4096) as byte, (0x80 + (n / 64) % 64) as byte, (0x80 + n % 64) as byte]
    else
      [(0xF0 + n / 262144) as byte, (0x80 + (n / 4096) % 64) as byte,
       (0x80 + (n / 64) % 64) as byte, (0x80 + n % 64) as byte]
  }

  /** `s.encode('utf-8')`. */
  function Utf8(s: string): (bs: seq<byte>)
    ensures |bs| >= |s|
  {
    if s == [] then [] else Utf8Char(s[0]) + Utf8(s[1..])
  }

  // ---------------------------------------------------- percent-encoding

  /** The characters `quote` never escapes: the unreserved set of section 2.3 of RFC 3986. */
  predicate Unreserved(b: byte)
  {
    ('A' as byte <= b <= 'Z' as byte) || ('a' as byte <= b <= 'z' as byte) ||
    ('0' as byte <= b <= '9' as byte) || b == '_' as byte || b == '.' as byte ||
    b == '-' as byte || b == '~' as byte
  }

  function HexDigit(n: int): (c: char)
    requires 0 <= n < 16
    ensures IsHex(c) && HexValue(c) == n
  {
    if n < 10 then ('0' as int + n) as char else ('A' as int + n - 10) as char
  }

  predicate IsHex(c: char)
  {
    ('0' <= c <= '9') || ('A' <= c <= 'F') || ('a' <= c <= 'f')
  }

  function HexValue(c: char): (n: int)
    requires IsHex(c)
    ensures 0 <= n < 16
  {
    if '0' <= c <= '9' then c as int - '0' as int
    else if 'A' <= c <= 'F' then c as int - 'A' as int + 10
    else c as int - 'a' as int + 10
  }

  /** Characters that `quote` can produce. */
  predicate QuotedChar(c: char)
  {
    c as int < 0x80 && c != '&' && c != '=' && c != ' '
  }

  /** One byte as `quote` writes it: kept when unreserved (or when it is `/` and
      `/` is safe), `%XX` with upper-case hex digits otherwise. */
  function QuoteByte(b: byte, keepSlash: bool): (r: string)
    ensures forall i :: 0 <= i < |r| ==> QuotedChar(r[i])
    ensures !keepSlash ==> '/' !in r
  {
    if Unreserved(b) || (keepSlash && b == '/' as byte) then [b as int as char]
    else ['%', HexDigit(b as int / 16), HexDigit(b as int % 16)]
  }

  function QuoteBytes(bs: seq<byte>, keepSlash: bool): string
  {
    if bs == [] then [] else QuoteByte(bs[0], keepSlash) + QuoteBytes(bs[1..], keepSlash)
  }

  lemma {:induction false} QuoteBytesChars(bs: seq<byte>, keepSlash: bool)
    ensures forall i :: 0 <= i < |QuoteBytes(bs, keepSlash)| ==> QuotedChar(QuoteBytes(bs, keepSlash)[i])
    ensures !keepSlash ==> '/' !in QuoteBytes(bs, keepSlash)
  {
    if bs != [] {
      QuoteBytesChars(bs[1..], keepSlash);
      var h := QuoteByte(bs[0], keepSlash);
      var t := QuoteBytes(bs[1..], keepSlash);
      assert QuoteBytes(bs, keepSlash) == h + t;
      forall i | 0 <= i < |h + t| ensures QuotedChar((h + t)[i]) {
        if i >= |h| { assert (h + t)[i] == t[i - |h|]; }
      }
    }
  }

  /** `quote(s, safe='/')` when `keepSlash`, `quote(s, safe='')` otherwise. */
  function Quote(s: string, keepSlash: bool): string
  {
    QuoteBytes(Utf8(s), keepSlash)
  }

  /** `quote` writes only ASCII and never a bare `&`, `=` or space; with no safe
      characters it escapes `/` as well. */
  lemma QuoteChars(s: string, keepSlash: bool)
    ensures forall i :: 0 <= i < |Quote(s, keepSlash)| ==> QuotedChar(Quote(s, keepSlash)[i])
    ensures '&' !in Quote(s, keepSlash) && '=' !in Quote(s, keepSlash)
    ensures !keepSlash ==> '/' !in Quote(s, keepSlash)
  {
    QuoteBytesChars(Utf8(s), keepSlash);
  }

  /** Decoding `%XX` escapes back to bytes; anything but an escape or an ASCII
      character is refused. */
  function PercentDecode(s: string): Option<seq<byte>>
  {
    if s == [] then Some([])
    else if s[0] == '%' then
      if |s| >= 3 && IsHex(s[1]) && IsHex(s[2]) then
        match PercentDecode(s[3..])
        case Some(rest) => Some([(HexValue(s[1]) * 16 + HexValue(s[2])) as byte] + rest)
        case None => None
      else None
    else if s[0] as int < 0x80 then
      match PercentDecode(s[1..])
      case Some(rest) => Some([s[0] as int as byte] + rest)
      case None => None
    else None
  }

  lemma {:induction false} DecodeQuoteBytes(bs: seq<byte>, keepSlash: bool)
    ensures PercentDecode(QuoteBytes(bs, keepSlash)) == Some(bs)
  {
    if bs != [] {
      var q := QuoteBytes(bs, keepSlash);
      var head := QuoteByte(bs[0], keepSlash);
      DecodeQuoteBytes(bs[1..], keepSlash);
      assert q == head + QuoteBytes(bs[1..], keepSlash);
      if |head| == 1 {
        assert q[1..] == QuoteBytes(bs[1..], keepSlash);
      } else {
        assert q[3..] == QuoteBytes(bs[1..], keepSlash);
        assert (bs[0] as int / 16) * 16 + bs[0] as int % 16 == bs[0] as int;
      }
      assert [bs[0]] + bs[1..] == bs;
    }
  }

  /** Percent-decoding undoes `quote`: the result is the text's UTF-8 bytes. */
  lemma QuoteRoundTrip(s: string, keepSlash: bool)
    ensures PercentDecode(Quote(s, keepSlash)) == Some(Utf8(s))
  {
    DecodeQuoteBytes(Utf8(s), keepSlash);
  }

  // ------------------------------------------------------- dicts of params

  /** A query parameter value: the text a request carries, or the numbers,
      booleans and `None` the code puts into the dict itself. */
  datatype Scalar = Text(text: string) | Int(i: int) | Bool(b: bool) | NoneValue

  /** A dict value: one scalar, or a list of them. */
  datatype Param = Single(value: Scalar) | Many(values: seq<Scalar>)

  /** A Python dict in insertion order, as key/value pairs with distinct keys. */
  type Dict = seq<(string, Param)>

  /** `str(v)`. */
  function StrOf(v: Scalar): string
  {
    match v
    case Text(s) => s
    case Int(i) => IntToString(i)
    case Bool(b) => if b then "True" else "False"
    case NoneValue => "None"
  }

  function Keys(d: Dict): (ks: seq<string>)
    ensures |ks| == |d| && forall i :: 0 <= i < |d| ==> ks[i] == d[i].0
  {
    if d == [] then [] else Keys(d[..|d| - 1]) + [d[|d| - 1].0]
  }

  predicate UniqueKeys(d: Dict)
  {
    Distinct(Keys(d))
  }

  /** `d.get(k)`. */
  function Lookup(d: Dict, k: string): (r: Option<Param>)
    ensures r.Some? <==> k in Keys(d)
    ensures UniqueKeys(d) ==> forall i :: 0 <= i < |d| && d[i].0 == k ==> r == Some(d[i].1)
  {
    if d == [] then None
    else if d[|d| - 1].0 == k then Some(d[|d| - 1].1)
    else
      var r := Lookup(d[..|d| - 1], k);
      assert Keys(d) == Keys(d[..|d| - 1]) + [d[|d| - 1].0];
      r
  }

  /** `d[k] = v`: an existing key keeps its place and gets the new value; a new
      key goes at the end. */
  function Put(d: Dict, k: string, v: Param): (r: Dict)
    ensures |r| == |d| || |r| == |d| + 1
    ensures k in Keys(d) ==> Keys(r) == Keys(d)
    ensures k !in Keys(d) ==> Keys(r) == Keys(d) + [k]
    ensures forall i :: 0 <= i < |d| && d[i].0 != k ==> r[i] == d[i]
    ensures forall i :: 0 <= i < |r| && r[i].0 == k ==> r[i].1 == v
  {
    if k in Keys(d) then
      var r := seq(|d|, i requires 0 <= i < |d| => if d[i].0 == k then (k, v) else d[i]);
      assert Keys(r) == Keys(d);
      r
    else d + [(k, v)]
  }

  lemma PutUnique(d: Dict, k: string, v: Param)
    requires UniqueKeys(d)
    ensures UniqueKeys(Put(d, k, v))
    ensures Lookup(Put(d, k, v), k) == Some(v)
    ensures forall k' :: k' != k ==> Lookup(Put(d, k, v), k') == Lookup(d, k')
  {
    var r := Put(d, k, v);
    assert UniqueKeys(r);
    forall k' | k' != k
      ensures Lookup(r, k') == Lookup(d, k')
    {
      if k' in Keys(d) {
        var i :| 0 <= i < |d| && Keys(d)[i] == k';
        assert r[i] == d[i];
      }
    }
    var j :| 0 <= j < |r| && Keys(r)[j] == k;
  }

  // ------------------------------------------------ grouping the request

  /** The values given for `k`, in the order the request lists them. */
  function ValuesFor(items: seq<(string, string)>, k: string): seq<string>
  {
    if items == [] then []
    else ValuesFor(items[..|items| - 1], k) + (if items[|items| - 1].0 == k then [items[|items| - 1].1] else [])
  }

  /** The distinct keys of the request, in order of first appearance. */
  function FirstKeys(items: seq<(string, string)>): seq<string>
  {
    if items == [] then []
    else
      var ks := FirstKeys(items[..|items| - 1]);
      var k := items[|items| - 1].0;
      if k in ks then ks else ks + [k]
  }

  lemma {:induction false} FirstKeysDistinct(items: seq<(string, string)>)
    ensures Distinct(FirstKeys(items))
  {
    if items != [] {
      FirstKeysDistinct(items[..|items| - 1]);
    }
  }

  lemma {:induction false} FirstKeysValues(items: seq<(string, string)>, k: string)
    ensures k in FirstKeys(items) <==> ValuesFor(items, k) != []
  {
    if items != [] {
      FirstKeysValues(items[..|items| - 1], k);
    }
  }

  /** A key given once is a scalar; a key given several times is the list of its values. */
  function Grouped(vs: seq<string>): Param
  {
    if |vs| == 1 then Single(Text(vs[0])) else Many(Texts(vs))
  }

  function Texts(vs: seq<string>): (r: seq<Scalar>)
    ensures |r| == |vs| && forall i :: 0 <= i < |vs| ==> r[i] == Text(vs[i])
  {
    if vs == [] then [] else Texts(vs[..|vs| - 1]) + [Text(vs[|vs| - 1])]
  }

  /** The dict the request's parameters turn into: each distinct key once, at its
      first appearance, with all its values. */
  function ParamsDict(items: seq<(string, string)>): (d: Dict)
    ensures Keys(d) == FirstKeys(items)
  {
    var ks := FirstKeys(items);
    var d := seq(|ks|, i requires 0 <= i < |ks| => (ks[i], Grouped(ValuesFor(items, ks[i]))));
    assert Keys(d) == ks;
    d
  }

  lemma ValuesForStep(items: seq<(string, string)>, key: string, value: string, k: string)
    ensures ValuesFor(items + [(key, value)], k) == ValuesFor(items, k) + (if k == key then [value] else [])
  {
    var after := items + [(key, value)];
    assert after[..|after| - 1] == items;
  }

  lemma FirstKeysStep(items: seq<(string, string)>, key: string, value: string)
    ensures FirstKeys(items + [(key, value)]) == if key in FirstKeys(items) then FirstKeys(items) else FirstKeys(items) + [key]
  {
    var after := items + [(key, value)];
    assert after[..|after| - 1] == items;
  }

  lemma ParamsDictUnique(items: seq<(string, string)>)
    ensures UniqueKeys(ParamsDict(items))
  {
    FirstKeysDistinct(items);
  }

  lemma ParamsDictAt(items: seq<(string, string)>, j: nat)
    requires j < |FirstKeys(items)|
    ensures |ParamsDict(items)| == |FirstKeys(items)|
    ensures ParamsDict(items)[j] == (FirstKeys(items)[j], Grouped(ValuesFor(items, FirstKeys(items)[j])))
  {
  }

  /** One entry of the dict after one more pair: the entry of a key other than
      `key` does not change. */
  lemma ParamsDictStepAt(items: seq<(string, string)>, key: string, value: string, j: nat)
    requires j < |FirstKeys(items)|
    requires FirstKeys(items)[j] != key
    ensures j < |FirstKeys(items + [(key, value)])|
    ensures ParamsDict(items + [(key, value)])[j] == ParamsDict(items)[j]
  {
    var after := items + [(key, value)];
    var ks := FirstKeys(items);
    var k := ks[j];
    FirstKeysStep(items, key, value);
    assert FirstKeys(after)[j] == k;
    ParamsDictAt(items, j);
    ParamsDictAt(after, j);
    ValuesForStep(items, key, value, k);
    assert ValuesFor(after, k) == ValuesFor(items, k);
  }

  lemma ParamsDictStepNew(items: seq<(string, string)>, key: string, value: string)
    requires key !in FirstKeys(items)
    ensures ParamsDict(items + [(key, value)]) == Put(ParamsDict(items), key, Single(Text(value)))
  {
    var after := items + [(key, value)];
    var d := ParamsDict(items);
    var d' := ParamsDict(after);
    FirstKeysStep(items, key, value);
    forall j | 0 <= j < |d|
      ensures d'[j] == d[j]
    {
      ParamsDictStepAt(items, key, value, j);
    }
    FirstKeysValues(items, key);
    ValuesForStep(items, key, value, key);
    ParamsDictAt(after, |d|);
    SnocEqual(d', d, (key, Single(Text(value))));
    PutNew(d, key, Single(Text(value)));
  }

  /** A sequence one longer than `s` that agrees with `s` and ends in `x` is `s + [x]`. */
  lemma SnocEqual<T>(t: seq<T>, s: seq<T>, x: T)
    requires |t| == |s| + 1 && t[|s|] == x
    requires forall j :: 0 <= j < |s| ==> t[j] == s[j]
    ensures t == s + [x]
  {
  }

  /** `d[k] = v` for a new key appends the entry. */
  lemma PutNew(d: Dict, k: string, v: Param)
    requires k !in Keys(d)
    ensures Put(d, k, v) == d + [(k, v)]
  {
  }

  lemma ParamsDictLookup(items: seq<(string, string)>, key: string)
    requires key in FirstKeys(items)
    ensures Lookup(ParamsDict(items), key) == Some(Grouped(ValuesFor(items, key)))
  {
    var ks := FirstKeys(items);
    var i :| 0 <= i < |ks| && ks[i] == key;
    ParamsDictAt(items, i);
    ParamsDictUnique(items);
  }

  lemma GroupedStep(items: seq<(string, string)>, key: string, value: string)
    ensures ValuesFor(items, key) != [] ==>
      Grouped(ValuesFor(items + [(key, value)], key)) == Appended(Grouped(ValuesFor(items, key)), value)
  {
    ValuesForStep(items, key, value, key);
    var vs := ValuesFor(items, key);
    if vs != [] {
      assert Texts(vs + [value]) == Texts(vs) + [Text(value)];
    }
  }

  lemma ParamsDictStepRepeat(items: seq<(string, string)>, key: string, value: string)
    requires key in FirstKeys(items)
    ensures ParamsDict(items + [(key, value)]) == Put(ParamsDict(items), key, Appended(Grouped(ValuesFor(items, key)), value))
  {
    var after := items + [(key, value)];
    var ks := FirstKeys(items);
    var d := ParamsDict(items);
    var d' := ParamsDict(after);
    var p := Appended(Grouped(ValuesFor(items, key)), value);
    var r := Put(d, key, p);
    FirstKeysStep(items, key, value);
    assert FirstKeys(after) == ks;
    assert |d'| == |r| == |ks|;
    forall j | 0 <= j < |ks|
      ensures d'[j] == r[j]
    {
      ParamsDictAt(items, j);
      if ks[j] == key {
        FirstKeysValues(items, key);
        GroupedStep(items, key, value);
        ParamsDictAt(after, j);
      } else {
        ParamsDictStepAt(items, key, value, j);
      }
    }
  }

  /** The value a repeated key ends up with: a scalar becomes a two-element list,
      a list grows by one. */
  function Appended(p: Param, value: string): Param
  {
    match p
    case Single(first) => Many([first, Text(value)])
    case Many(vs) => Many(vs + [Text(value)])
  }

  /** `_convert_query_params_to_dict(request)` over `request.query_params.multi_items()`. */
  method ConvertQueryParams(items: seq<(string, string)>) returns (d: Dict)
    ensures d == ParamsDict(items)
  {
    d := [];
    var n := 0;
    while n < |items|
      invariant 0 <= n <= |items|
      invariant d == ParamsDict(items[..n])
    {
      var (key, value) := items[n];
      assert items[..n + 1] == items[..n] + [(key, value)];
      if key in FirstKeys(items[..n]) {
        ParamsDictLookup(items[..n], key);
        ParamsDictStepRepeat(items[..n], key, value);
      } else {
        ParamsDictStepNew(items[..n], key, value);
      }
      var found := Lookup(d, key);
      if found.Some? {
        var current := found.value;
        if current.Many? {
          d := Put(d, key, Many(current.values + [Text(value)]));
        } else {
          d := Put(d, key, Many([current.value, Text(value)]));
        }
      } else {
        d := Put(d, key, Single(Text(value)));
      }
      n := n + 1;
    }
    assert items[..n] == items;
  }

  // ---------------------------------------------------------- urlencoding

  /** One `key=value` pair: the key keeps `/`, the value escapes it. */
  function Pair(k: string, v: Scalar): string
  {
    Quote(k, true) + "=" + Quote(StrOf(v), false)
  }

  /** The pairs of one dict entry: one per list element. */
  function EntryPairs(k: string, p: Param): (r: seq<string>)
    ensures p.Single? ==> r == [Pair(k, p.value)]
    ensures p.Many? ==> |r| == |p.values| && forall i :: 0 <= i < |r| ==> r[i] == Pair(k, p.values[i])
  {
    match p
    case Single(v) => [Pair(k, v)]
    case Many(vs) => seq(|vs|, i requires 0 <= i < |vs| => Pair(k, vs[i]))
  }

  /** All pairs of a dict, in dict order. */
  function EncodedPairs(d: Dict): seq<string>
  {
    if d == [] then [] else EncodedPairs(d[..|d| - 1]) + EntryPairs(d[|d| - 1].0, d[|d| - 1].1)
  }

  /** `custom_urlencode(params)`. */
  method CustomUrlencode(d: Dict) returns (r: string)
    ensures r == Join(EncodedPairs(d), "&")
  {
    var encoded: seq<string> := [];
    var n := 0;
    while n < |d|
      invariant 0 <= n <= |d|
      invariant encoded == EncodedPairs(d[..n])
    {
      assert d[..n + 1][..n] == d[..n];
      encoded := AppendEntry(encoded, d[n].0, d[n].1);
      n := n + 1;
    }
    assert d[..n] == d;
    r := Join(encoded, "&");
  }

  /** One turn of the loop of `custom_urlencode`: the pairs of one entry are appended. */
  method AppendEntry(encoded: seq<string>, key: string, value: Param) returns (r: seq<string>)
    ensures r == encoded + EntryPairs(key, value)
  {
    r := encoded;
    match value {
      case Single(v) =>
        r := r + [Pair(key, v)];
      case Many(vs) =>
        var j := 0;
        while j < |vs|
          invariant 0 <= j <= |vs|
          invariant r == encoded + EntryPairs(key, value)[..j]
        {
          r := r + [Pair(key, vs[j])];
          assert EntryPairs(key, value)[..j + 1] == EntryPairs(key, value)[..j] + [Pair(key, vs[j])];
          j := j + 1;
        }
        assert EntryPairs(key, value)[..j] == EntryPairs(key, value);
    }
  }

  /** The (key, value) byte strings one dict entry is meant to transmit. */
  function EntryDecoded(k: string, p: Param): seq<(seq<byte>, seq<byte>)>
  {
    match p
    case Single(v) => [(Utf8(k), Utf8(StrOf(v)))]
    case Many(vs) => seq(|vs|, i requires 0 <= i < |vs| => (Utf8(k), Utf8(StrOf(vs[i]))))
  }

  /** The decoded (key, value) byte strings a dict is meant to transmit. */
  function DecodedPairs(d: Dict): seq<(seq<byte>, seq<byte>)>
  {
    if d == [] then [] else DecodedPairs(d[..|d| - 1]) + EntryDecoded(d[|d| - 1].0, d[|d| - 1].1)
  }

  /** Parses a query string: `&`-separated `key=value` pairs, each side percent-decoded. */
  function ParseQuery(q: string): Option<seq<(seq<byte>, seq<byte>)>>
  {
    if q == "" then Some([]) else ParsePairs(Split(q, '&'))
  }

  /** One `key=value` part: both sides decoded, or nothing when the part has
      no `=`, more than one, or a side that does not decode. */
  function ParsePart(part: string): Option<(seq<byte>, seq<byte>)>
  {
    var kv := Split(part, '=');
    if |kv| != 2 then None
    else
      match (PercentDecode(kv[0]), PercentDecode(kv[1]))
      case (Some(k), Some(v)) => Some((k, v))
      case _ => None
  }

  /** Every part parsed, in order; one part that does not parse rejects them all. */
  function ParsePairs(parts: seq<string>): Option<seq<(seq<byte>, seq<byte>)>>
  {
    if parts == [] then Some([])
    else
      match (ParsePairs(parts[..|parts| - 1]), ParsePart(parts[|parts| - 1]))
      case (Some(init), Some(pair)) => Some(init + [pair])
      case _ => None
  }

  lemma {:induction false} ParsePairsAppend(xs: seq<string>, ys: seq<string>, a: seq<(seq<byte>, seq<byte>)>, b: seq<(seq<byte>, seq<byte>)>)
    requires ParsePairs(xs) == Some(a) && ParsePairs(ys) == Some(b)
    ensures ParsePairs(xs + ys) == Some(a + b)
  {
    if ys == [] {
      assert xs + ys == xs;
      assert a + b == a;
    } else {
      var zs := xs + ys;
      var b0 := ParsePairs(ys[..|ys| - 1]).value;
      var pair := ParsePart(ys[|ys| - 1]).value;
      assert b == b0 + [pair];
      ParsePairsAppend(xs, ys[..|ys| - 1], a, b0);
      assert zs[..|zs| - 1] == xs + ys[..|ys| - 1];
      assert zs[|zs| - 1] == ys[|ys| - 1];
      assert a + b == (a + b0) + [pair];
    }
  }

  lemma PairChars(k: string, v: Scalar)
    ensures '&' !in Pair(k, v) && Pair(k, v) != []
  {
    QuoteChars(k, true);
    QuoteChars(StrOf(v), false);
    assert Pair(k, v)[|Quote(k, true)|] == '=';
  }

  lemma ParsePair(k: string, v: Scalar)
    ensures ParsePairs([Pair(k, v)]) == Some([(Utf8(k), Utf8(StrOf(v)))])
  {
    ParsePartPair(k, v);
    var parts := [Pair(k, v)];
    assert parts[..|parts| - 1] == [];
    var e: seq<(seq<byte>, seq<byte>)> := [];
    assert e + [(Utf8(k), Utf8(StrOf(v)))] == [(Utf8(k), Utf8(StrOf(v)))];
  }

  /** An encoded pair decodes to the UTF-8 bytes of its key and its value. */
  lemma ParsePartPair(k: string, v: Scalar)
    ensures ParsePart(Pair(k, v)) == Some((Utf8(k), Utf8(StrOf(v))))
  {
    var qk := Quote(k, true);
    var qv := Quote(StrOf(v), false);
    QuoteChars(k, true);
    QuoteChars(StrOf(v), false);
    SplitAtSeparator(qk, '=', qv);
    SplitNoSeparator(qv, '=');
    assert Pair(k, v) == qk + ['='] + qv;
    var kv := Split(Pair(k, v), '=');
    assert kv == [qk, qv];
    QuoteRoundTrip(k, true);
    QuoteRoundTrip(StrOf(v), false);
    assert PercentDecode(kv[0]) == Some(Utf8(k));
    assert PercentDecode(kv[1]) == Some(Utf8(StrOf(v)));
  }

  lemma {:induction false} ParseEntryPrefix(k: string, vs: seq<Scalar>, j: nat)
    requires j <= |vs|
    ensures ParsePairs(EntryPairs(k, Many(vs))[..j]) == Some(EntryDecoded(k, Many(vs))[..j])
  {
    if j > 0 {
      var pairs := EntryPairs(k, Many(vs));
      var decoded := EntryDecoded(k, Many(vs));
      ParseEntryPrefix(k, vs, j - 1);
      ParsePair(k, vs[j - 1]);
      TakeSnoc(pairs, j);
      TakeSnoc(decoded, j);
      assert pairs[j - 1] == Pair(k, vs[j - 1]);
      assert decoded[j - 1] == (Utf8(k), Utf8(StrOf(vs[j - 1])));
      ParsePairsAppend(pairs[..j - 1], [pairs[j - 1]], decoded[..j - 1], [decoded[j - 1]]);
    }
  }


  lemma ParseEntry(k: string, p: Param)
    ensures ParsePairs(EntryPairs(k, p)) == Some(EntryDecoded(k, p))
  {
    if p.Single? {
      ParsePair(k, p.value);
    } else {
      ParseEntryPrefix(k, p.values, |p.values|);
      assert EntryPairs(k, p)[..|p.values|] == EntryPairs(k, p);
      assert EntryDecoded(k, p)[..|p.values|] == EntryDecoded(k, p);
    }
  }

  lemma {:induction false} EncodedPairsChars(d: Dict)
    ensures forall i :: 0 <= i < |EncodedPairs(d)| ==> '&' !in EncodedPairs(d)[i] && EncodedPairs(d)[i] != []
  {
    if d != [] {
      var init := d[..|d| - 1];
      var (k, p) := d[|d| - 1];
      EncodedPairsChars(init);
      var xs := EncodedPairs(init);
      var ys := EntryPairs(k, p);
      forall i | 0 <= i < |xs + ys|
        ensures '&' !in (xs + ys)[i] && (xs + ys)[i] != []
      {
        if i >= |xs| {
          var v := if p.Single? then p.value else p.values[i - |xs|];
          assert (xs + ys)[i] == Pair(k, v);
          PairChars(k, v);
        }
      }
    }
  }

  lemma {:induction false} ParseEncodedPairs(d: Dict)
    ensures ParsePairs(EncodedPairs(d)) == Some(DecodedPairs(d))
  {
    if d != [] {
      var init := d[..|d| - 1];
      var (k, p) := d[|d| - 1];
      ParseEncodedPairs(init);
      ParseEntry(k, p);
      ParsePairsAppend(EncodedPairs(init), EntryPairs(k, p), DecodedPairs(init), EntryDecoded(k, p));
    }
  }

  /** Parsing what `custom_urlencode` writes gives back every pair, in order: the
      encoding is unambiguous because `&` and `=` inside keys and values are escaped. */
  lemma UrlencodeRoundTrip(d: Dict)
    ensures ParseQuery(Join(EncodedPairs(d), "&")) == Some(DecodedPairs(d))
  {
    var parts := EncodedPairs(d);
    ParseEncodedPairs(d);
    EncodedPairsChars(d);
    if parts != [] {
      SplitJoin(parts, '&');
      JoinNonEmpty(parts);
    }
  }

  lemma JoinNonEmpty(parts: seq<string>)
    requires parts != [] && parts[0] != []
    ensures Join(parts, "&") != ""
  {
    assert Join(parts, "&")[..|parts[0]|] == parts[0];
  }

  // ------------------------------------------------------ next-page links

  datatype Url = Url(scheme: string, netloc: string, path: string)

  /** The dict `_generate_next_page_url` encodes: the request's parameters with
      `current_page` and `per_page` set. */
  function NextPageParams(items: seq<(string, string)>, currentPage: int, perPage: int): Dict
  {
    Put(Put(ParamsDict(items), "current_page", Single(Int(currentPage + 1))), "per_page", Single(Int(perPage)))
  }

  /** `_generate_next_page_url(request=..., current_page=..., per_page=...)`. */
  method NextPageUrl(url: Url, items: seq<(string, string)>, currentPage: int, perPage: int) returns (r: string)
    ensures r == url.scheme + "://" + url.netloc + url.path + "?" +
      Join(EncodedPairs(NextPageParams(items, currentPage, perPage)), "&")
  {
    var params := ConvertQueryParams(items);
    params := Put(params, "current_page", Single(Int(currentPage + 1)));
    params := Put(params, "per_page", Single(Int(perPage)));
    var query := CustomUrlencode(params);
    r := url.scheme + "://" + url.netloc + url.path + "?" + query;
  }

  /** The next-page dict holds the new page and page size, keeps every other
      parameter with its values, and never repeats a key: pagination keys the
      request already had keep their place. */
  lemma NextPageParamsSpec(items: seq<(string, string)>, currentPage: int, perPage: int)
    ensures UniqueKeys(NextPageParams(items, currentPage, perPage))
    ensures Lookup(NextPageParams(items, currentPage, perPage), "current_page") == Some(Single(Int(currentPage + 1)))
    ensures Lookup(NextPageParams(items, currentPage, perPage), "per_page") == Some(Single(Int(perPage)))
    ensures forall k :: k != "current_page" && k != "per_page" ==>
      Lookup(NextPageParams(items, currentPage, perPage), k) == Lookup(ParamsDict(items), k)
    ensures |NextPageParams(items, currentPage, perPage)| ==
      |FirstKeys(items)| + (if "current_page" in FirstKeys(items) then 0 else 1) + (if "per_page" in FirstKeys(items) then 0 else 1)
  {
    var d0 := ParamsDict(items);
    ParamsDictUnique(items);
    var d1 := Put(d0, "current_page", Single(Int(currentPage + 1)));
    PutUnique(d0, "current_page", Single(Int(currentPage + 1)));
    PutUnique(d1, "per_page", Single(Int(perPage)));
    assert "per_page" in Keys(d1) <==> "per_page" in Keys(d0);
  }

  /** Each parameter of the request is one key of the dict, holding all its values in order. */
  lemma ParamsDictValues(items: seq<(string, string)>, k: string)
    ensures ValuesFor(items, k) == [] ==> Lookup(ParamsDict(items), k).None?
    ensures |ValuesFor(items, k)| == 1 ==> Lookup(ParamsDict(items), k) == Some(Single(Text(ValuesFor(items, k)[0])))
    ensures |ValuesFor(items, k)| > 1 ==>
      Lookup(ParamsDict(items), k).Some? && Lookup(ParamsDict(items), k).value.Many? &&
      |Lookup(ParamsDict(items), k).value.values| == |ValuesFor(items, k)| &&
      (forall i :: 0 <= i < |ValuesFor(items, k)| ==>
         Lookup(ParamsDict(items), k).value.values[i] == Text(ValuesFor(items, k)[i]))
  {
    var d := ParamsDict(items);
    var ks := FirstKeys(items);
    FirstKeysValues(items, k);
    ParamsDictUnique(items);
    if ValuesFor(items, k) != [] {
      var i :| 0 <= i < |ks| && ks[i] == k;
      ParamsDictAt(items, i);
    }
  }
}
