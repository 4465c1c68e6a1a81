/** `request_key_builder`: the response-cache key of a request. Keys and
    repeated values are sorted before the dict is printed, so the key does not
    depend on the order of the query string. */
module Cache {
  import opened Base
  import opened Strings
  import opened Order
  import opened QueryString
  import opened Repr

  const CacheNamespace := "offsets-db"

  /** `repr` of one value of the request's dict. */
  function ReprScalar(v: Scalar): string
  {
    match v
    case Text(s) => ReprText(s)
    case Int(i) => IntToString(i)
    case Bool(b) => if b then "True" else "False"
    case NoneValue => "None"
  }

  function ReprScalars(vs: seq<Scalar>): seq<string>
  {
    seq(|vs|, i requires 0 <= i < |vs| => ReprScalar(vs[i]))
  }

  function ReprParam(p: Param): string
  {
    match p
    case Single(v) => ReprScalar(v)
    case Many(vs) => "[" + Join(ReprScalars(vs), ", ") + "]"
  }

  function ReprEntries(d: Dict): seq<string>
  {
    seq(|d|, i requires 0 <= i < |d| => ReprText(d[i].0) + ": " + ReprParam(d[i].1))
  }

  /** `repr(d)` of a dict: `{k: v, …}` in insertion order. */
  function ReprDict(d: Dict): string
  {
    "{" + Join(ReprEntries(d), ", ") + "}"
  }

  function TextsOf(vs: seq<Scalar>): (r: seq<string>)
    ensures |r| == |vs|
  {
    seq(|vs|, i requires 0 <= i < |vs| => StrOf(vs[i]))
  }

  /** `sorted(v) if isinstance(v, list) else v`; the request's values are text. */
  function SortParam(p: Param): Param
  {
    match p
    case Single(_) => p
    case Many(vs) => Many(Texts(SortStrings(TextsOf(vs))))
  }

  /** `{key: … for key in sorted(params)}`. */
  function SortedParams(d: Dict): Dict
  {
    var ks := SortStrings(Keys(d));
    seq(|ks|, i requires 0 <= i < |ks| =>
      (ks[i], match Lookup(d, ks[i]) case Some(p) => SortParam(p) case None => Single(NoneValue)))
  }

  /** `request_key_builder(func, namespace, request=…)`: `items` are the query
      parameters in the order the request gives them. */
  function RequestKey(namespace: string, verb: string, path: string, items: seq<(string, string)>): string
  {
    Join([namespace, Lower(verb), path, ReprDict(SortedParams(ParamsDict(items)))], ":")
  }

  /** The key starts with the namespace, then the lower-cased method, then the path. */
  lemma RequestKeyShape(namespace: string, verb: string, path: string, items: seq<(string, string)>)
    ensures RequestKey(namespace, verb, path, items) ==
      namespace + ":" + Lower(verb) + ":" + path + ":" + ReprDict(SortedParams(ParamsDict(items)))
  {
    JoinFour(namespace, Lower(verb), path, ReprDict(SortedParams(ParamsDict(items))), ":");
  }

  lemma JoinFour(a: string, b: string, c: string, d: string, sep: string)
    ensures Join([a, b, c, d], sep) == a + sep + b + sep + c + sep + d
  {
    var parts := [a, b, c, d];
    assert parts[1..] == [b, c, d];
    assert parts[1..][1..] == [c, d];
    assert parts[1..][1..][1..] == [d];
    assert Join([c, d], sep) == c + sep + d;
    assert Join([b, c, d], sep) == b + sep + (c + sep + d);
    assert Join(parts, sep) == a + sep + (b + sep + (c + sep + d));
  }

  // ------------------------------------------------ order does not matter

  lemma {:induction false} ValuesForCount(items: seq<(string, string)>, k: string, v: string)
    ensures multiset(ValuesFor(items, k))[v] == multiset(items)[(k, v)]
  {
    if items != [] {
      var init, last := items[..|items| - 1], items[|items| - 1];
      var extra := if last.0 == k then [last.1] else [];
      ValuesForCount(init, k, v);
      assert ValuesFor(items, k) == ValuesFor(init, k) + extra;
      assert multiset(ValuesFor(items, k)) == multiset(ValuesFor(init, k)) + multiset(extra);
      assert items == init + [last];
      assert multiset(items) == multiset(init) + multiset{last};
      assert multiset(extra)[v] == multiset{last}[(k, v)];
    }
  }

  /** Requests listing the same parameters give each key the same values, up to order. */
  lemma ValuesForPermutation(a: seq<(string, string)>, b: seq<(string, string)>, k: string)
    requires multiset(a) == multiset(b)
    ensures multiset(ValuesFor(a, k)) == multiset(ValuesFor(b, k))
  {
    forall v ensures multiset(ValuesFor(a, k))[v] == multiset(ValuesFor(b, k))[v] {
      ValuesForCount(a, k, v);
      ValuesForCount(b, k, v);
    }
  }

  lemma {:induction false} DistinctCount(s: seq<string>, x: string)
    requires Distinct(s)
    ensures multiset(s)[x] == if x in s then 1 else 0
  {
    if s != [] {
      var init := s[..|s| - 1];
      assert Distinct(init);
      DistinctCount(init, x);
      assert s == init + [s[|s| - 1]];
      assert s[|s| - 1] !in init;
    }
  }

  lemma FirstKeysPermutation(a: seq<(string, string)>, b: seq<(string, string)>)
    requires multiset(a) == multiset(b)
    ensures multiset(FirstKeys(a)) == multiset(FirstKeys(b))
  {
    FirstKeysDistinct(a);
    FirstKeysDistinct(b);
    forall k ensures multiset(FirstKeys(a))[k] == multiset(FirstKeys(b))[k] {
      FirstKeysValues(a, k);
      FirstKeysValues(b, k);
      ValuesForPermutation(a, b, k);
      assert ValuesFor(a, k) == [] <==> multiset(ValuesFor(a, k)) == multiset{};
      assert ValuesFor(b, k) == [] <==> multiset(ValuesFor(b, k)) == multiset{};
      DistinctCount(FirstKeys(a), k);
      DistinctCount(FirstKeys(b), k);
    }
  }

  lemma TextsOfTexts(vs: seq<string>)
    ensures TextsOf(Texts(vs)) == vs
  {
  }

  lemma SameLength(va: seq<string>, vb: seq<string>)
    requires multiset(va) == multiset(vb)
    ensures |va| == |vb|
    ensures |va| == 1 ==> va == vb
  {
    assert |multiset(va)| == |multiset(vb)|;
    if |va| == 1 {
      assert va[0] in multiset(vb);
      assert vb == [vb[0]];
    }
  }

  /** Lists of the same values, in any order, sort to the same list. */
  lemma SortedValues(va: seq<string>, vb: seq<string>)
    requires multiset(va) == multiset(vb)
    ensures SortParam(Many(Texts(va))) == SortParam(Many(Texts(vb)))
  {
    TextsOfTexts(va);
    TextsOfTexts(vb);
    StrLeTotalOrder();
    SortPermutationInvariant(va, vb, StrLe);
  }

  /** The sorted form of a key's entry depends only on the multiset of its values. */
  lemma SortedEntry(a: seq<(string, string)>, b: seq<(string, string)>, k: string)
    requires multiset(a) == multiset(b)
    ensures Lookup(ParamsDict(a), k).Some? <==> Lookup(ParamsDict(b), k).Some?
    ensures Lookup(ParamsDict(a), k).Some? ==>
      SortParam(Lookup(ParamsDict(a), k).value) == SortParam(Lookup(ParamsDict(b), k).value)
  {
    var va, vb := ValuesFor(a, k), ValuesFor(b, k);
    ValuesForPermutation(a, b, k);
    SameLength(va, vb);
    ParamsDictValues(a, k);
    ParamsDictValues(b, k);
    if |va| > 1 {
      LookupMany(a, k);
      LookupMany(b, k);
      SortedValues(va, vb);
    }
  }

  lemma LookupMany(items: seq<(string, string)>, k: string)
    requires |ValuesFor(items, k)| > 1
    ensures Lookup(ParamsDict(items), k) == Some(Many(Texts(ValuesFor(items, k))))
  {
    ParamsDictValues(items, k);
    var p := Lookup(ParamsDict(items), k).value;
    assert p.values == Texts(ValuesFor(items, k));
  }

  /** Reordering the query string (distinct keys, or the values of a repeated
      key) does not change the cache key. */
  lemma RequestKeyPermutation(namespace: string, verb: string, path: string,
                              a: seq<(string, string)>, b: seq<(string, string)>)
    requires multiset(a) == multiset(b)
    ensures RequestKey(namespace, verb, path, a) == RequestKey(namespace, verb, path, b)
  {
    var da, db := ParamsDict(a), ParamsDict(b);
    FirstKeysPermutation(a, b);
    StrLeTotalOrder();
    SortPermutationInvariant(Keys(da), Keys(db), StrLe);
    var ks := SortStrings(Keys(da));
    assert ks == SortStrings(Keys(db));
    var sa, sb := SortedParams(da), SortedParams(db);
    forall i | 0 <= i < |ks| ensures sa[i] == sb[i] {
      SortedEntry(a, b, ks[i]);
    }
    assert sa == sb;
  }

  // ------------------------------------------------ reading the key back

  /** A value a request can give: a text, or a list of texts. */
  predicate TextParam(p: Param)
  {
    match p
    case Single(v) => v.Text?
    case Many(vs) => forall j :: 0 <= j < |vs| ==> vs[j].Text?
  }

  predicate TextDict(d: Dict)
  {
    forall i :: 0 <= i < |d| ==> TextParam(d[i].1)
  }

  /** The items of a printed list after its `[`: text literals separated by
      `, ` up to the closing `]`. */
  function ReadItems(s: string): (r: Option<(seq<Scalar>, string)>)
    ensures r.Some? ==> |r.value.1| < |s|
    decreases |s|
  {
    match ReadText(s)
    case None => None
    case Some(x) =>
      if |x.1| >= 2 && x.1[..2] == ", " then
        match ReadItems(x.1[2..])
        case None => None
        case Some(r) => Some(([Text(x.0)] + r.0, r.1))
      else if x.1 != [] && x.1[0] == ']' then Some(([Text(x.0)], x.1[1..]))
      else None
  }

  /** A printed value: a text literal, or a list of them. */
  function ReadParam(s: string): (r: Option<(Param, string)>)
    ensures r.Some? ==> |r.value.1| < |s|
  {
    if s != [] && s[0] == '[' then
      if |s| >= 2 && s[1] == ']' then Some((Many([]), s[2..]))
      else
        match ReadItems(s[1..])
        case None => None
        case Some(r) => Some((Many(r.0), r.1))
    else
      match ReadText(s)
      case None => None
      case Some(x) => Some((Single(Text(x.0)), x.1))
  }

  /** One printed entry: a key literal, `: ` and a value. */
  function ReadEntry(s: string): (r: Option<((string, Param), string)>)
    ensures r.Some? ==> |r.value.1| < |s|
  {
    match ReadText(s)
    case None => None
    case Some(k) =>
      if |k.1| >= 2 && k.1[..2] == ": " then
        match ReadParam(k.1[2..])
        case None => None
        case Some(v) => Some(((k.0, v.0), v.1))
      else None
  }

  /** The entries of a printed dict after its `{`: entries separated by `, `
      up to the closing `}`. */
  function ReadEntries(s: string): (r: Option<(Dict, string)>)
    ensures r.Some? ==> |r.value.1| < |s|
    decreases |s|
  {
    match ReadEntry(s)
    case None => None
    case Some(x) =>
      if |x.1| >= 2 && x.1[..2] == ", " then
        match ReadEntries(x.1[2..])
        case None => None
        case Some(r) => Some(([x.0] + r.0, r.1))
      else if x.1 != [] && x.1[0] == '}' then Some(([x.0], x.1[1..]))
      else None
  }

  /** A printed dict at the start of `s`: the dict and what follows it. */
  function ReadDict(s: string): Option<(Dict, string)>
  {
    if |s| >= 2 && s[0] == '{' && s[1] == '}' then Some(([], s[2..]))
    else if s != [] && s[0] == '{' then ReadEntries(s[1..])
    else None
  }

  /** A printed text starts with its quote. */
  lemma ReprTextStart(x: string, rest: string)
    ensures (ReprText(x) + rest)[0] == '\'' || (ReprText(x) + rest)[0] == '"'
  {
  }

  lemma JoinStart(parts: seq<string>, sep: string, rest: string)
    requires parts != [] && parts[0] != []
    ensures (Join(parts, sep) + rest)[0] == parts[0][0]
  {
  }

  /** `sep.join(parts)` followed by `t`: the first part, then `t` or `sep`
      and the other parts. */
  lemma JoinFirst(parts: seq<string>, sep: string, t: string)
    requires parts != []
    ensures |parts| == 1 ==> Join(parts, sep) + t == parts[0] + t
    ensures |parts| > 1 ==> Join(parts, sep) + t == parts[0] + (sep + (Join(parts[1..], sep) + t))
  {
  }

  lemma ReadItemsLast(s: string, x: string, rest: string)
    requires ReadText(s) == Some((x, "]" + rest))
    ensures ReadItems(s) == Some(([Text(x)], rest))
  {
    var close := "]" + rest;
    assert close[0] == ']' && close[1..] == rest;
    assert !(|close| >= 2 && close[..2] == ", ");
  }

  lemma ReadItemsNext(s: string, x: string, tail: string, vs: seq<Scalar>, rest: string)
    requires ReadText(s) == Some((x, ", " + tail))
    requires ReadItems(tail) == Some((vs, rest))
    ensures ReadItems(s) == Some(([Text(x)] + vs, rest))
  {
    assert (", " + tail)[..2] == ", " && (", " + tail)[2..] == tail;
  }

  lemma {:induction false} ReadItemsRoundTrip(vs: seq<Scalar>, rest: string)
    requires vs != [] && forall j :: 0 <= j < |vs| ==> vs[j].Text?
    ensures ReadItems(Join(ReprScalars(vs), ", ") + "]" + rest) == Some((vs, rest))
  {
    var parts := ReprScalars(vs);
    var head := vs[0].text;
    var s := Join(parts, ", ") + "]" + rest;
    assert parts[0] == ReprText(head);
    JoinFirst(parts, ", ", "]" + rest);
    assert s == Join(parts, ", ") + ("]" + rest);
    if |vs| == 1 {
      ReprTextRoundTrip(head, "]" + rest);
      ReadItemsLast(s, head, rest);
      assert [Text(head)] == vs;
    } else {
      var tail := Join(ReprScalars(vs[1..]), ", ") + "]" + rest;
      assert parts[1..] == ReprScalars(vs[1..]);
      assert Join(parts[1..], ", ") + ("]" + rest) == tail;
      ReprTextRoundTrip(head, ", " + tail);
      ReadItemsRoundTrip(vs[1..], rest);
      ReadItemsNext(s, head, tail, vs[1..], rest);
      assert [Text(head)] + vs[1..] == vs;
    }
  }

  lemma ReadParamRoundTrip(p: Param, rest: string)
    requires TextParam(p)
    ensures ReadParam(ReprParam(p) + rest) == Some((p, rest))
  {
    match p
    case Single(v) =>
      ReprTextStart(v.text, rest);
      ReprTextRoundTrip(v.text, rest);
    case Many(vs) =>
      if vs == [] {
        assert ReprParam(p) + rest == "[]" + rest;
      } else {
        ReadListRoundTrip(vs, rest);
      }
  }

  lemma ReadListRoundTrip(vs: seq<Scalar>, rest: string)
    requires vs != [] && forall j :: 0 <= j < |vs| ==> vs[j].Text?
    ensures ReadParam(ReprParam(Many(vs)) + rest) == Some((Many(vs), rest))
  {
    var items := Join(ReprScalars(vs), ", ") + "]" + rest;
    assert ReprParam(Many(vs)) + rest == "[" + items;
    ReprScalarsStart(vs, rest);
    ReadItemsRoundTrip(vs, rest);
    ReadParamOpen(items, vs, rest);
  }

  /** A printed list of texts starts with the first text's quote. */
  lemma ReprScalarsStart(vs: seq<Scalar>, rest: string)
    requires vs != [] && vs[0].Text?
    ensures var items := Join(ReprScalars(vs), ", ") + "]" + rest; items != [] && items[0] != ']'
  {
    ReprTextStart(vs[0].text, []);
    JoinStart(ReprScalars(vs), ", ", "]" + rest);
  }

  lemma ReadParamOpen(items: string, vs: seq<Scalar>, rest: string)
    requires items != [] && items[0] != ']'
    requires ReadItems(items) == Some((vs, rest))
    ensures ReadParam("[" + items) == Some((Many(vs), rest))
  {
    assert ("[" + items)[1] == items[0] && ("[" + items)[1..] == items;
  }

  lemma ReadEntryRoundTrip(k: string, p: Param, t: string)
    requires TextParam(p)
    ensures ReadEntry(ReprText(k) + ": " + ReprParam(p) + t) == Some(((k, p), t))
  {
    var after := ": " + (ReprParam(p) + t);
    assert ReprText(k) + ": " + ReprParam(p) + t == ReprText(k) + after;
    ReprTextRoundTrip(k, after);
    assert after[..2] == ": " && after[2..] == ReprParam(p) + t;
    ReadParamRoundTrip(p, t);
  }

  /** The printed entries of a dict: the first one, then the rest after `, `. */
  lemma JoinEntries(d: Dict, rest: string)
    requires d != []
    ensures |d| == 1 ==>
      Join(ReprEntries(d), ", ") + "}" + rest == ReprText(d[0].0) + ": " + ReprParam(d[0].1) + ("}" + rest)
    ensures |d| > 1 ==>
      Join(ReprEntries(d), ", ") + "}" + rest ==
      ReprText(d[0].0) + ": " + ReprParam(d[0].1) + (", " + (Join(ReprEntries(d[1..]), ", ") + "}" + rest))
  {
    var entries := ReprEntries(d);
    assert entries[0] == ReprText(d[0].0) + ": " + ReprParam(d[0].1);
    JoinFirst(entries, ", ", "}" + rest);
    assert Join(entries, ", ") + "}" + rest == Join(entries, ", ") + ("}" + rest);
    if |d| > 1 {
      assert entries[1..] == ReprEntries(d[1..]);
      assert Join(entries[1..], ", ") + ("}" + rest) == Join(ReprEntries(d[1..]), ", ") + "}" + rest;
    }
  }

  lemma ReadEntriesLast(s: string, x: (string, Param), rest: string)
    requires ReadEntry(s) == Some((x, "}" + rest))
    ensures ReadEntries(s) == Some(([x], rest))
  {
    var close := "}" + rest;
    assert close[0] == '}' && close[1..] == rest;
    assert !(|close| >= 2 && close[..2] == ", ");
  }

  lemma ReadEntriesNext(s: string, x: (string, Param), tail: string, d: Dict, rest: string)
    requires ReadEntry(s) == Some((x, ", " + tail))
    requires ReadEntries(tail) == Some((d, rest))
    ensures ReadEntries(s) == Some(([x] + d, rest))
  {
    assert (", " + tail)[..2] == ", " && (", " + tail)[2..] == tail;
  }

  /** A dict of one entry reads back. */
  lemma ReadOneEntry(d: Dict, rest: string)
    requires |d| == 1 && TextParam(d[0].1)
    ensures ReadEntries(Join(ReprEntries(d), ", ") + "}" + rest) == Some((d, rest))
  {
    var s := Join(ReprEntries(d), ", ") + "}" + rest;
    JoinEntries(d, rest);
    ReadEntryRoundTrip(d[0].0, d[0].1, "}" + rest);
    ReadEntriesLast(s, d[0], rest);
    assert [d[0]] == d;
  }

  /** The first entry reads back, then the others after `, `. */
  lemma ReadEntriesStep(d: Dict, rest: string)
    requires |d| > 1 && TextParam(d[0].1)
    requires ReadEntries(Join(ReprEntries(d[1..]), ", ") + "}" + rest) == Some((d[1..], rest))
    ensures ReadEntries(Join(ReprEntries(d), ", ") + "}" + rest) == Some((d, rest))
  {
    var s := Join(ReprEntries(d), ", ") + "}" + rest;
    var tail := Join(ReprEntries(d[1..]), ", ") + "}" + rest;
    JoinEntries(d, rest);
    ReadEntryRoundTrip(d[0].0, d[0].1, ", " + tail);
    ReadEntriesNext(s, d[0], tail, d[1..], rest);
    assert [d[0]] + d[1..] == d;
  }

  lemma {:induction false} ReadEntriesRoundTrip(d: Dict, rest: string)
    requires d != [] && TextDict(d)
    ensures ReadEntries(Join(ReprEntries(d), ", ") + "}" + rest) == Some((d, rest))
  {
    assert TextParam(d[0].1);
    if |d| == 1 {
      ReadOneEntry(d, rest);
    } else {
      assert TextDict(d[1..]);
      ReadEntriesRoundTrip(d[1..], rest);
      ReadEntriesStep(d, rest);
    }
  }

  /** Reading `repr(d)` back gives `d`, for a dict of texts and lists of
      texts. */
  lemma ReprDictRoundTrip(d: Dict, rest: string)
    requires TextDict(d)
    ensures ReadDict(ReprDict(d) + rest) == Some((d, rest))
  {
    if d == [] {
      assert ReprDict(d) + rest == "{}" + rest;
    } else {
      var entries := Join(ReprEntries(d), ", ") + "}" + rest;
      ReadEntriesRoundTrip(d, rest);
      EntriesStart(d, rest);
      ReadDictOpen(ReprDict(d) + rest, entries);
    }
  }

  /** The printed entries start with the first key's quote. */
  lemma EntriesStart(d: Dict, rest: string)
    requires d != []
    ensures var entries := Join(ReprEntries(d), ", ") + "}" + rest;
      entries != [] && entries[0] != '}' && ReprDict(d) + rest == "{" + entries
  {
    JoinEntries(d, rest);
    ReprTextStart(d[0].0, ": " + ReprParam(d[0].1));
  }

  lemma ReadDictOpen(s: string, entries: string)
    requires entries != [] && entries[0] != '}' && s == "{" + entries
    ensures ReadDict(s) == ReadEntries(entries)
  {
    assert s[1..] == entries && s[1] == entries[0];
  }

  /** Different dicts of texts print differently. */
  lemma ReprDictInjective(d: Dict, e: Dict)
    requires TextDict(d) && TextDict(e)
    requires ReprDict(d) == ReprDict(e)
    ensures d == e
  {
    ReprDictRoundTrip(d, []);
    ReprDictRoundTrip(e, []);
    assert ReprDict(d) + [] == ReprDict(e) + [];
  }

  // ------------------------------------------------ the key names the request

  /** The value of the request's parameter being grouped: a text, or a list
      of at least two texts, as the request gives them. */
  lemma LookupGrouped(items: seq<(string, string)>, k: string)
    requires ValuesFor(items, k) != []
    ensures Lookup(ParamsDict(items), k) == Some(Grouped(ValuesFor(items, k)))
  {
    ParamsDictValues(items, k);
    if |ValuesFor(items, k)| > 1 {
      LookupMany(items, k);
    }
  }

  /** The sorted dict has the request's distinct keys, sorted. */
  lemma SortedParamsKeys(items: seq<(string, string)>)
    ensures Keys(SortedParams(ParamsDict(items))) == SortStrings(Keys(ParamsDict(items)))
    ensures UniqueKeys(SortedParams(ParamsDict(items)))
    ensures forall k :: k in Keys(SortedParams(ParamsDict(items))) <==> ValuesFor(items, k) != []
  {
    var d := ParamsDict(items);
    var ks := SortStrings(Keys(d));
    assert Keys(SortedParams(d)) == ks;
    ParamsDictUnique(items);
    DistinctPermutation(Keys(d), ks);
    SameElements(Keys(d), ks);
    forall k ensures k in ks <==> ValuesFor(items, k) != [] {
      FirstKeysValues(items, k);
    }
  }

  /** A key of the sorted dict holds the sorted, grouped values of that key,
      and only keys the request gives are present. */
  lemma LookupSorted(items: seq<(string, string)>, k: string)
    ensures Lookup(SortedParams(ParamsDict(items)), k) ==
      if ValuesFor(items, k) == [] then None else Some(SortParam(Grouped(ValuesFor(items, k))))
  {
    var sd := SortedParams(ParamsDict(items));
    SortedParamsKeys(items);
    if ValuesFor(items, k) != [] {
      var i :| 0 <= i < |sd| && Keys(sd)[i] == k;
      LookupGrouped(items, k);
      assert sd[i].1 == SortParam(Grouped(ValuesFor(items, k)));
      assert Lookup(sd, k) == Some(sd[i].1);
    }
  }

  /** Sorting keeps a grouped value text. */
  lemma SortGroupedText(vs: seq<string>)
    requires vs != []
    ensures TextParam(SortParam(Grouped(vs)))
  {
    if |vs| > 1 {
      TextsOfTexts(vs);
    }
  }

  /** Every value of the dict the key prints is a text or a list of texts. */
  lemma SortedParamsText(items: seq<(string, string)>)
    ensures TextDict(SortedParams(ParamsDict(items)))
  {
    var d := ParamsDict(items);
    var ks := SortStrings(Keys(d));
    var sd := SortedParams(d);
    SameElements(Keys(d), ks);
    forall i | 0 <= i < |sd| ensures TextParam(sd[i].1) {
      var k := ks[i];
      FirstKeysValues(items, k);
      LookupGrouped(items, k);
      SortGroupedText(ValuesFor(items, k));
    }
  }

  lemma TextsInjective(a: seq<string>, b: seq<string>)
    requires Texts(a) == Texts(b)
    ensures a == b
  {
    assert |a| == |b|;
    forall i | 0 <= i < |a| ensures a[i] == b[i] {
      assert Texts(a)[i] == Texts(b)[i];
    }
  }

  /** The sorted, grouped values of a key determine the values up to order. */
  lemma SortGroupedDetermines(va: seq<string>, vb: seq<string>)
    requires va != [] && vb != []
    requires SortParam(Grouped(va)) == SortParam(Grouped(vb))
    ensures multiset(va) == multiset(vb)
  {
    if |va| == 1 || |vb| == 1 {
      assert va == [va[0]] && vb == [vb[0]];
    } else {
      TextsOfTexts(va);
      TextsOfTexts(vb);
      TextsInjective(SortStrings(va), SortStrings(vb));
    }
  }

  /** Requests whose keys print the same dict list the same parameters, up
      to order. */
  lemma SortedParamsDetermine(a: seq<(string, string)>, b: seq<(string, string)>)
    requires SortedParams(ParamsDict(a)) == SortedParams(ParamsDict(b))
    ensures multiset(a) == multiset(b)
  {
    forall x: (string, string) ensures multiset(a)[x] == multiset(b)[x] {
      var (k, v) := x;
      LookupSorted(a, k);
      LookupSorted(b, k);
      if ValuesFor(a, k) != [] {
        SortGroupedDetermines(ValuesFor(a, k), ValuesFor(b, k));
      }
      ValuesForCount(a, k, v);
      ValuesForCount(b, k, v);
    }
  }

  /** Two requests to the same path get the same cache key exactly when they
      list the same parameters, in any order: no two different requests
      share a key. */
  lemma RequestKeyIdentifies(namespace: string, verb: string, path: string,
                             a: seq<(string, string)>, b: seq<(string, string)>)
    ensures RequestKey(namespace, verb, path, a) == RequestKey(namespace, verb, path, b) <==>
      multiset(a) == multiset(b)
  {
    if multiset(a) == multiset(b) {
      RequestKeyPermutation(namespace, verb, path, a, b);
    }
    if RequestKey(namespace, verb, path, a) == RequestKey(namespace, verb, path, b) {
      var sa, sb := SortedParams(ParamsDict(a)), SortedParams(ParamsDict(b));
      var prefix := namespace + ":" + Lower(verb) + ":" + path + ":";
      RequestKeyShape(namespace, verb, path, a);
      RequestKeyShape(namespace, verb, path, b);
      assert prefix + ReprDict(sa) == prefix + ReprDict(sb);
      assert ReprDict(sa) == (prefix + ReprDict(sa))[|prefix|..];
      assert ReprDict(sb) == (prefix + ReprDict(sb))[|prefix|..];
      SortedParamsText(a);
      SortedParamsText(b);
      ReprDictInjective(sa, sb);
      SortedParamsDetermine(a, b);
    }
  }
}
