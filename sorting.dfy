/** `apply_sorting` in its three versions: the current one (which appends the
    primary key as a tie-breaker and sorts NULLs last), the variant kept in
    the current query helpers (whose tie-breaker test is wrong), and the old
    package's (no tie-breaker, no NULLS LAST). */
module Sorting {
  import opened Base
  import opened Strings

  datatype Direction = Asc | Desc

  /** One `ORDER BY` term: `nullslast(order(column))` or just `order(column)`. */
  datatype OrderBy = OrderBy(field: string, direction: Direction, nullsLast: bool)

  /** `HTTPException(status_code=…, detail=…)`. */
  datatype HttpError = HttpError(status: nat, detail: string)

  /** `str(columns)` for a list of column names: `['a', 'b']`. */
  function ListRepr(names: seq<string>): string
  {
    "[" + Join(seq(|names|, i requires 0 <= i < |names| => "'" + names[i] + "'"), ", ") + "]"
  }

  /** The 400 answer for a field that is not a column. */
  function InvalidField(field: string, columns: seq<string>): HttpError
  {
    HttpError(400, "Invalid sort field: " + field + ". Must be one of " + ListRepr(columns))
  }

  /** One sort parameter after `strip()`: a leading `-` asks for descending
      order, a leading `+` or none for ascending; the sign is not part of the field. */
  function ParseSortParam(param: string): (Direction, string)
  {
    var p := Strip(param);
    if StartsWith(p, "-") then (Desc, p[1..])
    else if StartsWith(p, "+") then (Asc, p[1..])
    else (Asc, p)
  }

  /** A field name as a client writes it: no surrounding blanks, no sign. */
  predicate PlainField(f: string)
  {
    f != [] && !IsSpace(f[0]) && !IsSpace(f[|f| - 1]) && f[0] != '-' && f[0] != '+'
  }

  /** A parameter whose first character is `-` asks for descending order on the rest. */
  lemma ParseDescending(p: string)
    requires |p| >= 2 && p[0] == '-' && !IsSpace(p[|p| - 1])
    ensures ParseSortParam(p) == (Desc, p[1..])
  {
    StripUnchanged(p);
    assert p[..1] == "-";
  }

  /** A parameter whose first character is `+` asks for ascending order on the rest. */
  lemma ParseAscending(p: string)
    requires |p| >= 2 && p[0] == '+' && !IsSpace(p[|p| - 1])
    ensures ParseSortParam(p) == (Asc, p[1..])
  {
    StripUnchanged(p);
    assert p[..1] == "+";
  }

  /** A bare `f` parses to an ascending order on `f`. */
  lemma ParseBare(f: string)
    requires PlainField(f)
    ensures ParseSortParam(f) == (Asc, f)
  {
    StripUnchanged(f);
  }

  /** `-f` and `+f` parse back to the field `f`. */
  lemma SignedKey(sign: char, f: string)
    requires sign == '-' || sign == '+'
    requires PlainField(f)
    ensures ParseSortParam([sign] + f) == (if sign == '-' then Desc else Asc, f)
  {
    var p := [sign] + f;
    assert p[0] == sign && p[|p| - 1] == f[|f| - 1] && p[1..] == f;
    if sign == '-' {
      ParseDescending(p);
    } else {
      ParseAscending(p);
    }
  }

  /** The statement after adding one `ORDER BY` term per parameter, in order,
      each parameter read by `parse`; the first parameter whose field is not a
      column gives the 400 answer. The lemmas below hold for any reading of
      the parameters. */
  function AddTerms(statement: seq<OrderBy>, sort: seq<string>, columns: seq<string>, nullsLast: bool,
                    parse: string -> (Direction, string)): Result<seq<OrderBy>, HttpError>
    decreases |sort|
  {
    if sort == [] then Ok(statement)
    else
      var (direction, field) := parse(sort[0]);
      if field !in columns then Err(InvalidField(field, columns))
      else AddTerms(statement + [OrderBy(field, direction, nullsLast)], sort[1..], columns, nullsLast, parse)
  }

  /** What every version's loop computes from the parameters. */
  function OrderClauses(statement: seq<OrderBy>, sort: seq<string>, columns: seq<string>, nullsLast: bool):
    Result<seq<OrderBy>, HttpError>
  {
    AddTerms(statement, sort, columns, nullsLast, ParseSortParam)
  }

  /** The loop of every version: `for sort_param in sort: … statement = statement.order_by(…)`. */
  method AddOrdering(statement: seq<OrderBy>, sort: seq<string>, columns: seq<string>, nullsLast: bool)
    returns (r: Result<seq<OrderBy>, HttpError>)
    ensures r == OrderClauses(statement, sort, columns, nullsLast)
  {
    var current := statement;
    var i := 0;
    while i < |sort|
      invariant 0 <= i <= |sort|
      invariant OrderClauses(current, sort[i..], columns, nullsLast) == OrderClauses(statement, sort, columns, nullsLast)
    {
      assert sort[i..][1..] == sort[i + 1..];
      var param := Strip(sort[i]);
      var direction, field;
      if StartsWith(param, "-") {
        direction, field := Desc, param[1..];
      } else if StartsWith(param, "+") {
        direction, field := Asc, param[1..];
      } else {
        direction, field := Asc, param;
      }
      if field !in columns {
        return Err(InvalidField(field, columns));
      }
      current := current + [OrderBy(field, direction, nullsLast)];
      i := i + 1;
    }
    assert sort[i..] == [];
    return Ok(current);
  }

  /** Sorting succeeds exactly when every parameter names a column. */
  lemma {:induction false} OrderClausesOkIff(statement: seq<OrderBy>, sort: seq<string>, columns: seq<string>, nullsLast: bool,
                                             parse: string -> (Direction, string))
    ensures AddTerms(statement, sort, columns, nullsLast, parse).Ok? <==>
      forall i :: 0 <= i < |sort| ==> parse(sort[i]).1 in columns
    decreases |sort|
  {
    if sort != [] {
      var (direction, field) := parse(sort[0]);
      OrderClausesOkIff(statement + [OrderBy(field, direction, nullsLast)], sort[1..], columns, nullsLast, parse);
      assert forall i :: 1 <= i < |sort| ==> sort[i] == sort[1..][i - 1];
      if forall i :: 1 <= i < |sort| ==> parse(sort[i]).1 in columns {
        assert forall i :: 0 <= i < |sort[1..]| ==> parse(sort[1..][i]).1 in columns;
      }
    }
  }

  /** The `ORDER BY` terms the parameters ask for, one per parameter. */
  function Terms(sort: seq<string>, nullsLast: bool, parse: string -> (Direction, string)): (r: seq<OrderBy>)
    ensures |r| == |sort|
    ensures forall i :: 0 <= i < |sort| ==> r[i] == OrderBy(parse(sort[i]).1, parse(sort[i]).0, nullsLast)
    decreases |sort|
  {
    if sort == [] then []
    else
      var rest := Terms(sort[1..], nullsLast, parse);
      assert forall i :: 1 <= i < |sort| ==> sort[i] == sort[1..][i - 1];
      [OrderBy(parse(sort[0]).1, parse(sort[0]).0, nullsLast)] + rest
  }

  /** A successful sort keeps the statement's terms and adds one term per
      parameter, in the order given. */
  lemma {:induction false} OrderClausesValue(statement: seq<OrderBy>, sort: seq<string>, columns: seq<string>, nullsLast: bool,
                                             parse: string -> (Direction, string))
    requires AddTerms(statement, sort, columns, nullsLast, parse).Ok?
    ensures AddTerms(statement, sort, columns, nullsLast, parse).value == statement + Terms(sort, nullsLast, parse)
    decreases |sort|
  {
    if sort != [] {
      var p := parse(sort[0]);
      var next := statement + [OrderBy(p.1, p.0, nullsLast)];
      OrderClausesValue(next, sort[1..], columns, nullsLast, parse);
      assert Terms(sort, nullsLast, parse) == [OrderBy(p.1, p.0, nullsLast)] + Terms(sort[1..], nullsLast, parse);
      assert next + Terms(sort[1..], nullsLast, parse) == statement + Terms(sort, nullsLast, parse);
    }
  }

  /** The index of the first parameter whose field is not a column, or the
      number of parameters when every field is one. */
  function FirstUnknown(sort: seq<string>, columns: seq<string>, parse: string -> (Direction, string)): (j: nat)
    ensures j <= |sort|
    ensures forall i :: 0 <= i < j ==> parse(sort[i]).1 in columns
    ensures j < |sort| ==> parse(sort[j]).1 !in columns
    decreases |sort|
  {
    if sort == [] || parse(sort[0]).1 !in columns then 0
    else
      var rest := FirstUnknown(sort[1..], columns, parse);
      assert forall i :: 1 <= i < |sort| ==> sort[i] == sort[1..][i - 1];
      1 + rest
  }

  /** On failure the answer names the first parameter whose field is not a column. */
  lemma {:induction false} OrderClausesErr(statement: seq<OrderBy>, sort: seq<string>, columns: seq<string>, nullsLast: bool,
                                           parse: string -> (Direction, string))
    requires AddTerms(statement, sort, columns, nullsLast, parse).Err?
    ensures FirstUnknown(sort, columns, parse) < |sort|
    ensures AddTerms(statement, sort, columns, nullsLast, parse).error ==
      InvalidField(parse(sort[FirstUnknown(sort, columns, parse)]).1, columns)
    decreases |sort|
  {
    assert sort != [];
    var p := parse(sort[0]);
    if p.1 in columns {
      OrderClausesErr(statement + [OrderBy(p.1, p.0, nullsLast)], sort[1..], columns, nullsLast, parse);
      assert sort[1..][FirstUnknown(sort[1..], columns, parse)] == sort[FirstUnknown(sort, columns, parse)];
    }
  }

  // ------------------------------------------------- the primary key tie-breaker

  /** The current test: append `pk` unless `pk`, `-pk` or `+pk` is present. */
  function WithKey(sort: seq<string>, pk: string): (r: seq<string>)
    ensures (pk !in sort && "-" + pk !in sort && "+" + pk !in sort) ==> r == sort + [pk]
    ensures (pk in sort || "-" + pk in sort || "+" + pk in sort) ==> r == sort
  {
    if pk !in sort && "-" + pk !in sort && "+" + pk !in sort then sort + [pk] else sort
  }

  /** After the current test the list always names the key, once, so a sort
      that succeeds always ends in a term on the key. */
  lemma WithKeyNamesKey(sort: seq<string>, pk: string)
    ensures pk in WithKey(sort, pk) || "-" + pk in WithKey(sort, pk) || "+" + pk in WithKey(sort, pk)
    ensures |WithKey(sort, pk)| <= |sort| + 1
  {
  }

  lemma KeySpellings(param: string, pk: string)
    requires PlainField(pk)
    requires param == pk || param == "-" + pk || param == "+" + pk
    ensures ParseSortParam(param).1 == pk
  {
    if param == pk {
      ParseBare(pk);
    } else if param == "-" + pk {
      SignedKey('-', pk);
    } else {
      SignedKey('+', pk);
    }
  }

  /** Sorting with the current test that succeeds has a term on the primary key. */
  lemma WithKeyOrdersByKey(statement: seq<OrderBy>, sort: seq<string>, columns: seq<string>, pk: string)
    requires PlainField(pk)
    requires OrderClauses(statement, WithKey(sort, pk), columns, true).Ok?
    ensures exists i ::
      && 0 <= i < |OrderClauses(statement, WithKey(sort, pk), columns, true).value|
      && OrderClauses(statement, WithKey(sort, pk), columns, true).value[i].field == pk
  {
    var s := WithKey(sort, pk);
    WithKeyNamesKey(sort, pk);
    var j :| 0 <= j < |s| && (s[j] == pk || s[j] == "-" + pk || s[j] == "+" + pk);
    KeySpellings(s[j], pk);
    TermField(statement, s, columns, true, ParseSortParam, j);
  }

  /** The term a successful sort adds for parameter `j` is on that parameter's field. */
  lemma TermField(statement: seq<OrderBy>, sort: seq<string>, columns: seq<string>, nullsLast: bool,
                  parse: string -> (Direction, string), j: nat)
    requires AddTerms(statement, sort, columns, nullsLast, parse).Ok? && j < |sort|
    ensures |statement| + j < |AddTerms(statement, sort, columns, nullsLast, parse).value|
    ensures AddTerms(statement, sort, columns, nullsLast, parse).value[|statement| + j].field == parse(sort[j]).1
  {
    OrderClausesValue(statement, sort, columns, nullsLast, parse);
    var t := Terms(sort, nullsLast, parse);
    assert (statement + t)[|statement| + j] == t[j];
  }

  /** The query-helpers test, `pk not in sort or -pk not in sort or +pk not in sort`:
      it appends unless all three spellings are present. */
  function WithKeyAsWritten(sort: seq<string>, pk: string): (r: seq<string>)
    ensures (pk in sort && "-" + pk in sort && "+" + pk in sort) ==> r == sort
    ensures !(pk in sort && "-" + pk in sort && "+" + pk in sort) ==> r == sort + [pk]
  {
    if pk !in sort || "-" + pk !in sort || "+" + pk !in sort then sort + [pk] else sort
  }

  /** `sort=['id']` becomes `['id', 'id']` in the query-helpers variant, and
      `['-id']` gains an ascending `id` after it; the current test leaves both alone. */
  lemma WithKeyAsWrittenDuplicates()
    ensures WithKeyAsWritten(["id"], "id") == ["id", "id"]
    ensures WithKeyAsWritten(["-id"], "id") == ["-id", "id"]
    ensures WithKey(["id"], "id") == ["id"] && WithKey(["-id"], "id") == ["-id"]
  {
    assert "-" + "id" == "-id" && "+" + "id" == "+id";
    assert "-id" != "id" && "+id" != "id" && "+id" != "-id";
    assert "-id" !in ["id"] && "+id" !in ["id"] && "id" !in ["-id"];
  }

  /** The current test appends exactly when the key is not yet named, so it
      never names the key twice when the caller named it at most once. */
  lemma WithKeyNoDuplicate(sort: seq<string>, pk: string)
    requires pk in sort || "-" + pk in sort || "+" + pk in sort
    ensures WithKey(sort, pk) == sort
  {
  }

  // ----------------------------------------------------------- the versions

  /** The caller's `sort` list, which the current version appends to. */
  class SortList {
    var items: seq<string>

    constructor (items: seq<string>)
      ensures this.items == items
    {
      this.items := items;
    }
  }

  /** `apply_sorting` in sql_helpers: appends the key to the caller's list
      (even when a field later turns out invalid) and orders NULLs last. */
  method ApplySorting(statement: seq<OrderBy>, sort: SortList, columns: seq<string>, pk: string)
    returns (r: Result<seq<OrderBy>, HttpError>)
    modifies sort
    ensures sort.items == WithKey(old(sort.items), pk)
    ensures r == OrderClauses(statement, sort.items, columns, true)
  {
    if pk !in sort.items && "-" + pk !in sort.items && "+" + pk !in sort.items {
      sort.items := sort.items + [pk];
    }
    r := AddOrdering(statement, sort.items, columns, true);
  }

  /** `apply_sorting` in query_helpers, with its wrong tie-breaker test. */
  method ApplySortingQueryHelpers(statement: seq<OrderBy>, sort: SortList, columns: seq<string>, pk: string)
    returns (r: Result<seq<OrderBy>, HttpError>)
    modifies sort
    ensures sort.items == WithKeyAsWritten(old(sort.items), pk)
    ensures r == OrderClauses(statement, sort.items, columns, true)
  {
    if pk !in sort.items || "-" + pk !in sort.items || "+" + pk !in sort.items {
      sort.items := sort.items + [pk];
    }
    r := AddOrdering(statement, sort.items, columns, true);
  }

  /** `apply_sorting` of the old package: the caller's list is left alone, no
      key is added and NULLs are not placed last. */
  method ApplySortingLegacy(statement: seq<OrderBy>, sort: seq<string>, columns: seq<string>)
    returns (r: Result<seq<OrderBy>, HttpError>)
    ensures r.Ok? <==> forall i :: 0 <= i < |sort| ==> ParseSortParam(sort[i]).1 in columns
    ensures r.Ok? ==> |r.value| == |statement| + |sort| && r.value[..|statement|] == statement
    ensures r.Ok? ==> forall i :: 0 <= i < |sort| ==>
      r.value[|statement| + i] == OrderBy(ParseSortParam(sort[i]).1, ParseSortParam(sort[i]).0, false)
    ensures sort == [] ==> r == Ok(statement)
  {
    r := AddOrdering(statement, sort, columns, false);
    OrderClausesOkIff(statement, sort, columns, false, ParseSortParam);
    if r.Ok? {
      OrderClausesValue(statement, sort, columns, false, ParseSortParam);
    }
  }
}
