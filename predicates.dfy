/** `apply_filters`: each call adds WHERE conjuncts to a statement. A statement
    is modelled by its list of conjuncts, each a predicate on one row; a row
    is selected when every conjunct holds of it. */
module Predicates {
  import opened Base
  import opened Strings
  import Order
  import Calendar
  import opened Filters

  /** One SQL value. */
  datatype Scalar = SText(text: string) | SInt(n: int) | SBool(b: bool) | SDate(date: Calendar.Date)

  /** A cell of a row: NULL, a plain value or an array (the `ARRAY` columns). */
  datatype Cell = Null | Atom(atom: Scalar) | Array(items: seq<Scalar>)

  /** A row: its cells by column name; a column with no entry holds NULL. */
  type Row = map<string, Cell>

  function CellOf(row: Row, name: string): Cell
  {
    if name in row then row[name] else Null
  }

  /** A column of the model: its name and whether its type is `ARRAY`. */
  datatype Column = Column(name: string, isArray: bool)

  // ------------------------------------------------------ value semantics

  /** `isinstance(values, list | tuple | set)`. */
  predicate IsList(v: Value)
  {
    v.Strs? || v.Nums?
  }

  /** The values a list holds, or the one value a scalar is. */
  function Elements(v: Value): (xs: seq<Scalar>)
    ensures !IsList(v) ==> |xs| == 1
  {
    match v
    case Str(s) => [SText(s)]
    case Strs(ss) => seq(|ss|, i requires 0 <= i < |ss| => SText(ss[i]))
    case Flag(b) => [SBool(b)]
    case Num(n) => [SInt(n)]
    case Nums(ns) => seq(|ns|, i requires 0 <= i < |ns| => SInt(ns[i]))
    case Day(d) => [SDate(d)]
  }

  /** SQL `LIKE`: `%` matches any run of characters and `_` any one character. */
  predicate Like(pattern: string, s: string)
    decreases |pattern| + |s|
  {
    if pattern == [] then s == []
    else if pattern[0] == '%' then Like(pattern[1..], s) || (s != [] && Like(pattern, s[1..]))
    else s != [] && (pattern[0] == '_' || pattern[0] == s[0]) && Like(pattern[1..], s[1..])
  }

  predicate NoWildcards(p: string)
  {
    forall i :: 0 <= i < |p| ==> p[i] != '%' && p[i] != '_'
  }

  /** A pattern without wildcards matches only itself. */
  lemma {:induction false} LikeLiteral(p: string, s: string)
    requires NoWildcards(p)
    ensures Like(p, s) <==> p == s
    decreases |p| + |s|
  {
    if p != [] && s != [] {
      LikeLiteral(p[1..], s[1..]);
      assert p == [p[0]] + p[1..] && s == [s[0]] + s[1..];
    }
  }

  /** `%` followed by a pattern matches a string when the pattern matches a suffix of it. */
  lemma {:induction false} LikeSuffix(p: string, s: string, k: nat)
    requires k <= |s| && Like(p, s[k..])
    ensures Like(['%'] + p, s)
    decreases k
  {
    var q := ['%'] + p;
    assert q[1..] == p;
    if k > 0 {
      assert s[1..][k - 1..] == s[k..];
      LikeSuffix(p, s[1..], k - 1);
    }
  }

  /** `'%'` matches every string. */
  lemma LikeAnything(s: string)
    ensures Like("%", s)
  {
    assert Like([], s[|s|..]);
    LikeSuffix([], s, |s|);
    assert ['%'] + [] == "%";
  }

  /** `ilike`: `LIKE` after folding both sides to lower case. */
  predicate ILikeCell(cell: Cell, x: Scalar)
  {
    cell.Atom? && cell.atom.SText? && x.SText? && Like(Lower(x.text), Lower(cell.atom.text))
  }

  /** `a <= b` for two values of one type; values of different types do not compare. */
  predicate ScalarLe(a: Scalar, b: Scalar)
  {
    match (a, b)
    case (SText(s), SText(t)) => Order.StrLe(s, t)
    case (SInt(m), SInt(n)) => m <= n
    case (SBool(p), SBool(q)) => !p || q
    case (SDate(d), SDate(e)) => !Calendar.LexLess(e, d)
    case _ => false
  }

  /** `column @> '{x}'`: the array holds `x`. NULL contains nothing. */
  predicate Contains(cell: Cell, x: Scalar)
  {
    cell.Array? && x in cell.items
  }

  // ------------------------------------------------------------ conjuncts

  datatype Test = ContainsTest | ILikeTest | EqTest | GeTest | LeTest

  /** A conjunct: one test of a column against one value, against any of a
      list (`or_`) or against all of a list (`and_`). */
  datatype Cond = Single(column: string, test: Test, x: Scalar)
                | Either(column: string, test: Test, xs: seq<Scalar>)
                | Every(column: string, test: Test, xs: seq<Scalar>)

  /** What one test says of a cell; a comparison with NULL is never true. */
  predicate Passes(t: Test, cell: Cell, x: Scalar)
  {
    match t
    case ContainsTest => Contains(cell, x)
    case ILikeTest => ILikeCell(cell, x)
    case EqTest => cell == Atom(x)
    case GeTest => cell.Atom? && ScalarLe(x, cell.atom)
    case LeTest => cell.Atom? && ScalarLe(cell.atom, x)
  }

  /** An empty `or_()` adds no restriction, like an empty `and_()`. */
  predicate Holds(row: Row, c: Cond)
  {
    match c
    case Single(col, t, x) => Passes(t, CellOf(row, col), x)
    case Either(col, t, xs) => xs == [] || exists i :: 0 <= i < |xs| && Passes(t, CellOf(row, col), xs[i])
    case Every(col, t, xs) => forall i :: 0 <= i < |xs| ==> Passes(t, CellOf(row, col), xs[i])
  }

  /** The rows a statement returns: those every conjunct holds of. */
  predicate Selects(statement: seq<Cond>, row: Row)
  {
    forall i :: 0 <= i < |statement| ==> Holds(row, statement[i])
  }

  // ------------------------------------------------------- the operation

  /** The comparison a scalar operation adds: a list gives an `or_` of one
      comparison per element, a scalar one comparison. */
  function Compare(col: Column, t: Test, v: Value): Cond
  {
    if IsList(v) then Either(col.name, t, Elements(v)) else Single(col.name, t, Elements(v)[0])
  }

  /** The containment conjunct for a list on an `ARRAY` column: `and_` of the
      elements for `ALL`, `or_` of them otherwise. */
  function WithArray(statement: seq<Cond>, col: Column, v: Value, op: Op): seq<Cond>
  {
    if col.isArray && IsList(v) then
      statement + [if op == Op.AllOf then Every(col.name, ContainsTest, Elements(v))
                   else Either(col.name, ContainsTest, Elements(v))]
    else statement
  }

  /** The comparison `operation` names, if it names one. */
  function TestOf(op: Op): Option<Test>
  {
    match op
    case ILike => Some(ILikeTest)
    case Eq => Some(EqTest)
    case Ge => Some(GeTest)
    case Le => Some(LeTest)
    case _ => None
  }

  /** `apply_filters(statement=…, model=…, attribute=…, values=…, operation=…)`. */
  function ApplyFilters(statement: seq<Cond>, col: Column, values: Option<Value>, op: Op): (r: seq<Cond>)
    ensures values.None? ==> r == statement
    ensures |statement| <= |r| <= |statement| + 2 && r[..|statement|] == statement
  {
    if values.None? then statement
    else
      var withArray := WithArray(statement, col, values.value, op);
      if TestOf(op).Some? then withArray + [Compare(col, TestOf(op).value, values.value)]
      else withArray
  }

  /** The array part of a filter, stated on the cell: all elements (for `ALL`)
      or some element are in the array. */
  predicate ArrayMatches(col: Column, v: Value, op: Op, cell: Cell)
  {
    var xs := Elements(v);
    (col.isArray && IsList(v) && op == Op.AllOf ==> forall x :: x in xs ==> Contains(cell, x)) &&
    (col.isArray && IsList(v) && op != Op.AllOf ==> xs == [] || exists x :: x in xs && Contains(cell, x))
  }

  /** The comparison part of a filter, stated on the cell: some element
      compares as asked. */
  predicate CompareMatches(v: Value, op: Op, cell: Cell)
  {
    var xs := Elements(v);
    (op == ILike ==> xs == [] || exists x :: x in xs && ILikeCell(cell, x)) &&
    (op == Eq ==> xs == [] || exists x :: x in xs && cell == Atom(x)) &&
    (op == Ge ==> xs == [] || exists x :: x in xs && cell.Atom? && ScalarLe(x, cell.atom)) &&
    (op == Le ==> xs == [] || exists x :: x in xs && cell.Atom? && ScalarLe(cell.atom, x))
  }

  /** What a filter asks of a row: nothing when its value is `None`. */
  predicate Matches(col: Column, values: Option<Value>, op: Op, row: Row)
  {
    values.None? ||
    (ArrayMatches(col, values.value, op, CellOf(row, col.name)) &&
     CompareMatches(values.value, op, CellOf(row, col.name)))
  }

  lemma CompareHolds(row: Row, col: Column, t: Test, v: Value)
    ensures Holds(row, Compare(col, t, v)) <==>
      Elements(v) == [] || exists x :: x in Elements(v) && Passes(t, CellOf(row, col.name), x)
  {
    var xs := Elements(v);
    if exists x :: x in xs && Passes(t, CellOf(row, col.name), x) {
      var x :| x in xs && Passes(t, CellOf(row, col.name), x);
      var i :| 0 <= i < |xs| && xs[i] == x;
    }
  }

  lemma SelectsAppend(s: seq<Cond>, c: Cond, row: Row)
    ensures Selects(s + [c], row) <==> Selects(s, row) && Holds(row, c)
  {
    if Selects(s, row) && Holds(row, c) {
      forall i | 0 <= i < |s + [c]| ensures Holds(row, (s + [c])[i]) {
        if i < |s| { assert (s + [c])[i] == s[i]; }
      }
    }
    if Selects(s + [c], row) {
      forall i | 0 <= i < |s| ensures Holds(row, s[i]) {
        assert (s + [c])[i] == s[i];
      }
      assert (s + [c])[|s|] == c;
    }
  }

  lemma WithArraySelects(statement: seq<Cond>, col: Column, v: Value, op: Op, row: Row)
    ensures Selects(WithArray(statement, col, v, op), row) <==>
      Selects(statement, row) && ArrayMatches(col, v, op, CellOf(row, col.name))
  {
    var xs, cell := Elements(v), CellOf(row, col.name);
    if col.isArray && IsList(v) {
      var c := if op == Op.AllOf then Every(col.name, ContainsTest, xs) else Either(col.name, ContainsTest, xs);
      SelectsAppend(statement, c, row);
      if op != Op.AllOf && exists x :: x in xs && Contains(cell, x) {
        var x :| x in xs && Contains(cell, x);
        var i :| 0 <= i < |xs| && xs[i] == x;
      }
    }
  }

  lemma CompareMatchesHolds(row: Row, col: Column, v: Value, op: Op)
    ensures TestOf(op).Some? ==>
      (Holds(row, Compare(col, TestOf(op).value, v)) <==> CompareMatches(v, op, CellOf(row, col.name)))
    ensures TestOf(op).None? ==> CompareMatches(v, op, CellOf(row, col.name))
  {
    if TestOf(op).Some? {
      CompareHolds(row, col, TestOf(op).value, v);
    }
  }

  /** A row survives `apply_filters` exactly when it survived before and meets
      the filter: filtering only narrows. */
  lemma ApplyFiltersSelects(statement: seq<Cond>, col: Column, values: Option<Value>, op: Op, row: Row)
    ensures Selects(ApplyFilters(statement, col, values, op), row) <==>
      Selects(statement, row) && Matches(col, values, op, row)
  {
    if values.Some? {
      var v := values.value;
      WithArraySelects(statement, col, v, op, row);
      CompareMatchesHolds(row, col, v, op);
      if TestOf(op).Some? {
        SelectsAppend(WithArray(statement, col, v, op), Compare(col, TestOf(op).value, v), row);
      }
    }
  }
}
