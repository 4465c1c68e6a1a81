/** The older package's per-category statistics. A row is one (project,
    category) pair of the frame the routes build by exploding each project's
    category array; a project without categories gives one row whose category
    is missing. */
module LegacyStats {
  import opened Base
  import opened Order

  datatype StatsRow = StatsRow(projectId: string, category: Option<string>, issued: Option<int>, retired: Option<int>)

  /** `df['category'].isin(categories)`: a missing category is in no list. */
  predicate InList(r: StatsRow, categories: seq<string>)
  {
    r.category.Some? && r.category.value in categories
  }

  /** `df[df['category'].isin(categories)]`, order kept. */
  function Selected(rows: seq<StatsRow>, categories: seq<string>): (r: seq<StatsRow>)
    ensures forall x :: x in r <==> x in rows && InList(x, categories)
  {
    if rows == [] then []
    else
      var init, last := rows[..|rows| - 1], rows[|rows| - 1];
      assert rows == init + [last];
      Selected(init, categories) + (if InList(last, categories) then [last] else [])
  }

  /** The categories of one project's rows, in row order. */
  function CategoriesOf(rows: seq<StatsRow>, projectId: string): seq<Option<string>>
  {
    if rows == [] then []
    else
      var init, last := rows[..|rows| - 1], rows[|rows| - 1];
      CategoriesOf(init, projectId) + (if last.projectId == projectId then [last.category] else [])
  }

  /** `x['category'].nunique() == len(x)` for the project's group: after the
      selection every category is present, so this says no category repeats. */
  predicate ProjectPasses(rows: seq<StatsRow>, projectId: string)
  {
    Distinct(CategoriesOf(rows, projectId))
  }

  /** The rows of `rows` whose project passes, order kept. */
  function KeepPassing(rows: seq<StatsRow>, all: seq<StatsRow>): (r: seq<StatsRow>)
    ensures forall x :: x in r <==> x in rows && ProjectPasses(all, x.projectId)
  {
    if rows == [] then []
    else
      var init, last := rows[..|rows| - 1], rows[|rows| - 1];
      assert rows == init + [last];
      KeepPassing(init, all) + (if ProjectPasses(all, last.projectId) then [last] else [])
  }

  /** `filter_valid_projects(df, categories)`. */
  function FilterValidProjects(rows: seq<StatsRow>, categories: Option<seq<string>>): seq<StatsRow>
  {
    if categories.None? || categories.value == [] then rows
    else
      var valid := Selected(rows, categories.value);
      KeepPassing(valid, valid)
  }

  /** Without a category list the frame is returned as it is; with one, a row
      survives exactly when its category is listed and no listed category
      repeats among its project's listed rows. */
  lemma FilterValidMembers(rows: seq<StatsRow>, categories: Option<seq<string>>, x: StatsRow)
    ensures categories.None? || categories.value == [] ==> FilterValidProjects(rows, categories) == rows
    ensures categories.Some? && categories.value != [] ==>
      (x in FilterValidProjects(rows, categories) <==>
        x in rows && InList(x, categories.value) &&
        Distinct(CategoriesOf(Selected(rows, categories.value), x.projectId)))
  {
  }

  /** The filter keeps rows in their order: it returns a subsequence. */
  lemma {:induction false} KeepPassingSubsequence(rows: seq<StatsRow>, all: seq<StatsRow>)
    ensures |KeepPassing(rows, all)| <= |rows|
    ensures forall i :: 0 <= i < |rows| && ProjectPasses(all, rows[i].projectId) ==>
      rows[i] in KeepPassing(rows, all)
  {
    if rows != [] {
      KeepPassingSubsequence(rows[..|rows| - 1], all);
    }
  }

  /** A project listed under a category outside the list is not dropped: its
      listed rows survive. */
  lemma OutsideCategoryKept()
    ensures FilterValidProjects(
      [StatsRow("VCS1", Some("forest"), None, None), StatsRow("VCS1", Some("ghg"), None, None)],
      Some(["forest"])) == [StatsRow("VCS1", Some("forest"), None, None)]
  {
    var rows := [StatsRow("VCS1", Some("forest"), None, None), StatsRow("VCS1", Some("ghg"), None, None)];
    assert rows[..1] == [rows[0]];
    assert Selected(rows, ["forest"]) == [rows[0]];
    var valid := [rows[0]];
    assert valid[..0] == [];
    assert CategoriesOf(valid, "VCS1") == [Some("forest")];
  }

  /** A project listed twice under one listed category loses all its rows. */
  lemma RepeatedCategoryDropped(row: StatsRow, c: string)
    requires row.category == Some(c)
    ensures FilterValidProjects([row, row], Some([c])) == []
  {
    var rows := [row, row];
    SelectedTwice(row, [c]);
    CategoriesTwice(row);
    var cs := CategoriesOf(rows, row.projectId);
    assert cs[0] == cs[1];
    assert !ProjectPasses(rows, row.projectId);
    KeepNone(rows, rows);
  }

  lemma SelectedTwice(row: StatsRow, categories: seq<string>)
    requires InList(row, categories)
    ensures Selected([row, row], categories) == [row, row]
  {
    assert [row, row][..1] == [row] && [row][..0] == [];
    assert Selected([row], categories) == [row];
  }

  lemma CategoriesTwice(row: StatsRow)
    ensures CategoriesOf([row, row], row.projectId) == [row.category, row.category]
  {
    assert [row, row][..1] == [row] && [row][..0] == [];
    assert CategoriesOf([row], row.projectId) == [row.category];
  }

  /** Nothing is kept when no row's project passes. */
  lemma {:induction false} KeepNone(rows: seq<StatsRow>, all: seq<StatsRow>)
    requires forall x :: x in rows ==> !ProjectPasses(all, x.projectId)
    ensures KeepPassing(rows, all) == []
  {
    if rows != [] {
      var init := rows[..|rows| - 1];
      assert forall x :: x in init ==> x in rows;
      KeepNone(init, all);
      assert rows[|rows| - 1] in rows;
    }
  }

  // ------------------------------------------------------------- group by

  /** The present categories of the rows, with repeats, in row order. */
  function PresentCategories(rows: seq<StatsRow>): (r: seq<string>)
    ensures forall c :: c in r <==> exists x :: x in rows && x.category == Some(c)
  {
    if rows == [] then []
    else
      var init, last := rows[..|rows| - 1], rows[|rows| - 1];
      assert rows == init + [last];
      PresentCategories(init) + (if last.category.Some? then [last.category.value] else [])
  }

  /** The first occurrence of each element, in order. */
  function Unique(s: seq<string>): (r: seq<string>)
    ensures Distinct(r) && forall c :: c in r <==> c in s
  {
    if s == [] then []
    else
      var init, last := s[..|s| - 1], s[|s| - 1];
      assert s == init + [last];
      var u := Unique(init);
      if last in u then u else u + [last]
  }

  /** The group keys of `groupby('category')`: the present categories, each
      once, ascending; a missing category forms no group. */
  function GroupCategories(rows: seq<StatsRow>): seq<string>
  {
    SortStrings(Unique(PresentCategories(rows)))
  }

  /** The groups are every present category once, in strictly ascending order. */
  lemma GroupCategoriesShape(rows: seq<StatsRow>)
    ensures forall c :: c in GroupCategories(rows) <==> exists x :: x in rows && x.category == Some(c)
    ensures forall i, j :: 0 <= i < j < |GroupCategories(rows)| ==> StrLt(GroupCategories(rows)[i], GroupCategories(rows)[j])
  {
    var u := Unique(PresentCategories(rows));
    var g := GroupCategories(rows);
    StrLeTotalOrder();
    SortSorted(u, StrLe);
    DistinctPermutation(u, g);
    assert forall c :: c in g <==> c in multiset(g);
    assert forall c :: c in u <==> c in multiset(u);
    forall i, j | 0 <= i < j < |g| ensures StrLt(g[i], g[j]) {
      SortedPairs(g, i, j);
    }
  }

  lemma {:induction false} SortedPairs(g: seq<string>, i: nat, j: nat)
    requires SortedBy(g, StrLe) && i < j < |g|
    ensures StrLe(g[i], g[j])
    decreases j - i
  {
    if j > i + 1 {
      SortedPairs(g, i, j - 1);
      StrLeTransitive(g[i], g[j - 1], g[j]);
    }
  }

  /** The rows with category `c`. */
  function InCategory(rows: seq<StatsRow>, c: string): (r: seq<StatsRow>)
    ensures |r| <= |rows|
    ensures forall x :: x in r <==> x in rows && x.category == Some(c)
  {
    if rows == [] then []
    else
      var init, last := rows[..|rows| - 1], rows[|rows| - 1];
      assert rows == init + [last];
      InCategory(init, c) + (if last.category == Some(c) then [last] else [])
  }

  /** `sum` over a nullable column: missing values are skipped. */
  function SumPresent(xs: seq<Option<int>>): int
  {
    if xs == [] then 0
    else SumPresent(xs[..|xs| - 1]) + (if xs[|xs| - 1].Some? then xs[|xs| - 1].value else 0)
  }

  function IssuedOf(rows: seq<StatsRow>): seq<Option<int>>
  {
    seq(|rows|, i requires 0 <= i < |rows| => rows[i].issued)
  }

  function RetiredOf(rows: seq<StatsRow>): seq<Option<int>>
  {
    seq(|rows|, i requires 0 <= i < |rows| => rows[i].retired)
  }

  datatype CategoryCount = CategoryCount(category: string, value: nat)

  datatype CategoryCredits = CategoryCredits(category: string, issued: int, retired: int)

  /** `projects_by_category(df=…, categories=…)`: per category, the number of
      surviving rows; `project_id` is never missing, so `count` counts them all. */
  function ProjectsByCategory(rows: seq<StatsRow>, categories: Option<seq<string>>): seq<CategoryCount>
  {
    var valid := FilterValidProjects(rows, categories);
    var cs := GroupCategories(valid);
    seq(|cs|, i requires 0 <= i < |cs| => CategoryCount(cs[i], |InCategory(valid, cs[i])|))
  }

  /** `credits_by_category(df=…, categories=…)`: per category, the sums of
      `issued` and `retired` over the surviving rows. */
  function CreditsByCategory(rows: seq<StatsRow>, categories: Option<seq<string>>): seq<CategoryCredits>
  {
    var valid := FilterValidProjects(rows, categories);
    var cs := GroupCategories(valid);
    seq(|cs|, i requires 0 <= i < |cs| =>
      var group := InCategory(valid, cs[i]);
      CategoryCredits(cs[i], SumPresent(IssuedOf(group)), SumPresent(RetiredOf(group))))
  }

  /** One entry per category of a surviving row, ascending, each counting at
      least one row and only rows of its category. */
  lemma ProjectsByCategoryShape(rows: seq<StatsRow>, categories: Option<seq<string>>)
    ensures var out := ProjectsByCategory(rows, categories);
      && (forall i, j :: 0 <= i < j < |out| ==> StrLt(out[i].category, out[j].category))
      && (forall c :: (exists i :: 0 <= i < |out| && out[i].category == c) <==>
            exists x :: x in FilterValidProjects(rows, categories) && x.category == Some(c))
      && (forall i :: 0 <= i < |out| ==>
            out[i].value == |InCategory(FilterValidProjects(rows, categories), out[i].category)| && out[i].value >= 1)
  {
    var valid := FilterValidProjects(rows, categories);
    var out := ProjectsByCategory(rows, categories);
    var cs := GroupCategories(valid);
    GroupCategoriesShape(valid);
    forall c ensures (exists i :: 0 <= i < |out| && out[i].category == c) <==> c in cs {
      if c in cs {
        var i :| 0 <= i < |cs| && cs[i] == c;
        assert out[i].category == c;
      }
    }
    forall i | 0 <= i < |out| ensures out[i].value >= 1 {
      assert cs[i] in cs;
      var x :| x in valid && x.category == Some(cs[i]);
      assert x in InCategory(valid, cs[i]);
    }
  }

  /** One entry per category of a surviving row, ascending, with the same
      categories as the counts, each summing the issued and retired values
      of that category's rows. */
  lemma CreditsByCategoryShape(rows: seq<StatsRow>, categories: Option<seq<string>>)
    ensures var out := CreditsByCategory(rows, categories);
      var valid := FilterValidProjects(rows, categories);
      && (forall i, j :: 0 <= i < j < |out| ==> StrLt(out[i].category, out[j].category))
      && (forall c :: (exists i :: 0 <= i < |out| && out[i].category == c) <==>
            exists x :: x in valid && x.category == Some(c))
      && |out| == |ProjectsByCategory(rows, categories)|
      && forall i :: 0 <= i < |out| ==>
           && out[i].category == ProjectsByCategory(rows, categories)[i].category
           && out[i].issued == SumPresent(IssuedOf(InCategory(valid, out[i].category)))
           && out[i].retired == SumPresent(RetiredOf(InCategory(valid, out[i].category)))
  {
    var valid := FilterValidProjects(rows, categories);
    var out := CreditsByCategory(rows, categories);
    var counts := ProjectsByCategory(rows, categories);
    ProjectsByCategoryShape(rows, categories);
    assert forall i :: 0 <= i < |out| ==> out[i].category == counts[i].category;
  }

  /** Issued and retired totals are non-negative when the rows' values are. */
  lemma {:induction false} SumPresentNonNegative(xs: seq<Option<int>>)
    requires forall i :: 0 <= i < |xs| && xs[i].Some? ==> xs[i].value >= 0
    ensures SumPresent(xs) >= 0
  {
    if xs != [] {
      SumPresentNonNegative(xs[..|xs| - 1]);
    }
  }
}
