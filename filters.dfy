/** `build_filters`: the optional filter fields of a request, turned into the
    ordered list of (attribute, value, operation, table) tuples the query
    builders apply one by one. */
module Filters {
  import opened Base
  import Calendar

  /** The attributes a filter can name. */
  datatype Attr =
    | Registry | Country | Protocol | Category | Type | IsCompliance | ListedAt | Issued | Retired
    | TransactionType | Vintage | TransactionDate
    | Source | Tags | Date | ProjectId

  /** The column name of an attribute, which is also the name that excludes it. */
  function Name(a: Attr): string
  {
    match a
    case Registry => "registry"
    case Country => "country"
    case Protocol => "protocol"
    case Category => "category"
    case Type => "type"
    case IsCompliance => "is_compliance"
    case ListedAt => "listed_at"
    case Issued => "issued"
    case Retired => "retired"
    case TransactionType => "transaction_type"
    case Vintage => "vintage"
    case TransactionDate => "transaction_date"
    case Source => "source"
    case Tags => "tags"
    case Date => "date"
    case ProjectId => "project_id"
  }

  /** The comparison a filter asks for: `ilike`, `ANY`, `ALL`, `==`, `>=`, `<=`. */
  datatype Op = ILike | AnyOf | AllOf | Eq | Ge | Le

  /** The table an attribute belongs to. */
  datatype Table = ProjectTable | CreditTable | ClipTable | ClipProjectTable

  /** A filter value as the request delivers it: a string or a list of strings,
      a flag, a number or a list of numbers, a date. */
  datatype Value = Str(s: string) | Strs(strs: seq<string>) | Flag(flag: bool) | Num(n: int) | Nums(nums: seq<int>) | Day(day: Calendar.Date)

  datatype Filter = Filter(attribute: Attr, value: Value, op: Op, table: Table)

  /** The project filter fields `build_filters` reads; `None` means not given. */
  datatype ProjectFilters = ProjectFilters(
    registry: Option<Value>, country: Option<Value>, protocol: Option<Value>,
    category: Option<Value>, projectType: Option<Value>, isCompliance: Option<Value>,
    listedAtFrom: Option<Value>, listedAtTo: Option<Value>,
    issuedMin: Option<Value>, issuedMax: Option<Value>,
    retiredMin: Option<Value>, retiredMax: Option<Value>)

  datatype CreditFilters = CreditFilters(
    transactionType: Option<Value>, vintage: Option<Value>,
    transactionDateFrom: Option<Value>, transactionDateTo: Option<Value>)

  datatype ClipFilters = ClipFilters(
    clipType: Option<Value>, source: Option<Value>, tags: Option<Value>,
    dateFrom: Option<Value>, dateTo: Option<Value>, projectId: Option<Value>)

  // ------------------------------------------------ reference definition

  /** One place a filter may come from: its attribute, operation and table, and the field's value. */
  datatype Slot = Slot(attribute: Attr, op: Op, table: Table, value: Option<Value>)

  function ProjectSlots(pf: ProjectFilters): seq<Slot>
  {
    [ Slot(Registry, ILike, ProjectTable, pf.registry),
      Slot(Country, ILike, ProjectTable, pf.country),
      Slot(Protocol, AnyOf, ProjectTable, pf.protocol),
      Slot(Category, ILike, ProjectTable, pf.category),
      Slot(Type, ILike, ProjectTable, pf.projectType),
      Slot(IsCompliance, Eq, ProjectTable, pf.isCompliance),
      Slot(ListedAt, Ge, ProjectTable, pf.listedAtFrom),
      Slot(ListedAt, Le, ProjectTable, pf.listedAtTo),
      Slot(Issued, Ge, ProjectTable, pf.issuedMin),
      Slot(Issued, Le, ProjectTable, pf.issuedMax),
      Slot(Retired, Ge, ProjectTable, pf.retiredMin),
      Slot(Retired, Le, ProjectTable, pf.retiredMax) ]
  }

  function CreditSlots(cf: CreditFilters): seq<Slot>
  {
    [ Slot(TransactionType, ILike, CreditTable, cf.transactionType),
      Slot(Vintage, Eq, CreditTable, cf.vintage),
      Slot(TransactionDate, Ge, CreditTable, cf.transactionDateFrom),
      Slot(TransactionDate, Le, CreditTable, cf.transactionDateTo) ]
  }

  function ClipSlots(clf: ClipFilters): seq<Slot>
  {
    [ Slot(Type, ILike, ClipTable, clf.clipType),
      Slot(Source, ILike, ClipTable, clf.source),
      Slot(Tags, AnyOf, ClipTable, clf.tags),
      Slot(Date, Ge, ClipTable, clf.dateFrom),
      Slot(Date, Le, ClipTable, clf.dateTo),
      Slot(ProjectId, Eq, ClipProjectTable, clf.projectId) ]
  }

  /** A slot gives a filter when its field is set (`is not None`, so a `False`
      flag counts) and its name is not excluded. */
  predicate Active(s: Slot, exclude: seq<string>)
  {
    Name(s.attribute) !in exclude && s.value.Some?
  }

  function FilterOf(s: Slot): Filter
    requires s.value.Some?
  {
    Filter(s.attribute, s.value.value, s.op, s.table)
  }

  /** The filter one slot contributes: none when the field is unset or its name is excluded. */
  function KeptOne(s: Slot, exclude: seq<string>): seq<Filter>
  {
    if Active(s, exclude) then [FilterOf(s)] else []
  }

  /** The filters of the first `n` slots, in slot order. */
  function KeptUpTo(slots: seq<Slot>, n: nat, exclude: seq<string>): seq<Filter>
    requires n <= |slots|
  {
    if n == 0 then [] else KeptUpTo(slots, n - 1, exclude) + KeptOne(slots[n - 1], exclude)
  }

  /** The filters of the given slots, in slot order. */
  function Kept(slots: seq<Slot>, exclude: seq<string>): seq<Filter>
  {
    KeptUpTo(slots, |slots|, exclude)
  }

  /** The slots of the project group, none when no project filters are given. */
  function ProjectGroup(pf: Option<ProjectFilters>): seq<Slot>
  {
    if pf.Some? then ProjectSlots(pf.value) else []
  }

  function CreditGroup(cf: Option<CreditFilters>): seq<Slot>
  {
    if cf.Some? then CreditSlots(cf.value) else []
  }

  function ClipGroup(clf: Option<ClipFilters>): seq<Slot>
  {
    if clf.Some? then ClipSlots(clf.value) else []
  }

  /** `exclude_filters or []`. */
  function Excluded(exclude: Option<seq<string>>): seq<string>
  {
    if exclude.Some? then exclude.value else []
  }

  /** What `build_filters` returns: the kept project filters, then credit, then clip. */
  function Expected(pf: Option<ProjectFilters>, cf: Option<CreditFilters>, clf: Option<ClipFilters>,
                    exclude: Option<seq<string>>): seq<Filter>
  {
    var ex := Excluded(exclude);
    Kept(ProjectGroup(pf), ex) + Kept(CreditGroup(cf), ex) + Kept(ClipGroup(clf), ex)
  }

  // ------------------------------------------------------- the operation

  /** One `if '<name>' not in exclude_filters and <field> is not None:
      filters.append((<name>, <field>, <op>, <model>))` of `build_filters`. A
      range block (`listed_at`, `issued`, `retired`, `transaction_date`,
      `date`) tests the name once and then each bound; that is the same as one
      such step per bound, since both steps test the same name. */
  method Keep(filters: seq<Filter>, s: Slot, exclude: seq<string>) returns (r: seq<Filter>)
    ensures r == filters + KeptOne(s, exclude)
  {
    r := filters;
    if Name(s.attribute) !in exclude && s.value.Some? {
      r := r + [Filter(s.attribute, s.value.value, s.op, s.table)];
    }
  }

  /** The project block of `build_filters`. */
  method ProjectBlock(filters: seq<Filter>, p: ProjectFilters, ex: seq<string>) returns (r: seq<Filter>)
    ensures r == filters + Kept(ProjectSlots(p), ex)
  {
    r := Keep(filters, Slot(Registry, ILike, ProjectTable, p.registry), ex);
    r := Keep(r, Slot(Country, ILike, ProjectTable, p.country), ex);
    r := Keep(r, Slot(Protocol, AnyOf, ProjectTable, p.protocol), ex);
    r := Keep(r, Slot(Category, ILike, ProjectTable, p.category), ex);
    r := Keep(r, Slot(Type, ILike, ProjectTable, p.projectType), ex);
    r := Keep(r, Slot(IsCompliance, Eq, ProjectTable, p.isCompliance), ex);
    r := Keep(r, Slot(ListedAt, Ge, ProjectTable, p.listedAtFrom), ex);
    r := Keep(r, Slot(ListedAt, Le, ProjectTable, p.listedAtTo), ex);
    r := Keep(r, Slot(Issued, Ge, ProjectTable, p.issuedMin), ex);
    r := Keep(r, Slot(Issued, Le, ProjectTable, p.issuedMax), ex);
    r := Keep(r, Slot(Retired, Ge, ProjectTable, p.retiredMin), ex);
    r := Keep(r, Slot(Retired, Le, ProjectTable, p.retiredMax), ex);
    KeptUnfold12(ProjectSlots(p), ex, filters);
  }

  /** The credit block of `build_filters`. */
  method CreditBlock(filters: seq<Filter>, c: CreditFilters, ex: seq<string>) returns (r: seq<Filter>)
    ensures r == filters + Kept(CreditSlots(c), ex)
  {
    r := Keep(filters, Slot(TransactionType, ILike, CreditTable, c.transactionType), ex);
    r := Keep(r, Slot(Vintage, Eq, CreditTable, c.vintage), ex);
    r := Keep(r, Slot(TransactionDate, Ge, CreditTable, c.transactionDateFrom), ex);
    r := Keep(r, Slot(TransactionDate, Le, CreditTable, c.transactionDateTo), ex);
    KeptUnfold4(CreditSlots(c), ex, filters);
  }

  /** The clip block of `build_filters`. */
  method ClipBlock(filters: seq<Filter>, c: ClipFilters, ex: seq<string>) returns (r: seq<Filter>)
    ensures r == filters + Kept(ClipSlots(c), ex)
  {
    r := Keep(filters, Slot(Type, ILike, ClipTable, c.clipType), ex);
    r := Keep(r, Slot(Source, ILike, ClipTable, c.source), ex);
    r := Keep(r, Slot(Tags, AnyOf, ClipTable, c.tags), ex);
    r := Keep(r, Slot(Date, Ge, ClipTable, c.dateFrom), ex);
    r := Keep(r, Slot(Date, Le, ClipTable, c.dateTo), ex);
    r := Keep(r, Slot(ProjectId, Eq, ClipProjectTable, c.projectId), ex);
    KeptUnfold6(ClipSlots(c), ex, filters);
  }

  /** `build_filters(project_filters=…, credit_filters=…, clip_filters=…, exclude_filters=…)`. */
  method BuildFilters(pf: Option<ProjectFilters>, cf: Option<CreditFilters>, clf: Option<ClipFilters>,
                      exclude: Option<seq<string>>) returns (filters: seq<Filter>)
    ensures filters == Expected(pf, cf, clf, exclude)
  {
    var ex := if exclude.Some? then exclude.value else [];
    filters := [];
    if pf.Some? {
      filters := ProjectBlock(filters, pf.value, ex);
      AppendEmpty(Kept(ProjectSlots(pf.value), ex));
    }
    if cf.Some? {
      filters := CreditBlock(filters, cf.value, ex);
    } else {
      AppendEmpty(filters);
    }
    if clf.Some? {
      filters := ClipBlock(filters, clf.value, ex);
    } else {
      AppendEmpty(filters);
    }
  }

  // ---------------------------------------------- unfolding the reference

  lemma KeptStep(slots: seq<Slot>, k: nat, exclude: seq<string>, pre: seq<Filter>)
    requires k < |slots|
    ensures pre + KeptUpTo(slots, k + 1, exclude) == pre + KeptUpTo(slots, k, exclude) + KeptOne(slots[k], exclude)
  {
  }

  lemma KeptUnfold4(slots: seq<Slot>, exclude: seq<string>, pre: seq<Filter>)
    requires |slots| == 4
    ensures pre + Kept(slots, exclude) ==
      pre + KeptOne(slots[0], exclude) + KeptOne(slots[1], exclude) + KeptOne(slots[2], exclude) + KeptOne(slots[3], exclude)
  {
    assert pre + KeptUpTo(slots, 0, exclude) == pre;
    KeptStep(slots, 0, exclude, pre);
    KeptStep(slots, 1, exclude, pre);
    KeptStep(slots, 2, exclude, pre);
    KeptStep(slots, 3, exclude, pre);
  }

  lemma KeptUnfold6(slots: seq<Slot>, exclude: seq<string>, pre: seq<Filter>)
    requires |slots| == 6
    ensures pre + Kept(slots, exclude) ==
      pre + KeptOne(slots[0], exclude) + KeptOne(slots[1], exclude) + KeptOne(slots[2], exclude) + KeptOne(slots[3], exclude)
      + KeptOne(slots[4], exclude) + KeptOne(slots[5], exclude)
  {
    assert pre + KeptUpTo(slots, 0, exclude) == pre;
    KeptStep(slots, 0, exclude, pre);
    KeptStep(slots, 1, exclude, pre);
    KeptStep(slots, 2, exclude, pre);
    KeptStep(slots, 3, exclude, pre);
    KeptStep(slots, 4, exclude, pre);
    KeptStep(slots, 5, exclude, pre);
  }

  lemma KeptUnfold12(slots: seq<Slot>, exclude: seq<string>, pre: seq<Filter>)
    requires |slots| == 12
    ensures pre + Kept(slots, exclude) ==
      pre + KeptOne(slots[0], exclude) + KeptOne(slots[1], exclude) + KeptOne(slots[2], exclude) + KeptOne(slots[3], exclude)
      + KeptOne(slots[4], exclude) + KeptOne(slots[5], exclude) + KeptOne(slots[6], exclude) + KeptOne(slots[7], exclude)
      + KeptOne(slots[8], exclude) + KeptOne(slots[9], exclude) + KeptOne(slots[10], exclude) + KeptOne(slots[11], exclude)
  {
    assert pre + KeptUpTo(slots, 0, exclude) == pre;
    KeptStep(slots, 0, exclude, pre);
    KeptStep(slots, 1, exclude, pre);
    KeptStep(slots, 2, exclude, pre);
    KeptStep(slots, 3, exclude, pre);
    KeptStep(slots, 4, exclude, pre);
    KeptStep(slots, 5, exclude, pre);
    KeptStep(slots, 6, exclude, pre);
    KeptStep(slots, 7, exclude, pre);
    KeptStep(slots, 8, exclude, pre);
    KeptStep(slots, 9, exclude, pre);
    KeptStep(slots, 10, exclude, pre);
    KeptStep(slots, 11, exclude, pre);
  }

  // ------------------------------------------- what the reference means

  /** The indices of the active slots among the first `n`, in increasing order. */
  function Origins(slots: seq<Slot>, n: nat, exclude: seq<string>): seq<nat>
    requires n <= |slots|
  {
    if n == 0 then []
    else Origins(slots, n - 1, exclude) + (if Active(slots[n - 1], exclude) then [n - 1] else [])
  }

  lemma {:induction false} OriginsLength(slots: seq<Slot>, n: nat, exclude: seq<string>)
    requires n <= |slots|
    ensures |Origins(slots, n, exclude)| == |KeptUpTo(slots, n, exclude)| <= n
  {
    if n > 0 {
      OriginsLength(slots, n - 1, exclude);
    }
  }

  /** The kept filters are the filters of the active slots, one per slot: the
      `i`-th filter comes from the `i`-th active slot. */
  lemma {:induction false} OriginsGive(slots: seq<Slot>, n: nat, exclude: seq<string>)
    requires n <= |slots|
    ensures |Origins(slots, n, exclude)| == |KeptUpTo(slots, n, exclude)|
    ensures forall i :: 0 <= i < |Origins(slots, n, exclude)| ==>
      Origins(slots, n, exclude)[i] < n && Active(slots[Origins(slots, n, exclude)[i]], exclude) &&
      KeptUpTo(slots, n, exclude)[i] == FilterOf(slots[Origins(slots, n, exclude)[i]])
  {
    OriginsLength(slots, n, exclude);
    if n > 0 {
      OriginsGive(slots, n - 1, exclude);
      var o0, k0 := Origins(slots, n - 1, exclude), KeptUpTo(slots, n - 1, exclude);
      var o, k := Origins(slots, n, exclude), KeptUpTo(slots, n, exclude);
      forall i | 0 <= i < |o|
        ensures o[i] < n && Active(slots[o[i]], exclude) && k[i] == FilterOf(slots[o[i]])
      {
        if i < |o0| {
          assert o[i] == o0[i] && k[i] == k0[i];
        } else {
          assert Active(slots[n - 1], exclude) && o[i] == n - 1 && k[i] == FilterOf(slots[n - 1]);
        }
      }
    }
  }

  /** The slots are taken in order. */
  lemma {:induction false} OriginsIncreasing(slots: seq<Slot>, n: nat, exclude: seq<string>)
    requires n <= |slots|
    ensures forall i :: 0 <= i < |Origins(slots, n, exclude)| ==> Origins(slots, n, exclude)[i] < n
    ensures forall i, j :: 0 <= i < j < |Origins(slots, n, exclude)| ==>
      Origins(slots, n, exclude)[i] < Origins(slots, n, exclude)[j]
  {
    if n > 0 {
      OriginsIncreasing(slots, n - 1, exclude);
    }
  }

  /** Every active slot is taken. */
  lemma {:induction false} OriginsComplete(slots: seq<Slot>, n: nat, exclude: seq<string>)
    requires n <= |slots|
    ensures forall k :: 0 <= k < n && Active(slots[k], exclude) ==> k in Origins(slots, n, exclude)
  {
    if n > 0 {
      OriginsComplete(slots, n - 1, exclude);
    }
  }

  /** A filter is kept exactly when some slot is active and gives it. */
  lemma KeptMembership(slots: seq<Slot>, exclude: seq<string>, f: Filter)
    ensures f in Kept(slots, exclude) <==>
      exists k :: 0 <= k < |slots| && Active(slots[k], exclude) && f == FilterOf(slots[k])
  {
    var n := |slots|;
    OriginsGive(slots, n, exclude);
    OriginsComplete(slots, n, exclude);
    var o := Origins(slots, n, exclude);
    if f in Kept(slots, exclude) {
      var i :| 0 <= i < |Kept(slots, exclude)| && Kept(slots, exclude)[i] == f;
      assert Active(slots[o[i]], exclude) && f == FilterOf(slots[o[i]]);
    }
    if exists k :: 0 <= k < |slots| && Active(slots[k], exclude) && f == FilterOf(slots[k]) {
      var k :| 0 <= k < |slots| && Active(slots[k], exclude) && f == FilterOf(slots[k]);
      assert k in o;
      var i :| 0 <= i < |o| && o[i] == k;
      assert Kept(slots, exclude)[i] == f;
    }
  }

  lemma {:induction false} KeptUpToSamePrefix(s: seq<Slot>, t: seq<Slot>, n: nat, exclude: seq<string>)
    requires n <= |s| && n <= |t| && s[..n] == t[..n]
    ensures KeptUpTo(s, n, exclude) == KeptUpTo(t, n, exclude)
  {
    if n > 0 {
      assert s[..n - 1] == t[..n - 1] && s[n - 1] == s[..n][n - 1];
      KeptUpToSamePrefix(s, t, n - 1, exclude);
    }
  }

  lemma KeptOfAppendPrefix(a: seq<Slot>, b: seq<Slot>, exclude: seq<string>)
    ensures KeptUpTo(a + b, |a|, exclude) == Kept(a, exclude)
  {
    assert (a + b)[..|a|] == a[..|a|];
    KeptUpToSamePrefix(a + b, a, |a|, exclude);
  }

  /** Keeping slots distributes over concatenation of slot lists. */
  lemma {:induction false} KeptAppend(a: seq<Slot>, b: seq<Slot>, m: nat, exclude: seq<string>)
    requires m <= |b|
    ensures KeptUpTo(a + b, |a| + m, exclude) == Kept(a, exclude) + KeptUpTo(b, m, exclude)
  {
    if m == 0 {
      KeptOfAppendPrefix(a, b, exclude);
      AppendEmpty(Kept(a, exclude));
    } else {
      KeptAppend(a, b, m - 1, exclude);
      var ab := a + b;
      assert ab[|a| + m - 1] == b[m - 1];
      calc {
        KeptUpTo(ab, |a| + m, exclude);
        KeptUpTo(ab, |a| + m - 1, exclude) + KeptOne(b[m - 1], exclude);
        Kept(a, exclude) + KeptUpTo(b, m - 1, exclude) + KeptOne(b[m - 1], exclude);
        Kept(a, exclude) + (KeptUpTo(b, m - 1, exclude) + KeptOne(b[m - 1], exclude));
      }
    }
  }

  /** All the slots `build_filters` looks at, in the order it looks at them. */
  function AllSlots(pf: Option<ProjectFilters>, cf: Option<CreditFilters>, clf: Option<ClipFilters>): seq<Slot>
  {
    ProjectGroup(pf) + CreditGroup(cf) + ClipGroup(clf)
  }

  /** `build_filters` keeps the active slots of all three groups, in order. */
  lemma ExpectedIsKept(pf: Option<ProjectFilters>, cf: Option<CreditFilters>, clf: Option<ClipFilters>,
                       exclude: Option<seq<string>>)
    ensures Expected(pf, cf, clf, exclude) == Kept(AllSlots(pf, cf, clf), Excluded(exclude))
  {
    var ex := Excluded(exclude);
    var p, c, l := ProjectGroup(pf), CreditGroup(cf), ClipGroup(clf);
    KeptAppend(p, c, |c|, ex);
    KeptAppend(p + c, l, |l|, ex);
  }

  /** With no filter objects there are no filters. */
  lemma ExpectedEmpty(exclude: Option<seq<string>>)
    ensures Expected(None, None, None, exclude) == []
  {
  }

  /** At most 12 + 4 + 6 filters. */
  lemma ExpectedLength(pf: Option<ProjectFilters>, cf: Option<CreditFilters>, clf: Option<ClipFilters>,
                       exclude: Option<seq<string>>)
    ensures |Expected(pf, cf, clf, exclude)| <= 22
  {
    ExpectedIsKept(pf, cf, clf, exclude);
    OriginsLength(AllSlots(pf, cf, clf), |AllSlots(pf, cf, clf)|, Excluded(exclude));
  }

  /** A filter is produced exactly when one of the fields is set and its name is
      not excluded; a flag set to `False` is set. */
  lemma ExpectedMembership(pf: Option<ProjectFilters>, cf: Option<CreditFilters>, clf: Option<ClipFilters>,
                           exclude: Option<seq<string>>, f: Filter)
    ensures f in Expected(pf, cf, clf, exclude) <==>
      exists k :: 0 <= k < |AllSlots(pf, cf, clf)| &&
        Name(AllSlots(pf, cf, clf)[k].attribute) !in Excluded(exclude) &&
        AllSlots(pf, cf, clf)[k].value.Some? && f == FilterOf(AllSlots(pf, cf, clf)[k])
  {
    ExpectedIsKept(pf, cf, clf, exclude);
    KeptMembership(AllSlots(pf, cf, clf), Excluded(exclude), f);
  }

  /** No filter carries an excluded name: excluding a range name drops both of
      its bounds, and excluding `type` drops the project and the clip type. */
  lemma ExpectedNotExcluded(pf: Option<ProjectFilters>, cf: Option<CreditFilters>, clf: Option<ClipFilters>,
                            exclude: Option<seq<string>>)
    ensures forall f :: f in Expected(pf, cf, clf, exclude) ==> Name(f.attribute) !in Excluded(exclude)
  {
    forall f | f in Expected(pf, cf, clf, exclude)
      ensures Name(f.attribute) !in Excluded(exclude)
    {
      ExpectedMembership(pf, cf, clf, exclude, f);
    }
  }

  /** Which operation goes with an attribute: `ilike` for text, `ANY` for the
      array columns, `==` for flags, numbers and the clip's project, and a
      bound (`>=` or `<=`) for the ranges. */
  predicate ProperOp(a: Attr, op: Op)
  {
    match a
    case Registry | Country | Category | Type | TransactionType | Source => op == ILike
    case Protocol | Tags => op == AnyOf
    case IsCompliance | Vintage | ProjectId => op == Eq
    case ListedAt | Issued | Retired | TransactionDate | Date => op == Ge || op == Le
  }

  /** Which model an attribute is read from; `type` names a project and a clip column. */
  predicate ProperTable(a: Attr, t: Table)
  {
    match a
    case Registry | Country | Protocol | Category | IsCompliance | ListedAt | Issued | Retired => t == ProjectTable
    case Type => t == ProjectTable || t == ClipTable
    case TransactionType | Vintage | TransactionDate => t == CreditTable
    case Source | Tags | Date => t == ClipTable
    case ProjectId => t == ClipProjectTable
  }

  /** The position of a model's group in the output: project, credit, clip. */
  function Rank(t: Table): nat
  {
    match t
    case ProjectTable => 0
    case CreditTable => 1
    case ClipTable | ClipProjectTable => 2
  }

  lemma ProjectShape(pf: Option<ProjectFilters>)
    ensures forall k :: 0 <= k < |ProjectGroup(pf)| ==>
      ProperOp(ProjectGroup(pf)[k].attribute, ProjectGroup(pf)[k].op) &&
      ProperTable(ProjectGroup(pf)[k].attribute, ProjectGroup(pf)[k].table) && Rank(ProjectGroup(pf)[k].table) == 0
  {
  }

  lemma CreditShape(cf: Option<CreditFilters>)
    ensures forall k :: 0 <= k < |CreditGroup(cf)| ==>
      ProperOp(CreditGroup(cf)[k].attribute, CreditGroup(cf)[k].op) &&
      ProperTable(CreditGroup(cf)[k].attribute, CreditGroup(cf)[k].table) && Rank(CreditGroup(cf)[k].table) == 1
  {
  }

  lemma ClipShape(clf: Option<ClipFilters>)
    ensures forall k :: 0 <= k < |ClipGroup(clf)| ==>
      ProperOp(ClipGroup(clf)[k].attribute, ClipGroup(clf)[k].op) &&
      ProperTable(ClipGroup(clf)[k].attribute, ClipGroup(clf)[k].table) && Rank(ClipGroup(clf)[k].table) == 2
  {
  }

  lemma AllSlotsShape(pf: Option<ProjectFilters>, cf: Option<CreditFilters>, clf: Option<ClipFilters>)
    ensures forall k :: 0 <= k < |AllSlots(pf, cf, clf)| ==>
      ProperOp(AllSlots(pf, cf, clf)[k].attribute, AllSlots(pf, cf, clf)[k].op) &&
      ProperTable(AllSlots(pf, cf, clf)[k].attribute, AllSlots(pf, cf, clf)[k].table)
    ensures forall i, j :: 0 <= i < j < |AllSlots(pf, cf, clf)| ==>
      Rank(AllSlots(pf, cf, clf)[i].table) <= Rank(AllSlots(pf, cf, clf)[j].table)
  {
    ProjectShape(pf);
    CreditShape(cf);
    ClipShape(clf);
    var p, c, l := ProjectGroup(pf), CreditGroup(cf), ClipGroup(clf);
    var all := AllSlots(pf, cf, clf);
    forall k | 0 <= k < |all|
      ensures ProperOp(all[k].attribute, all[k].op) && ProperTable(all[k].attribute, all[k].table)
      ensures Rank(all[k].table) == if k < |p| then 0 else if k < |p| + |c| then 1 else 2
    {
      if k < |p| {
        assert all[k] == p[k];
      } else if k < |p| + |c| {
        assert all[k] == c[k - |p|];
      } else {
        assert all[k] == l[k - |p| - |c|];
      }
    }
  }

  /** Every filter has the operation and the model that go with its attribute. */
  lemma ExpectedShape(pf: Option<ProjectFilters>, cf: Option<CreditFilters>, clf: Option<ClipFilters>,
                      exclude: Option<seq<string>>)
    ensures forall f :: f in Expected(pf, cf, clf, exclude) ==>
      ProperOp(f.attribute, f.op) && ProperTable(f.attribute, f.table)
  {
    AllSlotsShape(pf, cf, clf);
    forall f | f in Expected(pf, cf, clf, exclude)
      ensures ProperOp(f.attribute, f.op) && ProperTable(f.attribute, f.table)
    {
      ExpectedMembership(pf, cf, clf, exclude, f);
    }
  }

  /** Project filters come first, then credit filters, then clip filters. */
  lemma ExpectedGroupOrder(pf: Option<ProjectFilters>, cf: Option<CreditFilters>, clf: Option<ClipFilters>,
                           exclude: Option<seq<string>>)
    ensures forall i, j :: 0 <= i < j < |Expected(pf, cf, clf, exclude)| ==>
      Rank(Expected(pf, cf, clf, exclude)[i].table) <= Rank(Expected(pf, cf, clf, exclude)[j].table)
  {
    var all, ex := AllSlots(pf, cf, clf), Excluded(exclude);
    ExpectedIsKept(pf, cf, clf, exclude);
    AllSlotsShape(pf, cf, clf);
    OriginsGive(all, |all|, ex);
    OriginsIncreasing(all, |all|, ex);
    var o, e := Origins(all, |all|, ex), Expected(pf, cf, clf, exclude);
    forall i, j | 0 <= i < j < |e|
      ensures Rank(e[i].table) <= Rank(e[j].table)
    {
      assert e[i].table == all[o[i]].table && e[j].table == all[o[j]].table;
    }
  }
}
