/** The older package's `get_binned_data`: projects are binned by registration
    time into `num_bins` intervals of equal width, labelled by the years of
    their ends, and counted per (label, category). Instants are whole
    microseconds since 0001-01-01 00:00, the resolution of Python's
    `datetime`. */
module LegacyCharts {
  import opened Base
  import opened Strings
  import Calendar

  const MicrosPerDay: nat := 86_400_000_000

  /** `instant.year`. */
  function YearOf(t: nat): (y: nat)
    ensures y >= 1
  {
    Calendar.YearFrom(1, t / MicrosPerDay)
  }

  // ------------------------------------------------------------ bin width

  /** `timedelta / n` for `n > 0`: the quotient in microseconds, rounded to
      the nearest integer and ties to even. */
  function DivideAndRound(a: nat, n: int): (q: nat)
    requires n > 0
  {
    var q0, r := a / n, a % n;
    if 2 * r > n || (2 * r == n && q0 % 2 == 1) then q0 + 1 else q0
  }

  /** The width is the nearest whole microsecond to the exact quotient. */
  lemma DivideAndRoundNearest(a: nat, n: int)
    requires n > 0
    ensures 2 * (a - n * DivideAndRound(a, n)) <= n
    ensures 2 * (n * DivideAndRound(a, n) - a) <= n
    ensures a % n == 0 ==> n * DivideAndRound(a, n) == a
  {
    var q0, r := a / n, a % n;
    assert a == n * q0 + r;
    if 2 * r > n || (2 * r == n && q0 % 2 == 1) {
      assert n * (q0 + 1) == n * q0 + n;
    }
  }

  // ----------------------------------------------------------- conditions

  /** One WHEN of the CASE: `lo <= registered_at < hi` gives `tag`. */
  datatype Bin = Bin(lo: nat, hi: nat, tag: string)

  /** `f'{start.year}-{end.year}'`. */
  function Label(startYear: nat, endYear: nat): string
  {
    NatToString(startYear) + "-" + NatToString(endYear)
  }

  const Other := "other"

  /** The list comprehension over `range(num_bins)`; empty when `num_bins <= 0`. */
  function Conditions(min: nat, width: nat, numBins: int): (r: seq<Bin>)
    ensures |r| == if numBins > 0 then numBins else 0
    ensures forall i :: 0 <= i < |r| ==> r[i] == BinAt(min, width, i)
  {
    var n := if numBins > 0 then numBins else 0;
    seq(n, i requires 0 <= i < n => BinAt(min, width, i))
  }

  /** Bin `i`: from `min + i*width` to `min + (i+1)*width`, labelled with the
      years of both ends. */
  function BinAt(min: nat, width: nat, i: nat): (b: Bin)
    ensures b.lo == min + i * width && b.hi == b.lo + width
    ensures b.tag == Label(YearOf(b.lo), YearOf(b.hi))
  {
    var lo, hi := min + i * width, min + (i + 1) * width;
    assert hi == lo + width;
    Bin(lo, hi, Label(YearOf(lo), YearOf(hi)))
  }

  /** `case(conditions, else_='other')` on a nullable registration instant:
      the first WHEN that holds, and a NULL compares as false everywhere. */
  function Assign(bins: seq<Bin>, t: Option<nat>): string
  {
    if bins == [] || t.None? then Other
    else if bins[0].lo <= t.value < bins[0].hi then bins[0].tag
    else Assign(bins[1..], t)
  }

  /** The label of the first interval holding `t` is the one assigned. */
  lemma {:induction false} AssignFirst(bins: seq<Bin>, t: nat, k: nat)
    requires k < |bins| && bins[k].lo <= t < bins[k].hi
    requires forall j :: 0 <= j < k ==> !(bins[j].lo <= t < bins[j].hi)
    ensures Assign(bins, Some(t)) == bins[k].tag
    decreases k
  {
    if k > 0 {
      assert !(bins[0].lo <= t < bins[0].hi);
      AssignFirst(bins[1..], t, k - 1);
    }
  }

  /** No interval holds `t`: the project is labelled `other`. */
  lemma {:induction false} AssignNone(bins: seq<Bin>, t: nat)
    requires forall j :: 0 <= j < |bins| ==> !(bins[j].lo <= t < bins[j].hi)
    ensures Assign(bins, Some(t)) == Other
  {
    if bins != [] {
      assert !(bins[0].lo <= t < bins[0].hi);
      AssignNone(bins[1..], t);
    }
  }

  lemma MulLe(a: nat, b: nat, w: nat)
    requires a <= b
    ensures a * w <= b * w
  {
  }

  /** Bin `(t - min) / width` is the one whose interval holds `t`. */
  lemma QuotientBin(min: nat, width: nat, t: nat)
    requires width > 0 && min <= t
    ensures min + ((t - min) / width) * width <= t < min + ((t - min) / width) * width + width
  {
    var k := (t - min) / width;
    assert t - min == k * width + (t - min) % width;
  }

  lemma QuotientBelow(min: nat, width: nat, numBins: nat, t: nat)
    requires width > 0 && min <= t < min + numBins * width
    ensures (t - min) / width < numBins
  {
    var k := (t - min) / width;
    QuotientBin(min, width, t);
    if k >= numBins {
      MulLe(numBins, k, width);
    }
  }

  /** The index of the bin holding `t`, with the bounds that place it there. */
  lemma BinIndex(min: nat, width: nat, numBins: nat, t: nat) returns (k: nat)
    requires width > 0 && min <= t < min + numBins * width
    ensures k == (t - min) / width && k < numBins
    ensures min + k * width <= t < min + k * width + width
  {
    k := (t - min) / width;
    QuotientBin(min, width, t);
    QuotientBelow(min, width, numBins, t);
  }

  /** Every interval before bin `k` ends at or before bin `k` starts. */
  lemma BelowBin(min: nat, width: nat, j: nat, k: nat)
    requires j < k
    ensures min + j * width + width <= min + k * width
  {
    MulLe(j + 1, k, width);
  }

  /** A year label is never `other`. */
  lemma LabelNotOther(y1: nat, y2: nat)
    ensures Label(y1, y2) != Other
  {
    assert Label(y1, y2)[0] == NatToString(y1)[0];
  }

  /** Every bin below bin `k` misses an instant of bin `k`. */
  lemma BelowMisses(bins: seq<Bin>, min: nat, width: nat, k: nat, t: nat)
    requires k <= |bins| && forall i :: 0 <= i < k ==> bins[i] == BinAt(min, width, i)
    requires min + k * width <= t
    ensures forall j :: 0 <= j < k ==> !(bins[j].lo <= t < bins[j].hi)
  {
    forall j | 0 <= j < k ensures !(bins[j].lo <= t < bins[j].hi) {
      BelowBin(min, width, j, k);
    }
  }

  /** With a positive width, a project registered in `[min, min + n*width)`
      gets the label of bin `(t - min) / width`. */
  lemma AssignInRange(min: nat, width: nat, numBins: nat, t: nat)
    requires width > 0 && min <= t < min + numBins * width
    ensures (t - min) / width < numBins
    ensures Assign(Conditions(min, width, numBins), Some(t)) == Conditions(min, width, numBins)[(t - min) / width].tag
  {
    var bins := Conditions(min, width, numBins);
    var k := (t - min) / width;
    QuotientBin(min, width, t);
    QuotientBelow(min, width, numBins, t);
    BelowMisses(bins, min, width, k, t);
    AssignFirst(bins, t, k);
  }

  /** A project registered before `min` or at or after `min + n*width` is
      labelled `other`. */
  lemma AssignOutside(min: nat, width: nat, numBins: int, t: nat)
    requires t < min || (numBins >= 0 && t >= min + numBins * width)
    ensures Assign(Conditions(min, width, numBins), Some(t)) == Other
  {
    var bins := Conditions(min, width, numBins);
    if t < min {
      forall j | 0 <= j < |bins| ensures !(bins[j].lo <= t < bins[j].hi) {
        assert bins[j].lo >= min;
      }
    } else {
      BelowMisses(bins, min, width, |bins|, t);
    }
    AssignNone(bins, t);
  }

  // ------------------------------------------------------ query and count

  /** A row of the project table as the query sees it. */
  datatype LegacyProject = LegacyProject(id: int, registeredAt: Option<nat>, category: Option<string>)

  /** The registration instants that are not NULL. */
  function Registered(projects: seq<LegacyProject>): seq<nat>
  {
    if projects == [] then []
    else
      var rest := Registered(projects[1..]);
      if projects[0].registeredAt.Some? then [projects[0].registeredAt.value] + rest else rest
  }

  /** `Registered` holds exactly the instants of the projects that have one. */
  lemma {:induction false} RegisteredDates(projects: seq<LegacyProject>)
    ensures forall t :: t in Registered(projects) <==>
      exists i :: 0 <= i < |projects| && projects[i].registeredAt == Some(t)
  {
    if projects != [] {
      RegisteredDates(projects[1..]);
      assert forall i :: 1 <= i < |projects| ==> projects[i] == projects[1..][i - 1];
    }
  }

  function MinOf(xs: seq<nat>): (m: nat)
    requires xs != []
    ensures m in xs && forall x :: x in xs ==> m <= x
  {
    if |xs| == 1 then xs[0]
    else
      var m := MinOf(xs[1..]);
      assert xs == [xs[0]] + xs[1..];
      if xs[0] <= m then xs[0] else m
  }

  function MaxOf(xs: seq<nat>): (m: nat)
    requires xs != []
    ensures m in xs && forall x :: x in xs ==> x <= m
  {
    if |xs| == 1 then xs[0]
    else
      var m := MaxOf(xs[1..]);
      assert xs == [xs[0]] + xs[1..];
      if xs[0] >= m then xs[0] else m
  }

  /** A group key of the `GROUP BY 'bin', category`. */
  type Key = (string, Option<string>)

  /** The (label, category) of every project, in table order. */
  function Keys(bins: seq<Bin>, projects: seq<LegacyProject>): (r: seq<Key>)
    ensures |r| == |projects|
    ensures forall i :: 0 <= i < |r| ==> r[i] == (Assign(bins, projects[i].registeredAt), projects[i].category)
  {
    seq(|projects|, i requires 0 <= i < |projects| => (Assign(bins, projects[i].registeredAt), projects[i].category))
  }

  /** Counts one more row of group `k`: the existing entry goes up by one, or a
      new entry is appended. */
  function AddKey(groups: seq<(Key, nat)>, k: Key): (r: seq<(Key, nat)>)
  {
    if groups == [] then [(k, 1)]
    else if groups[0].0 == k then [(k, groups[0].1 + 1)] + groups[1..]
    else [groups[0]] + AddKey(groups[1..], k)
  }

  /** `GROUP BY` with `count(id)`: one entry per distinct key, in order of first
      appearance (SQL leaves the order open). */
  function GroupCount(keys: seq<Key>): seq<(Key, nat)>
  {
    if keys == [] then [] else AddKey(GroupCount(keys[..|keys| - 1]), keys[|keys| - 1])
  }

  /** The count of group `k`, or 0 when there is no such group. */
  function CountOf(groups: seq<(Key, nat)>, k: Key): nat
  {
    if groups == [] then 0 else if groups[0].0 == k then groups[0].1 else CountOf(groups[1..], k)
  }

  /** `sum(result[2] for result in binned_results)`. */
  function Total(groups: seq<(Key, nat)>): nat
  {
    if groups == [] then 0 else groups[0].1 + Total(groups[1..])
  }

  /** The keys of the groups, in order. */
  function GroupKeys(groups: seq<(Key, nat)>): (r: seq<Key>)
    ensures |r| == |groups|
  {
    seq(|groups|, i requires 0 <= i < |groups| => groups[i].0)
  }

  predicate DistinctKeys(groups: seq<(Key, nat)>)
  {
    var ks := GroupKeys(groups);
    forall i, j :: 0 <= i < j < |ks| ==> ks[i] != ks[j]
  }

  predicate Positive(groups: seq<(Key, nat)>)
  {
    forall i :: 0 <= i < |groups| ==> groups[i].1 >= 1
  }

  lemma {:induction false} AddKeyCounts(groups: seq<(Key, nat)>, k: Key, k': Key)
    ensures CountOf(AddKey(groups, k), k') == CountOf(groups, k') + (if k == k' then 1 else 0)
    ensures Total(AddKey(groups, k)) == Total(groups) + 1
  {
    if groups != [] && groups[0].0 != k {
      AddKeyCounts(groups[1..], k, k');
    }
  }

  /** A new key is appended; a known one leaves the keys as they are. */
  lemma {:induction false} AddKeyKeys(groups: seq<(Key, nat)>, k: Key)
    ensures GroupKeys(AddKey(groups, k)) ==
      if k in GroupKeys(groups) then GroupKeys(groups) else GroupKeys(groups) + [k]
    ensures Positive(groups) ==> Positive(AddKey(groups, k))
  {
    if groups != [] {
      var tail := groups[1..];
      assert GroupKeys(groups) == [groups[0].0] + GroupKeys(tail);
      if groups[0].0 != k {
        AddKeyKeys(tail, k);
        assert GroupKeys(AddKey(groups, k)) == [groups[0].0] + GroupKeys(AddKey(tail, k));
      } else {
        assert GroupKeys(AddKey(groups, k)) == [k] + GroupKeys(tail);
      }
    }
  }

  /** The groups are the distinct keys, each with its number of rows, and the
      counts add up to the number of rows. */
  lemma {:induction false} GroupCountCorrect(keys: seq<Key>)
    ensures DistinctKeys(GroupCount(keys)) && Positive(GroupCount(keys))
    ensures forall k :: CountOf(GroupCount(keys), k) == multiset(keys)[k]
    ensures forall k :: k in GroupKeys(GroupCount(keys)) <==> k in keys
    ensures Total(GroupCount(keys)) == |keys|
  {
    if keys != [] {
      var init, last := keys[..|keys| - 1], keys[|keys| - 1];
      GroupCountCorrect(init);
      assert keys == init + [last];
      AddKeyCorrect(GroupCount(init), init, last);
    }
  }

  /** Counting one more row keeps the groups an exact count of the rows seen. */
  lemma AddKeyCorrect(groups: seq<(Key, nat)>, seen: seq<Key>, k: Key)
    requires DistinctKeys(groups) && Positive(groups)
    requires forall k' :: CountOf(groups, k') == multiset(seen)[k']
    requires forall k' :: k' in GroupKeys(groups) <==> k' in seen
    requires Total(groups) == |seen|
    ensures DistinctKeys(AddKey(groups, k)) && Positive(AddKey(groups, k))
    ensures forall k' :: CountOf(AddKey(groups, k), k') == multiset(seen + [k])[k']
    ensures forall k' :: k' in GroupKeys(AddKey(groups, k)) <==> k' in seen + [k]
    ensures Total(AddKey(groups, k)) == |seen + [k]|
  {
    AddKeyKeys(groups, k);
    forall k' ensures CountOf(AddKey(groups, k), k') == multiset(seen + [k])[k'] {
      AddKeyCounts(groups, k, k');
    }
    AddKeyCounts(groups, k, k);
  }

  // ------------------------------------------------------------ the labels

  datatype LegacyError =
    | NoRegistrationDates   // `None - None` raises TypeError
    | ZeroBins              // `timedelta / 0` raises ZeroDivisionError
    | NoWhen                // a negative `num_bins` gives no condition, and the database rejects a CASE without a WHEN
    | CountMismatch         // the ValueError of the count check
    | BadLabel              // `int(part)` or the two-way unpacking raises ValueError

  /** `(int(part) for part in label.split('-')) if '-' in label else (None, None)`,
      unpacked into `start, end`. */
  function ParseLabel(s: string): Result<(Option<int>, Option<int>), LegacyError>
  {
    if '-' !in s then Ok((None, None))
    else
      var parts := Split(s, '-');
      if |parts| == 2 && ParseNat(parts[0]).Some? && ParseNat(parts[1]).Some? then
        Ok((Some(ParseNat(parts[0]).value), Some(ParseNat(parts[1]).value)))
      else Err(BadLabel)
  }

  lemma NoDash(n: nat)
    ensures '-' !in NatToString(n)
  {
    var s := NatToString(n);
    assert forall i :: 0 <= i < |s| ==> s[i] != '-';
  }

  /** Decoding a year label gives back its two years. */
  lemma ParseLabelRoundTrip(y1: nat, y2: nat)
    ensures ParseLabel(Label(y1, y2)) == Ok((Some(y1), Some(y2)))
  {
    var a, b := NatToString(y1), NatToString(y2);
    NoDash(y1);
    NoDash(y2);
    assert Label(y1, y2) == a + ['-'] + b;
    assert '-' in Label(y1, y2) by { assert Label(y1, y2)[|a|] == '-'; }
    SplitAtSeparator(a, '-', b);
    SplitNoSeparator(b, '-');
    ParseNatToString(y1);
    ParseNatToString(y2);
  }

  /** The `else_` label decodes to no years. */
  lemma ParseOther()
    ensures ParseLabel(Other) == Ok((None, None))
  {
  }

  /** An entry of the response. */
  datatype Registration = Registration(start: Option<int>, end: Option<int>, category: Option<string>, count: nat)

  /** The formatting loop, as a function: the first label that does not decode
      raises. */
  function FormatGroups(groups: seq<(Key, nat)>): (r: Result<seq<Registration>, LegacyError>)
    ensures r.Ok? ==> |r.value| == |groups|
  {
    if groups == [] then Ok([])
    else
      var front := FormatGroups(groups[..|groups| - 1]);
      var g := groups[|groups| - 1];
      if front.Err? then front
      else match ParseLabel(g.0.0)
        case Err(e) => Err(e)
        case Ok(se) => Ok(front.value + [Registration(se.0, se.1, g.0.1, g.1)])
  }

  /** `get_binned_data(session, num_bins)` over the rows of the project table. */
  function BinnedData(projects: seq<LegacyProject>, numBins: int): Result<seq<Registration>, LegacyError>
  {
    var registered := Registered(projects);
    if registered == [] then Err(NoRegistrationDates)
    else if numBins == 0 then Err(ZeroBins)
    else if numBins < 0 then Err(NoWhen)
    else
      var min, max := MinOf(registered), MaxOf(registered);
      Checked(projects, Grouped(projects, min, DivideAndRound(max - min, numBins), numBins))
  }

  /** The count check, then the formatting of the groups. */
  function Checked(projects: seq<LegacyProject>, groups: seq<(Key, nat)>): Result<seq<Registration>, LegacyError>
  {
    if Total(groups) != |projects| then Err(CountMismatch) else FormatGroups(groups)
  }

  /** The rows of the query's `GROUP BY` on the CASE label and the category,
      with `num_bins` intervals of the given width from `min`. */
  function Grouped(projects: seq<LegacyProject>, min: nat, width: nat, numBins: int): seq<(Key, nat)>
  {
    GroupCount(Keys(Conditions(min, width, numBins), projects))
  }

  /** Every label the CASE can produce decodes: a year label to its two years,
      `other` to none. */
  ghost predicate GoodLabel(s: string)
  {
    s == Other || exists y1: nat, y2: nat :: s == Label(y1, y2)
  }

  lemma AssignGood(bins: seq<Bin>, t: Option<nat>)
    requires forall i :: 0 <= i < |bins| ==> GoodLabel(bins[i].tag)
    ensures GoodLabel(Assign(bins, t))
  {
  }

  lemma {:induction false} FormatGood(groups: seq<(Key, nat)>)
    requires forall i :: 0 <= i < |groups| ==> GoodLabel(groups[i].0.0)
    ensures FormatGroups(groups).Ok?
  {
    if groups != [] {
      FormatGood(groups[..|groups| - 1]);
      var lbl := groups[|groups| - 1].0.0;
      if lbl != Other {
        var y1: nat, y2: nat :| lbl == Label(y1, y2);
        ParseLabelRoundTrip(y1, y2);
      }
    }
  }

  lemma ConditionsGood(min: nat, width: nat, numBins: int)
    ensures forall i :: 0 <= i < |Conditions(min, width, numBins)| ==> GoodLabel(Conditions(min, width, numBins)[i].tag)
  {
  }

  /** Every group's label is one the CASE produces. */
  lemma GroupsGood(bins: seq<Bin>, projects: seq<LegacyProject>)
    requires forall i :: 0 <= i < |bins| ==> GoodLabel(bins[i].tag)
    ensures forall i :: 0 <= i < |GroupCount(Keys(bins, projects))| ==> GoodLabel(GroupCount(Keys(bins, projects))[i].0.0)
  {
    var keys := Keys(bins, projects);
    var groups := GroupCount(keys);
    GroupCountCorrect(keys);
    forall i | 0 <= i < |groups| ensures GoodLabel(groups[i].0.0) {
      var k := groups[i].0;
      assert k == GroupKeys(groups)[i];
      assert k in keys;
      var j :| 0 <= j < |keys| && keys[j] == k;
      AssignGood(bins, projects[j].registeredAt);
    }
  }

  /** The count check never fails and no label fails to decode: the call
      fails only when no project has a registration date, when `num_bins` is 0
      (in Python), or when it is negative (in the database). */
  lemma BinnedDataErrors(projects: seq<LegacyProject>, numBins: int)
    ensures BinnedData(projects, numBins).Err? <==> Registered(projects) == [] || numBins <= 0
    ensures Registered(projects) != [] && numBins == 0 ==> BinnedData(projects, numBins) == Err(ZeroBins)
    ensures Registered(projects) != [] && numBins < 0 ==> BinnedData(projects, numBins) == Err(NoWhen)
  {
    if Registered(projects) != [] && numBins > 0 {
      BinnedDataSucceeds(projects, numBins);
    }
  }

  /** With a registration date and a positive `num_bins` the call succeeds. */
  lemma BinnedDataSucceeds(projects: seq<LegacyProject>, numBins: int)
    requires Registered(projects) != [] && numBins > 0
    ensures BinnedData(projects, numBins).Ok?
  {
    var registered := Registered(projects);
    var min, max := MinOf(registered), MaxOf(registered);
    var groups := Grouped(projects, min, DivideAndRound(max - min, numBins), numBins);
    GroupedFormats(projects, min, DivideAndRound(max - min, numBins), numBins);
    assert Checked(projects, groups) == FormatGroups(groups);
    assert BinnedData(projects, numBins) == Checked(projects, groups);
  }

  /** Whatever the bins, the groups count every project once and every label
      decodes. */
  lemma GroupedFormats(projects: seq<LegacyProject>, min: nat, width: nat, numBins: int)
    ensures Total(Grouped(projects, min, width, numBins)) == |projects|
    ensures FormatGroups(Grouped(projects, min, width, numBins)).Ok?
  {
    var bins := Conditions(min, width, numBins);
    var keys := Keys(bins, projects);
    GroupCountCorrect(keys);
    ConditionsGood(min, width, numBins);
    GroupsGood(bins, projects);
    FormatGood(GroupCount(keys));
  }

  /** The entries are the groups in order: each carries its group's category and
      count, and the years its label decodes to. */
  lemma {:induction false} FormatGroupsEntries(groups: seq<(Key, nat)>)
    requires FormatGroups(groups).Ok?
    ensures forall i :: 0 <= i < |groups| ==>
      && ParseLabel(groups[i].0.0) == Ok((FormatGroups(groups).value[i].start, FormatGroups(groups).value[i].end))
      && FormatGroups(groups).value[i].category == groups[i].0.1
      && FormatGroups(groups).value[i].count == groups[i].1
  {
    if groups != [] {
      var init := groups[..|groups| - 1];
      FormatGroupsEntries(init);
      assert forall i :: 0 <= i < |init| ==> init[i] == groups[i];
    }
  }

  /** The sum of the counts of a response. */
  function RegistrationTotal(rs: seq<Registration>): nat
  {
    if rs == [] then 0 else rs[0].count + RegistrationTotal(rs[1..])
  }

  lemma {:induction false} SameCounts(rs: seq<Registration>, groups: seq<(Key, nat)>)
    requires |rs| == |groups| && forall i :: 0 <= i < |rs| ==> rs[i].count == groups[i].1
    ensures RegistrationTotal(rs) == Total(groups)
  {
    if rs != [] {
      SameCounts(rs[1..], groups[1..]);
    }
  }

  /** Every project is counted exactly once: the counts of the response add up
      to the number of projects, those without a registration date included. */
  lemma BinnedDataTotal(projects: seq<LegacyProject>, numBins: int)
    requires BinnedData(projects, numBins).Ok?
    ensures RegistrationTotal(BinnedData(projects, numBins).value) == |projects|
  {
    var registered := Registered(projects);
    var min, max := MinOf(registered), MaxOf(registered);
    FormattedTotal(Grouped(projects, min, DivideAndRound(max - min, numBins), numBins));
  }

  /** The response's counts add up to the groups' total. */
  lemma FormattedTotal(groups: seq<(Key, nat)>)
    requires FormatGroups(groups).Ok?
    ensures RegistrationTotal(FormatGroups(groups).value) == Total(groups)
  {
    FormatGroupsEntries(groups);
    SameCounts(FormatGroups(groups).value, groups);
  }

  // --------------------------------------------------------- the operation

  /** `get_binned_data`: the CASE labels and the GROUP BY are the functions
      above; the count check and the formatting loop are as the source runs them. */
  method GetBinnedData(projects: seq<LegacyProject>, numBins: int) returns (r: Result<seq<Registration>, LegacyError>)
    ensures r == BinnedData(projects, numBins)
  {
    var registered := Registered(projects);
    if registered == [] {
      return Err(NoRegistrationDates);
    }
    if numBins == 0 {
      return Err(ZeroBins);
    }
    if numBins < 0 {
      return Err(NoWhen);
    }
    var min, max := MinOf(registered), MaxOf(registered);
    var width := DivideAndRound(max - min, numBins);
    var groups := Grouped(projects, min, width, numBins);
    if Total(groups) != |projects| {
      return Err(CountMismatch);
    }
    r := FormatLoop(groups);
  }

  /** The formatting loop of `get_binned_data`: each group's label is decoded
      into its years, and the first label that does not decode raises. */
  method FormatLoop(groups: seq<(Key, nat)>) returns (r: Result<seq<Registration>, LegacyError>)
    ensures r == FormatGroups(groups)
  {
    var formatted: seq<Registration> := [];
    var i := 0;
    while i < |groups|
      invariant 0 <= i <= |groups|
      invariant FormatGroups(groups[..i]) == Ok(formatted)
    {
      assert groups[..i + 1][..i] == groups[..i];
      var startEnd := ParseLabel(groups[i].0.0);
      if startEnd.Err? {
        r := Err(startEnd.error);
        FormatErrorSticks(groups, i + 1);
        return;
      }
      formatted := formatted + [Registration(startEnd.value.0, startEnd.value.1, groups[i].0.1, groups[i].1)];
      i := i + 1;
    }
    assert groups[..i] == groups;
    r := Ok(formatted);
  }

  /** Once a prefix fails to format, the whole list does, with the same error. */
  lemma {:induction false} FormatErrorSticks(groups: seq<(Key, nat)>, n: nat)
    requires n <= |groups| && FormatGroups(groups[..n]).Err?
    ensures FormatGroups(groups) == FormatGroups(groups[..n])
    decreases |groups| - n
  {
    if n < |groups| {
      assert groups[..n + 1][..n] == groups[..n];
      FormatErrorSticks(groups, n + 1);
    } else {
      assert groups[..n] == groups;
    }
  }

  // --------------------------------------------------------- the last bin

  /** As written, the latest project is labelled `other` whenever the width
      divides the span exactly: the last interval stops just short of `max`. */
  lemma LatestIsOther(min: nat, max: nat, numBins: int)
    requires min <= max && numBins > 0 && (max - min) % numBins == 0
    ensures Assign(Conditions(min, DivideAndRound(max - min, numBins), numBins), Some(max)) == Other
  {
    DivideAndRoundNearest(max - min, numBins);
    AssignOutside(min, DivideAndRound(max - min, numBins), numBins, max);
  }

  /** Fifteen bins over fifteen days: the project registered on the last day
      gets no year label. */
  lemma LatestIsOtherExample()
    ensures Assign(Conditions(0, MicrosPerDay, 15), Some(15 * MicrosPerDay)) == Other
    ensures DivideAndRound(15 * MicrosPerDay, 15) == MicrosPerDay
  {
    LatestIsOther(0, 15 * MicrosPerDay, 15);
  }

  /** The conditions with the last interval closed at `max`. */
  function ConditionsCorrected(min: nat, max: nat, width: nat, numBins: int): (r: seq<Bin>)
    ensures |r| == |Conditions(min, width, numBins)|
    ensures forall i :: 0 <= i < |r| - 1 ==> r[i] == BinAt(min, width, i)
    ensures r != [] ==> r[|r| - 1] == BinAt(min, width, |r| - 1).(hi := max + 1)
  {
    var bins := Conditions(min, width, numBins);
    if bins == [] then bins
    else bins[..|bins| - 1] + [Bin(bins[|bins| - 1].lo, max + 1, bins[|bins| - 1].tag)]
  }

  /** Below the last interval, the corrected conditions are the written ones. */
  lemma CorrectedCoversEarly(min: nat, max: nat, width: nat, numBins: nat, t: nat)
    requires numBins > 0 && width > 0 && min <= t < min + (numBins - 1) * width
    ensures Assign(ConditionsCorrected(min, max, width, numBins), Some(t)) != Other
  {
    var bins := ConditionsCorrected(min, max, width, numBins);
    var k := BinIndex(min, width, numBins - 1, t);
    BelowMisses(bins, min, width, k, t);
    LabelNotOther(YearOf(bins[k].lo), YearOf(bins[k].hi));
    AssignFirst(bins, t, k);
  }

  /** From the start of the last interval to `max`, the closed last interval applies. */
  lemma CorrectedCoversLate(min: nat, max: nat, width: nat, numBins: nat, t: nat)
    requires numBins > 0 && min + (numBins - 1) * width <= t <= max
    ensures Assign(ConditionsCorrected(min, max, width, numBins), Some(t)) != Other
  {
    var bins := ConditionsCorrected(min, max, width, numBins);
    var plain := Conditions(min, width, numBins);
    var last := numBins - 1;
    BelowMisses(bins, min, width, last, t);
    LabelNotOther(YearOf(plain[last].lo), YearOf(plain[last].hi));
    AssignFirst(bins, t, last);
  }

  /** With the last interval closed at `max`, every project registered between
      `min` and `max` gets a year label, whatever the rounding of the width. */
  lemma CorrectedCovers(min: nat, max: nat, numBins: nat, t: nat)
    requires min <= t <= max && numBins > 0
    ensures Assign(ConditionsCorrected(min, max, DivideAndRound(max - min, numBins), numBins), Some(t)) != Other
  {
    var width := DivideAndRound(max - min, numBins);
    if t < min + (numBins - 1) * width {
      CorrectedCoversEarly(min, max, width, numBins, t);
    } else {
      CorrectedCoversLate(min, max, width, numBins, t);
    }
  }

  /** The corrected conditions agree with the written ones on every project
      registered before the last interval's end, except on `max` itself. */
  lemma CorrectedAgrees(min: nat, max: nat, width: nat, numBins: int, t: nat)
    requires numBins > 0 && t < min + numBins * width && t <= max
    ensures Assign(ConditionsCorrected(min, max, width, numBins), Some(t)) ==
      Assign(Conditions(min, width, numBins), Some(t))
  {
    var bins := ConditionsCorrected(min, max, width, numBins);
    var plain := Conditions(min, width, numBins);
    forall j | 0 <= j < |bins|
      ensures bins[j].tag == plain[j].tag && ((bins[j].lo <= t < bins[j].hi) <==> (plain[j].lo <= t < plain[j].hi))
    {
    }
    SameTests(bins, plain, Some(t));
  }

  lemma {:induction false} SameTests(a: seq<Bin>, b: seq<Bin>, t: Option<nat>)
    requires |a| == |b| && t.Some?
    requires forall j :: 0 <= j < |a| ==> a[j].tag == b[j].tag
    requires forall j :: 0 <= j < |a| ==> ((a[j].lo <= t.value < a[j].hi) <==> (b[j].lo <= t.value < b[j].hi))
    ensures Assign(a, t) == Assign(b, t)
  {
    if a != [] {
      SameTests(a[1..], b[1..], t);
    }
  }
}
