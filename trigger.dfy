/** The script that tells a running API to load the latest data files: it
    finds the daily files of each category in the bucket, today's or else
    yesterday's, adds the weekly clip summaries, and posts the list to the
    files endpoint with the environment's API key. The bucket's existence
    test, the clock and the process environment are parameters. */
module Trigger {
  import opened Base
  import opened Strings
  import opened Calendar
  import Charts

  /** One `{'category': …, 'url': …}` entry of the posted list. */
  datatype Entry = Entry(category: string, url: string)

  /** `generate_path`: the bucket without its trailing slashes, then
      `/final/<date>/<name>.parquet`. */
  function GeneratePath(date: Date, bucket: string, name: string): (p: string)
    requires Valid(date)
    ensures var b := StripRightChar(bucket, '/');
      |b| <= |p| && p[..|b|] == b && (b == [] || b[|b| - 1] != '/') &&
      p[|b|..] == "/final/" + Charts.IsoDate(date) + "/" + name + ".parquet"
  {
    var b := StripRightChar(bucket, '/');
    var tail := "/final/" + Charts.IsoDate(date) + "/" + name + ".parquet";
    assert (b + tail)[..|b|] == b && (b + tail)[|b|..] == tail;
    b + tail
  }

  /** The four daily items: the category the API files it under, and the
      name of the file in the bucket. */
  const Items: seq<(string, string)> := [
    ("credits", "credits-augmented"),
    ("projects", "projects-augmented"),
    ("clips", "curated-clips"),
    ("projecttypes", "project-types")]

  /** The daily entry of an item: today's file if it exists, else
      yesterday's, else none. */
  function DailyEntry(item: (string, string), bucket: string, today: Date, yesterday: Date,
                      exists_: string -> bool): (e: Option<Entry>)
    requires Valid(today) && Valid(yesterday)
    ensures e.Some? <==> exists_(GeneratePath(today, bucket, item.1)) || exists_(GeneratePath(yesterday, bucket, item.1))
    ensures e.Some? ==> e.value.category == item.0 && exists_(e.value.url)
    ensures e.Some? && exists_(GeneratePath(today, bucket, item.1)) ==> e.value.url == GeneratePath(today, bucket, item.1)
    ensures e.Some? && !exists_(GeneratePath(today, bucket, item.1)) ==> e.value.url == GeneratePath(yesterday, bucket, item.1)
  {
    var latest := GeneratePath(today, bucket, item.1);
    var previous := GeneratePath(yesterday, bucket, item.1);
    if exists_(latest) then Some(Entry(item.0, latest))
    else if exists_(previous) then Some(Entry(item.0, previous))
    else None
  }

  function DailyEntries(items: seq<(string, string)>, bucket: string, today: Date, yesterday: Date,
                        exists_: string -> bool): (r: seq<Entry>)
    requires Valid(today) && Valid(yesterday)
    ensures |r| <= |items|
  {
    if items == [] then []
    else
      var init := DailyEntries(items[..|items| - 1], bucket, today, yesterday, exists_);
      match DailyEntry(items[|items| - 1], bucket, today, yesterday, exists_)
      case Some(e) => init + [e]
      case None => init
  }

  /** The daily entries keep the order of the items, one per item whose file
      exists. */
  lemma {:induction false} DailyEntriesShape(items: seq<(string, string)>, bucket: string, today: Date, yesterday: Date,
                                             exists_: string -> bool)
    requires Valid(today) && Valid(yesterday)
    ensures DailyEntries(items, bucket, today, yesterday, exists_) ==
      seq(|Found(items, bucket, today, yesterday, exists_)|,
          k requires 0 <= k < |Found(items, bucket, today, yesterday, exists_)| =>
            DailyEntry(Found(items, bucket, today, yesterday, exists_)[k], bucket, today, yesterday, exists_).value)
  {
    if items != [] {
      DailyEntriesShape(items[..|items| - 1], bucket, today, yesterday, exists_);
    }
  }

  /** The items that get an entry, in order. */
  function Found(items: seq<(string, string)>, bucket: string, today: Date, yesterday: Date,
                 exists_: string -> bool): (r: seq<(string, string)>)
    requires Valid(today) && Valid(yesterday)
    ensures forall k :: 0 <= k < |r| ==> DailyEntry(r[k], bucket, today, yesterday, exists_).Some?
    ensures forall x :: x in r <==> x in items && DailyEntry(x, bucket, today, yesterday, exists_).Some?
  {
    if items == [] then []
    else
      var init := Found(items[..|items| - 1], bucket, today, yesterday, exists_);
      var x := items[|items| - 1];
      assert items == items[..|items| - 1] + [x];
      if DailyEntry(x, bucket, today, yesterday, exists_).Some? then init + [x] else init
  }

  // ------------------------------------------------------------ weekly summaries

  /** The first weekly summary, Tuesday 2024-02-06. */
  const WeeklyStart := Date(2024, 2, 6)

  /** `pd.date_range(start, end, freq='W-TUE', inclusive='both')` from a
      Tuesday: every seventh day up to `end`. */
  function Tuesdays(start: Date, end: Date): (r: seq<Date>)
    requires Valid(start) && Valid(end)
    ensures forall k :: 0 <= k < |r| ==> Valid(r[k])
    decreases DayNumber(end) - DayNumber(start) + 1
  {
    if DayNumber(start) > DayNumber(end) then []
    else [start] + Tuesdays(AddDays(start, 7), end)
  }

  /** The range starts at `start`, steps by seven days, stays within `end`
      and stops less than a week before it. */
  lemma {:induction false} TuesdaysShape(start: Date, end: Date)
    requires Valid(start) && Valid(end)
    ensures var r := Tuesdays(start, end);
      (r == [] <==> DayNumber(start) > DayNumber(end)) &&
      (r != [] ==> r[0] == start && DayNumber(r[|r| - 1]) + 7 > DayNumber(end)) &&
      (forall k :: 0 <= k < |r| ==> DayNumber(start) <= DayNumber(r[k]) <= DayNumber(end)) &&
      (forall k :: 0 < k < |r| ==> DayNumber(r[k]) == DayNumber(r[k - 1]) + 7)
    decreases DayNumber(end) - DayNumber(start) + 1
  {
    if DayNumber(start) <= DayNumber(end) {
      var next := AddDays(start, 7);
      TuesdaysShape(next, end);
      var rest := Tuesdays(next, end);
      assert Tuesdays(start, end) == [start] + rest;
      WeeklyCons(start, next, rest, end);
    }
  }

  /** Putting `start` before a weekly run from the date a week later keeps
      the shape of a weekly run. */
  lemma WeeklyCons(start: Date, next: Date, rest: seq<Date>, end: Date)
    requires Valid(start) && Valid(next) && Valid(end) && forall k :: 0 <= k < |rest| ==> Valid(rest[k])
    requires DayNumber(next) == DayNumber(start) + 7 && DayNumber(start) <= DayNumber(end)
    requires rest == [] <==> DayNumber(next) > DayNumber(end)
    requires rest != [] ==> rest[0] == next && DayNumber(rest[|rest| - 1]) + 7 > DayNumber(end)
    requires forall k :: 0 <= k < |rest| ==> DayNumber(next) <= DayNumber(rest[k]) <= DayNumber(end)
    requires forall k :: 0 < k < |rest| ==> DayNumber(rest[k]) == DayNumber(rest[k - 1]) + 7
    ensures var r := [start] + rest;
      (r != [] ==> r[0] == start && DayNumber(r[|r| - 1]) + 7 > DayNumber(end)) &&
      (forall k :: 0 <= k < |r| ==> DayNumber(start) <= DayNumber(r[k]) <= DayNumber(end)) &&
      (forall k :: 0 < k < |r| ==> DayNumber(r[k]) == DayNumber(r[k - 1]) + 7)
  {
    var r := [start] + rest;
    assert forall k :: 1 <= k < |r| ==> r[k] == rest[k - 1];
  }

  /** The ISO week of a date, named by its Monday: two dates have the same
      ISO (year, week) exactly when they have the same Monday. */
  function WeekOf(d: Date): int
    requires Valid(d)
  {
    DayNumber(d) - Weekday(d)
  }

  function WeeklyPath(d: Date, bucket: string): string
    requires Valid(d)
  {
    GeneratePath(d, bucket, "weekly-summary-clips")
  }

  /** The weekly loop, for any naming of weeks and any test of presence: a
      date is kept when its week has nothing yet and it is present. */
  function OnePerWeek(dates: seq<Date>, week: Date -> int, present: Date -> bool, added: set<int>): seq<Date>
  {
    if dates == [] then []
    else
      var d := dates[0];
      if week(d) !in added && present(d) then [d] + OnePerWeek(dates[1..], week, present, added + {week(d)})
      else OnePerWeek(dates[1..], week, present, added)
  }

  /** Every kept date is present and from the list, its week had nothing
      before, and no two kept dates share a week. */
  lemma {:induction false} OnePerWeekSound(dates: seq<Date>, week: Date -> int, present: Date -> bool, added: set<int>)
    ensures forall k :: 0 <= k < |OnePerWeek(dates, week, present, added)| ==>
      OnePerWeek(dates, week, present, added)[k] in dates &&
      present(OnePerWeek(dates, week, present, added)[k]) &&
      week(OnePerWeek(dates, week, present, added)[k]) !in added
    ensures forall j, k :: 0 <= j < k < |OnePerWeek(dates, week, present, added)| ==>
      week(OnePerWeek(dates, week, present, added)[j]) != week(OnePerWeek(dates, week, present, added)[k])
  {
    if dates != [] {
      var d := dates[0];
      var tail := dates[1..];
      assert forall x :: x in tail ==> x in dates;
      var r := OnePerWeek(dates, week, present, added);
      if week(d) !in added && present(d) {
        var more := added + {week(d)};
        OnePerWeekSound(tail, week, present, more);
        var rest := OnePerWeek(tail, week, present, more);
        assert r == [d] + rest;
        forall k | 1 <= k < |r| ensures r[k] in dates && present(r[k]) && week(r[k]) !in more {
          assert r[k] == rest[k - 1];
          assert rest[k - 1] in tail && present(rest[k - 1]) && week(rest[k - 1]) !in more;
        }
        forall j, k | 0 <= j < k < |r| ensures week(r[j]) != week(r[k]) {
          if j > 0 {
            assert r[j] == rest[j - 1] && r[k] == rest[k - 1];
          }
        }
      } else {
        OnePerWeekSound(tail, week, present, added);
        assert r == OnePerWeek(tail, week, present, added);
      }
    }
  }

  /** When no two dates share a week and none has been added, every present
      date is kept. */
  lemma {:induction false} OnePerWeekComplete(dates: seq<Date>, week: Date -> int, present: Date -> bool, added: set<int>)
    requires DistinctWeeks(dates, week)
    requires forall k :: 0 <= k < |dates| ==> week(dates[k]) !in added
    ensures forall d :: d in dates && present(d) ==> d in OnePerWeek(dates, week, present, added)
  {
    if dates != [] {
      var d := dates[0];
      var tail := dates[1..];
      assert forall k :: 0 <= k < |tail| ==> tail[k] == dates[k + 1];
      if present(d) {
        OnePerWeekComplete(tail, week, present, added + {week(d)});
      } else {
        OnePerWeekComplete(tail, week, present, added);
      }
    }
  }

  /** No two of the dates share a week. */
  predicate DistinctWeeks(dates: seq<Date>, week: Date -> int)
  {
    forall j, k :: 0 <= j < k < |dates| ==> week(dates[j]) != week(dates[k])
  }

  /** Numbers that step by seven are at least seven apart. */
  lemma {:induction false} StepsApart(xs: seq<int>)
    requires forall k :: 0 < k < |xs| ==> xs[k] == xs[k - 1] + 7
    ensures forall j, k :: 0 <= j < k < |xs| ==> xs[k] >= xs[j] + 7
  {
    if |xs| > 1 {
      var init := xs[..|xs| - 1];
      StepsApart(init);
      assert forall k :: 0 <= k < |init| ==> init[k] == xs[k];
      var last := |xs| - 1;
      forall j | 0 <= j < last ensures xs[last] >= xs[j] + 7 {
        if j < last - 1 {
          assert init[last - 1] >= init[j] + 7;
        }
      }
    }
  }

  /** Dates a week apart lie in different ISO weeks. */
  lemma WeekApart(a: Date, b: Date)
    requires Valid(a) && Valid(b) && DayNumber(b) >= DayNumber(a) + 7
    ensures WeekOf(a) != WeekOf(b)
  {
  }

  /** No two dates of a weekly range share an ISO week. */
  lemma TuesdaysDistinctWeeks(start: Date, end: Date)
    requires Valid(start) && Valid(end)
    ensures DistinctWeeks(Tuesdays(start, end), WeekKey)
  {
    var r := Tuesdays(start, end);
    TuesdaysShape(start, end);
    var days := seq(|r|, k requires 0 <= k < |r| => DayNumber(r[k]));
    StepsApart(days);
    forall j, k | 0 <= j < k < |r| ensures DayNumber(r[k]) >= DayNumber(r[j]) + 7 {
      assert days[k] >= days[j] + 7;
    }
    WeeksApart(r);
  }

  /** Valid dates at least a week apart from each other lie in distinct weeks. */
  lemma WeeksApart(r: seq<Date>)
    requires forall k :: 0 <= k < |r| ==> Valid(r[k])
    requires forall j, k :: 0 <= j < k < |r| ==> DayNumber(r[k]) >= DayNumber(r[j]) + 7
    ensures DistinctWeeks(r, WeekKey)
  {
    forall j, k | 0 <= j < k < |r| ensures WeekKey(r[j]) != WeekKey(r[k]) {
      WeekApart(r[j], r[k]);
    }
  }

  /** The week of a weekly date, total so that it can be passed around. */
  function WeekKey(d: Date): int
  {
    if Valid(d) then WeekOf(d) else 0
  }

  /** Whether a weekly summary of that date is in the bucket. */
  function SummaryPresent(bucket: string, exists_: string -> bool): Date -> bool
  {
    d => Valid(d) && exists_(WeeklyPath(d, bucket))
  }

  function WeeklyEntries(dates: seq<Date>, bucket: string): (r: seq<Entry>)
    ensures |r| == |dates|
    ensures forall k :: 0 <= k < |r| && Valid(dates[k]) ==> r[k] == Entry("clips", WeeklyPath(dates[k], bucket))
  {
    seq(|dates|, k requires 0 <= k < |dates| =>
      if Valid(dates[k]) then Entry("clips", WeeklyPath(dates[k], bucket)) else Entry("clips", ""))
  }

  /** The list `get_latest` returns: the daily entries, then the weekly ones. */
  function Latest(bucket: string, today: Date, exists_: string -> bool): seq<Entry>
    requires Valid(today) && DayNumber(today) > 0
  {
    DailyEntries(Items, bucket, today, PrevDay(today), exists_) +
      WeeklyEntries(OnePerWeek(Tuesdays(WeeklyStart, today), WeekKey, SummaryPresent(bucket, exists_), {}), bucket)
  }

  /** The loop over the four items. */
  method DailyLatest(bucket: string, today: Date, yesterday: Date, exists_: string -> bool) returns (data: seq<Entry>)
    requires Valid(today) && Valid(yesterday)
    ensures data == DailyEntries(Items, bucket, today, yesterday, exists_)
  {
    data := [];
    for i := 0 to |Items|
      invariant data == DailyEntries(Items[..i], bucket, today, yesterday, exists_)
    {
      DailyStep(Items, i, bucket, today, yesterday, exists_);
      var (key, name) := Items[i];
      var latestPath := GeneratePath(today, bucket, name);
      var previousPath := GeneratePath(yesterday, bucket, name);
      if exists_(latestPath) {
        data := data + [Entry(key, latestPath)];
      } else if exists_(previousPath) {
        data := data + [Entry(key, previousPath)];
      }
    }
    assert Items[..|Items|] == Items;
  }

  /** One turn of the loop over the items: the item's entry, if any, is appended. */
  lemma DailyStep(items: seq<(string, string)>, i: nat, bucket: string, today: Date, yesterday: Date, exists_: string -> bool)
    requires i < |items| && Valid(today) && Valid(yesterday)
    ensures DailyEntries(items[..i + 1], bucket, today, yesterday, exists_) ==
      DailyEntries(items[..i], bucket, today, yesterday, exists_) +
        match DailyEntry(items[i], bucket, today, yesterday, exists_)
        case Some(e) => [e]
        case None => []
  {
    assert items[..i + 1][..i] == items[..i];
  }

  /** The loop over the weekly dates with the set of weeks already added. */
  method WeeklySummaries(dates: seq<Date>, bucket: string, exists_: string -> bool) returns (data: seq<Entry>)
    requires forall k :: 0 <= k < |dates| ==> Valid(dates[k])
    ensures data == WeeklyEntries(OnePerWeek(dates, WeekKey, SummaryPresent(bucket, exists_), {}), bucket)
  {
    data := [];
    var added: set<int> := {};
    ghost var chosen: seq<Date> := [];
    for i := 0 to |dates|
      invariant chosen + OnePerWeek(dates[i..], WeekKey, SummaryPresent(bucket, exists_), added) ==
        OnePerWeek(dates, WeekKey, SummaryPresent(bucket, exists_), {})
      invariant data == WeeklyEntries(chosen, bucket)
    {
      var entry := dates[i];
      WeeklyStep(dates, i, bucket, exists_, added, chosen);
      var week := WeekOf(entry);
      if week !in added {
        var path := WeeklyPath(entry, bucket);
        if exists_(path) {
          WeeklyEntriesSnoc(chosen, entry, bucket);
          data := data + [Entry("clips", path)];
          added := added + {week};
          chosen := chosen + [entry];
        }
      }
    }
    assert dates[|dates|..] == [];
  }

  /** One turn of the loop of `get_latest`: the date is kept exactly when its
      week is new and its summary exists. */
  lemma WeeklyStep(dates: seq<Date>, i: nat, bucket: string, exists_: string -> bool, added: set<int>, chosen: seq<Date>)
    requires i < |dates| && Valid(dates[i])
    ensures var d, present := dates[i], SummaryPresent(bucket, exists_);
      chosen + OnePerWeek(dates[i..], WeekKey, present, added) ==
        if WeekOf(d) !in added && exists_(WeeklyPath(d, bucket))
        then (chosen + [d]) + OnePerWeek(dates[i + 1..], WeekKey, present, added + {WeekOf(d)})
        else chosen + OnePerWeek(dates[i + 1..], WeekKey, present, added)
  {
    var d, present := dates[i], SummaryPresent(bucket, exists_);
    OnePerWeekCons(dates, i, WeekKey, present, added);
    assert WeekKey(d) == WeekOf(d);
    assert present(d) == exists_(WeeklyPath(d, bucket));
    var rest := OnePerWeek(dates[i + 1..], WeekKey, present, added + {WeekOf(d)});
    assert (chosen + [d]) + rest == chosen + ([d] + rest);
  }

  /** One step of `OnePerWeek` along a list. */
  lemma OnePerWeekCons(dates: seq<Date>, i: nat, week: Date -> int, present: Date -> bool, added: set<int>)
    requires i < |dates|
    ensures OnePerWeek(dates[i..], week, present, added) ==
      if week(dates[i]) !in added && present(dates[i])
      then [dates[i]] + OnePerWeek(dates[i + 1..], week, present, added + {week(dates[i])})
      else OnePerWeek(dates[i + 1..], week, present, added)
  {
    assert dates[i..][0] == dates[i] && dates[i..][1..] == dates[i + 1..];
  }

  lemma WeeklyEntriesSnoc(dates: seq<Date>, d: Date, bucket: string)
    requires Valid(d)
    ensures WeeklyEntries(dates + [d], bucket) == WeeklyEntries(dates, bucket) + [Entry("clips", WeeklyPath(d, bucket))]
  {
    var a, b := WeeklyEntries(dates + [d], bucket), WeeklyEntries(dates, bucket) + [Entry("clips", WeeklyPath(d, bucket))];
    forall k | 0 <= k < |a| ensures a[k] == b[k] {
      if k < |dates| {
        assert (dates + [d])[k] == dates[k];
      }
    }
  }

  /** `get_latest`. */
  method GetLatest(bucket: string, today: Date, exists_: string -> bool) returns (data: seq<Entry>)
    requires Valid(today) && DayNumber(today) > 0
    ensures data == Latest(bucket, today, exists_)
  {
    var daily := DailyLatest(bucket, today, PrevDay(today), exists_);
    var weekly := WeeklySummaries(Tuesdays(WeeklyStart, today), bucket, exists_);
    data := daily + weekly;
  }

  /** The weekly entries are filed as clips and come after the daily ones,
      of which there is at most one per item. */
  lemma LatestOrder(bucket: string, today: Date, exists_: string -> bool)
    requires Valid(today) && DayNumber(today) > 0
    ensures var daily := DailyEntries(Items, bucket, today, PrevDay(today), exists_);
      var latest := Latest(bucket, today, exists_);
      |daily| <= 4 && latest[..|daily|] == daily &&
      forall k :: |daily| <= k < |latest| ==> latest[k].category == "clips"
  {
  }

  /** Each weekly entry is a date of the range whose summary exists, and no
      two fall in one ISO week. */
  lemma LatestWeeklySound(bucket: string, today: Date, exists_: string -> bool)
    requires Valid(today) && DayNumber(today) > 0
    ensures var dates := Tuesdays(WeeklyStart, today);
      var weekly := OnePerWeek(dates, WeekKey, SummaryPresent(bucket, exists_), {});
      (forall k :: 0 <= k < |weekly| ==> weekly[k] in dates && Valid(weekly[k]) && exists_(WeeklyPath(weekly[k], bucket))) &&
      (forall j, k :: 0 <= j < k < |weekly| ==> WeekKey(weekly[j]) != WeekKey(weekly[k]))
  {
    OnePerWeekSound(Tuesdays(WeeklyStart, today), WeekKey, SummaryPresent(bucket, exists_), {});
  }

  /** Every date of a weekly range whose summary exists is kept, since the
      range never visits an ISO week twice. */
  lemma RangeComplete(start: Date, today: Date, bucket: string, exists_: string -> bool)
    requires Valid(start) && Valid(today)
    ensures var dates := Tuesdays(start, today);
      forall k :: 0 <= k < |dates| && exists_(WeeklyPath(dates[k], bucket)) ==>
        dates[k] in OnePerWeek(dates, WeekKey, SummaryPresent(bucket, exists_), {})
  {
    var dates := Tuesdays(start, today);
    var present := SummaryPresent(bucket, exists_);
    TuesdaysDistinctWeeks(start, today);
    OnePerWeekComplete(dates, WeekKey, present, {});
    forall k | 0 <= k < |dates| && exists_(WeeklyPath(dates[k], bucket))
      ensures dates[k] in OnePerWeek(dates, WeekKey, present, {})
    {
      assert present(dates[k]);
    }
  }

  /** Every date of the range whose summary exists has its weekly entry. */
  lemma LatestWeeklyComplete(bucket: string, today: Date, exists_: string -> bool)
    requires Valid(today) && DayNumber(today) > 0
    ensures var dates := Tuesdays(WeeklyStart, today);
      forall k :: 0 <= k < |dates| && exists_(WeeklyPath(dates[k], bucket)) ==>
        dates[k] in OnePerWeek(dates, WeekKey, SummaryPresent(bucket, exists_), {})
  {
    RangeComplete(WeeklyStart, today, bucket, exists_);
  }

  // ------------------------------------------------------------ posting

  /** The variable holding the API key of an environment. */
  function KeyVariable(env: string): (name: string)
    ensures env == "production" ==> name == "OFFSETS_DB_API_KEY_PRODUCTION"
    ensures env != "production" ==> name == "OFFSETS_DB_API_KEY_STAGING"
  {
    if env == "production" then "OFFSETS_DB_API_KEY_PRODUCTION" else "OFFSETS_DB_API_KEY_STAGING"
  }

  /** The key lookup of `post_data_to_environment`; a missing variable is the
      `ValueError`, with its message. */
  function ApiKey(env: string, environ: map<string, string>): (r: Result<string, string>)
    ensures r.Ok? <==> KeyVariable(env) in environ
    ensures r.Ok? ==> r.value == environ[KeyVariable(env)]
    ensures r.Err? ==> r.error == KeyVariable(env) + " environment variable not set"
  {
    var name := KeyVariable(env);
    if name in environ then Ok(environ[name]) else Err(name + " environment variable not set")
  }

  /** The request the script sends. */
  datatype Request = Request(url: string, headers: seq<(string, string)>, body: seq<Entry>)

  function Headers(apiKey: string): seq<(string, string)>
  {
    [("accept", "application/json"), ("Content-Type", "application/json"), ("X-API-KEY", apiKey)]
  }

  /** How a run ends. */
  datatype Outcome =
    | BadFileList              // the JSON file could not be read: exit 1
    | NoFiles                  // nothing to upload: exit 1
    | DryRun(files: seq<Entry>) // listed, not sent: exit 0
    | MissingKey(message: string) // the ValueError: exit 1
    | Sent(request: Request, ok: bool) // exit 0 when the API answered OK

  function ExitCode(o: Outcome): (code: int)
    ensures code == 0 <==> o.DryRun? || (o.Sent? && o.ok)
  {
    match o
    case DryRun(_) => 0
    case Sent(_, ok) => if ok then 0 else 1
    case _ => 1
  }

  /** The list the script would upload: the JSON file's, when one is named
      (`None` when it cannot be read), else the latest files. */
  function FilesToUpload(fromJson: Option<Option<seq<Entry>>>, bucket: string, today: Date, exists_: string -> bool)
    : Option<seq<Entry>>
    requires Valid(today) && DayNumber(today) > 0
  {
    match fromJson
    case Some(loaded) => loaded
    case None => Some(Latest(bucket, today, exists_))
  }

  /** `main`: nothing is sent when the list is empty or the run is dry, and
      nothing is sent without the environment's key; the request carries
      the key and the whole list. */
  method RunScript(environment: string, url: string, bucket: string, fromJson: Option<Option<seq<Entry>>>,
              dryRun: bool, today: Date, exists_: string -> bool, environ: map<string, string>,
              responseOk: bool)
    returns (o: Outcome)
    requires Valid(today) && DayNumber(today) > 0
    ensures var files := FilesToUpload(fromJson, bucket, today, exists_);
      (o.BadFileList? <==> files.None?) &&
      (o.NoFiles? <==> files == Some([])) &&
      (o.DryRun? <==> dryRun && files.Some? && files.value != []) &&
      (o.DryRun? ==> o.files == files.value)
    ensures o.MissingKey? <==> (!dryRun && FilesToUpload(fromJson, bucket, today, exists_).Some? &&
      FilesToUpload(fromJson, bucket, today, exists_).value != [] && ApiKey(environment, environ).Err?)
    ensures o.MissingKey? ==> o.message == ApiKey(environment, environ).error
    ensures o.Sent? ==> (!dryRun && ApiKey(environment, environ).Ok? && o.ok == responseOk &&
      o.request == Request(url, Headers(ApiKey(environment, environ).value),
                           FilesToUpload(fromJson, bucket, today, exists_).value) &&
      o.request.body != [])
  {
    var files: seq<Entry>;
    if fromJson.Some? {
      if fromJson.value.None? {
        return BadFileList;
      }
      files := fromJson.value.value;
    } else {
      files := GetLatest(bucket, today, exists_);
    }
    if files == [] {
      return NoFiles;
    }
    if dryRun {
      return DryRun(files);
    }
    var key := ApiKey(environment, environ);
    if key.Err? {
      return MissingKey(key.error);
    }
    return Sent(Request(url, Headers(key.value), files), responseOk);
  }
}
