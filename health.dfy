/** The health endpoint of the current API: for each of the project, credit
    and clip categories, when the last successful load of that kind happened. */
module Health {
  import opened Base
  import opened Order
  import opened Models

  /** The two columns the query selects from a file row, with the status it
      filters on. */
  datatype FileRow = FileRow(category: FileCategory, status: FileStatus, recordedAt: nat)

  /** The categories the endpoint reports on. */
  predicate Reported(c: FileCategory)
  {
    c == Projects || c == Credits || c == Clips
  }

  /** The rows the `where` clause keeps, as (category, recorded-at) pairs. */
  function Successful(rows: seq<FileRow>): (r: seq<(FileCategory, nat)>)
    ensures forall p :: p in r <==> exists i :: 0 <= i < |rows| && rows[i] == FileRow(p.0, Success, p.1) && Reported(p.0)
  {
    if rows == [] then []
    else
      var init := Successful(rows[..|rows| - 1]);
      var row := rows[|rows| - 1];
      assert forall i :: 0 <= i < |rows| - 1 ==> rows[..|rows| - 1][i] == rows[i];
      if row.status == Success && Reported(row.category) then init + [(row.category, row.recordedAt)] else init
  }

  /** `order_by(recorded_at.desc())`. */
  predicate RecentFirst(a: (FileCategory, nat), b: (FileCategory, nat))
  {
    a.1 >= b.1
  }

  lemma RecentFirstPreorder()
    ensures TotalPreorder(RecentFirst)
  {
  }

  /** The query's result. Rows recorded at the same instant may come in any
      order; only their time is kept, so the order among them does not
      matter below. */
  function Query(rows: seq<FileRow>): seq<(FileCategory, nat)>
  {
    Sort(Successful(rows), RecentFirst)
  }

  /** The times of one category, in result order. */
  function Times(results: seq<(FileCategory, nat)>, c: FileCategory): (r: seq<nat>)
    ensures forall t :: t in r <==> (c, t) in results
  {
    if results == [] then []
    else
      var init := Times(results[..|results| - 1], c);
      var last := results[|results| - 1];
      assert results == results[..|results| - 1] + [last];
      if last.0 == c then init + [last.1] else init
  }

  /** The grouping loop: each category's times are appended in result order. */
  method GroupByCategory(results: seq<(FileCategory, nat)>) returns (grouped: map<FileCategory, seq<nat>>)
    ensures forall c :: c in grouped <==> Times(results, c) != []
    ensures forall c :: c in grouped ==> grouped[c] == Times(results, c)
  {
    grouped := map[];
    for i := 0 to |results|
      invariant forall c :: c in grouped <==> Times(results[..i], c) != []
      invariant forall c :: c in grouped ==> grouped[c] == Times(results[..i], c)
    {
      assert results[..i + 1][..i] == results[..i];
      var (category, recordedAt) := results[i];
      if category in grouped {
        grouped := grouped[category := grouped[category] + [recordedAt]];
      } else {
        grouped := grouped[category := [recordedAt]];
      }
    }
    assert results[..|results|] == results;
  }

  datatype StatusResponse = StatusResponse(status: string, staging: bool, latest: map<FileCategory, nat>)

  /** `status`: the first time of each category's group; the rendering of
      the instant as text is not part of this model. */
  method Status(rows: seq<FileRow>, staging: bool) returns (resp: StatusResponse)
    ensures resp.status == "ok" && resp.staging == staging
    ensures forall c :: c in resp.latest <==> Times(Query(rows), c) != []
    ensures forall c :: c in resp.latest ==> resp.latest[c] == Times(Query(rows), c)[0]
  {
    var results := Query(rows);
    var grouped := GroupByCategory(results);
    var latest: map<FileCategory, nat> := map[];
    var todo := grouped.Keys;
    while todo != {}
      invariant todo <= grouped.Keys
      invariant forall c :: c in latest <==> c in grouped && c !in todo
      invariant forall c :: c in latest ==> latest[c] == grouped[c][0]
      decreases todo
    {
      var category :| category in todo;
      latest := latest[category := grouped[category][0]];
      todo := todo - {category};
    }
    return StatusResponse("ok", staging, latest);
  }

  /** A sub-list of a list in descending time order is in descending order too. */
  lemma {:induction false} TimesDescending(results: seq<(FileCategory, nat)>, c: FileCategory)
    requires SortedBy(results, RecentFirst)
    ensures forall i, j :: 0 <= i < j < |Times(results, c)| ==> Times(results, c)[i] >= Times(results, c)[j]
  {
    if results != [] {
      var init := results[..|results| - 1];
      assert SortedBy(init, RecentFirst);
      TimesDescending(init, c);
      var last := results[|results| - 1];
      if last.0 == c {
        var ts := Times(init, c);
        assert Times(results, c) == ts + [last.1];
        forall i | 0 <= i < |ts| ensures ts[i] >= last.1 {
          assert ts[i] in ts;
          var k :| 0 <= k < |init| && init[k] == (c, ts[i]);
          assert RecentFirst(results[k], results[|results| - 1]);
        }
      }
    }
  }

  /** The endpoint reports a category exactly when some file of it loaded
      successfully, and then reports the most recent such load. */
  lemma LatestIsMostRecent(rows: seq<FileRow>, c: FileCategory)
    ensures Times(Query(rows), c) != [] <==>
      Reported(c) && exists i :: 0 <= i < |rows| && rows[i].category == c && rows[i].status == Success
    ensures Times(Query(rows), c) != [] ==>
      (exists i :: 0 <= i < |rows| && rows[i] == FileRow(c, Success, Times(Query(rows), c)[0])) &&
      forall i :: 0 <= i < |rows| && rows[i].category == c && rows[i].status == Success ==>
        rows[i].recordedAt <= Times(Query(rows), c)[0]
  {
    var s := Successful(rows);
    var q := Query(rows);
    RecentFirstPreorder();
    SortSorted(s, RecentFirst);
    TimesDescending(q, c);
    SameElements(q, s);
    if Reported(c) && exists i :: 0 <= i < |rows| && rows[i].category == c && rows[i].status == Success {
      var i :| 0 <= i < |rows| && rows[i].category == c && rows[i].status == Success;
      assert (c, rows[i].recordedAt) in s;
      assert rows[i].recordedAt in Times(q, c);
    }
    if Times(q, c) != [] {
      var latest := Times(q, c)[0];
      assert (c, latest) in s;
      forall i | 0 <= i < |rows| && rows[i].category == c && rows[i].status == Success
        ensures rows[i].recordedAt <= latest
      {
        assert (c, rows[i].recordedAt) in s;
        var k :| 0 <= k < |Times(q, c)| && Times(q, c)[k] == rows[i].recordedAt;
      }
    }
  }
}
