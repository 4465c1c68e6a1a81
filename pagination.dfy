/** `handle_pagination`: the number of pages of a result, whether there is a
    next page, and the slice of rows the current page shows. */
module Pagination {
  import opened Base
  import opened Strings
  import opened QueryString

  /** `(total_entries + per_page - 1) // per_page`. */
  function TotalPages(total: nat, perPage: nat): nat
    requires perPage >= 1
  {
    (total + perPage - 1) / perPage
  }

  /** The page count is the ceiling of `total / perPage`: the pages before the
      last hold fewer than `total` rows and all of them hold at least `total`. */
  lemma TotalPagesCeiling(total: nat, perPage: nat)
    requires perPage >= 1
    ensures TotalPages(total, perPage) * perPage >= total
    ensures TotalPages(total, perPage) > 0 ==> (TotalPages(total, perPage) - 1) * perPage < total
    ensures TotalPages(total, perPage) == 0 <==> total == 0
  {
    var n := TotalPages(total, perPage);
    var q := total + perPage - 1;
    assert q == n * perPage + q % perPage;
    assert q % perPage < perPage;
  }

  /** There is a page after `currentPage` exactly when some row lies beyond it. */
  lemma NextPageIff(total: nat, currentPage: int, perPage: nat)
    requires perPage >= 1 && currentPage >= 1
    ensures currentPage < TotalPages(total, perPage) <==> currentPage * perPage < total
  {
    TotalPagesCeiling(total, perPage);
    var n := TotalPages(total, perPage);
    if currentPage < n {
      assert currentPage * perPage <= (n - 1) * perPage by {
        MulMonotone(currentPage, n - 1, perPage);
      }
    } else {
      MulMonotone(n, currentPage, perPage);
    }
  }

  lemma MulMonotone(a: int, b: int, c: nat)
    requires a <= b
    ensures a * c <= b * c
  {
  }

  /** `.offset((current_page - 1) * per_page).limit(per_page)` on the rows. */
  function PageOf<T>(rows: seq<T>, currentPage: int, perPage: nat): seq<T>
    requires currentPage >= 1 && perPage >= 1
  {
    var offset := (currentPage - 1) * perPage;
    if offset >= |rows| then []
    else if offset + perPage >= |rows| then rows[offset..]
    else rows[offset..offset + perPage]
  }

  /** The page holds at most `perPage` rows, and its `i`-th row is row
      `(currentPage - 1) * perPage + i` of the result. */
  lemma PageOfRows<T>(rows: seq<T>, currentPage: int, perPage: nat)
    requires currentPage >= 1 && perPage >= 1
    ensures |PageOf(rows, currentPage, perPage)| <= perPage
    ensures forall i :: 0 <= i < |PageOf(rows, currentPage, perPage)| ==>
      (currentPage - 1) * perPage + i < |rows| &&
      PageOf(rows, currentPage, perPage)[i] == rows[(currentPage - 1) * perPage + i]
    ensures |PageOf(rows, currentPage, perPage)| ==
      if (currentPage - 1) * perPage >= |rows| then 0
      else if currentPage * perPage >= |rows| then |rows| - (currentPage - 1) * perPage
      else perPage
  {
  }

  /** A page is empty exactly when it lies past the last page. */
  lemma PageNonEmptyIff<T>(rows: seq<T>, currentPage: int, perPage: nat)
    requires currentPage >= 1 && perPage >= 1
    ensures PageOf(rows, currentPage, perPage) != [] <==> currentPage <= TotalPages(|rows|, perPage)
  {
    NextPageIff(|rows|, currentPage - 1 + 1, perPage);
    if currentPage > 1 {
      NextPageIff(|rows|, currentPage - 1, perPage);
    } else {
      TotalPagesCeiling(|rows|, perPage);
    }
  }

  /** The rows of pages `1..k`, one after the other. */
  function PagesUpTo<T>(rows: seq<T>, perPage: nat, k: nat): seq<T>
    requires perPage >= 1
  {
    if k == 0 then [] else PagesUpTo(rows, perPage, k - 1) + PageOf(rows, k, perPage)
  }

  lemma {:induction false} PagesUpToPrefix<T>(rows: seq<T>, perPage: nat, k: nat)
    requires perPage >= 1
    ensures k * perPage <= |rows| ==> PagesUpTo(rows, perPage, k) == rows[..k * perPage]
    ensures k * perPage > |rows| ==> PagesUpTo(rows, perPage, k) == rows
  {
    if k > 0 {
      PagesUpToPrefix(rows, perPage, k - 1);
      var before := (k - 1) * perPage;
      assert before + perPage == k * perPage;
      PrefixThenPage(rows, before, perPage, PagesUpTo(rows, perPage, k - 1), PageOf(rows, k, perPage));
    }
  }

  /** The rows before an offset followed by the page at that offset are the
      rows before the page's end. */
  lemma PrefixThenPage<T>(rows: seq<T>, before: nat, perPage: nat, prev: seq<T>, page: seq<T>)
    requires prev == if before <= |rows| then rows[..before] else rows
    requires page == if before >= |rows| then []
      else if before + perPage >= |rows| then rows[before..] else rows[before..before + perPage]
    ensures prev + page == if before + perPage <= |rows| then rows[..before + perPage] else rows
  {
    if before + perPage <= |rows| {
      assert rows[..before] + rows[before..before + perPage] == rows[..before + perPage];
    } else if before <= |rows| {
      assert rows[..before] + rows[before..] == rows;
    }
  }

  /** Walking the pages from 1 to `total_pages` shows every row exactly once, in order. */
  lemma PagesCoverRows<T>(rows: seq<T>, perPage: nat)
    requires perPage >= 1
    ensures PagesUpTo(rows, perPage, TotalPages(|rows|, perPage)) == rows
  {
    var n := TotalPages(|rows|, perPage);
    TotalPagesCeiling(|rows|, perPage);
    PagesUpToPrefix(rows, perPage, n);
    if n * perPage == |rows| {
      assert rows[..n * perPage] == rows;
    }
  }

  /** `count(distinct pk)`: the number of different primary keys among the rows. */
  function CountDistinct(keys: seq<string>): nat
  {
    |set i | 0 <= i < |keys| :: keys[i]|
  }

  lemma {:induction false} CountDistinctUnique(keys: seq<string>)
    requires Distinct(keys)
    ensures CountDistinct(keys) == |keys|
  {
    if keys != [] {
      var init := keys[..|keys| - 1];
      CountDistinctUnique(init);
      var s := set i | 0 <= i < |keys| :: keys[i];
      var s0 := set i | 0 <= i < |init| :: init[i];
      assert s == s0 + {keys[|keys| - 1]};
      assert keys[|keys| - 1] !in s0;
    }
  }

  datatype Page<T> = Page(totalEntries: nat, currentPage: int, totalPages: nat, nextPage: Option<string>, results: seq<T>)

  /** `handle_pagination`: `keys` are the primary keys of `rows`, the result
      of the filtered and sorted statement. */
  method HandlePagination<T>(rows: seq<T>, keys: seq<string>, currentPage: int, perPage: nat,
                             url: Url, items: seq<(string, string)>) returns (p: Page<T>)
    requires currentPage >= 1 && perPage >= 1
    ensures p.totalEntries == CountDistinct(keys) && p.currentPage == currentPage
    ensures p.totalPages == TotalPages(p.totalEntries, perPage)
    ensures p.nextPage.Some? <==> currentPage * perPage < p.totalEntries
    ensures p.nextPage.Some? ==>
      p.nextPage.value == url.scheme + "://" + url.netloc + url.path + "?" +
                          Join(EncodedPairs(NextPageParams(items, currentPage, perPage)), "&")
    ensures p.results == PageOf(rows, currentPage, perPage)
  {
    var totalEntries := CountDistinct(keys);
    var totalPages := (totalEntries + perPage - 1) / perPage;
    var nextPage: Option<string> := None;
    NextPageIff(totalEntries, currentPage, perPage);
    if currentPage < totalPages {
      var link := NextPageUrl(url, items, currentPage, perPage);
      nextPage := Some(link);
    }
    var results := PageOf(rows, currentPage, perPage);
    p := Page(totalEntries, currentPage, totalPages, nextPage, results);
  }
}
