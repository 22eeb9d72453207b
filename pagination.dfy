/**
 * The pagination arithmetic every list handler shares: `page` and `limit`
 * come from the query string (`parseInt(...) || 1`, `parseInt(...) || 10`),
 * the database is asked for `limit` rows after `skip = (page - 1) * limit`,
 * and the envelope reports `currentPage`, `totalPages = Math.ceil(total / limit)`
 * and `totalItems = total`.
 */
module Pagination {
  import opened Wrappers
  import JsNumbers

  function Min(a: int, b: int): int { if a <= b then a else b }
  function Max(a: int, b: int): int { if a >= b then a else b }

  /** The query parameters of a list request, as the text the client sent. */
  datatype ListQuery = ListQuery(page: Option<string>, limit: Option<string>)

  /** The route's rules for `page` and `limit`: if present, `page` is an
      integer of at least 1 and `limit` an integer between 1 and 100. */
  predicate Admissible(q: ListQuery) {
    (q.page.Some? ==> JsNumbers.IsInt(q.page.value, Some(1), None))
    && (q.limit.Some? ==> JsNumbers.IsInt(q.limit.value, Some(1), Some(100)))
  }

  /** `parseInt(req.query.page) || 1` */
  function PageNumber(q: ListQuery): int { JsNumbers.QueryInt(q.page, 1) }

  /** `parseInt(req.query.limit) || 10` */
  function PageSize(q: ListQuery): int { JsNumbers.QueryInt(q.limit, 10) }

  /** Once the route's rules pass, the handler sees a usable page and limit. */
  lemma AdmissibleBounds(q: ListQuery)
    requires Admissible(q)
    ensures PageNumber(q) >= 1 && 1 <= PageSize(q) <= 100
    ensures q.page.None? ==> PageNumber(q) == 1
    ensures q.limit.None? ==> PageSize(q) == 10
  {
    JsNumbers.ValidatedPage(q.page);
    JsNumbers.ValidatedLimit(q.limit);
  }

  /** `(page - 1) * limit`: the items on the `page - 1` full pages before this one. */
  function Skip(page: int, limit: int): (skip: int)
    requires page >= 1 && limit >= 1
    ensures skip >= 0
    ensures skip % limit == 0 && skip / limit == page - 1
  {
    SkipIsWholePages(page - 1, limit);
    (page - 1) * limit
  }

  lemma SkipIsWholePages(pages: nat, limit: int)
    requires limit >= 1
    ensures (pages * limit) % limit == 0 && (pages * limit) / limit == pages
  {
    var q := (pages * limit) / limit;
    var r := (pages * limit) % limit;
    assert pages * limit == q * limit + r && 0 <= r < limit;
    if q < pages {
      MulMonotone(q + 1, pages, limit);
    } else if q > pages {
      MulMonotone(pages + 1, q, limit);
    }
  }

  lemma CeilingBounds(total: nat, limit: int)
    requires limit >= 1
    ensures ((total + limit - 1) / limit) * limit >= total
    ensures (total + limit - 1) / limit > 0 ==> ((total + limit - 1) / limit - 1) * limit < total
  {
    var q := (total + limit - 1) / limit;
    var r := (total + limit - 1) % limit;
    assert total + limit - 1 == q * limit + r && 0 <= r < limit;
    assert (q - 1) * limit == q * limit - limit;
  }

  /** `Math.ceil(total / limit)`: the fewest pages of `limit` items that hold `total` items. */
  function TotalPages(total: nat, limit: int): (pages: nat)
    requires limit >= 1
    ensures pages * limit >= total
    ensures pages > 0 ==> (pages - 1) * limit < total
  {
    CeilingBounds(total, limit);
    (total + limit - 1) / limit
  }

  /** The rows the database returns for `skip`/`take`: the items at
      positions `[skip, skip + limit)` of the ordered match list. */
  function Window<T>(all: seq<T>, page: int, limit: int): (w: seq<T>)
    requires page >= 1 && limit >= 1
    ensures |w| == Min(limit, Max(0, |all| - Skip(page, limit)))
    ensures forall i :: 0 <= i < |w| ==> w[i] == all[Skip(page, limit) + i]
  {
    var lo := Min(Skip(page, limit), |all|);
    var hi := Min(Skip(page, limit) + limit, |all|);
    all[lo..hi]
  }

  /** Every item on a page comes from the list being paged. */
  lemma WindowWithin<T>(all: seq<T>, page: int, limit: int)
    requires page >= 1 && limit >= 1
    ensures forall x :: x in Window(all, page, limit) ==> x in all
  {
    var w := Window(all, page, limit);
    forall x | x in w ensures x in all {
      var i :| 0 <= i < |w| && w[i] == x;
      assert all[Skip(page, limit) + i] == x;
    }
  }

  /** A page keeps any order the whole list is in. */
  lemma WindowOrdered<T>(all: seq<T>, page: int, limit: int, before: (T, T) -> bool)
    requires page >= 1 && limit >= 1
    requires forall i, j :: 0 <= i < j < |all| ==> before(all[i], all[j])
    ensures forall i, j :: 0 <= i < j < |Window(all, page, limit)| ==>
      before(Window(all, page, limit)[i], Window(all, page, limit)[j])
  {
    var w := Window(all, page, limit);
    var skip := Skip(page, limit);
    forall i, j | 0 <= i < j < |w| ensures before(w[i], w[j]) {
      assert w[i] == all[skip + i] && w[j] == all[skip + j];
    }
  }

  /** The pagination envelope of a list response. */
  datatype Page<T> = Page(items: seq<T>, currentPage: int, totalPages: nat, totalItems: nat)

  /** One page of `all`, with totals computed from the whole list. */
  function Paginate<T>(all: seq<T>, page: int, limit: int): (p: Page<T>)
    requires page >= 1 && limit >= 1
    ensures p.items == Window(all, page, limit)
    ensures p.currentPage == page && p.totalItems == |all|
    ensures p.totalPages * limit >= |all| && (p.totalPages > 0 ==> (p.totalPages - 1) * limit < |all|)
  {
    Page(Window(all, page, limit), page, TotalPages(|all|, limit), |all|)
  }

  /** Pages 1..k laid end to end. */
  ghost function PagesUpTo<T>(all: seq<T>, limit: int, k: nat): seq<T>
    requires limit >= 1
    decreases k
  {
    if k == 0 then [] else PagesUpTo(all, limit, k - 1) + Window(all, k, limit)
  }

  lemma {:induction false} PagesUpToIsPrefix<T>(all: seq<T>, limit: int, k: nat)
    requires limit >= 1
    ensures PagesUpTo(all, limit, k) == all[..Min(k * limit, |all|)]
    decreases k
  {
    if k > 0 {
      PagesUpToIsPrefix(all, limit, k - 1);
      assert k * limit == (k - 1) * limit + limit;
      assert Skip(k, limit) == (k - 1) * limit;
      var a := Min((k - 1) * limit, |all|);
      var b := Min(k * limit, |all|);
      assert Window(all, k, limit) == all[a..b];
      assert all[..a] + all[a..b] == all[..b];
    }
  }

  /** Pages 1..totalPages partition the ordered list: read in order, they
      give every item exactly once. */
  lemma PagesPartition<T>(all: seq<T>, limit: int)
    requires limit >= 1
    ensures PagesUpTo(all, limit, TotalPages(|all|, limit)) == all
    ensures |PagesUpTo(all, limit, TotalPages(|all|, limit))| == |all|
  {
    var n := TotalPages(|all|, limit);
    PagesUpToIsPrefix(all, limit, n);
    assert all[..|all|] == all;
  }

  lemma MulMonotone(a: int, b: int, c: int)
    requires a <= b && c >= 0
    ensures a * c <= b * c
  {
    assert b * c - a * c == (b - a) * c;
  }

  /** Page `page` lies within `totalPages` exactly when it skips fewer than `total` items. */
  lemma PageWithinIff(total: nat, page: int, limit: int)
    requires page >= 1 && limit >= 1
    ensures page <= TotalPages(total, limit) <==> Skip(page, limit) < total
  {
    var n := TotalPages(total, limit);
    if page <= n {
      MulMonotone(page - 1, n - 1, limit);
    } else {
      MulMonotone(n, page - 1, limit);
    }
  }

  /** A page holds items exactly when its number is at most `totalPages`. */
  lemma WindowNonEmptyIff<T>(all: seq<T>, page: int, limit: int)
    requires page >= 1 && limit >= 1
    ensures |Window(all, page, limit)| > 0 <==> page <= TotalPages(|all|, limit)
  {
    PageWithinIff(|all|, page, limit);
  }

  /** 15 items, 10 per page: page 1 holds 10, page 2 holds 5, and there are 2 pages. */
  lemma FifteenItemsTenPerPage<T>(all: seq<T>)
    requires |all| == 15
    ensures |Paginate(all, 1, 10).items| == 10
    ensures Paginate(all, 2, 10) == Page(all[10..], 2, 2, 15)
  {
    assert TotalPages(15, 10) == 2;
    assert Window(all, 2, 10) == all[10..15];
    assert all[10..15] == all[10..];
  }
}
