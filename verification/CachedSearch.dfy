/** Searching a cached query: pages of ids in the local cache or in Redis, filled from MySQL where they are missing. */
module CachedSearch {
  import opened Wrappers

  function Min(a: int, b: int): int {
    if a < b then a else b
  }

  /** The ids from one place of the whole result up to another, cut at its end. */
  function Window(all: seq<nat>, from: nat, to: nat): seq<nat>
    requires from <= to
  {
    all[Min(from, |all|)..Min(to, |all|)]
  }

  /** Page p of the result. */
  function Page(all: seq<nat>, p: nat, pageSize: nat): seq<nat>
    requires p >= 1
  {
    PageBounds(p, pageSize);
    Window(all, (p - 1) * pageSize, p * pageSize)
  }

  lemma PageBounds(p: nat, pageSize: nat)
    requires p >= 1
    ensures 0 <= (p - 1) * pageSize <= p * pageSize == (p - 1) * pageSize + pageSize
  {
  }

  // ---------------------------------------------------------------- searching MySQL

  /** What `SELECT ID ... LIMIT` and, where it is asked, `SELECT count(1)` give. */
  method GetTotalRows(all: seq<nat>, currentPage: nat, pageSize: nat, foundRows: nat) returns (totalRows: nat)
    requires currentPage >= 1 && foundRows == |Page(all, currentPage, pageSize)|
    ensures totalRows == |all|
  {
    PageBounds(currentPage, pageSize);
    totalRows := foundRows;
    if totalRows == pageSize || (foundRows == 0 && currentPage > 1) {
      totalRows := |all|;
    } else {
      totalRows := totalRows + (currentPage - 1) * pageSize;
    }
  }

  method SearchIDsWithCount(all: seq<nat>, currentPage: nat, pageSize: nat) returns (ids: seq<nat>, total: nat)
    requires currentPage >= 1
    ensures ids == Page(all, currentPage, pageSize) && total == |all|
  {
    ids := Page(all, currentPage, pageSize);
    total := GetTotalRows(all, currentPage, pageSize, |ids|);
  }

  // ---------------------------------------------------------------- the cached pages of one query

  datatype Result = Found(total: nat, ids: seq<nat>) | OutOfRange

  const IDS_ON_CACHE_PAGE := 1000
  const MAX := 50000

  /** A cached page: the number of rows, then the page's ids. */
  function Cached(all: seq<nat>, p: nat, pageSize: nat): seq<nat>
    requires p >= 1
  {
    [|all|] + Page(all, p, pageSize)
  }

  /** The first page may have been cached by an engine with a local cache, for which it is the whole list. */
  predicate Proper(all: seq<nat>, p: nat, value: seq<nat>) {
    p >= 1 && (value == Cached(all, p, IDS_ON_CACHE_PAGE) || (p == 1 && value == Cached(all, 1, MAX)))
  }

  ghost predicate Distinct(all: seq<nat>) {
    forall i, j :: 0 <= i < j < |all| ==> all[i] != all[j]
  }

  function Get(filled: map<nat, seq<nat>>, p: nat): seq<nat> {
    if p in filled then filled[p] else []
  }

  /** Reads cached pages: what they hold, how many rows there are, and which is the lowest and the highest missing. */
  method ScanPages(fromCache: map<nat, Option<seq<nat>>>, ghost all: seq<nat>)
    returns (filled: map<nat, seq<nat>>, total: nat, hasNil: bool, minPage: nat, maxPage: nat)
    requires forall p :: p in fromCache ==> 1 <= p <= 9999 && (fromCache[p].Some? ==> Proper(all, p, fromCache[p].value))
    ensures forall p :: p in filled <==> p in fromCache && fromCache[p].Some?
    ensures forall p :: p in filled ==> fromCache[p].value == [|all|] + filled[p]
    ensures hasNil <==> exists p :: p in fromCache && fromCache[p].None?
    ensures hasNil ==> 1 <= minPage <= maxPage && minPage in fromCache && fromCache[minPage].None?
    ensures hasNil ==> forall p :: p in fromCache && fromCache[p].None? ==> minPage <= p <= maxPage
    ensures !hasNil && fromCache != map[] ==> total == |all|
  {
    hide Page;
    filled, total, hasNil, minPage, maxPage := map[], 0, false, 9999, 0;
    var keys := fromCache.Keys;
    while keys != {}
      invariant keys <= fromCache.Keys
      invariant forall p :: p in filled <==> p in fromCache && p !in keys && fromCache[p].Some?
      invariant forall p :: p in filled ==> fromCache[p].value == [|all|] + filled[p]
      invariant hasNil <==> exists p :: p in fromCache && p !in keys && fromCache[p].None?
      invariant hasNil ==> 1 <= minPage <= maxPage && minPage in fromCache && fromCache[minPage].None?
      invariant !hasNil ==> minPage == 9999 && maxPage == 0
      invariant forall p :: p in fromCache && p !in keys && fromCache[p].None? ==> minPage <= p <= maxPage
      invariant !hasNil && keys != fromCache.Keys ==> total == |all|
      decreases |keys|
    {
      var key :| key in keys;
      match fromCache[key] {
        case None =>
          hasNil := true;
          if key < minPage {
            minPage := key;
          }
          if key > maxPage {
            maxPage := key;
          }
        case Some(ids) =>
          total := ids[0];
          filled := filled[key := ids[1..]];
      }
      keys := keys - {key};
    }
  }

  lemma Scaled(a: nat, b: nat, n: nat)
    requires a <= b
    ensures a * n <= b * n
  {
  }

  /** The search for the missing pages begins where they do: at the first page, or past the end. */
  predicate OffsetRight(all: seq<nat>, minPage: nat, pageSize: nat)
    requires minPage >= 1
  {
    minPage == 1 || |all| <= (minPage - 1) * pageSize
  }

  /** A missing page is cut out of the first maxPage pages, in bounds. */
  lemma MissingPage(all: seq<nat>, p: nat, maxPage: nat, pageSize: nat, results: seq<nat>)
    requires 1 <= p <= maxPage && 0 <= (p - 1) * pageSize <= |all|
    requires results == Page(all, 1, maxPage * pageSize)
    ensures
      var start := (p - 1) * pageSize;
      var end := Min(Min(start + pageSize, |all|), |results|);
      start <= end <= |results| && results[start..end] == Page(all, p, pageSize)
  {
    PageBounds(p, pageSize);
    Scaled(p, maxPage, pageSize);
  }

  /** What was found for the missing pages, each cut out of one search; out of range when a place within it is not. */
  method FillMissing(fromCache: map<nat, Option<seq<nat>>>, filled': map<nat, seq<nat>>, pageSize: nat, minPage: nat, maxPage: nat,
                     all: seq<nat>)
    returns (ok: bool, filled: map<nat, seq<nat>>, total: nat, cacheFields: map<nat, seq<nat>>)
    requires pageSize > 0 && Distinct(all) && forall p :: p in fromCache ==> p >= 1
    requires forall p :: p in filled' <==> p in fromCache && fromCache[p].Some?
    requires minPage in fromCache && fromCache[minPage].None?
    requires forall p :: p in fromCache && fromCache[p].None? ==> minPage <= p <= maxPage
    ensures total == |all| && (OffsetRight(all, minPage, pageSize) ==> ok)
    ensures OffsetRight(all, minPage, pageSize) ==>
      && (forall p :: p in fromCache ==> Get(filled, p) == if fromCache[p].None? then Page(all, p, pageSize) else filled'[p])
      && cacheFields == map p | p in fromCache && fromCache[p].None? :: Cached(all, p, pageSize)
    ensures !OffsetRight(all, minPage, pageSize) && ok ==> minPage in cacheFields && cacheFields[minPage] != Cached(all, minPage, pageSize)
  {
    hide Page, OffsetRight, Distinct, Cached, Window;
    ok, filled, cacheFields := true, filled', map[];
    var results;
    results, total := SearchIDsWithCount(all, minPage, maxPage * pageSize);
    var keys := set p <- fromCache | fromCache[p].None?;
    ghost var missing := keys;
    while keys != {}
      invariant keys <= missing
      invariant OffsetRight(all, minPage, pageSize) ==> forall p :: p in fromCache && p !in keys ==>
        Get(filled, p) == if fromCache[p].None? then Page(all, p, pageSize) else filled'[p]
      invariant OffsetRight(all, minPage, pageSize) ==>
        forall p :: p in cacheFields ==> p >= 1 && cacheFields[p] == Cached(all, p, pageSize)
      invariant forall p :: p in keys ==> p !in filled
      invariant cacheFields.Keys == missing - keys
      invariant !OffsetRight(all, minPage, pageSize) && minPage in cacheFields ==> cacheFields[minPage] != Cached(all, minPage, pageSize)
      decreases |keys|
    {
      var page :| page in keys;
      var found, field;
      ok, found, field := CutPage(results, page, minPage, maxPage, pageSize, total, all);
      if !ok {
        return;
      }
      if found.Some? {
        filled := filled[page := found.value];
      }
      cacheFields := cacheFields[page := field];
      keys := keys - {page};
    }
  }

  /** One missing page: its ids, unless there are none, and what Redis is given for it. */
  method CutPage(results: seq<nat>, page: nat, minPage: nat, ghost maxPage: nat, pageSize: nat, total: nat, ghost all: seq<nat>)
    returns (ok: bool, found: Option<seq<nat>>, field: seq<nat>)
    requires pageSize > 0 && Distinct(all) && 1 <= minPage <= page <= maxPage
    requires results == Page(all, minPage, maxPage * pageSize) && total == |all|
    ensures OffsetRight(all, minPage, pageSize) ==>
      && ok && (if found.Some? then found.value else []) == Page(all, page, pageSize)
      && field == Cached(all, page, pageSize)
    ensures !OffsetRight(all, minPage, pageSize) && page == minPage && ok ==> field != Cached(all, page, pageSize)
  {
    hide Page, OffsetRight, Cached;
    PageBounds(page - minPage + 1, pageSize);
    var sliceStart := (page - minPage) * pageSize;
    if OffsetRight(all, minPage, pageSize) {
      RightCut(all, page, minPage, maxPage, pageSize, results);
    } else {
      WrongCut(all, minPage, maxPage, pageSize, results);
    }
    if sliceStart > total || |results| == 0 {
      return true, None, [total];
    }
    var sliceEnd := Min(Min(sliceStart + pageSize, total), |results|);
    if sliceStart > sliceEnd {
      return false, None, [];
    }
    var foundIDs := results[sliceStart..sliceEnd];
    return true, Some(foundIDs), [total] + foundIDs;
  }

  lemma RightCut(all: seq<nat>, page: nat, minPage: nat, maxPage: nat, pageSize: nat, results: seq<nat>)
    requires 1 <= minPage <= page <= maxPage && OffsetRight(all, minPage, pageSize)
    requires results == Page(all, minPage, maxPage * pageSize)
    ensures
      var start := (page - minPage) * pageSize;
      if start > |all| || results == [] then Page(all, page, pageSize) == [] && Cached(all, page, pageSize) == [|all|]
      else
        var end := Min(Min(start + pageSize, |all|), |results|);
        && 0 <= start <= end <= |results| && results[start..end] == Page(all, page, pageSize)
        && Cached(all, page, pageSize) == [|all|] + results[start..end]
  {
    PageBounds(page, pageSize);
    Scaled(page, maxPage, pageSize);
    if minPage == 1 {
      if (page - 1) * pageSize <= |all| {
        MissingPage(all, page, maxPage, pageSize, results);
      }
    } else {
      Scaled(minPage - 1, page - 1, pageSize);
      Further(minPage, maxPage, pageSize);
      PageBounds(minPage, maxPage * pageSize);
      assert results == [];
    }
  }

  /** Page minPage of maxPage pages at a time begins at least maxPage - 1 pages further than page minPage. */
  lemma Further(minPage: nat, maxPage: nat, pageSize: nat)
    requires 2 <= minPage <= maxPage
    ensures (minPage - 1) * (maxPage * pageSize) >= (minPage - 1) * pageSize + pageSize
  {
    var m := minPage - 1;
    assert m * (maxPage * pageSize) == (m * maxPage) * pageSize;
    assert m * maxPage >= m + 1 by {
      Scaled(2, maxPage, m);
    }
    Scaled(m + 1, m * maxPage, pageSize);
  }

  /** The first missing page is then not what is cached for it: it starts with an id of another place, or has none. */
  lemma WrongCut(all: seq<nat>, minPage: nat, maxPage: nat, pageSize: nat, results: seq<nat>)
    requires pageSize > 0 && Distinct(all) && 1 <= minPage <= maxPage && !OffsetRight(all, minPage, pageSize)
    requires results == Page(all, minPage, maxPage * pageSize)
    ensures Cached(all, minPage, pageSize) != [|all|]
    ensures results != [] ==>
      var end := Min(Min(pageSize, |all|), |results|);
      Cached(all, minPage, pageSize) != [|all|] + results[0..end]
  {
    PageBounds(minPage, pageSize);
    PageBounds(minPage, maxPage * pageSize);
    Further(minPage, maxPage, pageSize);
    var at, far := (minPage - 1) * pageSize, (minPage - 1) * (maxPage * pageSize);
    assert Cached(all, minPage, pageSize)[1] == all[at];
    if results != [] {
      assert results[0] == all[far];
      var end := Min(Min(pageSize, |all|), |results|);
      assert ([|all|] + results[0..end])[1] == results[0];
    }
  }

  /** Neighbouring pages make one window. */
  lemma Joined(all: seq<nat>, first: nat, p: nat, pageSize: nat)
    requires 1 <= first <= p
    ensures 0 <= (first - 1) * pageSize <= (p - 1) * pageSize <= p * pageSize
    ensures Window(all, (first - 1) * pageSize, (p - 1) * pageSize) + Page(all, p, pageSize)
         == Window(all, (first - 1) * pageSize, p * pageSize)
  {
    PageBounds(p, pageSize);
    Scaled(first - 1, p - 1, pageSize);
  }

  /** What cutting a window out of a larger one gives, and when it cannot be cut. */
  lemma Cut(all: seq<nat>, from: nat, to: nat, offset: nat, size: nat, results: seq<nat>)
    requires from + offset + size <= to && results == Window(all, from, to)
    ensures offset > |all| ==> Window(all, from + offset, from + offset + size) == []
    ensures 0 < offset <= |all| ==> (offset > |results| <==> from + offset > |all|)
    ensures offset <= |results| ==>
      results[offset..Min(offset + size, |results|)] == Window(all, from + offset, from + offset + size)
  {
    if offset <= |results| {
      var end := Min(offset + size, |results|);
      if from <= |all| {
        Within(all, from, Min(to, |all|), offset, end);
      }
    }
  }

  lemma Within(all: seq<nat>, a: nat, b: nat, c: nat, d: nat)
    requires a <= b <= |all| && c <= d <= b - a
    ensures all[a..b][c..d] == all[a + c..a + d]
  {
    forall i | 0 <= i < d - c ensures all[a..b][c..d][i] == all[a + c..a + d][i] {
    }
  }

  // ---------------------------------------------------------------- what a search answers

  /** Pages of a thousand: a start past the end is out of range when its place within its page is not. */
  function PagedAnswer(start: nat, size: nat, all: seq<nat>): Result {
    if start > |all| && 0 < start % IDS_ON_CACHE_PAGE <= |all| then OutOfRange
    else Found(|all|, Window(all, start, start + size))
  }

  /** One page with the first k ids, taken for the whole list. */
  function LocalAnswer(start: nat, size: nat, all: seq<nat>, k: nat): Result
    requires k <= |all|
  {
    if start > |all| then Found(|all|, []) else if start > k then OutOfRange else Found(|all|, all[start..Min(start + size, k)])
  }

  /**
   * With a local cache the window is right exactly when it lies past the end, within the ids that are cached, or
   * these are all.
   */
  lemma LocalExact(start: nat, size: nat, all: seq<nat>, k: nat)
    requires size >= 1 && k <= |all|
    ensures LocalAnswer(start, size, all, k) == Found(|all|, Window(all, start, start + size))
       <==> start > |all| || start + size <= k || k == |all|
  {
    if start <= k {
      assert |all[start..Min(start + size, k)]| == Min(start + size, k) - start;
      assert |Window(all, start, start + size)| == Min(start + size, |all|) - start;
    }
  }

  // ---------------------------------------------------------------- the caches of one query

  type Pages = map<nat, seq<nat>>

  /**
   * What Redis has are pages of the list, the first one of either size; if a later one is not empty the first one is
   * there too, with a thousand ids.
   */
  ghost predicate RedisRight(redis: Pages, all: seq<nat>) {
    && (forall p :: p in redis ==> Proper(all, p, redis[p]))
    && (forall p :: p in redis && p >= 2 && |all| > (p - 1) * IDS_ON_CACHE_PAGE ==>
          1 in redis && redis[1] == Cached(all, 1, IDS_ON_CACHE_PAGE))
  }

  /** What Redis has of the pages of a window. */
  function OfRedis(redis: Pages, first: nat, last: nat): map<nat, Option<seq<nat>>> {
    map p | first <= p <= last :: if p in redis then Some(redis[p]) else None
  }

  /** The lowest page of the window that Redis lacks, if any, is the first of the list or past its end. */
  ghost predicate Searchable(redis: Pages, first: nat, last: nat, all: seq<nat>) {
    forall p :: 1 <= first <= p <= last && p !in redis && (forall o :: first <= o < p ==> o in redis) ==>
      OffsetRight(all, p, IDS_ON_CACHE_PAGE)
  }

  /** The pages of a window are known: what was cached of them, and what they are otherwise. */
  ghost predicate Loaded(cached: map<nat, Option<seq<nat>>>, filled: Pages, all: seq<nat>, pageSize: nat) {
    forall p :: p in cached ==>
      p >= 1 && (if cached[p].None? then Get(filled, p) == Page(all, p, pageSize) else cached[p].value == [|all|] + Get(filled, p))
  }

  /** Redis after the window's missing pages have been put there. */
  function Completed(redis: Pages, first: nat, last: nat, all: seq<nat>): Pages
    requires first >= 1
  {
    redis + map p | first <= p <= last && p !in redis :: Cached(all, p, IDS_ON_CACHE_PAGE)
  }

  lemma CompletedRight(redis: Pages, first: nat, last: nat, m: nat, all: seq<nat>)
    requires RedisRight(redis, all) && 1 <= first <= m <= last && m !in redis && forall o :: first <= o < m ==> o in redis
    requires OffsetRight(all, m, IDS_ON_CACHE_PAGE)
    ensures RedisRight(Completed(redis, first, last, all), all)
  {
    hide Page;
    var now := Completed(redis, first, last, all);
    forall p | p in now && p >= 2 && |all| > (p - 1) * IDS_ON_CACHE_PAGE
      ensures 1 in now && now[1] == Cached(all, 1, IDS_ON_CACHE_PAGE)
    {
      if p !in redis {
        Scaled(m - 1, p - 1, IDS_ON_CACHE_PAGE);
        assert m == 1;
      }
    }
  }

  /** A wrong page is not one that Redis should have. */
  lemma WrongPage(redis: Pages, m: nat, all: seq<nat>)
    requires m in redis && m >= 2 && redis[m] != Cached(all, m, IDS_ON_CACHE_PAGE)
    ensures !RedisRight(redis, all)
  {
    assert !Proper(all, m, redis[m]);
  }

  /** The lowest page that is missing decides whether the window is searchable. */
  lemma LowestDecides(redis: Pages, first: nat, last: nat, m: nat, all: seq<nat>)
    requires 1 <= first <= m <= last && m !in redis && forall o :: first <= o < m ==> o in redis
    ensures Searchable(redis, first, last, all) <==> OffsetRight(all, m, IDS_ON_CACHE_PAGE)
  {
    hide OffsetRight;
    forall p | first <= p <= last && p !in redis && (forall o :: first <= o < p ==> o in redis) ensures p == m {
      assert p < m ==> p in redis;
      assert m < p ==> m in redis;
    }
  }

  lemma SmallFirst(all: seq<nat>)
    requires |all| <= IDS_ON_CACHE_PAGE
    ensures Cached(all, 1, IDS_ON_CACHE_PAGE) == Cached(all, 1, MAX)
  {
  }

  lemma Tail(n: nat, x: seq<nat>, y: seq<nat>)
    requires [n] + x == [n] + y
    ensures x == y
  {
    assert ([n] + x)[1..] == x && ([n] + y)[1..] == y;
  }

  /** In a searchable window only a page that is the first and the last one may be longer than a thousand ids. */
  lemma PageLoaded(redis: Pages, first: nat, last: nat, all: seq<nat>, filled: Pages, p: nat)
    requires RedisRight(redis, all) && Searchable(redis, first, last, all) && 1 <= first <= p <= last
    requires Loaded(OfRedis(redis, first, last), filled, all, IDS_ON_CACHE_PAGE)
    ensures Get(filled, p) == Page(all, p, IDS_ON_CACHE_PAGE) || (p == last == 1 && Get(filled, 1) == Page(all, 1, MAX))
  {
    hide Page, RedisRight, Searchable;
    var cached := OfRedis(redis, first, last);
    assert p in cached;
    if p in redis {
      ProperPage(redis, all, p);
      if redis[p] == Cached(all, p, IDS_ON_CACHE_PAGE) {
        Tail(|all|, Get(filled, p), Page(all, p, IDS_ON_CACHE_PAGE));
      } else {
        Tail(|all|, Get(filled, 1), Page(all, 1, MAX));
        if last > 1 {
          NotLong(redis, last, all);
        }
      }
    }
  }

  lemma ProperPage(redis: Pages, all: seq<nat>, p: nat)
    requires RedisRight(redis, all) && p in redis
    ensures Proper(all, p, redis[p])
  {
  }

  /** With a first page of more than a thousand ids the second one cannot be searched for. */
  lemma NotLong(redis: Pages, last: nat, all: seq<nat>)
    requires RedisRight(redis, all) && Searchable(redis, 1, last, all) && last > 1 && 1 in redis
    ensures redis[1] == Cached(all, 1, IDS_ON_CACHE_PAGE)
  {
    hide Page;
    if |all| <= IDS_ON_CACHE_PAGE {
      SmallFirst(all);
    } else if 2 !in redis {
      LowestDecides(redis, 1, last, 2, all);
    }
  }

  /** The page a place is on. */
  function FirstPage(start: nat): nat {
    start / IDS_ON_CACHE_PAGE + 1
  }

  /** The page the place before end is on. */
  function LastPage(end: nat): nat {
    (end + IDS_ON_CACHE_PAGE - 1) / IDS_ON_CACHE_PAGE
  }

  /** They are the pages that the window overlaps. */
  lemma PagesExact(start: nat, end: nat, p: nat)
    requires start < end && p >= 1
    ensures FirstPage(start) <= p <= LastPage(end) <==> (p - 1) * IDS_ON_CACHE_PAGE < end && start < p * IDS_ON_CACHE_PAGE
  {
  }

  lemma PagesOf(start: nat, end: nat)
    requires start < end <= MAX
    ensures 1 <= FirstPage(start) <= LastPage(end) <= 9999
    ensures (FirstPage(start) - 1) * IDS_ON_CACHE_PAGE + start % IDS_ON_CACHE_PAGE == start && end <= LastPage(end) * IDS_ON_CACHE_PAGE
  {
  }

  lemma FirstProper(redis: Pages, all: seq<nat>)
    requires RedisRight(redis, all)
    ensures 1 in redis ==> Proper(all, 1, redis[1])
  {
  }

  lemma AtFirst(all: seq<nat>)
    ensures OffsetRight(all, 1, MAX) && Proper(all, 1, Cached(all, 1, MAX))
  {
  }

  lemma LongFirst(redis: Pages, all: seq<nat>)
    requires RedisRight(redis, all) && 1 !in redis
    ensures RedisRight(redis[1 := Cached(all, 1, MAX)], all)
  {
  }

  /** The first page is as many ids as are cached. */
  lemma FirstHeld(all: seq<nat>, ids: seq<nat>)
    requires Proper(all, 1, [|all|] + ids)
    ensures |ids| <= |all| && ids == all[..|ids|]
  {
    if [|all|] + ids == Cached(all, 1, IDS_ON_CACHE_PAGE) {
      Tail(|all|, ids, Page(all, 1, IDS_ON_CACHE_PAGE));
    } else {
      Tail(|all|, ids, Page(all, 1, MAX));
    }
  }

  lemma PagesProper(redis: Pages, first: nat, last: nat, all: seq<nat>)
    requires RedisRight(redis, all) && 1 <= first <= last <= 9999
    ensures
      var pages := OfRedis(redis, first, last);
      pages != map[] && forall p :: p in pages ==> 1 <= p <= 9999 && (pages[p].Some? ==> Proper(all, p, pages[p].value))
  {
    hide Proper;
    assert first in OfRedis(redis, first, last);
  }

  lemma MissingIsLater(all: seq<nat>, m: nat)
    requires m >= 1 && !OffsetRight(all, m, IDS_ON_CACHE_PAGE)
    ensures m >= 2
  {
  }

  lemma NothingMissing(redis: Pages, first: nat, last: nat, all: seq<nat>)
    requires 1 <= first && forall p :: p in OfRedis(redis, first, last) ==> OfRedis(redis, first, last)[p].Some?
    ensures Searchable(redis, first, last, all) && Completed(redis, first, last, all) == redis
  {
    hide Cached;
    forall p | first <= p <= last ensures p in redis {
      assert p in OfRedis(redis, first, last);
    }
  }

  lemma Completing(redis: Pages, first: nat, last: nat, all: seq<nat>, fields: Pages)
    requires first >= 1
    requires fields == map p | p in OfRedis(redis, first, last) && OfRedis(redis, first, last)[p].None? && p >= 1 ::
      Cached(all, p, IDS_ON_CACHE_PAGE)
    ensures redis + fields == Completed(redis, first, last, all)
  {
    hide Cached;
  }

  /** What a scan without missing pages has read. */
  lemma AllLoaded(redis: Pages, first: nat, last: nat, all: seq<nat>, filled: Pages)
    requires 1 <= first && forall p :: p in OfRedis(redis, first, last) ==> OfRedis(redis, first, last)[p].Some?
    requires forall p :: p in OfRedis(redis, first, last) ==> p in filled && OfRedis(redis, first, last)[p].value == [|all|] + filled[p]
    ensures Loaded(OfRedis(redis, first, last), filled, all, IDS_ON_CACHE_PAGE)
  {
    hide Page;
  }

  /** The window of what was found; nothing when it starts past the end. */
  method Slice(resultsIDs: seq<nat>, sliceStart: nat, size: nat, totalRows: nat) returns (r: Result)
    ensures r == Sliced(resultsIDs, sliceStart, size, totalRows)
  {
    if sliceStart > totalRows {
      return Found(totalRows, []);
    }
    var sliceEnd := sliceStart + size;
    if sliceEnd > |resultsIDs| {
      sliceEnd := |resultsIDs|;
    }
    if sliceStart > sliceEnd {
      return OutOfRange;
    }
    return Found(totalRows, resultsIDs[sliceStart..sliceEnd]);
  }

  function Sliced(ids: seq<nat>, at: nat, size: nat, total: nat): Result {
    if at > total then Found(total, []) else if at > |ids| then OutOfRange else Found(total, ids[at..Min(at + size, |ids|)])
  }

  /** The first k ids are one page. */
  lemma OnePage(ids: seq<nat>, all: seq<nat>)
    requires |ids| <= |all| && ids == all[..|ids|]
    ensures forall start, size :: Sliced(ids, start, size, |all|) == LocalAnswer(start, size, all, |ids|)
  {
    forall start: nat, size: nat ensures Sliced(ids, start, size, |all|) == LocalAnswer(start, size, all, |ids|) {
      if start <= |ids| {
        assert ids[start..Min(start + size, |ids|)] == all[start..Min(start + size, |ids|)];
      }
    }
  }

  /** The pages one after the other. */
  function Sequence(filled: Pages, first: nat, last: nat): seq<nat>
    requires first >= 1
  {
    if last < first then [] else Sequence(filled, first, last - 1) + Get(filled, last)
  }

  method Concat(filled: Pages, first: nat, last: nat) returns (ids: seq<nat>)
    requires 1 <= first <= last
    ensures ids == Sequence(filled, first, last)
  {
    ids := [];
    for p := first to last + 1
      invariant ids == Sequence(filled, first, p - 1)
    {
      ids := ids + Get(filled, p);
    }
  }

  lemma {:induction false} Joining(filled: Pages, first: nat, last: nat, all: seq<nat>, pageSize: nat)
    requires 1 <= first <= last + 1 && forall p :: first <= p <= last ==> Get(filled, p) == Page(all, p, pageSize)
    ensures 0 <= (first - 1) * pageSize <= last * pageSize
    ensures Sequence(filled, first, last) == Window(all, (first - 1) * pageSize, last * pageSize)
  {
    hide Page;
    if last >= first {
      Joining(filled, first, last - 1, all, pageSize);
      Joined(all, first, last, pageSize);
    }
  }

  /** What a searchable window gives. */
  lemma PagedRight(redis: Pages, first: nat, last: nat, all: seq<nat>, filled: Pages, start: nat, size: nat)
    requires RedisRight(redis, all) && Searchable(redis, first, last, all) && Loaded(OfRedis(redis, first, last), filled, all, IDS_ON_CACHE_PAGE)
    requires size >= 1 && start + size <= MAX && first == FirstPage(start) && last == LastPage(start + size)
    ensures 1 <= first <= last && (first - 1) * IDS_ON_CACHE_PAGE <= start
    ensures Sliced(Sequence(filled, first, last), start - (first - 1) * IDS_ON_CACHE_PAGE, size, |all|) == PagedAnswer(start, size, all)
  {
    hide RedisRight, Searchable, Loaded, Page, Window;
    PagesOf(start, start + size);
    var from, to := (first - 1) * IDS_ON_CACHE_PAGE, last * IDS_ON_CACHE_PAGE;
    forall p | first <= p <= last
      ensures Get(filled, p) == Page(all, p, IDS_ON_CACHE_PAGE) || (p == last == 1 && Get(filled, 1) == Page(all, 1, MAX))
    {
      PageLoaded(redis, first, last, all, filled, p);
    }
    if Get(filled, last) == Page(all, last, IDS_ON_CACHE_PAGE) {
      Joining(filled, first, last, all, IDS_ON_CACHE_PAGE);
    } else {
      to := MAX;
      Joining(filled, first, 1, all, MAX);
    }
    Cut(all, from, to, start - from, size, Sequence(filled, first, last));
    assert start - from == start % IDS_ON_CACHE_PAGE;
  }

  // ---------------------------------------------------------------- searches with a local cache

  /** The local caches of the engines that have one, and what they share. */
  datatype Caches = Caches(locals: Pages, redis: Pages)

  /** How many ids an engine with a local cache takes for the whole list. */
  function HeldIn(c: Caches, hasRedis: bool, e: nat, all: seq<nat>): (k: nat) {
    var value := if e in c.locals then c.locals[e] else if hasRedis && 1 in c.redis then c.redis[1] else Cached(all, 1, MAX);
    if value == [] then 0 else |value| - 1
  }

  /** What its search leaves: the engine has what it took for the list, and Redis the whole of it if neither had anything. */
  function AfterLocal(c: Caches, hasRedis: bool, e: nat, all: seq<nat>): Caches {
    if e in c.locals then c
    else
      var value := if hasRedis && 1 in c.redis then c.redis[1] else Cached(all, 1, MAX);
      Caches(c.locals[e := value], if hasRedis && 1 !in c.redis then c.redis[1 := value] else c.redis)
  }

  /**
   * After its search the engine holds what it took for the list, so that it will take the same; Redis has a first page, the
   * whole list if it had none and the engine had to search; and nothing else has changed.
   */
  lemma AfterLocalExact(c: Caches, hasRedis: bool, e: nat, all: seq<nat>)
    ensures
      var d := AfterLocal(c, hasRedis, e, all);
      && e in d.locals && HeldIn(d, hasRedis, e, all) == HeldIn(c, hasRedis, e, all)
      && (forall x :: x != e || e in c.locals ==> (x in d.locals <==> x in c.locals) && (x in c.locals ==> d.locals[x] == c.locals[x]))
      && (hasRedis && e !in c.locals ==> 1 in d.redis && d.redis[1] == d.locals[e])
      && (hasRedis && e !in c.locals && 1 !in c.redis ==> d.redis[1] == Cached(all, 1, MAX))
      && (forall p :: p != 1 || p in c.redis || !hasRedis || e in c.locals ==>
            (p in d.redis <==> p in c.redis) && (p in c.redis ==> d.redis[p] == c.redis[p]))
  {
    hide Cached;
  }

  /** The local caches and the first page in Redis hold the whole list, as far as a query may reach. */
  ghost predicate Whole(c: Caches, all: seq<nat>) {
    (forall e :: e in c.locals ==> c.locals[e] == Cached(all, 1, MAX)) && (1 in c.redis ==> c.redis[1] == Cached(all, 1, MAX))
  }

  lemma WholeHeld(c: Caches, hasRedis: bool, e: nat, all: seq<nat>)
    requires Whole(c, all)
    ensures HeldIn(c, hasRedis, e, all) == Min(|all|, MAX) && Whole(AfterLocal(c, hasRedis, e, all), all)
  {
  }

  /** Then a search by an engine with a local cache gives the number of rows and exactly the ids of the window. */
  lemma WholeAnswer(c: Caches, hasRedis: bool, e: nat, start: nat, size: nat, all: seq<nat>)
    requires Whole(c, all) && size >= 1 && start + size <= MAX
    ensures Whole(AfterLocal(c, hasRedis, e, all), all)
    ensures HeldIn(c, hasRedis, e, all) <= |all|
    ensures LocalAnswer(start, size, all, HeldIn(c, hasRedis, e, all)) == Found(|all|, Window(all, start, start + size))
  {
    WholeHeld(c, hasRedis, e, all);
    LocalExact(start, size, all, Min(|all|, MAX));
  }

  datatype Action = Search(e: nat, start: nat, size: nat) | ForgetLocal(e: nat) | ForgetRedis

  function Next(c: Caches, hasRedis: bool, all: seq<nat>, a: Action): Caches {
    match a
    case Search(e, _, _) => AfterLocal(c, hasRedis, e, all)
    case ForgetLocal(e) => c.(locals := c.locals - {e})
    case ForgetRedis => c.(redis := map[])
  }

  /** Forgetting takes an entry away, and nothing else. */
  lemma Forgets(c: Caches, hasRedis: bool, all: seq<nat>, e: nat)
    ensures
      var d := Next(c, hasRedis, all, ForgetLocal(e));
      && d.redis == c.redis && (forall x :: x in d.locals <==> x in c.locals && x != e)
      && (forall x :: x in d.locals ==> d.locals[x] == c.locals[x])
    ensures Next(c, hasRedis, all, ForgetRedis).locals == c.locals && forall p :: p !in Next(c, hasRedis, all, ForgetRedis).redis
  {
  }

  /** Engines with a local cache search, from empty caches on; entries are forgotten at any time. */
  ghost predicate Run(cs: seq<Caches>, acts: seq<Action>, hasRedis: bool, all: seq<nat>) {
    && |cs| == |acts| + 1 && cs[0] == Caches(map[], map[])
    && (forall i :: 0 <= i < |acts| ==> cs[i + 1] == Next(cs[i], hasRedis, all, acts[i]))
    && forall i :: 0 <= i < |acts| && acts[i].Search? ==> acts[i].size >= 1 && acts[i].start + acts[i].size <= MAX
  }

  lemma {:induction false} RunWhole(cs: seq<Caches>, acts: seq<Action>, hasRedis: bool, all: seq<nat>, i: nat)
    requires Run(cs, acts, hasRedis, all) && i < |cs|
    ensures Whole(cs[i], all)
  {
    hide AfterLocal, Cached;
    if i > 0 {
      RunWhole(cs, acts, hasRedis, all, i - 1);
      assert cs[i - 1 + 1] == Next(cs[i - 1], hasRedis, all, acts[i - 1]);
      if acts[i - 1].Search? {
        WholeHeld(cs[i - 1], hasRedis, acts[i - 1].e, all);
      }
    }
  }

  /** In every such run every search, hit or miss, is answered with the number of rows and exactly the ids of its window. */
  lemma RunAnswers(cs: seq<Caches>, acts: seq<Action>, hasRedis: bool, all: seq<nat>, i: nat)
    requires Run(cs, acts, hasRedis, all) && i < |acts| && acts[i].Search?
    ensures HeldIn(cs[i], hasRedis, acts[i].e, all) <= |all|
    ensures LocalAnswer(acts[i].start, acts[i].size, all, HeldIn(cs[i], hasRedis, acts[i].e, all))
      == Found(|all|, Window(all, acts[i].start, acts[i].start + acts[i].size))
  {
    hide Whole, HeldIn, LocalAnswer, Window;
    RunWhole(cs, acts, hasRedis, all, i);
    WholeAnswer(cs[i], hasRedis, acts[i].e, acts[i].start, acts[i].size, all);
  }

  /** The caches of one query: Redis, which all engines share, and for each engine that has one its local or request cache. */
  class QueryCache {
    const hasRedis: bool
    var locals: Pages
    var redis: Pages

    constructor (hasRedis: bool)
      ensures this.hasRedis == hasRedis && locals == map[] && redis == map[]
    {
      this.hasRedis, locals, redis := hasRedis, map[], map[];
    }

    /** Whatever is cached is what running the query again could cache. */
    ghost predicate Right(all: seq<nat>)
      reads this
    {
      (forall e :: e in locals ==> Proper(all, 1, locals[e])) && RedisRight(redis, all) && (!hasRedis ==> redis == map[])
    }

    function Now(): Caches
      reads this
    {
      Caches(locals, redis)
    }

    /** How many ids an engine with a local cache takes for the whole list. */
    function Held(e: nat, all: seq<nat>): (k: nat)
      reads this
    {
      HeldIn(Now(), hasRedis, e, all)
    }

    /** With a local cache the whole list is one page, whatever the size of the page that Redis has. */
    method LocalPage(e: nat, all: seq<nat>) returns (filled: Pages, total: nat)
      requires Right(all) && Distinct(all)
      modifies this
      ensures Right(all) && total == |all|
      ensures old(Held(e, all)) <= |all| && Get(filled, 1) == all[..old(Held(e, all))]
      ensures Now() == AfterLocal(old(Now()), hasRedis, e, all)
    {
      hide Page, OffsetRight, RedisRight, Distinct, Proper;
      var fromCache: map<nat, Option<seq<nat>>> := map[1 := None];
      var nils := false;
      if e in locals {
        fromCache := map[1 := Some(locals[e])];
      } else {
        nils := true;
      }
      if hasRedis && nils {
        if 1 in redis {
          fromCache := fromCache[1 := Some(redis[1])];
        }
      }
      FirstProper(redis, all);
      assert 1 in fromCache;
      var ok, hasNil, minPage, maxPage;
      filled, total, hasNil, minPage, maxPage := ScanPages(fromCache, all);
      if hasNil {
        var cacheFields;
        AtFirst(all);
        ok, filled, total, cacheFields := FillMissing(fromCache, filled, MAX, minPage, maxPage, all);
        if hasRedis {
          LongFirst(redis, all);
          assert redis + cacheFields == redis[1 := Cached(all, 1, MAX)];
          redis := redis + cacheFields;
        }
      }
      ghost var ids := Get(filled, 1);
      assert hasNil ==> [total] + ids == Cached(all, 1, MAX);
      assert !hasNil ==> [total] + ids == fromCache[1].value;
      FirstHeld(all, ids);
      if nils {
        locals := locals[e := [total] + Get(filled, 1)];
      }
    }

    /** Without one the window's pages of a thousand come from Redis; those it lacks are searched for at once. */
    method RedisPages(first: nat, last: nat, all: seq<nat>) returns (ok: bool, filled: Pages, total: nat)
      requires hasRedis && Right(all) && Distinct(all) && 1 <= first <= last <= 9999
      modifies this
      ensures old(Searchable(redis, first, last, all)) ==>
        && ok && Right(all) && total == |all| && Loaded(OfRedis(old(redis), first, last), filled, all, IDS_ON_CACHE_PAGE)
        && locals == old(locals) && redis == Completed(old(redis), first, last, all)
      ensures !old(Searchable(redis, first, last, all)) ==> !ok || !Right(all)
    {
      hide Page, Searchable, OffsetRight, RedisRight, Distinct, Cached, Proper;
      var fromCache := OfRedis(redis, first, last);
      PagesProper(redis, first, last, all);
      var hasNil, minPage, maxPage;
      ok := true;
      filled, total, hasNil, minPage, maxPage := ScanPages(fromCache, all);
      if hasNil {
        var cacheFields;
        forall o | first <= o < minPage ensures o in redis {
          assert o in fromCache;
        }
        LowestDecides(redis, first, last, minPage, all);
        ok, filled, total, cacheFields := FillMissing(fromCache, filled, IDS_ON_CACHE_PAGE, minPage, maxPage, all);
        if !ok {
          return;
        }
        if OffsetRight(all, minPage, IDS_ON_CACHE_PAGE) {
          CompletedRight(redis, first, last, minPage, all);
          Completing(redis, first, last, all, cacheFields);
        } else {
          MissingIsLater(all, minPage);
          WrongPage(redis + cacheFields, minPage, all);
        }
        redis := redis + cacheFields;
      } else {
        NothingMissing(redis, first, last, all);
        AllLoaded(redis, first, last, all, filled);
      }
    }

    /**
     * The ids of one page of a cached query, for an engine with a local cache of its own or with none, over a Redis cache
     * that all engines share.
     */
    method SearchIDs(local: Option<nat>, currentPage: nat, size: nat, all: seq<nat>) returns (r: Result)
      requires local.Some? || hasRedis
      requires currentPage >= 1 && size >= 1 && (currentPage - 1) * size + size <= MAX
      requires Right(all) && Distinct(all)
      modifies this
      ensures local.Some? ==>
        && Right(all) && old(Held(local.value, all)) <= |all|
        && r == LocalAnswer((currentPage - 1) * size, size, all, old(Held(local.value, all)))
        && Now() == AfterLocal(old(Now()), hasRedis, local.value, all)
        == Next(old(Now()), hasRedis, all, Search(local.value, (currentPage - 1) * size, size))
      ensures local.Some? && old(Whole(Now(), all)) ==>
        Whole(Now(), all) && r == Found(|all|, Window(all, (currentPage - 1) * size, (currentPage - 1) * size + size))
      ensures local.None? ==>
        var first, last := FirstPage((currentPage - 1) * size), LastPage((currentPage - 1) * size + size);
        if old(Searchable(redis, first, last, all)) then
          && Right(all) && r == PagedAnswer((currentPage - 1) * size, size, all)
          && locals == old(locals) && redis == Completed(old(redis), first, last, all)
        else r.OutOfRange? || !Right(all)
    {
      hide Whole, AfterLocal, LocalAnswer, PagedAnswer, Page, Window, Searchable;
      hide Distinct, Completed, Right, HeldIn, FirstPage, LastPage;
      var start := (currentPage - 1) * size;
      if local.Some? && Whole(Now(), all) {
        WholeAnswer(Now(), hasRedis, local.value, start, size, all);
      }
      r := SearchWindow(local, start, size, all);
    }

    method SearchWindow(local: Option<nat>, start: nat, size: nat, all: seq<nat>) returns (r: Result)
      requires local.Some? || hasRedis
      requires size >= 1 && start + size <= MAX && Right(all) && Distinct(all)
      modifies this
      ensures local.Some? ==>
        && Right(all) && old(Held(local.value, all)) <= |all| && r == LocalAnswer(start, size, all, old(Held(local.value, all)))
        && Now() == AfterLocal(old(Now()), hasRedis, local.value, all)
      ensures local.None? ==>
        if old(Searchable(redis, FirstPage(start), LastPage(start + size), all)) then
          && Right(all) && r == PagedAnswer(start, size, all)
          && locals == old(locals) && redis == Completed(old(redis), FirstPage(start), LastPage(start + size), all)
        else r.OutOfRange? || !Right(all)
    {
      hide Page, Window, Searchable, OffsetRight, Distinct, Cached, Proper, Completed, Loaded, OfRedis, Right, Held;
      hide PagedAnswer, LocalAnswer, Sliced, Sequence, FirstPage, LastPage, RedisRight;
      if local.Some? {
        var filled, total := LocalPage(local.value, all);
        OnePage(Get(filled, 1), all);
        r := Slice(Get(filled, 1), start, size, total);
        return;
      }
      var first, last := FirstPage(start), LastPage(start + size);
      PagesOf(start, start + size);
      PagesRight(all);
      ghost var pages := redis;
      var ok, filled, total := RedisPages(first, last, all);
      if !ok {
        return OutOfRange;
      }
      var resultsIDs := Concat(filled, first, last);
      r := Slice(resultsIDs, start - (first - 1) * IDS_ON_CACHE_PAGE, size, total);
      if Searchable(pages, first, last, all) {
        PagedRight(pages, first, last, all, filled, start, size);
      }
    }

    lemma PagesRight(all: seq<nat>)
      requires Right(all)
      ensures RedisRight(redis, all)
    {
    }
  }

  // ---------------------------------------------------------------- where the conditions bite

  /** A table of n rows. */
  function Rows(n: nat): (all: seq<nat>)
    ensures |all| == n && forall i :: 0 <= i < n ==> all[i] == i + 1
  {
    seq(n, i => i + 1)
  }

  lemma RowsDistinct(n: nat)
    ensures Distinct(Rows(n))
  {
  }

  lemma NewCache(cache: QueryCache, all: seq<nat>)
    requires cache.locals == map[] && cache.redis == map[]
    ensures cache.Right(all)
  {
  }

  /** What the first search leaves in Redis. */
  lemma FirstCompleted(all: seq<nat>)
    ensures Searchable(map[], 1, 1, all) && Completed(map[], 1, 1, all) == map[1 := Cached(all, 1, IDS_ON_CACHE_PAGE)]
  {
    hide Cached;
    AtFirstPage(all);
  }

  lemma AtFirstPage(all: seq<nat>)
    ensures OffsetRight(all, 1, IDS_ON_CACHE_PAGE)
  {
  }

  lemma ThousandHeld(cache: QueryCache, e: nat, all: seq<nat>)
    requires cache.hasRedis && cache.locals == map[] && cache.redis == map[1 := Cached(all, 1, IDS_ON_CACHE_PAGE)] && |all| >= 1000
    ensures cache.Held(e, all) == 1000
  {
  }

  /** An engine without a local cache has searched for the first hundred of 5000 rows. */
  method FirstHundred(all: seq<nat>) returns (cache: QueryCache)
    requires |all| == 5000 && Distinct(all)
    ensures fresh(cache) && cache.hasRedis && cache.Right(all)
    ensures cache.locals == map[] && cache.redis == map[1 := Cached(all, 1, IDS_ON_CACHE_PAGE)]
  {
    hide Searchable, Completed, RedisRight, Cached, Distinct, QueryCache.Right;
    cache := new QueryCache(true);
    NewCache(cache, all);
    FirstCompleted(all);
    var r := cache.SearchIDs(None, 1, 100, all);
  }

  /** Then one with a request cache, asking for rows 1901 to 2000, takes the thousand ids for the whole list. */
  method RequestCacheFails() returns (r: Result)
    ensures r.OutOfRange?
  {
    hide Searchable, Completed, RedisRight, Cached, Distinct, QueryCache.Right, QueryCache.Held;
    var all := Rows(5000);
    RowsDistinct(5000);
    var cache := FirstHundred(all);
    ThousandHeld(cache, 1, all);
    r := cache.SearchIDs(Some(1), 20, 100, all);
  }

  /** Asking for rows 601 to 1200 it gets 400. */
  method RequestCacheShort() returns (r: Result)
    ensures r == Found(5000, Rows(5000)[600..1000])
  {
    hide Searchable, Completed, RedisRight, Cached, Distinct, QueryCache.Right, QueryCache.Held;
    var all := Rows(5000);
    RowsDistinct(5000);
    var cache := FirstHundred(all);
    ThousandHeld(cache, 1, all);
    r := cache.SearchIDs(Some(1), 2, 600, all);
  }

  /** Without Redis, or with engines that all have a local cache, a hit gives the window as the miss before it did. */
  method HitAfterMiss(hasRedis: bool) returns (miss: Result, hit: Result, other: Result)
    ensures miss == Found(5000, Rows(5000)[..100]) && hit == other == Found(5000, Rows(5000)[1900..2000])
  {
    hide Searchable, Completed, RedisRight, Cached, Distinct, QueryCache.Right, QueryCache.Held, AfterLocal;
    var all := Rows(5000);
    RowsDistinct(5000);
    var cache := new QueryCache(hasRedis);
    NewCache(cache, all);
    miss := cache.SearchIDs(Some(1), 1, 100, all);
    hit := cache.SearchIDs(Some(1), 20, 100, all);
    other := cache.SearchIDs(Some(2), 20, 100, all);
  }

  lemma SecondPageUnsearchable(all: seq<nat>)
    requires |all| == 5000
    ensures !Searchable(map[1 := Cached(all, 1, IDS_ON_CACHE_PAGE)], 2, 2, all)
  {
    hide Cached;
    var redis := map[1 := Cached(all, 1, IDS_ON_CACHE_PAGE)];
    LowestDecides(redis, 2, 2, 2, all);
  }

  /** And an engine without a local cache that goes on with rows 1001 to 1100 leaves a wrong second page in Redis, or panics. */
  method SecondPageFails(cache: QueryCache, all: seq<nat>) returns (r: Result)
    requires |all| == 5000 && Distinct(all) && cache.hasRedis && cache.Right(all)
    requires cache.redis == map[1 := Cached(all, 1, IDS_ON_CACHE_PAGE)]
    modifies cache
    ensures r.OutOfRange? || !cache.Right(all)
  {
    hide Searchable, Completed, RedisRight, Cached, Distinct, QueryCache.Right, QueryCache.Held;
    SecondPageUnsearchable(all);
    r := cache.SearchIDs(None, 11, 100, all);
  }

  lemma FewSearchable(all: seq<nat>, first: nat, last: nat)
    requires |all| <= 1000
    ensures Searchable(map[], first, last, all)
  {
  }

  /** Five rows: the second page of 1001 is out of range. */
  method PastTheEnd() returns (r: Result)
    ensures r.OutOfRange?
  {
    hide Searchable, Completed, RedisRight, Cached, Distinct, QueryCache.Right, QueryCache.Held;
    var all := Rows(5);
    RowsDistinct(5);
    var cache := new QueryCache(true);
    NewCache(cache, all);
    FewSearchable(all, FirstPage(1001), LastPage(2002));
    r := cache.SearchIDs(None, 2, 1001, all);
  }

  // ---------------------------------------------------------------- queries for one row

  /** What is cached for a query for one row: how many were found, and the row if it was. */
  function CachedOne(all: seq<nat>): seq<nat> {
    if all == [] then [0] else [1, all[0]]
  }

  class OneCache {
    const hasLocal: bool
    const hasRedis: bool
    var local: Option<seq<nat>>
    var redis: Option<seq<nat>>

    constructor (hasLocal: bool, hasRedis: bool)
      ensures this.hasLocal == hasLocal && this.hasRedis == hasRedis && local.None? && redis.None?
    {
      this.hasLocal, this.hasRedis, local, redis := hasLocal, hasRedis, None, None;
    }

    /** Whatever is cached is what running the query again would cache. */
    ghost predicate Right(all: seq<nat>)
      reads this
    {
      (local.Some? ==> local.value == CachedOne(all)) && (redis.Some? ==> redis.value == CachedOne(all))
    }

    /** The first row's id, or 0, whichever cache holds it; MySQL is searched when neither does, and then both are filled. */
    method SearchOneID(all: seq<nat>) returns (id: nat, searched: bool)
      requires (hasLocal || hasRedis) && Right(all) && forall x :: x in all ==> x > 0
      modifies this
      ensures Right(all) && id == if all == [] then 0 else all[0]
      ensures searched <==> old(!(hasLocal && local.Some?) && !(hasRedis && redis.Some?))
      ensures if searched then (hasLocal ==> local.Some?) && (hasRedis ==> redis.Some?) else local == old(local) && redis == old(redis)
    {
      var fromCache: Option<seq<nat>> := None;
      if hasLocal {
        fromCache := local;
      }
      if fromCache.None? && hasRedis {
        fromCache := redis;
      }
      id, searched := 0, fromCache.None?;
      if searched {
        var results := Page(all, 1, 1);
        var l := |results|;
        var value := [l];
        if l > 0 {
          id := results[0];
          value := value + [results[0]];
        }
        if hasLocal {
          local := Some(value);
        }
        if hasRedis {
          redis := Some(value);
        }
      } else {
        var ids := fromCache.value;
        if ids[0] != 0 {
          id := ids[1];
        }
      }
    }
  }
}
