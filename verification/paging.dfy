/**
 * The list contract shared by the three list handlers: page defaults,
 * LIMIT/OFFSET window, page count, and the WHERE clause assembled from the
 * pushed `filters` and `searching` conditions.
 */
module Paging {
  import opened Wrappers
  import opened DbHelper
  import opened Ordering
  import Strings

  /** `page ?? 1`. */
  function PageOrDefault(page: Option<int>): int {
    page.GetOr(1)
  }

  /** `page_size ?? PAGE_SIZE`. */
  function PageSizeOrDefault(pageSize: Option<int>, configured: int): int {
    pageSize.GetOr(configured)
  }

  /** `(page - 1) * page_size`. */
  function Offset(page: int, pageSize: int): (r: nat)
    requires page >= 1 && pageSize >= 0
    ensures r == (page - 1) * pageSize
  {
    var r := (page - 1) * pageSize;
    assert r >= 0 by { NonNegativeProduct(page - 1, pageSize); }
    r
  }

  lemma NonNegativeProduct(a: nat, b: nat)
    ensures a * b >= 0
  {
  }

  /** `OFFSET offset LIMIT limit` over rows already filtered and ordered. */
  function Window<T>(rows: seq<T>, offset: nat, limit: nat): (r: seq<T>)
    ensures |r| <= limit
    ensures offset >= |rows| ==> r == []
    ensures offset < |rows| ==> |r| == if |rows| - offset < limit then |rows| - offset else limit
    ensures forall j :: 0 <= j < |r| ==> r[j] == rows[offset + j]
  {
    if offset >= |rows| then []
    else if offset + limit >= |rows| then rows[offset..]
    else rows[offset..offset + limit]
  }

  /** `Math.ceil(total / page_size)`: the fewest pages of `pageSize` rows that hold `total` rows. */
  function Pages(total: nat, pageSize: int): (r: nat)
    requires pageSize >= 1
    ensures (r - 1) * pageSize < total <= r * pageSize
  {
    var q := (total + pageSize - 1) / pageSize;
    var m := (total + pageSize - 1) % pageSize;
    assert q * pageSize + m == total + pageSize - 1;
    assert (q - 1) * pageSize == q * pageSize - pageSize;
    q
  }

  /** The list envelope `{ page, pages, total, data }`. */
  datatype Paged<T> = Paged(page: int, pages: int, total: int, data: seq<T>)

  /** A condition the list handlers push: ILIKE on code or name, equality on is_active. */
  datatype Cond = CodeLike(pattern: string) | NameLike(pattern: string) | ActiveIs(flag: bool)

  predicate Holds(c: Cond, code: string, name: string, active: bool) {
    match c
    case CodeLike(p) => Strings.ILike(code, p)
    case NameLike(p) => Strings.ILike(name, p)
    case ActiveIs(b) => active == b
  }

  /**
   * `and(...filters, or(...searching))`: an empty `or()` is dropped, and an
   * `and` of nothing imposes no condition.
   */
  predicate Where(filters: seq<Cond>, searching: seq<Cond>, code: string, name: string, active: bool) {
    (forall i :: 0 <= i < |filters| ==> Holds(filters[i], code, name, active)) &&
    (searching == [] || exists i :: 0 <= i < |searching| && Holds(searching[i], code, name, active))
  }

  /** A non-empty `search`, as `if (search)` reads it. */
  predicate Searching(search: Option<string>) {
    search.Some? && search.value != ""
  }

  /** The search half of the list predicate: code ILIKE search OR name ILIKE search. */
  predicate SearchKeeps(search: Option<string>, code: string, name: string) {
    !Searching(search) || Strings.ILike(code, search.value) || Strings.ILike(name, search.value)
  }

  /** The is_active half of the list predicate: equality when given. */
  predicate ActiveKeeps(isActive: Option<bool>, active: bool) {
    isActive.None? || isActive.value == active
  }

  /** The `searching` conditions pushed for a search string: code first, then name. */
  function SearchConds(search: Option<string>): seq<Cond> {
    if Searching(search) then [CodeLike(search.value), NameLike(search.value)] else []
  }

  /** The `filters` conditions pushed for an is_active value. */
  function ActiveFilters(isActive: Option<bool>): seq<Cond> {
    if isActive.Some? then [ActiveIs(isActive.value)] else []
  }

  /** The pushed conditions mean: is_active equality (when given) and the search. */
  lemma WhereMeans(isActive: Option<bool>, search: Option<string>, code: string, name: string, active: bool)
    ensures Where(ActiveFilters(isActive), SearchConds(search), code, name, active)
      <==> (ActiveKeeps(isActive, active) && SearchKeeps(search, code, name))
  {
    var filters := ActiveFilters(isActive);
    var searching := SearchConds(search);
    if isActive.Some? {
      assert Holds(filters[0], code, name, active) == (active == isActive.value);
    }
    if Searching(search) {
      assert Holds(searching[0], code, name, active) == Strings.ILike(code, search.value);
      assert Holds(searching[1], code, name, active) == Strings.ILike(name, search.value);
      assert (exists i :: 0 <= i < |searching| && Holds(searching[i], code, name, active))
        <==> Strings.ILike(code, search.value) || Strings.ILike(name, search.value);
    }
  }

  /** A search without wildcards is case-insensitive equality, not a substring search. */
  lemma SearchIsWholeValue(search: string, code: string, name: string)
    requires search != "" && Strings.NoWildcards(search)
    ensures SearchKeeps(Some(search), code, name)
      <==> Strings.Lower(code) == Strings.Lower(search) || Strings.Lower(name) == Strings.Lower(search)
  {
    Strings.ILikeLiteral(code, search);
    Strings.ILikeLiteral(name, search);
  }

  /** Worked example: twelve matching rows at five a page make three pages, the second one full. */
  lemma TwelveRowsFivePerPage<T>(rows: seq<T>)
    requires |rows| == 12
    ensures Pages(12, 5) == 3
    ensures |Window(rows, Offset(2, 5), 5)| == 5
  {
  }

  // ----- the list body the three list handlers return -----

  /** ORDER BY, applied only when both a column and a direction are given. */
  function Ordered<R>(rows: seq<R>, key: Option<R -> Key>, dir: Option<Dir>): seq<R> {
    if key.Some? && dir.Some? then SortBy(rows, key.value, dir.value) else rows
  }

  /** The selected columns of each row. */
  function Project<R, I>(rows: seq<R>, item: R -> I): (r: seq<I>)
    ensures |r| == |rows| && forall j :: 0 <= j < |rows| ==> r[j] == item(rows[j])
  {
    seq(|rows|, j requires 0 <= j < |rows| => item(rows[j]))
  }

  /**
   * The list body: the rows that pass `keep`, ordered, cut to the page's
   * window and projected; the total and the page count from the same rows.
   */
  function Listing<R, I>(table: seq<R>, keep: R -> bool, key: Option<R -> Key>, dir: Option<Dir>,
                         item: R -> I, page: int, size: int): Paged<I>
    requires page >= 1 && size >= 1
  {
    var matching := Select(table, Some(keep));
    var shown := Window(Ordered(matching, key, dir), Offset(page, size), size);
    Paged(page, Pages(|matching|, size), |matching|, Project(shown, item))
  }

  /**
   * What a list body holds: the total counts the rows the predicate keeps,
   * the page count is the ceiling of total over page size, and the data is
   * the whole window of kept rows starting at the page's offset, sorted
   * when ordered.
   */
  lemma ListingMeans<R, I>(table: seq<R>, keep: R -> bool, key: Option<R -> Key>, dir: Option<Dir>,
                           item: R -> I, page: int, size: int)
    requires page >= 1 && size >= 1
    ensures Listing(table, keep, key, dir, item, page, size).page == page
    ensures Listing(table, keep, key, dir, item, page, size).total == Count(table, keep)
    ensures var l := Listing(table, keep, key, dir, item, page, size);
      (l.pages - 1) * size < l.total <= l.pages * size
    ensures |Listing(table, keep, key, dir, item, page, size).data| <= size
    ensures var l := Listing(table, keep, key, dir, item, page, size);
      |l.data| == if l.total <= (page - 1) * size then 0
                  else if l.total - (page - 1) * size < size then l.total - (page - 1) * size
                  else size
    ensures var l := Listing(table, keep, key, dir, item, page, size);
      var sorted := Ordered(Select(table, Some(keep)), key, dir);
      |sorted| == l.total &&
      forall j :: 0 <= j < |l.data| ==> l.data[j] == item(sorted[(page - 1) * size + j])
    ensures forall x :: x in Ordered(Select(table, Some(keep)), key, dir) ==> x in table && keep(x)
  {
    ListingCounts(table, keep, key, dir, item, page, size);
    var total := |Select(table, Some(keep))|;
    assert (Pages(total, size) - 1) * size < total <= Pages(total, size) * size;
    ListingWindow(table, keep, key, dir, item, page, size);
    ListingRows(table, keep, key, dir);
  }

  lemma ListingCounts<R, I>(table: seq<R>, keep: R -> bool, key: Option<R -> Key>, dir: Option<Dir>,
                            item: R -> I, page: int, size: int)
    requires page >= 1 && size >= 1
    ensures var l := Listing(table, keep, key, dir, item, page, size);
      l.page == page && l.total == Count(table, keep) && l.total == |Select(table, Some(keep))| &&
      l.pages == Pages(|Select(table, Some(keep))|, size)
  {
    CountIsSelectLength(table, keep);
  }

  lemma ListingWindow<R, I>(table: seq<R>, keep: R -> bool, key: Option<R -> Key>, dir: Option<Dir>,
                            item: R -> I, page: int, size: int)
    requires page >= 1 && size >= 1
    ensures var l := Listing(table, keep, key, dir, item, page, size);
      var sorted := Ordered(Select(table, Some(keep)), key, dir);
      |sorted| == l.total &&
      |l.data| == (if |sorted| <= (page - 1) * size then 0
                   else if |sorted| - (page - 1) * size < size then |sorted| - (page - 1) * size
                   else size) &&
      forall j :: 0 <= j < |l.data| ==> l.data[j] == item(sorted[(page - 1) * size + j])
  {
    var matching := Select(table, Some(keep));
    OrderedPermutes(matching, key, dir);
  }

  lemma ListingRows<R>(table: seq<R>, keep: R -> bool, key: Option<R -> Key>, dir: Option<Dir>)
    ensures forall x :: x in Ordered(Select(table, Some(keep)), key, dir) ==> x in table && keep(x)
  {
    var matching := Select(table, Some(keep));
    OrderedPermutes(matching, key, dir);
    forall x | x in Ordered(matching, key, dir) ensures x in table && keep(x) {
      assert x in multiset(Ordered(matching, key, dir));
      SelectMember(table, Some(keep), x);
    }
  }

  /** Ordering permutes the rows, and sorts them when both column and direction are given. */
  lemma OrderedPermutes<R>(rows: seq<R>, key: Option<R -> Key>, dir: Option<Dir>)
    ensures multiset(Ordered(rows, key, dir)) == multiset(rows)
    ensures |Ordered(rows, key, dir)| == |rows|
    ensures key.Some? && dir.Some? ==> SortedBy(Ordered(rows, key, dir), key.value, dir.value)
    ensures key.None? || dir.None? ==> Ordered(rows, key, dir) == rows
  {
    if key.Some? && dir.Some? {
      SortBySorted(rows, key.value, dir.value);
      assert |multiset(Ordered(rows, key, dir))| == |multiset(rows)|;
    }
  }

  /** Without an is_active filter or a search, every row is listed. */
  lemma NoConditionsKeepAll<R>(table: seq<R>, keep: R -> bool)
    requires forall i :: 0 <= i < |table| ==> keep(table[i])
    ensures Select(table, Some(keep)) == table
  {
    SelectAll(table, keep);
  }
}
