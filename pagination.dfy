/**
 * The pagination arithmetic shared by the alumni and job listings: clamping
 * of `page` and `limit`, `offset = (page-1)*limit`, `pages =
 * (total+limit-1)/limit`, the LIMIT/OFFSET window a query returns, and the
 * choice a GET-all handler makes between the paged and the plain listing.
 */
module Pagination {
  import Text

  /** `if page < 1 { page = 1 }`. */
  function ClampPage(page: int): (p: int)
    ensures p >= 1
    ensures page >= 1 ==> p == page
    ensures page < 1 ==> p == 1
  {
    if page < 1 then 1 else page
  }

  /** `if limit < 1 || limit > 100 { limit = 10 }`. */
  function ClampLimit(limit: int): (l: int)
    ensures 1 <= l <= 100
    ensures 1 <= limit <= 100 ==> l == limit
    ensures !(1 <= limit <= 100) ==> l == 10
  {
    if limit < 1 || limit > 100 then 10 else limit
  }

  /**
   * `offset := (page - 1) * limit`: the number of rows before the first row
   * of page `page`. Go's 64-bit wrap-around for absurdly large pages is not
   * part of this model.
   */
  function Offset(page: int, limit: int): (o: int)
    requires page >= 1 && limit >= 1
    ensures o >= 0
    ensures page == 1 <==> o == 0
  {
    ProductSign(page - 1, limit);
    (page - 1) * limit
  }

  /** Page `page + 1` starts right where page `page` ends. */
  lemma NextOffset(page: int, limit: int)
    requires page >= 1 && limit >= 1
    ensures Offset(page + 1, limit) == Offset(page, limit) + limit
  {
  }

  lemma ProductSign(a: int, b: int)
    requires b > 0
    ensures a >= 1 ==> a * b >= b
    ensures a >= 0 ==> a * b >= 0
    ensures a <= 0 ==> a * b <= 0
    ensures a <= -1 ==> a * b <= -b
    ensures a == 0 <==> a * b == 0
  {
  }

  /**
   * `pages := (total + limit - 1) / limit`. With `total >= 0` and
   * `limit >= 1` the dividend is never negative, so Go's truncating division
   * and Dafny's Euclidean division agree.
   */
  function Pages(total: int, limit: int): int
    requires total >= 0 && limit >= 1
  {
    (total + limit - 1) / limit
  }

  /** `Pages` is the ceiling of `total / limit`, and 0 exactly when there is nothing. */
  lemma PagesIsCeiling(total: int, limit: int)
    requires total >= 0 && limit >= 1
    ensures Pages(total, limit) == 0 <==> total == 0
    ensures Pages(total, limit) * limit >= total
    ensures total > 0 ==> (Pages(total, limit) - 1) * limit < total
  {
    var q := (total + limit - 1) / limit;
    var r := (total + limit - 1) % limit;
    assert total + limit - 1 == q * limit + r && 0 <= r < limit;
    assert (q - 1) * limit == q * limit - limit;
    ProductSign(q, limit);
  }

  /** Every row index below `total` falls on some page between 1 and `Pages`. */
  lemma PageOfRow(total: int, limit: int, i: int)
    requires total >= 0 && limit >= 1 && 0 <= i < total
    ensures var p := i / limit + 1;
      1 <= p <= Pages(total, limit) && Offset(p, limit) <= i < Offset(p, limit) + limit
  {
    var d, m := i / limit, i % limit;
    assert i == d * limit + m && 0 <= m < limit;
    ProductSign(d, limit);
    assert Offset(d + 1, limit) == d * limit;
    PagesIsCeiling(total, limit);
    var n := Pages(total, limit);
    ProductSign(d - n, limit);
    assert (d - n) * limit == d * limit - n * limit;
  }

  /** The number of rows `LIMIT limit OFFSET offset` leaves of `n` rows. */
  function WindowLength(n: nat, limit: nat, offset: nat): nat
  {
    if offset >= n then 0 else if n - offset < limit then n - offset else limit
  }

  /** The rows `LIMIT limit OFFSET offset` selects from `s`. */
  function Window<T>(s: seq<T>, limit: nat, offset: nat): (w: seq<T>)
    ensures |w| == WindowLength(|s|, limit, offset)
    ensures forall i :: 0 <= i < |w| ==> w[i] == s[offset + i]
  {
    if offset >= |s| then []
    else if |s| - offset < limit then s[offset..]
    else s[offset..offset + limit]
  }

  /**
   * The raw query parameters of a GET-all request, each `""` when absent
   * (`c.Query(name)`).
   */
  datatype Query = Query(page: string, limit: string, search: string, sortBy: string, order: string)

  /** The listing a GET-all handler runs. */
  datatype ListPlan =
    | Paged(search: string, sortBy: string, order: string, page: int, limit: int)
    | ListAll

  /** `c.Query(name, default)`: the default stands in for an absent or empty value. */
  function QueryOr(value: string, default: string): string
  {
    if value == "" then default else value
  }

  /**
   * The decision of `HandleGetAllAlumni` (and of its twin for jobs): parse
   * `page` and `limit` with their defaults, ignoring parse errors, clamp
   * them, and take the paged branch only when `page`, `limit`, `search` or
   * `sortBy` is present.
   */
  function PlanList(q: Query): (plan: ListPlan)
    ensures plan.Paged? <==> q.page != "" || q.limit != "" || q.search != "" || q.sortBy != ""
    ensures plan.Paged? ==> 1 <= plan.page && 1 <= plan.limit <= 100
    ensures plan.Paged? ==> plan.search == q.search
    ensures plan.Paged? ==> plan.sortBy == (if q.sortBy == "" then "id" else q.sortBy)
    ensures plan.Paged? ==> plan.order == (if q.order == "" then "asc" else q.order)
    ensures plan.Paged? && q.page == "" ==> plan.page == 1
    ensures plan.Paged? && q.limit == "" ==> plan.limit == 10
  {
    var page := ClampPage(Text.AtoiOrZero(QueryOr(q.page, "1")));
    var limit := ClampLimit(Text.AtoiOrZero(QueryOr(q.limit, "10")));
    if q.page != "" || q.limit != "" || q.search != "" || q.sortBy != "" then
      Paged(q.search, QueryOr(q.sortBy, "id"), QueryOr(q.order, "asc"), page, limit)
    else
      ListAll
  }

  /** `order` on its own never switches to the paged listing. */
  lemma OrderAloneListsAll(order: string)
    ensures PlanList(Query("", "", "", "", order)) == ListAll
  {
  }

  /** The `ORDER BY` column and direction a listing query is built with. */
  datatype OrderBy = OrderBy(column: string, direction: string)

  /**
   * The sanitisation in front of `fmt.Sprintf("ORDER BY %s %s", ...)`: a
   * `sortBy` outside the repository's allow-list becomes `"id"`, and any
   * `order` other than `"desc"` becomes `"asc"`. Only allow-listed text ever
   * reaches the query.
   */
  function SortClause(sortBy: string, order: string, columns: set<string>): (o: OrderBy)
    requires "id" in columns
    ensures o.column in columns
    ensures o.column == (if sortBy in columns then sortBy else "id")
    ensures o.direction in {"asc", "desc"}
    ensures o.direction == "desc" <==> order == "desc"
  {
    OrderBy(if sortBy in columns then sortBy else "id", if order == "desc" then "desc" else "asc")
  }

  /** The `meta` object of a paged response. */
  datatype MetaInfo = MetaInfo(
    page: int, limit: int, total: int, pages: int,
    sortBy: string, order: string, search: string)

  datatype PageResponse<T> = PageResponse(data: seq<T>, meta: MetaInfo)
}
