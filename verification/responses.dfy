/** The response helpers of utils/responseHelper.js: the clamped pagination
    metadata and the shapes of the success and failure bodies. */
module Responses {
  import opened Common
  import ErrorHandling

  /** A query argument after `Number(...)`: omitted (the default parameter
      applies), a number, or NaN. `null` and the empty string are `Num(0.0)`. */
  datatype Arg = Omitted | Num(x: real) | NaN

  /** `Math.ceil(x)`. */
  function Ceil(x: real): (c: int)
    ensures (c - 1) as real < x <= c as real
  {
    -((-x).Floor)
  }

  /** `Math.max(1, Number(arg) || fallback)`, with the parameter default
      `fallback` for an omitted argument too. */
  function AtLeast1(a: Arg, fallback: real): (r: real)
    requires fallback >= 1.0
    ensures r >= 1.0
    ensures a.Num? && a.x != 0.0 ==> r == (if a.x < 1.0 then 1.0 else a.x)
    ensures !(a.Num? && a.x != 0.0) ==> r == fallback
  {
    if a.Num? && a.x != 0.0 then (if a.x < 1.0 then 1.0 else a.x) else fallback
  }

  /** `Number(totalCount) || 0`. */
  function CountOf(a: Arg): (n: real)
    ensures a.Num? ==> n == a.x
    ensures !a.Num? ==> n == 0.0
  {
    if a.Num? then a.x else 0.0
  }

  datatype Pagination = Pagination(currentPage: real, totalPages: int, totalCount: real, limit: real,
                                   hasNext: bool, hasPrev: bool)

  /** `getPaginationMeta(page, limit, totalCount)`. */
  function GetPaginationMeta(page: Arg, limit: Arg, totalCount: Arg): (m: Pagination)
    ensures m.currentPage == AtLeast1(page, 1.0) && m.limit == AtLeast1(limit, 10.0)
    ensures m.totalCount == CountOf(totalCount)
    ensures (m.totalPages - 1) as real * m.limit < m.totalCount <= m.totalPages as real * m.limit
    ensures m.totalCount == 0.0 ==> m.totalPages == 0 && !m.hasNext
    ensures m.hasNext <==> m.currentPage < m.totalPages as real
    ensures m.hasPrev <==> m.currentPage > 1.0
  {
    var p := AtLeast1(page, 1.0);
    var l := AtLeast1(limit, 10.0);
    var count := CountOf(totalCount);
    var pages := Ceil(count / l);
    PagesCover(count, l);
    Pagination(p, pages, count, l, p < pages as real, p > 1.0)
  }

  /** Page and limit never fall below 1, and a missing, zero or unparsable
      one takes its default. */
  lemma ClampingDefaults(x: real)
    ensures GetPaginationMeta(Omitted, Omitted, Omitted) == Pagination(1.0, 0, 0.0, 10.0, false, false)
    ensures GetPaginationMeta(NaN, Num(0.0), NaN) == Pagination(1.0, 0, 0.0, 10.0, false, false)
    ensures x < 1.0 && x != 0.0 ==> GetPaginationMeta(Num(x), Num(x), Omitted).currentPage == 1.0
    ensures x < 1.0 && x != 0.0 ==> GetPaginationMeta(Num(x), Num(x), Omitted).limit == 1.0
  {
  }

  /** On whole, in-range arguments the clamping helper and the unclamped one
      in middleware/errorHandler.js report the same pages. */
  lemma AgreesWithErrorHandlerMetadata(page: int, limit: int, totalCount: int)
    requires page >= 1 && limit >= 1 && totalCount >= 0
    ensures var m := GetPaginationMeta(Num(page as real), Num(limit as real), Num(totalCount as real));
      var n := ErrorHandling.GetPaginationMetadata(page, limit, totalCount);
      && n.totalPages == ErrorHandling.Finite(m.totalPages)
      && m.hasNext == n.hasNext && m.hasPrev == n.hasPrev
  {
    var m := GetPaginationMeta(Num(page as real), Num(limit as real), Num(totalCount as real));
    var n := ErrorHandling.GetPaginationMetadata(page, limit, totalCount);
    MetaOnIntegers(page, limit, totalCount);
    CeilUnique(m.totalPages, n.totalPages.n, limit, totalCount);
  }

  /** On whole arguments the clamped metadata reads as integer page bounds. */
  lemma MetaOnIntegers(page: int, limit: int, totalCount: int)
    requires page >= 1 && limit >= 1 && totalCount >= 0
    ensures var m := GetPaginationMeta(Num(page as real), Num(limit as real), Num(totalCount as real));
      && (m.totalPages - 1) * limit < totalCount <= m.totalPages * limit
      && (m.hasNext <==> page < m.totalPages) && (m.hasPrev <==> page > 1)
  {
    var m := GetPaginationMeta(Num(page as real), Num(limit as real), Num(totalCount as real));
    assert m.limit == limit as real && m.totalCount == totalCount as real && m.currentPage == page as real;
    CoverInIntegers(m.totalPages, limit, totalCount);
  }

  /** `Math.ceil(count / limit)` pages of `limit` just cover `count`. */
  lemma PagesCover(count: real, l: real)
    requires l > 0.0
    ensures (Ceil(count / l) - 1) as real * l < count <= Ceil(count / l) as real * l
  {
    var pages := Ceil(count / l);
    ScaleBounds((pages - 1) as real, count / l, pages as real, l);
    assert (count / l) * l == count;
  }

  /** Multiplying by a positive number keeps strict and weak order. */
  lemma ScaleBounds(a: real, q: real, b: real, l: real)
    requires l > 0.0 && a < q <= b
    ensures a * l < q * l <= b * l
  {
  }

  /** The product of two integers is the product of their real images. */
  lemma IntProduct(a: int, b: int)
    ensures (a * b) as real == a as real * b as real
  {
  }

  /** Page bounds over the reals are the same bounds over the integers. */
  lemma CoverInIntegers(t: int, limit: int, count: int)
    requires (t - 1) as real * limit as real < count as real <= t as real * limit as real
    ensures (t - 1) * limit < count <= t * limit
  {
    IntProduct(t - 1, limit);
    IntProduct(t, limit);
  }

  /** The whole number of pages that just covers a count is unique. */
  lemma CeilUnique(t: int, k: int, limit: int, count: int)
    requires limit > 0
    requires (t - 1) * limit < count <= t * limit
    requires (k - 1) * limit < count <= k * limit
    ensures t == k
  {
  }

  /** A response: the HTTP code and the JSON body. `data`, `errors` and
      `pagination` are keys the body may lack. */
  datatype Response<D> = Response(code: int, success: bool, message: string, data: Option<D>,
                                  errors: Option<seq<string>>, pagination: Option<Pagination>)

  /** `success(res, data, message, statusCode)`; omitted arguments take their
      defaults (`null`, 'Success', 200). */
  function Success<D>(data: Option<D>, message: Option<string>, code: Option<int>): (r: Response<D>)
    ensures r.success && r.data == data && r.errors.None? && r.pagination.None?
    ensures r.message == (if message.Some? then message.value else "Success")
    ensures r.code == (if code.Some? then code.value else 200)
  {
    Response(if code.Some? then code.value else 200, true, if message.Some? then message.value else "Success",
             data, None, None)
  }

  /** `created(res, data, message)`. */
  function Created<D>(data: Option<D>, message: Option<string>): (r: Response<D>)
    ensures r.code == 201 && r.success && r.data == data
    ensures r.message == (if message.Some? then message.value else "Created")
  {
    Success(data, Some(if message.Some? then message.value else "Created"), Some(201))
  }

  /** `fail(res, message, statusCode, errors)`: the `errors` key is present
      only when errors are given. */
  function Fail<D>(message: Option<string>, code: Option<int>, errors: Option<seq<string>>): (r: Response<D>)
    ensures !r.success && r.data.None? && r.pagination.None?
    ensures r.errors.Some? <==> errors.Some?
    ensures r.errors.Some? ==> r.errors == errors
    ensures r.message == (if message.Some? then message.value else "Failure")
    ensures r.code == (if code.Some? then code.value else 400)
  {
    Response(if code.Some? then code.value else 400, false, if message.Some? then message.value else "Failure",
             None, errors, None)
  }

  /** `serverError(res, message)`. */
  function ServerError<D>(message: Option<string>): (r: Response<D>)
    ensures r.code == 500 && !r.success && r.errors.None?
    ensures r.message == (if message.Some? then message.value else "Server error")
  {
    Fail(Some(if message.Some? then message.value else "Server error"), Some(500), None)
  }

  /** `paginated(res, data, page, limit, totalCount, message)`; omitted data
      is the empty list. */
  function Paginated<D>(data: Option<seq<D>>, page: Arg, limit: Arg, totalCount: Arg, message: Option<string>): (r: Response<seq<D>>)
    ensures r.code == 200 && r.success && r.errors.None?
    ensures r.data == Some(if data.Some? then data.value else [])
    ensures r.pagination == Some(GetPaginationMeta(page, limit, totalCount))
    ensures r.message == (if message.Some? then message.value else "Success")
  {
    Response(200, true, if message.Some? then message.value else "Success",
             Some(if data.Some? then data.value else []), None, Some(GetPaginationMeta(page, limit, totalCount)))
  }

  /** Success and failure bodies are told apart by `success` alone, and
      `created` is `success` with 201. */
  lemma SuccessAndFailDiffer<D>(data: Option<D>, message: Option<string>, code: Option<int>, errors: Option<seq<string>>)
    ensures Success(data, message, code) != Fail<D>(message, code, errors)
    ensures Created(data, message) == Success(data, Some(Created(data, message).message), Some(201))
  {
  }
}
