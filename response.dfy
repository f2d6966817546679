/**
 * pkg/utils/response.go: the JSON envelope every endpoint answers with, and the
 * pagination record with its page count. Writing the bytes is left out; a
 * response is its status code and the value that would be encoded.
 */
module Response {
  import opened Common

  /** APIResponse: `data` and `error` are `omitempty`, so None means "not in the JSON". */
  datatype Envelope<D> = Envelope(success: bool, message: string, data: Option<D>, error: Option<string>)

  datatype HttpResponse<D> = HttpResponse(status: int, body: Envelope<D>)

  /** PaginationResponse. */
  datatype Pagination<D> = Pagination(data: D, total: int, page: int, limit: int, totalPages: int)

  function WriteSuccessResponse<D>(status: int, message: string, data: Option<D>): HttpResponse<D> {
    HttpResponse(status, Envelope(true, message, data, None))
  }

  function WriteErrorResponse<D>(status: int, message: string, err: Option<string>): HttpResponse<D> {
    HttpResponse(status, Envelope(false, message, None, err))
  }

  /**
   * The two writers build disjoint shapes: a success response never carries an
   * error and an error response never carries data; both keep status and message.
   */
  lemma EnvelopeShapes<D>(status: int, message: string, data: Option<D>, err: Option<string>)
    ensures var s := WriteSuccessResponse(status, message, data);
      s.status == status && s.body.success && s.body.message == message &&
      s.body.data == data && s.body.error.None?
    ensures var e := WriteErrorResponse<D>(status, message, err);
      e.status == status && !e.body.success && e.body.message == message &&
      e.body.data.None? && e.body.error == err
    ensures WriteSuccessResponse(status, message, data) != WriteErrorResponse(status, message, err)
  {
  }

  /** Go's integer division, which truncates toward zero (Dafny's `/` is Euclidean). */
  function GoDiv(a: int, b: int): (q: int)
    requires b != 0
    ensures a >= 0 && b > 0 ==> q == a / b
  {
    var q := (if a < 0 then -a else a) / (if b < 0 then -b else b);
    if (a < 0) == (b < 0) then q else -q
  }

  /** `(total + limit - 1) / limit`; a zero limit is a division by zero in Go. */
  function TotalPages(total: int, limit: int): int
    requires limit != 0
  {
    GoDiv(total + limit - 1, limit)
  }

  /**
   * For a positive limit, TotalPages is the ceiling of total / limit: no page
   * for no records, and otherwise the least number of pages of `limit` records
   * that holds them all.
   */
  lemma TotalPagesIsCeiling(total: nat, limit: int)
    requires limit > 0
    ensures var n := TotalPages(total, limit);
      && n >= 0
      && (total == 0 <==> n == 0)
      && (total > 0 ==> (n - 1) * limit < total <= n * limit)
  {
    var a := total + limit - 1;
    var n := a / limit;
    var r := a % limit;
    assert a == n * limit + r && 0 <= r < limit;
    assert (n - 1) * limit == n * limit - limit;
    if total == 0 {
      assert a < limit;
      assert n == 0;
    }
  }

  lemma TotalPagesExamples()
    ensures TotalPages(25, 10) == 3
    ensures TotalPages(0, 10) == 0
    ensures TotalPages(20, 10) == 2
  {
  }

  /** The paginated response echoes total, page and limit and adds the page count. */
  function WritePaginatedResponse<D>(status: int, message: string, data: D, total: int, page: int, limit: int)
    : (r: HttpResponse<Pagination<D>>)
    requires limit != 0
  {
    WriteSuccessResponse(status, message, Some(Pagination(data, total, page, limit, TotalPages(total, limit))))
  }

  lemma PaginatedShape<D>(status: int, message: string, data: D, total: int, page: int, limit: int)
    requires limit != 0
    ensures var r := WritePaginatedResponse(status, message, data, total, page, limit);
      && r.status == status && r.body.success && r.body.message == message && r.body.error.None?
      && r.body.data.Some?
      && r.body.data.value.data == data
      && r.body.data.value.total == total && r.body.data.value.page == page
      && r.body.data.value.limit == limit
      && r.body.data.value.totalPages == TotalPages(total, limit)
  {
  }
}
