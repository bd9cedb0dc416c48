/**
 * `GET /api/blog` (src/app/api/blog/route.ts): the rate limit, the query
 * with its defaults, the fetch of one page and its pagination. The
 * limiter's answer, the query numbers, the page size of the site's
 * constants and the content store are parameters.
 */
module BlogRoute {
  import opened Text
  import opened ErrorHandler
  import Schemas
  import RateLimit

  datatype Pagination = Pagination(limit: int, offset: int, total: int, hasMore: bool)

  /** One page of posts and the number of posts in all. */
  datatype Fetched<Post> = Fetched(posts: seq<Post>, total: int)

  datatype ListReply<Post> =
    | Limited(answer: RateLimit.Blocked)
    | Listed(posts: seq<Post>, pagination: Pagination)
    | Failed(reply: ErrorReply)

  /** The query as handed to the schema: an absent `limit` is the page
      size, an absent `offset` is 0. */
  function QueryDefaults(limitParam: Option<real>, offsetParam: Option<real>, pageSize: real): (q: (real, real))
    ensures q.0 == (if limitParam.Some? then limitParam.value else pageSize)
    ensures q.1 == (if offsetParam.Some? then offsetParam.value else 0.0)
  {
    (if limitParam.Some? then limitParam.value else pageSize, if offsetParam.Some? then offsetParam.value else 0.0)
  }

  /** `GET`. `rate` is what the limiter answered, `fetch` what the content
      store gives for a limit and an offset (or what it throws); `stack`
      and `timestamp` come from the runtime. */
  function ListPosts<Post>(rate: RateLimit.LimitResult, limitParam: Option<real>, offsetParam: Option<real>,
                           pageSize: real, fetch: (int, int) -> Result<Fetched<Post>, Thrown>,
                           dev: bool, stack: Option<String>, timestamp: String): (r: ListReply<Post>)
    ensures !rate.success <==> r.Limited?
    ensures r.Limited? ==> r == Limited(RateLimit.Middleware(rate, RateLimit.BlogApi).value)
    ensures r.Listed? ==>
              var q := QueryDefaults(limitParam, offsetParam, pageSize);
              var p := r.pagination;
              p.limit as real == q.0 && p.offset as real == q.1
              && 1 <= p.limit <= 100 && 0 <= p.offset
              && fetch(p.limit, p.offset) == Ok(Fetched(r.posts, p.total))
              && (p.hasMore <==> p.offset + p.limit < p.total)
    ensures rate.success ==>
              var q := QueryDefaults(limitParam, offsetParam, pageSize);
              var parsed := Schemas.ParseListQuery(Some(q.0), Some(q.1));
              (parsed.Err? ==> r.Failed?)
              && (parsed.Ok? ==> (r.Listed? <==> fetch(parsed.value.limit, parsed.value.offset).Ok?))
  {
    var blocked := RateLimit.Middleware(rate, RateLimit.BlogApi);
    if blocked.Some? then Limited(blocked.value)
    else
      var q := QueryDefaults(limitParam, offsetParam, pageSize);
      var parsed := Schemas.ParseListQuery(Some(q.0), Some(q.1));
      // The schema failure's own message and stack play no part in the answer.
      var outcome := if parsed.Ok? then Parsed(parsed.value) else Threw(ZodError([], parsed.error, None));
      var validated := ValidateSchema(outcome, InvalidRequestData, stack);
      if validated.Err? then Failed(HandleApiError(validated.error, dev, timestamp))
      else
        var query := validated.value;
        match fetch(query.limit, query.offset)
        case Err(e) => Failed(HandleApiError(e, dev, timestamp))
        case Ok(page) =>
          Listed(page.posts, Pagination(query.limit, query.offset, page.total,
                                        query.offset + query.limit < page.total))
  }

  /** A query the schema refuses, such as `limit=200`, is answered with
      400 and the validation code, whatever the content store holds. */
  lemma RefusedQuery<Post>(rate: RateLimit.LimitResult, limitParam: Option<real>, offsetParam: Option<real>,
                           pageSize: real, fetch: (int, int) -> Result<Fetched<Post>, Thrown>,
                           dev: bool, stack: Option<String>, timestamp: String)
    requires rate.success
    requires var q := QueryDefaults(limitParam, offsetParam, pageSize);
             Schemas.ParseListQuery(Some(q.0), Some(q.1)).Err?
    ensures var r := ListPosts(rate, limitParam, offsetParam, pageSize, fetch, dev, stack, timestamp);
            r.Failed? && r.reply.status == 400 && r.reply.body.code == Some(ValidationCode)
            && r.reply.body.error == InvalidRequestData
  {
    var q := QueryDefaults(limitParam, offsetParam, pageSize);
    var parsed := Schemas.ParseListQuery(Some(q.0), Some(q.1));
    ValidationFailureReply<Schemas.ListQuery>([], parsed.error, None, InvalidRequestData, stack, dev, timestamp);
  }

  /** `limit=200` is refused, not clamped. */
  lemma LimitTwoHundred<Post>(rate: RateLimit.LimitResult, offsetParam: Option<real>, pageSize: real,
                              fetch: (int, int) -> Result<Fetched<Post>, Thrown>,
                              dev: bool, stack: Option<String>, timestamp: String)
    requires rate.success
    ensures ListPosts(rate, Some(200.0), offsetParam, pageSize, fetch, dev, stack, timestamp).Failed?
  {
    var q := QueryDefaults(Some(200.0), offsetParam, pageSize);
    assert !Schemas.LimitAccepted(Some(q.0));
    RefusedQuery(rate, Some(200.0), offsetParam, pageSize, fetch, dev, stack, timestamp);
  }

  /** What the content store throws is answered by the error handler. */
  lemma FetchFailure<Post>(rate: RateLimit.LimitResult, limitParam: Option<real>, offsetParam: Option<real>,
                           pageSize: real, fetch: (int, int) -> Result<Fetched<Post>, Thrown>,
                           dev: bool, stack: Option<String>, timestamp: String, limit: int, offset: int, e: Thrown)
    requires rate.success
    requires QueryDefaults(limitParam, offsetParam, pageSize) == (limit as real, offset as real)
    requires 1 <= limit <= 100 && 0 <= offset
    requires fetch(limit, offset) == Err(e)
    ensures ListPosts(rate, limitParam, offsetParam, pageSize, fetch, dev, stack, timestamp)
            == Failed(HandleApiError(e, dev, timestamp))
  {
    var parsed := Schemas.ParseListQuery(Some(limit as real), Some(offset as real));
    assert Schemas.LimitAccepted(Some(limit as real)) && Schemas.OffsetAccepted(Some(offset as real));
    assert parsed.Ok? && parsed.value == Schemas.ListQuery(limit, offset);
  }

  /** An admitted request with a valid query whose fetch succeeds lists the
      page fetched, with `hasMore` exactly when posts remain after it. */
  lemma FetchSuccess<Post>(rate: RateLimit.LimitResult, limitParam: Option<real>, offsetParam: Option<real>,
                           pageSize: real, fetch: (int, int) -> Result<Fetched<Post>, Thrown>,
                           dev: bool, stack: Option<String>, timestamp: String, limit: int, offset: int,
                           page: Fetched<Post>)
    requires rate.success
    requires QueryDefaults(limitParam, offsetParam, pageSize) == (limit as real, offset as real)
    requires 1 <= limit <= 100 && 0 <= offset
    requires fetch(limit, offset) == Ok(page)
    ensures ListPosts(rate, limitParam, offsetParam, pageSize, fetch, dev, stack, timestamp)
            == Listed(page.posts, Pagination(limit, offset, page.total, offset + limit < page.total))
  {
    var parsed := Schemas.ParseListQuery(Some(limit as real), Some(offset as real));
    assert Schemas.LimitAccepted(Some(limit as real)) && Schemas.OffsetAccepted(Some(offset as real));
    assert parsed.Ok? && parsed.value == Schemas.ListQuery(limit, offset);
  }
}
