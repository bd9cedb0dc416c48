/**
 * The request and response schemas of src/lib/schemas.ts that the routes
 * rely on, as checks over JSON values: the slug object, the query of the
 * post list, the body of a generation request and the error envelope.
 * Turning query strings into numbers is left to the caller: the list
 * query is checked over the numbers it denotes.
 */
module Schemas {
  import opened Text
  import opened ErrorHandler
  import GenerateRoute

  /** A JSON value; numbers are exact reals. */
  datatype Json = JNull | JBool(b: bool) | JNum(n: real) | JStr(s: String) | JArr(items: seq<Json>)
                | JObj(fields: map<String, Json>)

  /* ---------------------------------------------------------------------- */
  /* The slug                                                                */
  /* ---------------------------------------------------------------------- */

  /** `blogPostSlugSchema`: `_type` is the text `slug` and `current` a
      non-empty text. */
  predicate SlugAccepted(v: Json) {
    v.JObj? && "_type" in v.fields && v.fields["_type"] == JStr("slug")
    && "current" in v.fields && v.fields["current"].JStr? && |v.fields["current"].s| >= 1
  }

  /** The slug object as written into a document. */
  function SlugJson(slug: GenerateRoute.SlugValue): Json {
    JObj(map["_type" := JStr(slug.typeName), "current" := JStr(slug.current)])
  }

  /** The slug of a generated post passes the slug schema exactly when the
      title has a letter or a digit to make it from: a title of punctuation
      alone yields a document whose slug the schema refuses. */
  lemma GeneratedSlugAccepted(title: String, summary: String, markdown: String, tags: seq<String>,
                              publishedAt: String)
    ensures var d := GenerateRoute.NewPost(title, summary, markdown, tags, publishedAt);
            SlugAccepted(SlugJson(d.slug)) <==> GenerateRoute.Slug(title) != []
    ensures (forall i :: 0 <= i < |title| ==> !IsLowerAlnum(LowerChar(title[i])))
            ==> !SlugAccepted(SlugJson(GenerateRoute.NewPost(title, summary, markdown, tags, publishedAt).slug))
  {
    var d := GenerateRoute.NewPost(title, summary, markdown, tags, publishedAt);
    GenerateRoute.NewPostShape(title, summary, markdown, tags, publishedAt);
    var m := SlugJson(d.slug).fields;
    assert "current" in m && m["current"] == JStr(GenerateRoute.Slug(title));
    assert m["_type"] == JStr("slug");
    if forall i :: 0 <= i < |title| ==> !IsLowerAlnum(LowerChar(title[i])) {
      GenerateRoute.PunctuationSlug(title);
    }
  }

  /* ---------------------------------------------------------------------- */
  /* The list query                                                          */
  /* ---------------------------------------------------------------------- */

  predicate IsInteger(x: real) {
    x.Floor as real == x
  }

  /** `limit`: an integer from 1 to 100, or absent. */
  predicate LimitAccepted(limit: Option<real>) {
    limit.None? || (IsInteger(limit.value) && 1.0 <= limit.value <= 100.0)
  }

  /** `offset`: an integer of at least 0, or absent. */
  predicate OffsetAccepted(offset: Option<real>) {
    offset.None? || (IsInteger(offset.value) && 0.0 <= offset.value)
  }

  datatype ListQuery = ListQuery(limit: int, offset: int)

  /** `blogListQuerySchema.parse`: the numbers, with 25 and 0 for absent
      ones, or one issue for each field refused. */
  function ParseListQuery(limit: Option<real>, offset: Option<real>): (r: Result<ListQuery, seq<Issue>>)
    ensures r.Ok? <==> LimitAccepted(limit) && OffsetAccepted(offset)
    ensures r.Ok? ==> 1 <= r.value.limit <= 100 && 0 <= r.value.offset
    ensures r.Ok? ==> r.value.limit as real == (if limit.Some? then limit.value else 25.0)
                      && r.value.offset as real == (if offset.Some? then offset.value else 0.0)
    ensures r.Err? ==> r.error != [] && (Issue(["limit"]) in r.error <==> !LimitAccepted(limit))
                       && (Issue(["offset"]) in r.error <==> !OffsetAccepted(offset))
  {
    var issues := (if LimitAccepted(limit) then [] else [Issue(["limit"])])
                  + (if OffsetAccepted(offset) then [] else [Issue(["offset"])]);
    if issues != [] then Err(issues)
    else Ok(ListQuery(if limit.Some? then limit.value.Floor else 25, if offset.Some? then offset.value.Floor else 0))
  }

  /** Values out of range are refused, never clamped into it. */
  lemma OutOfRangeRefused(offset: Option<real>)
    ensures ParseListQuery(Some(200.0), offset).Err?
    ensures ParseListQuery(Some(0.0), offset).Err?
    ensures ParseListQuery(Some(2.5), offset).Err?
    ensures ParseListQuery(None, Some(-1.0)).Err?
  {
    assert !IsInteger(2.5) by {
      assert 2.5.Floor == 2;
    }
  }

  /* ---------------------------------------------------------------------- */
  /* The generation request and the error envelope                          */
  /* ---------------------------------------------------------------------- */

  /** `blogGenerateRequestSchema.parse`: `aiGenerated` when it is a
      boolean, `true` when it is absent; anything else is refused. */
  function ParseGenerateRequest(v: Json): (r: Result<bool, seq<Issue>>)
    ensures r.Ok? <==> v.JObj? && ("aiGenerated" in v.fields ==> v.fields["aiGenerated"].JBool?)
    ensures v.JObj? && "aiGenerated" !in v.fields ==> r == Ok(true)
    ensures r.Ok? && "aiGenerated" in v.fields ==> r.value == v.fields["aiGenerated"].b
  {
    if !v.JObj? then Err([Issue([])])
    else if "aiGenerated" !in v.fields then Ok(true)
    else if v.fields["aiGenerated"].JBool? then Ok(v.fields["aiGenerated"].b)
    else Err([Issue(["aiGenerated"])])
  }

  /** `errorResponseSchema`: a text `error`; `code` and `timestamp`, when
      present, texts; `details` anything. */
  predicate EnvelopeAccepted(v: Json) {
    v.JObj? && "error" in v.fields && v.fields["error"].JStr?
    && ("code" in v.fields ==> v.fields["code"].JStr?)
    && ("timestamp" in v.fields ==> v.fields["timestamp"].JStr?)
  }

  function DetailsJson(d: Details): Json {
    match d
    case IssueList(issues) => JArr(seq(|issues|, i requires 0 <= i < |issues| => IssueJson(issues[i])))
    case StackTrace(stack) => JObj(map["stack" := JStr(stack)])
    case Attached(text) => JStr(text)
  }

  function IssueJson(issue: Issue): Json {
    JObj(map["path" := JArr(seq(|issue.path|, i requires 0 <= i < |issue.path| => JStr(issue.path[i])))])
  }

  /** The envelope as sent: the optional fields appear only when set. */
  function EnvelopeJson(body: ErrorResponse): Json {
    var fields := map["error" := JStr(body.error)];
    var fields := if body.code.Some? then fields["code" := JStr(body.code.value)] else fields;
    var fields := if body.timestamp.Some? then fields["timestamp" := JStr(body.timestamp.value)] else fields;
    var fields := if body.details.Some? then fields["details" := DetailsJson(body.details.value)] else fields;
    JObj(fields)
  }

  /** Every envelope the error handler builds passes the envelope schema,
      and so does the least one, with `error` alone. */
  lemma EnvelopesAccepted(e: Thrown, dev: bool, timestamp: String, message: String)
    ensures EnvelopeAccepted(EnvelopeJson(HandleApiError(e, dev, timestamp).body))
    ensures EnvelopeAccepted(JObj(map["error" := JStr(message)]))
  {
    var body := HandleApiError(e, dev, timestamp).body;
    var m := EnvelopeJson(body).fields;
    assert "error" in m && m["error"] == JStr(body.error);
  }
}
