/** The `/api/generate-quiz` handler (server.js:34-196): reject a request
    without its mandatory fields, serve a cached quiz once enough rows match,
    otherwise ask the provider, decode its reply and append the result to the
    cache. The provider call and JSON.parse are parameters. */
module QuizHandler {
  import opened Js
  import opened QuizCache
  import opened ReplyCleaning

  /** What the provider call yields (server.js:122-140): the call threw; the
      reply has no `data`, so reading `response.data.choices` at line 140
      throws before any parse; `data` has no `choices[0].message.content`; the
      content is null; or the content is a text. */
  datatype ProviderReply = CallFailed | NoData | NoContent | NullContent | Content(text: string)

  datatype Failure =
    | MissingParameters   // 400, line 52
    | ProviderCallFailed  // 500, line 137
    | ReplyNotJson        // 500, line 165
    | InternalError       // 500, line 194: an exception caught by the outer handler

  datatype Response = Served(quiz: Json) | Rejected(status: nat, failure: Failure)

  /** JSON.parse converts its argument to a string first: a missing content is
      parsed as the text `undefined` and a null content as the text `null`. */
  function RawText(reply: ProviderReply): (text: string)
    requires reply.NoContent? || reply.NullContent?
  {
    if reply.NoContent? then "undefined" else "null"
  }

  /** The quiz a provider reply turns into (server.js:122-167). When the raw
      parse of a missing or null content fails, `content.trim()` throws and the
      outer handler answers 500. */
  function Generated(reply: ProviderReply, parse: string -> Option<Json>): (r: Result<Json, Failure>)
    ensures r == Err(ProviderCallFailed) <==> reply.CallFailed?
    ensures reply.NoData? ==> r == Err(InternalError)
    ensures reply.Content? ==>
      (r.Err? <==> parse(reply.text).None? && parse(Cleaned(reply.text)).None?)
    ensures reply.Content? && r.Err? ==> r.error == ReplyNotJson
    ensures reply.NoContent? || reply.NullContent? ==>
      (r.Ok? <==> parse(RawText(reply)).Some?) && (r.Err? ==> r.error == InternalError)
    ensures r.Ok? ==> exists text :: parse(text) == Some(r.value)
  {
    match reply
    case CallFailed => Err(ProviderCallFailed)
    case NoData => Err(InternalError)
    case NoContent =>
      (match parse(RawText(reply))
       case Some(v) => Ok(v)
       case None => Err(InternalError))
    case NullContent =>
      (match parse(RawText(reply))
       case Some(v) => Ok(v)
       case None => Err(InternalError))
    case Content(text) =>
      match Normalized(text, parse)
      case Some(q) => Ok(q)
      case None => Err(ReplyNotJson)
  }

  /** One request. `lookupFails` is a failed cache query (its data is null),
      `insertFails` a failed cache insert; the random index is any index of the
      rows found. */
  method GenerateQuiz(
    table: CacheTable, req: QuizRequest, lookupFails: bool,
    reply: ProviderReply, parse: string -> Option<Json>, insertFails: bool)
    returns (resp: Response)
    modifies table
    ensures !HasKey(req) ==>
      resp == Rejected(400, MissingParameters) && table.rows == old(table.rows)
    ensures HasKey(req) && !lookupFails && |CacheHits(old(table.rows), req)| >= DiversityThreshold ==>
      && table.rows == old(table.rows)
      && resp.Served?
      && exists row :: row in old(table.rows) && Matches(req, row) && resp.quiz == row.quiz_json
    ensures HasKey(req) && (lookupFails || |CacheHits(old(table.rows), req)| < DiversityThreshold) ==>
      match Generated(reply, parse)
      case Err(f) => resp == Rejected(500, f) && table.rows == old(table.rows)
      case Ok(q) =>
        && resp == Served(q)
        && table.rows == old(table.rows) + (if insertFails then [] else [NewRow(req, q)])
  {
    if !Truthy(req.difficulty) || !Truthy(req.category) {
      return Rejected(400, MissingParameters);
    }

    var filters := BuildFilter(req);
    var cachedQuizzes: Option<seq<Row>> := None;
    if !lookupFails {
      var found := table.Select(filters);
      cachedQuizzes := Some(found);
    }

    if ServesFromCache(cachedQuizzes) {
      var idx :| 0 <= idx < |cachedQuizzes.value|;
      CacheHitsMembers(table.rows, req);
      assert cachedQuizzes.value[idx] in CacheHits(table.rows, req);
      return Served(cachedQuizzes.value[idx].quiz_json);
    }

    var questions: Json;
    match reply {
      case CallFailed =>
        return Rejected(500, ProviderCallFailed);
      case NoData =>
        return Rejected(500, InternalError);
      case NoContent =>
        var raw := parse(RawText(reply));
        if raw.None? {
          return Rejected(500, InternalError);
        }
        questions := raw.value;
      case NullContent =>
        var raw := parse(RawText(reply));
        if raw.None? {
          return Rejected(500, InternalError);
        }
        questions := raw.value;
      case Content(text) =>
        var parsed := NormalizeReply(text, parse);
        if parsed.None? {
          return Rejected(500, ReplyNotJson);
        }
        questions := parsed.value;
    }

    if !insertFails {
      table.Insert(NewRow(req, questions));
    }
    resp := Served(questions);
  }
}
