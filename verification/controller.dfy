/**
 The decision logic of the three vote handlers: which checks run in which
 order, when the service is called, and which HTTP status each outcome gets
 from the application's error handler. Cookie and path-parameter extraction,
 body parsing and JSON writing are inputs and outputs of these functions.
 */
module Controller {
  import opened Wrappers
  import opened Domain
  import Store
  import Voting
  import Validation
  import Session

  /** The predefined fiber errors the handlers return. */
  datatype HttpError = Unauthorized | BadRequest | NotFound

  function Code(e: HttpError): int {
    match e
    case Unauthorized => 401
    case BadRequest => 400
    case NotFound => 404
  }

  /** A JSON body a handler writes. */
  datatype Body =
    | VoteBody(vote: Vote)
    | VotesBody(list: VoteList)
    | AvgBody(avg: AvgVoteResponse)
    | ViolationsBody(violations: seq<Validation.ErrorResponse>)

  /** How a handler finishes: it writes a JSON body with a status, returns a fiber
      error, or returns some other error. */
  datatype Reply = Json(status: int, body: Body) | Http(error: HttpError) | Raised(cause: Error)

  /** The status the client sees. The application's error handler answers a fiber error
      with its own code and every other error with 500. */
  function Status(r: Reply): (code: int)
    ensures r.Raised? ==> code == 500
    ensures r == Http(Unauthorized) ==> code == 401
    ensures r == Http(BadRequest) ==> code == 400
    ensures r == Http(NotFound) ==> code == 404
    ensures r.Json? ==> code == r.status
  {
    match r
    case Json(status, _) => status
    case Http(e) => Code(e)
    case Raised(_) => 500
  }

  /** The outcome of parsing a request body: the request as filled in, holding zero
      values for whatever the parser did not reach, and whether parsing failed. */
  datatype Parsed = Parsed(request: Validation.VoteRequest, failed: bool)

  /** A handler's reply together with the store it leaves behind. */
  datatype Served = Served(next: Store.State, reply: Reply)

  /** POST /v1/votes. Checks, in order: a non-empty session cookie, the violation list of
      the parsed request, then the parse error; only then does it call the service. */
  function UpsertVote(st: Store.State, cookie: string, parsed: Parsed, now: int,
                      lookupFault: Option<string>, writeFault: Option<string>): (s: Served)
    ensures cookie == "" ==> s == Served(st, Http(Unauthorized))
    ensures cookie != "" && Validation.ValidateVoteRequest(parsed.request) != [] ==>
      s == Served(st, Json(400, ViolationsBody(Validation.ValidateVoteRequest(parsed.request))))
    ensures cookie != "" && Validation.ValidateVoteRequest(parsed.request) == [] && parsed.failed ==>
      s == Served(st, Http(BadRequest))
    ensures s.next != st ==> cookie != "" && 1 <= parsed.request.score <= 5 && !parsed.failed
    ensures cookie != "" && Validation.ValidateVoteRequest(parsed.request) == [] && !parsed.failed ==>
      var t := Voting.Vote(st, cookie, parsed.request.productId, parsed.request.score, now, lookupFault, writeFault);
      && s.next == t.next
      && (t.result.Failure? ==> s.reply == Raised(t.result.error))
      && (t.result.Success? ==> s.reply == Json(200, VoteBody(t.result.value)))
    ensures s.reply.Json? && s.reply.body.VoteBody? ==>
      s.reply == Json(200, VoteBody(Vote(parsed.request.productId, cookie, parsed.request.score)))
    ensures Store.ScoresInRange(st.votes) ==> Store.ScoresInRange(s.next.votes)
    ensures Store.UniquePairs(st.votes) ==> Store.UniquePairs(s.next.votes)
  {
    if cookie == "" then Served(st, Http(Unauthorized))
    else
      var violations := Validation.ValidateVoteRequest(parsed.request);
      if |violations| > 0 then Served(st, Json(400, ViolationsBody(violations)))
      else if parsed.failed then Served(st, Http(BadRequest))
      else
        var req := parsed.request;
        var t := Voting.Vote(st, cookie, req.productId, req.score, now, lookupFault, writeFault);
        Store.UpsertVoteKeepsScoresInRange(st, cookie, req.productId, req.score, writeFault);
        match t.result
        case Success(v) => Served(t.next, Json(200, VoteBody(v)))
        case Failure(e) => Served(t.next, Raised(e))
  }

  /** GET /v1/votes. Checks for a non-empty session cookie, then lists the session's votes;
      a nil list is written as an empty one. */
  function GetVotes(st: Store.State, cookie: string, now: int,
                    lookupFault: Option<string>, readFault: Option<string>): (r: Reply)
    ensures cookie == "" ==> r == Http(Unauthorized)
    ensures r.Json? ==> r.status == 200 && r.body.VotesBody? && r.body.list.Items?
    ensures r.Json? ==> forall v :: v in r.body.list.votes <==>
      v.sessionId == cookie && Store.FromVote(v) in st.votes
    ensures cookie != "" ==> (r.Json? <==> Voting.GetVotes(st, cookie, now, lookupFault, readFault).Success?)
    ensures cookie != "" && Voting.GetVotes(st, cookie, now, lookupFault, readFault).Failure? ==>
      r == Raised(Voting.GetVotes(st, cookie, now, lookupFault, readFault).error)
  {
    if cookie == "" then Http(Unauthorized)
    else
      match Voting.GetVotes(st, cookie, now, lookupFault, readFault)
      case Failure(e) => Raised(e)
      case Success(Nil) => Json(200, VotesBody(Items([])))
      case Success(list) => Json(200, VotesBody(list))
  }

  /** GET /v1/votes/{product_id}. An empty product id is a bad request, and every
      service error, whatever its cause, becomes not-found. */
  function GetAvgProductVotes(st: Store.State, productId: string, fault: Option<string>, nextFails: bool): (r: Reply)
    ensures productId == "" ==> r == Http(BadRequest)
    ensures productId != "" ==>
      (r == Http(NotFound) <==> fault.Some? || nextFails || Store.CountFor(st.votes, productId) == 0)
    ensures productId != "" && fault.None? && !nextFails && Store.CountFor(st.votes, productId) > 0 ==> r.Json?
    ensures r.Json? ==>
      && r.status == 200 && r.body.AvgBody?
      && r.body.avg.productId == productId
      && r.body.avg.voteCount == Store.CountFor(st.votes, productId)
      && r.body.avg.avg == Store.SumFor(st.votes, productId) as real / Store.CountFor(st.votes, productId) as real
  {
    if productId == "" then Http(BadRequest)
    else
      match Voting.GetAvgProductVotes(st, productId, fault, nextFails)
      case Failure(_) => Http(NotFound)
      case Success(avg) => Json(200, AvgBody(avg))
  }

  /** With a well-formed request and cookie, a session that fails validation, unknown or
      expired alike, leaves the store untouched and is answered 500, not 401. */
  lemma InvalidSessionAnswers500(st: Store.State, cookie: string, parsed: Parsed, now: int,
                                 lookupFault: Option<string>, writeFault: Option<string>)
    requires cookie != "" && 1 <= parsed.request.score <= 5 && !parsed.failed
    requires Session.Validate(st, cookie, now, lookupFault).Fail?
    ensures UpsertVote(st, cookie, parsed, now, lookupFault, writeFault) == Served(st, Raised(InvalidSession))
    ensures Status(UpsertVote(st, cookie, parsed, now, lookupFault, writeFault).reply) == 500
    ensures GetVotes(st, cookie, now, lookupFault, writeFault) == Raised(InvalidSession)
  {
  }
}
