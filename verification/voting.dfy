/**
 The voting service. Casting a vote and listing one's votes are gated on
 session validation, and every validation failure, unknown or expired,
 collapses into the single InvalidSession error; the average query is public.
 */
module Voting {
  import opened Wrappers
  import opened Domain
  import Store
  import Session

  /** Upserts the caller's score for the product once the session validates. */
  function Vote(st: Store.State, sessionId: string, productId: string, score: int, now: int,
                lookupFault: Option<string>, writeFault: Option<string>): (t: Store.Transition<Domain.Vote>)
    ensures Session.Validate(st, sessionId, now, lookupFault).Fail? ==>
      t == Store.Transition(st, Failure(InvalidSession))
    ensures t.result.Success? <==> Session.Validate(st, sessionId, now, lookupFault) == Pass && writeFault.None?
    ensures Session.Validate(st, sessionId, now, lookupFault) == Pass && writeFault.Some? ==>
      t == Store.Transition(st, Failure(Driver(writeFault.value)))
    ensures t.result.Success? ==>
      && t.result.value == Domain.Vote(productId, sessionId, score)
      && Store.Scores(t.next.votes) == Store.Scores(st.votes)[Store.VoteKey(sessionId, productId) := score]
    ensures t.result.Failure? ==> t.next == st
    ensures Store.UniquePairs(st.votes) ==> Store.UniquePairs(t.next.votes)
    ensures t.next.sessions == st.sessions
  {
    if Session.Validate(st, sessionId, now, lookupFault).Fail? then
      Store.Transition(st, Failure(InvalidSession))
    else
      Store.UpsertVoteSetsScore(st, sessionId, productId, score);
      Store.UpsertVoteKeepsPairsUnique(st, sessionId, productId, score);
      Store.UpsertVote(st, sessionId, productId, score, writeFault)
  }

  /** Lists the caller's votes once the session validates. */
  function GetVotes(st: Store.State, sessionId: string, now: int,
                    lookupFault: Option<string>, readFault: Option<string>): (r: Result<VoteList, Error>)
    ensures Session.Validate(st, sessionId, now, lookupFault).Fail? ==> r == Failure(InvalidSession)
    ensures r.Success? <==> Session.Validate(st, sessionId, now, lookupFault) == Pass && readFault.None?
    ensures Session.Validate(st, sessionId, now, lookupFault) == Pass && readFault.Some? ==>
      r == Failure(Driver(readFault.value))
    ensures r.Success? ==>
      (r.value.Nil? <==> forall i :: 0 <= i < |st.votes| ==> st.votes[i].sessionId != sessionId)
    ensures r.Success? && r.value.Items? ==>
      forall v :: v in r.value.votes <==> v.sessionId == sessionId && Store.FromVote(v) in st.votes
  {
    if Session.Validate(st, sessionId, now, lookupFault).Fail? then Failure(InvalidSession)
    else Store.GetSessionVotes(st, sessionId, readFault)
  }

  /** The product's average, with no session check at all. */
  function GetAvgProductVotes(st: Store.State, productId: string, fault: Option<string>, nextFails: bool): (r: Result<AvgVoteResponse, Error>)
    ensures forall sessions :: r == Store.GetAvgProductVotes(Store.State(sessions, st.votes), productId, fault, nextFails)
    ensures r.Success? ==>
      && r.value.voteCount == Store.CountFor(st.votes, productId) > 0
      && r.value.avg == Store.SumFor(st.votes, productId) as real / r.value.voteCount as real
  {
    Store.GetAvgProductVotes(st, productId, fault, nextFails)
  }

  /** An expired session and an unknown one cannot be told apart by a caller of Vote or GetVotes. */
  lemma ExpiredAndUnknownLookAlike(st1: Store.State, unknown: string, st2: Store.State, expired: string, now: int,
                                   productId: string, score: int, storeFault: Option<string>)
    requires !Store.HasSession(st1, unknown)
    requires Store.HasSession(st2, expired)
    requires now > Store.GetSession(st2, expired, None).value.expireAt
    ensures Vote(st1, unknown, productId, score, now, None, storeFault).result
         == Vote(st2, expired, productId, score, now, None, storeFault).result
         == Failure(InvalidSession)
    ensures GetVotes(st1, unknown, now, None, storeFault) == GetVotes(st2, expired, now, None, storeFault)
  {
  }

  /** Creating a session and voting 4 then 2 for one product leaves a single vote holding 2,
      and the product then averages exactly 2 over one vote. */
  lemma RevoteScenario(created: int, now: int, id: string)
    requires created <= now <= created + Session.Lifetime
    ensures var s0 := Store.State([], []);
      var s1 := Session.Create(s0, created, id, None).next;
      var s2 := Vote(s1, id, "pizza", 4, now, None, None).next;
      var s3 := Vote(s2, id, "pizza", 2, now, None, None).next;
      && GetVotes(s3, id, now, None, None) == Success(Items([Domain.Vote("pizza", id, 2)]))
      && GetAvgProductVotes(s3, "pizza", None, false) == Success(AvgVoteResponse(2.0, 1, "pizza"))
  {
    var s0 := Store.State([], []);
    var s1 := Session.Create(s0, created, id, None).next;
    assert s1.sessions == [Store.SessionData(id, created + Session.Lifetime)];
    var s2 := Vote(s1, id, "pizza", 4, now, None, None).next;
    assert s2.votes == [Store.VoteData(id, "pizza", 4)];
    var s3 := Vote(s2, id, "pizza", 2, now, None, None).next;
    assert s3.votes == [Store.VoteData(id, "pizza", 2)];
    assert Store.SessionVotes(s3.votes, id) == [Domain.Vote("pizza", id, 2)];
    assert GetVotes(s3, id, now, None, None) == Success(Items([Domain.Vote("pizza", id, 2)]));
    assert Store.CountFor(s3.votes, "pizza") == 1 && Store.SumFor(s3.votes, "pizza") == 2;
    assert GetAvgProductVotes(s3, "pizza", None, false) == Success(AvgVoteResponse(2.0, 1, "pizza"));
  }
}
