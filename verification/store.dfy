/**
 The MongoDB repository as operations on an immutable snapshot of its two
 collections, "sessions" and "votes". Each collection is a sequence of
 documents in natural (insertion) order: FindOne and UpdateOne act on the
 first matching document and InsertOne appends. A driver failure for a call
 is passed in as `fault`; when present the call changes nothing and fails.
 UpsertVote, GetSessionVotes and GetAvgProductVotes return the driver error
 unchanged; GetSession and StoreSession return a new error whose message is
 prefixed "cannot find session, " or "cannot insert session, ".
 */
module Store {
  import opened Wrappers
  import opened Domain

  /** A document of the "sessions" collection. */
  datatype SessionData = SessionData(sessionId: string, expireAt: int)

  /** A document of the "votes" collection. */
  datatype VoteData = VoteData(sessionId: string, productId: string, score: int)

  /** A document produced by the average aggregation pipeline. */
  datatype AvgVoteData = AvgVoteData(avg: real, voteCount: int, productId: string)

  datatype State = State(sessions: seq<SessionData>, votes: seq<VoteData>)

  /** The outcome of a call that may write: the store afterwards and the value returned. */
  datatype Transition<T> = Transition(next: State, result: Result<T, Error>)

  /** The identity of a vote document: the filter UpdateOne upserts on. */
  datatype VoteKey = VoteKey(sessionId: string, productId: string)

  function KeyOf(d: VoteData): VoteKey {
    VoteKey(d.sessionId, d.productId)
  }

  function ToVote(d: VoteData): Vote {
    Vote(d.productId, d.sessionId, d.score)
  }

  function FromVote(v: Vote): (d: VoteData)
    ensures ToVote(d) == v
  {
    VoteData(v.sessionId, v.productId, v.score)
  }

  // ---------------------------------------------------------------- sessions

  /** Index of the first session document with the given id (FindOne's choice). */
  function FirstSession(sessions: seq<SessionData>, id: string): (r: Option<nat>)
    ensures r.Some? ==> r.value < |sessions| && sessions[r.value].sessionId == id
    ensures r.Some? ==> forall j :: 0 <= j < r.value ==> sessions[j].sessionId != id
    ensures r.None? <==> forall j :: 0 <= j < |sessions| ==> sessions[j].sessionId != id
  {
    if |sessions| == 0 then None
    else if sessions[0].sessionId == id then Some(0)
    else match FirstSession(sessions[1..], id)
      case None => None
      case Some(i) => Some(i + 1)
  }

  predicate HasSession(st: State, id: string) {
    FirstSession(st.sessions, id).Some?
  }

  /** The stored session with the given id, converted to the services' shape. */
  function GetSession(st: State, id: string, fault: Option<string>): (r: Result<UserSession, Error>)
    ensures fault.Some? ==> r == Failure(CannotFindSession(Failed(fault.value)))
    ensures fault.None? && !HasSession(st, id) ==> r == Failure(CannotFindSession(NoDocuments))
    ensures r.Success? <==> fault.None? && HasSession(st, id)
    ensures r.Success? ==> r.value.sessionId == id && SessionData(id, r.value.expireAt) in st.sessions
    ensures r.Success? ==> r.value.expireAt == st.sessions[FirstSession(st.sessions, id).value].expireAt
  {
    if fault.Some? then Failure(CannotFindSession(Failed(fault.value)))
    else match FirstSession(st.sessions, id)
      case None => Failure(CannotFindSession(NoDocuments))
      case Some(i) =>
        var sd := st.sessions[i];
        Success(UserSession(sd.sessionId, sd.expireAt))
  }

  /** Inserts a session document and echoes the given id and expiry. */
  function StoreSession(st: State, id: string, expire: int, fault: Option<string>): (t: Transition<UserSession>)
    ensures fault.Some? ==> t == Transition(st, Failure(CannotInsertSession(fault.value)))
    ensures fault.None? ==> t.result == Success(UserSession(id, expire))
    ensures fault.None? ==> SessionData(id, expire) in t.next.sessions && |t.next.sessions| == |st.sessions| + 1
    ensures t.next.votes == st.votes
  {
    if fault.Some? then Transition(st, Failure(CannotInsertSession(fault.value)))
    else Transition(State(st.sessions + [SessionData(id, expire)], st.votes), Success(UserSession(id, expire)))
  }

  /** Storing a session under an unused id makes GetSession return exactly what StoreSession returned. */
  lemma {:induction false} StoreThenGetSession(st: State, id: string, expire: int)
    requires !HasSession(st, id)
    ensures GetSession(StoreSession(st, id, expire, None).next, id, None) == StoreSession(st, id, expire, None).result
  {
    var sessions' := st.sessions + [SessionData(id, expire)];
    FirstSessionAppend(st.sessions, SessionData(id, expire), id);
    assert FirstSession(sessions', id) == Some(|st.sessions|);
  }

  /** Storing a session never changes what GetSession returns for an id that was already stored
      or for any other id: the first matching document still wins. */
  lemma {:induction false} StoreSessionKeepsOtherLookups(st: State, id: string, expire: int, other: string, fault: Option<string>)
    requires other != id || HasSession(st, id)
    ensures GetSession(StoreSession(st, id, expire, None).next, other, fault) == GetSession(st, other, fault)
  {
    FirstSessionAppend(st.sessions, SessionData(id, expire), other);
  }

  lemma {:induction false} FirstSessionAppend(sessions: seq<SessionData>, d: SessionData, id: string)
    ensures FirstSession(sessions, id).Some? ==> FirstSession(sessions + [d], id) == FirstSession(sessions, id)
    ensures FirstSession(sessions, id).None? ==>
      FirstSession(sessions + [d], id) == if d.sessionId == id then Some(|sessions|) else None
  {
    if |sessions| > 0 {
      assert (sessions + [d])[1..] == sessions[1..] + [d];
      FirstSessionAppend(sessions[1..], d, id);
    }
  }

  // ------------------------------------------------------------------- votes

  /** Index of the first vote document for the given (session, product) pair. */
  function FirstVote(votes: seq<VoteData>, key: VoteKey): (r: Option<nat>)
    ensures r.Some? ==> r.value < |votes| && KeyOf(votes[r.value]) == key
    ensures r.Some? ==> forall j :: 0 <= j < r.value ==> KeyOf(votes[j]) != key
    ensures r.None? <==> forall j :: 0 <= j < |votes| ==> KeyOf(votes[j]) != key
  {
    if |votes| == 0 then None
    else if KeyOf(votes[0]) == key then Some(0)
    else match FirstVote(votes[1..], key)
      case None => None
      case Some(i) => Some(i + 1)
  }

  /** At most one vote document per (session, product) pair. */
  predicate UniquePairs(votes: seq<VoteData>) {
    forall i, j :: 0 <= i < j < |votes| ==> KeyOf(votes[i]) != KeyOf(votes[j])
  }

  /** The score each pair has as a reader of the first matching document sees it. */
  function Scores(votes: seq<VoteData>): (m: map<VoteKey, int>)
    ensures forall k :: k in m <==> FirstVote(votes, k).Some?
  {
    if |votes| == 0 then map[]
    else Scores(votes[1..])[KeyOf(votes[0]) := votes[0].score]
  }

  /** The score Scores records for a pair is the one on its first document. */
  lemma {:induction false} ScoresFirstMatch(votes: seq<VoteData>, key: VoteKey)
    requires FirstVote(votes, key).Some?
    ensures key in Scores(votes) && Scores(votes)[key] == votes[FirstVote(votes, key).value].score
  {
    if KeyOf(votes[0]) != key {
      ScoresFirstMatch(votes[1..], key);
    }
  }

  /** UpdateOne with upsert: overwrite the score of the first document of the pair,
      or append a new document when the pair has none. Returns the inputs echoed. */
  function UpsertVote(st: State, sessionId: string, productId: string, score: int, fault: Option<string>): (t: Transition<Vote>)
    ensures fault.Some? ==> t == Transition(st, Failure(Driver(fault.value)))
    ensures fault.None? ==> t.result == Success(Vote(productId, sessionId, score))
    ensures t.next.sessions == st.sessions
  {
    if fault.Some? then Transition(st, Failure(Driver(fault.value)))
    else
      var doc := VoteData(sessionId, productId, score);
      var votes := match FirstVote(st.votes, KeyOf(doc))
        case Some(i) => st.votes[i := doc]
        case None => st.votes + [doc];
      Transition(State(st.sessions, votes), Success(Vote(productId, sessionId, score)))
  }

  /** After an upsert the pair reads back the new score and every other pair reads back as before. */
  lemma {:induction false} UpsertVoteSetsScore(st: State, sessionId: string, productId: string, score: int)
    ensures Scores(UpsertVote(st, sessionId, productId, score, None).next.votes)
         == Scores(st.votes)[VoteKey(sessionId, productId) := score]
  {
    var doc := VoteData(sessionId, productId, score);
    match FirstVote(st.votes, KeyOf(doc))
    case Some(i) => ScoresOverwrite(st.votes, i, doc);
    case None => ScoresAppend(st.votes, doc);
  }

  lemma {:induction false} ScoresOverwrite(votes: seq<VoteData>, i: nat, doc: VoteData)
    requires FirstVote(votes, KeyOf(doc)) == Some(i)
    ensures Scores(votes[i := doc]) == Scores(votes)[KeyOf(doc) := doc.score]
  {
    if i > 0 {
      var key, head := KeyOf(doc), votes[0];
      assert votes[i := doc][1..] == votes[1..][i - 1 := doc];
      assert FirstVote(votes[1..], key) == Some(i - 1);
      ScoresOverwrite(votes[1..], i - 1, doc);
      assert KeyOf(head) != key;
      var tail := Scores(votes[1..]);
      assert Scores(votes[i := doc]) == Scores(votes[1..][i - 1 := doc])[KeyOf(head) := head.score];
      assert Scores(votes) == tail[KeyOf(head) := head.score];
      UpdateCommutes(tail, key, doc.score, KeyOf(head), head.score);
    } else {
      assert votes[i := doc][1..] == votes[1..];
    }
  }

  lemma UpdateCommutes(m: map<VoteKey, int>, k1: VoteKey, v1: int, k2: VoteKey, v2: int)
    requires k1 != k2
    ensures m[k1 := v1][k2 := v2] == m[k2 := v2][k1 := v1]
  {
  }

  lemma {:induction false} ScoresAppend(votes: seq<VoteData>, doc: VoteData)
    requires FirstVote(votes, KeyOf(doc)).None?
    ensures Scores(votes + [doc]) == Scores(votes)[KeyOf(doc) := doc.score]
  {
    if |votes| > 0 {
      assert (votes + [doc])[1..] == votes[1..] + [doc];
      ScoresAppend(votes[1..], doc);
    }
  }

  /** An upsert keeps the pairs unique and leaves exactly one document for its pair, holding the new score. */
  lemma {:induction false} UpsertVoteKeepsPairsUnique(st: State, sessionId: string, productId: string, score: int)
    ensures UniquePairs(st.votes) ==> UniquePairs(UpsertVote(st, sessionId, productId, score, None).next.votes)
    ensures var votes := UpsertVote(st, sessionId, productId, score, None).next.votes;
      exists i :: 0 <= i < |votes| && votes[i] == VoteData(sessionId, productId, score)
  {
    var doc := VoteData(sessionId, productId, score);
    var votes := UpsertVote(st, sessionId, productId, score, None).next.votes;
    match FirstVote(st.votes, KeyOf(doc))
    case Some(i) =>
      assert votes == st.votes[i := doc];
      assert votes[i] == doc;
    case None =>
      assert votes == st.votes + [doc];
      assert votes[|st.votes|] == doc;
  }

  /** The documents of one session, converted to votes, in natural order (the Find filter). */
  function SessionVotes(votes: seq<VoteData>, sessionId: string): (r: seq<Vote>)
    ensures |r| <= |votes|
    ensures forall v :: v in r <==> v.sessionId == sessionId && FromVote(v) in votes
  {
    if |votes| == 0 then []
    else
      var rest := SessionVotes(votes[1..], sessionId);
      assert forall d :: d in votes <==> d == votes[0] || d in votes[1..];
      if votes[0].sessionId == sessionId then [ToVote(votes[0])] + rest else rest
  }

  /** Every vote document of the session; nil when it has none. */
  function GetSessionVotes(st: State, sessionId: string, fault: Option<string>): (r: Result<VoteList, Error>)
    ensures fault.Some? ==> r == Failure(Driver(fault.value))
    ensures fault.None? ==> r.Success?
    ensures r.Success? ==>
      (r.value.Nil? <==> forall i :: 0 <= i < |st.votes| ==> st.votes[i].sessionId != sessionId)
    ensures r.Success? && r.value.Items? ==>
      forall v :: v in r.value.votes <==> v.sessionId == sessionId && FromVote(v) in st.votes
  {
    if fault.Some? then Failure(Driver(fault.value))
    else
      var found := SessionVotes(st.votes, sessionId);
      assert found == [] ==> forall i :: 0 <= i < |st.votes| ==> st.votes[i].sessionId != sessionId by {
        if found == [] {
          forall i | 0 <= i < |st.votes|
            ensures st.votes[i].sessionId != sessionId
          {
            assert ToVote(st.votes[i]) !in found;
            assert FromVote(ToVote(st.votes[i])) == st.votes[i];
          }
        }
      }
      assert found != [] ==> exists i :: 0 <= i < |st.votes| && st.votes[i].sessionId == sessionId by {
        if found != [] {
          assert found[0] in found;
          var i :| 0 <= i < |st.votes| && st.votes[i] == FromVote(found[0]);
        }
      }
      Success(if found == [] then Nil else Items(found))
  }

  /** With unique pairs, a session's votes are exactly the Scores entries of that session. */
  lemma {:induction false} SessionVotesAgreeWithScores(votes: seq<VoteData>, sessionId: string, v: Vote)
    requires UniquePairs(votes)
    ensures v in SessionVotes(votes, sessionId) <==>
      v.sessionId == sessionId
      && VoteKey(v.sessionId, v.productId) in Scores(votes)
      && Scores(votes)[VoteKey(v.sessionId, v.productId)] == v.score
  {
    var key := VoteKey(v.sessionId, v.productId);
    if FirstVote(votes, key).Some? {
      ScoresFirstMatch(votes, key);
      var i := FirstVote(votes, key).value;
      if FromVote(v) in votes {
        var j :| 0 <= j < |votes| && votes[j] == FromVote(v);
        assert KeyOf(votes[j]) == key;
        assert i == j;
      }
      if Scores(votes)[key] == v.score {
        assert votes[i] == FromVote(v);
      }
    }
  }

  // --------------------------------------------------------------- averages

  /** The $match stage: the vote documents of one product, in natural order. */
  function MatchProduct(votes: seq<VoteData>, productId: string): (r: seq<VoteData>)
    ensures forall d :: d in r <==> d in votes && d.productId == productId
  {
    if |votes| == 0 then []
    else
      var rest := MatchProduct(votes[1..], productId);
      assert forall d :: d in votes <==> d == votes[0] || d in votes[1..];
      if votes[0].productId == productId then [votes[0]] + rest else rest
  }

  function ScoreSum(docs: seq<VoteData>): int {
    if |docs| == 0 then 0 else docs[0].score + ScoreSum(docs[1..])
  }

  /** The $group stage keyed on the product id followed by the $project stage. The matched
      documents share one product id, so there is at most one group. */
  function GroupAndProject(matched: seq<VoteData>): seq<AvgVoteData> {
    if |matched| == 0 then []
    else [AvgVoteData(ScoreSum(matched) as real / |matched| as real, |matched|, matched[0].productId)]
  }

  /** Reference count: the number of vote documents for a product. */
  function CountFor(votes: seq<VoteData>, productId: string): nat {
    if |votes| == 0 then 0
    else (if votes[0].productId == productId then 1 else 0) + CountFor(votes[1..], productId)
  }

  /** Reference sum: the total score of the vote documents for a product. */
  function SumFor(votes: seq<VoteData>, productId: string): int {
    if |votes| == 0 then 0
    else (if votes[0].productId == productId then votes[0].score else 0) + SumFor(votes[1..], productId)
  }

  /** The $match stage selects CountFor documents whose scores add up to SumFor. */
  lemma {:induction false} MatchProductCounts(votes: seq<VoteData>, productId: string)
    ensures |MatchProduct(votes, productId)| == CountFor(votes, productId)
    ensures ScoreSum(MatchProduct(votes, productId)) == SumFor(votes, productId)
  {
    if |votes| > 0 {
      MatchProductCounts(votes[1..], productId);
      var rest := MatchProduct(votes[1..], productId);
      if votes[0].productId == productId {
        assert ([votes[0]] + rest)[1..] == rest;
      }
    }
  }

  /** Runs the aggregation and reads at most one document from its cursor. `fault` is an
      error the Aggregate or Decode call returns; it comes back unwrapped. `nextFails` says
      that `cursor.Next` stopped on an error: the code never consults `cursor.Err()` here, so
      the result keeps its zero value. An empty product id in that result (the zero value
      also when the cursor is simply empty) means no votes were found. */
  function GetAvgProductVotes(st: State, productId: string, fault: Option<string>, nextFails: bool): (r: Result<AvgVoteResponse, Error>)
    ensures fault.Some? ==> r == Failure(Driver(fault.value))
    ensures fault.None? ==> (r.Success? <==> !nextFails && productId != "" && CountFor(st.votes, productId) > 0)
    ensures fault.None? && r.Failure? ==> r.error == NoVotesFound(productId)
    ensures r.Success? ==>
      && r.value.productId == productId
      && r.value.voteCount == CountFor(st.votes, productId)
      && r.value.avg == SumFor(st.votes, productId) as real / CountFor(st.votes, productId) as real
  {
    if fault.Some? then Failure(Driver(fault.value))
    else
      var matched := MatchProduct(st.votes, productId);
      MatchProductCounts(st.votes, productId);
      assert |matched| > 0 ==> matched[0] in matched;
      var docs := GroupAndProject(matched);
      var result := if |docs| > 0 && !nextFails then docs[0] else AvgVoteData(0.0, 0, "");
      if result.productId == "" then Failure(NoVotesFound(productId))
      else Success(AvgVoteResponse(result.avg, result.voteCount, result.productId))
  }

  /** Replacing one document changes a product's totals by the difference of the two documents' shares. */
  lemma {:induction false} TotalsOverwrite(votes: seq<VoteData>, i: nat, doc: VoteData, productId: string)
    requires i < |votes|
    ensures CountFor(votes[i := doc], productId)
         == CountFor(votes, productId) - CountFor([votes[i]], productId) + CountFor([doc], productId)
    ensures SumFor(votes[i := doc], productId)
         == SumFor(votes, productId) - SumFor([votes[i]], productId) + SumFor([doc], productId)
  {
    if i > 0 {
      assert votes[i := doc][1..] == votes[1..][i - 1 := doc];
      TotalsOverwrite(votes[1..], i - 1, doc, productId);
    } else {
      assert votes[i := doc][1..] == votes[1..];
    }
  }

  lemma {:induction false} TotalsAppend(votes: seq<VoteData>, doc: VoteData, productId: string)
    ensures CountFor(votes + [doc], productId) == CountFor(votes, productId) + CountFor([doc], productId)
    ensures SumFor(votes + [doc], productId) == SumFor(votes, productId) + SumFor([doc], productId)
  {
    if |votes| > 0 {
      assert (votes + [doc])[1..] == votes[1..] + [doc];
      TotalsAppend(votes[1..], doc, productId);
    }
  }

  /** What an upsert does to the totals the average is computed from: a first vote for the
      pair adds one vote and its score; a re-vote keeps the count and swaps the old score for
      the new one; other products are untouched. */
  lemma {:induction false} UpsertVoteAdjustsTotals(st: State, sessionId: string, productId: string, score: int, other: string)
    requires other != productId
    ensures var votes := UpsertVote(st, sessionId, productId, score, None).next.votes;
      var key := VoteKey(sessionId, productId);
      && (key in Scores(st.votes) ==>
            && CountFor(votes, productId) == CountFor(st.votes, productId)
            && SumFor(votes, productId) == SumFor(st.votes, productId) - Scores(st.votes)[key] + score)
      && (key !in Scores(st.votes) ==>
            && CountFor(votes, productId) == CountFor(st.votes, productId) + 1
            && SumFor(votes, productId) == SumFor(st.votes, productId) + score)
      && CountFor(votes, other) == CountFor(st.votes, other)
      && SumFor(votes, other) == SumFor(st.votes, other)
  {
    var doc := VoteData(sessionId, productId, score);
    TotalsOfOne(doc, productId);
    TotalsOfOne(doc, other);
    match FirstVote(st.votes, KeyOf(doc))
    case Some(i) =>
      ScoresFirstMatch(st.votes, KeyOf(doc));
      var prior := st.votes[i];
      TotalsOfOne(prior, productId);
      TotalsOfOne(prior, other);
      TotalsOverwrite(st.votes, i, doc, productId);
      TotalsOverwrite(st.votes, i, doc, other);
    case None =>
      TotalsAppend(st.votes, doc, productId);
      TotalsAppend(st.votes, doc, other);
  }

  lemma TotalsOfOne(d: VoteData, productId: string)
    ensures CountFor([d], productId) == if d.productId == productId then 1 else 0
    ensures SumFor([d], productId) == if d.productId == productId then d.score else 0
  {
    assert [d][1..] == [];
  }

  /** Every stored score lies in 1..5. */
  predicate ScoresInRange(votes: seq<VoteData>) {
    forall i :: 0 <= i < |votes| ==> 1 <= votes[i].score <= 5
  }

  lemma {:induction false} SumForBounds(votes: seq<VoteData>, productId: string)
    requires ScoresInRange(votes)
    ensures CountFor(votes, productId) <= SumFor(votes, productId) <= 5 * CountFor(votes, productId)
  {
    if |votes| > 0 {
      SumForBounds(votes[1..], productId);
    }
  }

  /** When every stored score is in 1..5, a reported average is in 1..5 too. */
  lemma AverageInScoreRange(st: State, productId: string)
    requires ScoresInRange(st.votes)
    ensures var r := GetAvgProductVotes(st, productId, None, false);
      r.Success? ==> 1.0 <= r.value.avg <= 5.0
  {
    SumForBounds(st.votes, productId);
    var n := CountFor(st.votes, productId) as real;
    var s := SumFor(st.votes, productId) as real;
    if n > 0.0 {
      RatioBounds(s, n, 1.0, 5.0);
    }
  }

  lemma RatioBounds(s: real, n: real, lo: real, hi: real)
    requires n > 0.0 && lo * n <= s <= hi * n
    ensures lo <= s / n <= hi
  {
    var a := s / n;
    assert a * n == s;
    if a < lo {
      assert false;
    }
    if a > hi {
      assert false;
    }
  }

  /** An upsert of a score in 1..5 keeps every stored score in 1..5. */
  lemma UpsertVoteKeepsScoresInRange(st: State, sessionId: string, productId: string, score: int, fault: Option<string>)
    requires 1 <= score <= 5
    ensures ScoresInRange(st.votes) ==> ScoresInRange(UpsertVote(st, sessionId, productId, score, fault).next.votes)
  {
  }
}
