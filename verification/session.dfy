/**
 The session service: minting a session that lives for one hour, and checking
 a session id against its expiry. The clock (`now`, whole Unix seconds) and the
 freshly generated id are parameters of the model.
 */
module Session {
  import opened Wrappers
  import opened Domain
  import Store

  /** `time.Hour`, in seconds: how long a new session stays valid. */
  const Lifetime: int := 3600

  /** Stores a session under `freshId` expiring one hour after `now` and returns the stored record. */
  function Create(st: Store.State, now: int, freshId: string, fault: Option<string>): (t: Store.Transition<UserSession>)
    ensures fault.None? ==> t.result == Success(UserSession(freshId, now + Lifetime))
    ensures fault.Some? ==> t == Store.Transition(st, Failure(CannotInsertSession(fault.value)))
    ensures t.next.votes == st.votes
  {
    Store.StoreSession(st, freshId, now + Lifetime, fault)
  }

  /** Looks the session up and fails when it is unknown or when `now` is strictly after its expiry. */
  function Validate(st: Store.State, id: string, now: int, fault: Option<string>): (r: Outcome<Error>)
    ensures Store.GetSession(st, id, fault).Failure? ==> r == Fail(Store.GetSession(st, id, fault).error)
    ensures r == Fail(ExpiredSession) <==>
      Store.GetSession(st, id, fault).Success? && now > Store.GetSession(st, id, fault).value.expireAt
    ensures r == Pass <==>
      Store.GetSession(st, id, fault).Success? && now <= Store.GetSession(st, id, fault).value.expireAt
  {
    match Store.GetSession(st, id, fault)
    case Failure(e) => Fail(e)
    case Success(us) =>
      if now - us.expireAt > 0 then Fail(ExpiredSession) else Pass
  }

  /** A session created at `created` under an unused id validates exactly up to and
      including one hour later, and reads as expired from then on. */
  lemma CreateThenValidate(st: Store.State, created: int, freshId: string, now: int)
    requires !Store.HasSession(st, freshId)
    ensures var next := Create(st, created, freshId, None).next;
      && (Validate(next, freshId, now, None) == Pass <==> now <= created + Lifetime)
      && (Validate(next, freshId, now, None) == Fail(ExpiredSession) <==> now > created + Lifetime)
  {
    Store.StoreThenGetSession(st, freshId, created + Lifetime);
  }
}
