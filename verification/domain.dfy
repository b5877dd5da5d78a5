/** The records the services exchange and the errors they return. */
module Domain {

  /** A session as the services see it; `expireAt` is in whole Unix seconds. */
  datatype UserSession = UserSession(sessionId: string, expireAt: int)

  /** One participant's score for one product. */
  datatype Vote = Vote(productId: string, sessionId: string, score: int)

  /** A Go `[]Vote`: nil, or a slice of votes in the store's natural order. */
  datatype VoteList = Nil | Items(votes: seq<Vote>)

  /** The per-product aggregate; `avg` is exact, where the service uses a float64. */
  datatype AvgVoteResponse = AvgVoteResponse(avg: real, voteCount: int, productId: string)

  /** A failure reported by the database driver itself. */
  datatype DriverError =
    | NoDocuments              // FindOne matched nothing
    | Failed(message: string)  // any other driver failure: network, timeout, decoding

  /** Every error a service or repository call can return. */
  datatype Error =
    | CannotFindSession(cause: DriverError)  // "cannot find session, ..."
    | CannotInsertSession(message: string)   // "cannot insert session, ..."
    | NoVotesFound(productId: string)        // "no votes found for product ..."
    | Driver(message: string)                // a driver error returned unwrapped
    | ExpiredSession                         // session.ErrExpiredSession
    | InvalidSession                         // voting.ErrInvalidSession
}
