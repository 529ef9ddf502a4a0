/** The records the authentication server keeps, one per registry entry. */
module Types {

  datatype Option<+T> = None | Some(value: T)

  type UserId = string
  type ChallengeId = string
  type SessionId = string

  /** A registered prover: public commitments y1 = g^x, y2 = h^x, the id of
      the challenge issued last and of the session granted last. */
  datatype User = User(
    id: UserId,
    y1: int,
    y2: int,
    authId: Option<ChallengeId>,
    sessionId: Option<SessionId>)

  /** One login round: the prover's commitments r1, r2, the challenge c and
      the user it was issued for. */
  datatype Challenge = Challenge(
    id: ChallengeId,
    c: int,
    r1: int,
    r2: int,
    userId: UserId)

  /** A session granted after a successful verification. */
  datatype Session = Session(id: SessionId, userId: UserId)
}
