/**
 * The authentication server's in-memory state: three registries (users,
 * challenges, sessions) and the three operations that update them in place.
 * The lock that serialises these operations is not part of the model; each
 * method is one atomic step.
 */
module ServerState {
  import opened Types

  /** The challenge a new challenge for `name` supersedes: the one named by
      the user's current `authId`, if the user is registered and has one. */
  function PreviousChallenge(users: map<UserId, User>, name: UserId): (ids: set<ChallengeId>)
    ensures ids == {} <==> name !in users || users[name].authId == None
    ensures forall a :: a in ids ==> users[name].authId == Some(a)
  {
    if name in users && users[name].authId.Some? then {users[name].authId.value} else {}
  }

  class PedersenChaumAuthServerState {
    var users: map<UserId, User>
    var challenges: map<ChallengeId, Challenge>
    var sessions: map<SessionId, Session>

    /** The server starts with empty registries. */
    constructor ()
      ensures users == map[] && challenges == map[] && sessions == map[]
      ensures KeysMatchIds() && AuthIdsLive() && SingleLiveChallenge() && SessionsOwned()
    {
      users, challenges, sessions := map[], map[], map[];
    }

    /** Every record is stored under its own id. */
    ghost predicate KeysMatchIds()
      reads this
    {
      && (forall u :: u in users ==> users[u].id == u)
      && (forall a :: a in challenges ==> challenges[a].id == a)
      && (forall s :: s in sessions ==> sessions[s].id == s)
    }

    /** A user's current challenge id names a live challenge issued for that user. */
    ghost predicate AuthIdsLive()
      reads this
    {
      forall u :: u in users && users[u].authId.Some? ==>
        users[u].authId.value in challenges && challenges[users[u].authId.value].userId == u
    }

    /** A live challenge issued for a registered user is that user's current
        one, so a registered user has at most one live challenge. */
    ghost predicate SingleLiveChallenge()
      reads this
    {
      forall a :: a in challenges && challenges[a].userId in users ==>
        users[challenges[a].userId].authId == Some(a)
    }

    /** Every session belongs to a registered user. */
    ghost predicate SessionsOwned()
      reads this
    {
      forall s :: s in sessions ==> sessions[s].userId in users
    }

    /**
     * Registers `userName` with commitments y1, y2, replacing any earlier
     * record and clearing its challenge and session links. Challenges and
     * sessions are untouched, so a challenge issued before a re-registration
     * stays live: the one-challenge-per-user invariant survives only when the
     * user owned no challenge.
     */
    method RegisterUser(userName: UserId, y1: int, y2: int)
      modifies this
      ensures users == old(users)[userName := User(userName, y1, y2, None, None)]
      ensures challenges == old(challenges) && sessions == old(sessions)
      ensures old(KeysMatchIds()) ==> KeysMatchIds()
      ensures old(AuthIdsLive()) ==> AuthIdsLive()
      ensures old(SessionsOwned()) ==> SessionsOwned()
      ensures old(SingleLiveChallenge()) &&
              (forall a :: a in old(challenges) ==> old(challenges)[a].userId != userName)
              ==> SingleLiveChallenge()
    {
      users := users[userName := User(userName, y1, y2, None, None)];
    }

    /**
     * Issues challenge `authId` for `userName`. A registered user's previous
     * challenge is removed and the user's `authId` now names the new one; an
     * unregistered name leaves `users` alone, yet the challenge is stored.
     */
    method CreateAuthenticationChallenge(userName: UserId, authId: ChallengeId, r1: int, r2: int, c: int)
      modifies this
      ensures users == if userName in old(users)
                       then old(users)[userName := old(users)[userName].(authId := Some(authId))]
                       else old(users)
      ensures challenges == (old(challenges) - PreviousChallenge(old(users), userName))
                            [authId := Challenge(authId, c, r1, r2, userName)]
      ensures sessions == old(sessions)
      ensures old(KeysMatchIds()) ==> KeysMatchIds()
      ensures old(SingleLiveChallenge()) ==> SingleLiveChallenge()
      ensures old(SessionsOwned()) ==> SessionsOwned()
      ensures old(AuthIdsLive()) && authId !in old(challenges) ==> AuthIdsLive()
    {
      if userName in users {
        var userData := users[userName];
        if userData.authId.Some? {
          challenges := challenges - {userData.authId.value};
        }
      }
      if userName in users {
        users := users[userName := users[userName].(authId := Some(authId))];
      }
      challenges := challenges[authId := Challenge(authId, c, r1, r2, userName)];
    }

    /**
     * Grants session `sessionId` to `userName`, who must be registered (the
     * server panics otherwise). The satisfied challenge stays live and the
     * user's `authId` is unchanged.
     */
    method CreateSession(userName: UserId, sessionId: SessionId)
      requires userName in users
      modifies this
      ensures users == old(users)[userName := old(users)[userName].(sessionId := Some(sessionId))]
      ensures sessions == old(sessions)[sessionId := Session(sessionId, userName)]
      ensures challenges == old(challenges)
      ensures old(KeysMatchIds()) ==> KeysMatchIds()
      ensures old(AuthIdsLive()) ==> AuthIdsLive()
      ensures old(SingleLiveChallenge()) ==> SingleLiveChallenge()
      ensures old(SessionsOwned()) ==> SessionsOwned()
    {
      users := users[userName := users[userName].(sessionId := Some(sessionId))];
      sessions := sessions[sessionId := Session(sessionId, userName)];
    }
  }
}
