/**
 * Runs of the server state and the engine that reproduce the server's own
 * test scenarios and the challenge-supersession policy. The request
 * handlers that mint identifiers and decode bytes are not part of this
 * model: identifiers, entropy and the challenge arrive as parameters, and
 * the handler's "look up the challenge, look up its user, verify, create a
 * session" sequence is written out step by step.
 */
module AuthFlows {
  import opened Arith
  import opened ChaumPedersen
  import opened Types
  import opened ServerState

  /** Registering one user on a fresh server stores exactly that user. */
  method RegisterOnFreshServer(user: UserId, y1: int, y2: int) returns (st: PedersenChaumAuthServerState)
    ensures st.users == map[user := User(user, y1, y2, None, None)]
    ensures st.challenges == map[] && st.sessions == map[]
  {
    st := new PedersenChaumAuthServerState();
    st.RegisterUser(user, y1, y2);
  }

  /** Issuing a challenge for a registered user links it to the user. */
  method ChallengeAfterRegistration(user: UserId, y1: int, y2: int, authId: ChallengeId, r1: int, r2: int, c: int)
    returns (st: PedersenChaumAuthServerState)
    ensures st.users == map[user := User(user, y1, y2, Some(authId), None)]
    ensures st.challenges == map[authId := Challenge(authId, c, r1, r2, user)]
    ensures st.sessions == map[]
  {
    st := new PedersenChaumAuthServerState();
    st.RegisterUser(user, y1, y2);
    st.CreateAuthenticationChallenge(user, authId, r1, r2, c);
  }

  /**
   * At the state layer an unregistered name is not rejected: the challenge is
   * stored and `users` stays empty. (Rejecting such a request is the request
   * handler's job.)
   */
  method ChallengeForUnregisteredUser(user: UserId, authId: ChallengeId, r1: int, r2: int, c: int)
    returns (st: PedersenChaumAuthServerState)
    ensures st.users == map[]
    ensures st.challenges == map[authId := Challenge(authId, c, r1, r2, user)]
    ensures st.sessions == map[]
  {
    st := new PedersenChaumAuthServerState();
    st.CreateAuthenticationChallenge(user, authId, r1, r2, c);
  }

  /** A second challenge for the same user supersedes the first: only the
      second remains and the user points to it. */
  method SecondChallengeSupersedesFirst(
    user: UserId, y1: int, y2: int,
    first: ChallengeId, second: ChallengeId,
    r1: int, r2: int, c: int, r1': int, r2': int, c': int)
    returns (st: PedersenChaumAuthServerState)
    requires first != second
    ensures first !in st.challenges
    ensures st.challenges == map[second := Challenge(second, c', r1', r2', user)]
    ensures user in st.users && st.users[user].authId == Some(second)
  {
    st := new PedersenChaumAuthServerState();
    st.RegisterUser(user, y1, y2);
    st.CreateAuthenticationChallenge(user, first, r1, r2, c);
    st.CreateAuthenticationChallenge(user, second, r1', r2', c');
  }

  /**
   * Re-registering a user who holds a live challenge orphans it: the
   * challenge stays in the registry, owned by the user, while the new record
   * no longer names it, so the next challenge does not remove it and the
   * user ends up with two live challenges.
   */
  method ReRegistrationOrphansChallenge(
    user: UserId, y1: int, y2: int, y1': int, y2': int,
    first: ChallengeId, second: ChallengeId,
    r1: int, r2: int, c: int, r1': int, r2': int, c': int)
    returns (st: PedersenChaumAuthServerState)
    requires first != second
    ensures user in st.users && st.users[user] == User(user, y1', y2', Some(second), None)
    ensures st.challenges == map[first := Challenge(first, c, r1, r2, user),
                                 second := Challenge(second, c', r1', r2', user)]
    ensures !st.SingleLiveChallenge()
  {
    st := new PedersenChaumAuthServerState();
    st.RegisterUser(user, y1, y2);
    st.CreateAuthenticationChallenge(user, first, r1, r2, c);
    st.RegisterUser(user, y1', y2');
    st.CreateAuthenticationChallenge(user, second, r1', r2', c');
    assert st.challenges[first].userId in st.users;
  }

  /**
   * The full honest login over any group meeting the subgroup-order
   * hypothesis (the fixed DEFAULT_PARAMS among them): the client derives its
   * secret and nonce from entropy, registers (g^x, h^x), commits with k; the
   * server stores the challenge; the stored data verifies against the
   * client's answer, and creating the session leaves the challenge live.
   */
  method HonestLogin(
    params: Parameters, user: UserId, authId: ChallengeId, sessionId: SessionId,
    secretEntropy: nat, nonceEntropy: nat, challengeEntropy: nat)
    returns (st: PedersenChaumAuthServerState, outcome: Outcome, x: int, k: int, c: int)
    requires SubgroupOrder(params)
    ensures outcome == Ok
    ensures 0 <= x && 0 <= k && 0 <= c
    ensures st.users == map[user := User(user, ModPow(params.g, x, params.p), ModPow(params.h, x, params.p),
                                         Some(authId), Some(sessionId))]
    ensures st.challenges == map[authId := Challenge(authId, c, Commit(params, k).r1, Commit(params, k).r2, user)]
    ensures st.sessions == map[sessionId := Session(sessionId, user)]
  {
    x := GenerateRandom(params, secretEntropy);
    var commitment := Commit(params, x);
    k := GenerateRandom(params, nonceEntropy);
    var e := Commit(params, k);

    st := new PedersenChaumAuthServerState();
    st.RegisterUser(user, commitment.r1, commitment.r2);
    c := GenerateRandom(params, challengeEntropy);
    st.CreateAuthenticationChallenge(user, authId, e.r1, e.r2, c);

    var s := SolveChallenge(params, x, k, c);

    var challenge := st.challenges[authId];
    var userData := st.users[challenge.userId];
    Completeness(params, x, k, c);
    outcome := Verify(params, userData.y1, userData.y2, challenge.r1, challenge.r2, s, challenge.c);
    if outcome == Ok {
      st.CreateSession(challenge.userId, sessionId);
    }
  }
}
