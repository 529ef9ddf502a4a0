# Chaum-Pedersen authentication: a verified Dafny model

This project models the two parts of the Chaum-Pedersen client/server authentication system that hold its logic:

- **The Chaum-Pedersen engine** (`arith.dfy`, `chaum_pedersen.dfy`). It is the interactive proof that `y1 = g^x` and `y2 = h^x (mod p)` share one discrete log `x`. The prover commits with `(r1, r2) = (g^k mod p, h^k mod p)`. It answers a challenge `c` with `s = (k - c·x) mod q`. The verifier recomputes `g^s·y1^c mod p` and `h^s·y2^c mod p` and compares them with `r1` and `r2`. All of this is unbounded integer arithmetic. The big-integer `%` truncates toward zero, so it is modelled explicitly as `Arith.TruncRem`. The library's `modpow` is `Pow(b, e) % m` with a positive modulus. The fixed group (`DEFAULT_PARAMS`) is a model constant. The fact that `g` and `h` have order dividing `q` is the hypothesis `SubgroupOrder`. It is assumed, never computed.
- **The server's authentication state** (`types.dfy`, `state.dfy`). A class holds three maps: users, challenges and sessions. It has the three in-place operations `RegisterUser`, `CreateAuthenticationChallenge` and `CreateSession`. Each method states its whole new state in terms of the old one. Each also states which registry invariants it preserves:
  - every record sits under its own id;
  - a user's `authId` names a live challenge of that user;
  - a registered user has at most one live challenge;
  - every session belongs to a registered user.

`flows.dfy` replays the server's test scenarios and the supersession policy against the state class and the engine. Identifiers, entropy and challenges arrive there as parameters.

Two behaviours of the state layer are worth spelling out:

- The server's own test at `server/src/tests.rs:119-140` expects a challenge request for an unregistered user to be rejected. That rejection happens in the request handler, which is not part of this model. At the state layer (`server/src/state.rs:31-59`) the challenge is inserted anyway and only `users` is left alone.
- `server/src/state.rs:39-44` removes a user's previous challenge before issuing a new one (the comment at line 41), so each user keeps at most one live challenge. `register_user` (`server/src/state.rs:18-29`) does not remove a re-registering user's challenge. After a re-registration and a new challenge, that user owns two live challenges (`AuthFlows.ReRegistrationOrphansChallenge`). `RegisterUser` preserves `SingleLiveChallenge` only when the user owned no challenge.

## Model

| member | source | states |
|---|---|---|
| `Arith.TruncRem` | chaum-pedersen/src/chaum_pedersen.rs:126 | The big-integer remainder has the dividend's sign. Its magnitude is below the divisor's. It is congruent to the dividend modulo the divisor. Division by zero is excluded because the library panics on it. |
| `Arith.ModPow` | chaum-pedersen/src/chaum_pedersen.rs:119-120 | Modular exponentiation with a positive modulus yields a value in `[0, m)`, even for a negative base. |
| `ChaumPedersen.DefaultParamsShape` | chaum-pedersen/src/lib.rs:16-28 | The fixed parameters are well formed. `p == 2q + 1` (a safe-prime shape). Both generators lie strictly between 1 and `p`. |
| `ChaumPedersen.GenerateRandom` | chaum-pedersen/src/chaum_pedersen.rs:109-115 | A random scalar is a non-negative integer below `2^bit_size`. Every value in that range can be drawn. |
| `ChaumPedersen.Commit` | chaum-pedersen/src/chaum_pedersen.rs:117-122 | The commitment is `(g^k mod p, h^k mod p)`, defined only for `k ≥ 0` because modpow panics on a negative exponent. Both components lie in `[0, p)`. |
| `ChaumPedersen.CommitDependsOnExponentModQ` | chaum-pedersen/src/chaum_pedersen.rs:117-122 | Under the subgroup-order hypothesis, `commit(k) == commit(k mod q)`. |
| `ChaumPedersen.SolveChallenge` | chaum-pedersen/src/chaum_pedersen.rs:124-131 | The response lies in `[0, q)` even when the truncating remainder is negative. It equals the canonical representative of `k − c·x` modulo `q`. |
| `ChaumPedersen.Verify` | chaum-pedersen/src/chaum_pedersen.rs:133-155 | Verification never succeeds for an `r1` or `r2` outside `[0, p)`. A mismatch is a returned error value, not a panic. |
| `ChaumPedersen.RecomputedIsReduced` | chaum-pedersen/src/chaum_pedersen.rs:142-147 | `(g^s mod p)·(y^c mod p)` reduced by the truncating `%` equals `(g^s·y^c) mod p`. |
| `ChaumPedersen.VerifyAcceptsExactly` | chaum-pedersen/src/chaum_pedersen.rs:133-155 | `verify` returns `Ok` if and only if `r1 == (g^s·y1^c) mod p` and `r2 == (h^s·y2^c) mod p`. Otherwise it returns `Err(VerificationFailed)`. |
| `ChaumPedersen.HonestRecomputation` | chaum-pedersen/src/chaum_pedersen.rs:124-147 | Take `y = b^x mod p` and an honest response `s`, and assume `b^q ≡ 1 (mod p)`. Then the verifier's recomputation `b^s·y^c mod p` equals `b^k mod p`. |
| `ChaumPedersen.Completeness` | chaum-pedersen/src/chaum_pedersen.rs:162-174 | Let `x, k, c ≥ 0` and assume `g^q ≡ h^q ≡ 1 (mod p)`. Then verifying `(g^x mod p, h^x mod p)`, `commit(k)` and `solve_challenge(x, k, c)` against `c` returns `Ok`. |
| `ServerState.PreviousChallenge` | server/src/state.rs:39-44 | The challenge to supersede is empty exactly when the user is unregistered or has no `auth_id`. Otherwise it is that `auth_id`. |
| `ServerState.PedersenChaumAuthServerState.constructor` | server/src/state.rs:11-15 | The server starts with three empty registries, which satisfy all four invariants. |
| `ServerState.PedersenChaumAuthServerState.RegisterUser` | server/src/state.rs:18-29 | `users[name]` becomes `User{id: name, y1, y2, auth_id: None, session_id: None}`, overwriting any earlier record. Other users, challenges and sessions are unchanged. Key/id agreement, live `auth_id`s and session ownership are preserved. A single live challenge per user is preserved only if the user owned no challenge. |
| `ServerState.PedersenChaumAuthServerState.CreateAuthenticationChallenge` | server/src/state.rs:31-59 | A registered user's previous challenge is removed. `challenges[auth_id]` becomes `Challenge{auth_id, c, r1, r2, user}`. A registered user's `auth_id` becomes `Some(auth_id)` with `y1`, `y2` and `session_id` kept. An unregistered name leaves `users` unchanged but the challenge is still stored. Sessions and all other challenges are unchanged. The invariants are preserved; live `auth_id`s need a fresh `auth_id`. |
| `ServerState.PedersenChaumAuthServerState.CreateSession` | server/src/state.rs:61-71 | The user must be registered (the lookup is unwrapped). Its `session_id` becomes `Some(id)` and `sessions[id] == Session{id, user}`. Challenges and the user's `auth_id` are unchanged. All four invariants are preserved. |
| `AuthFlows.RegisterOnFreshServer` | server/src/tests.rs:17-50 | After one registration on a fresh server, `users` holds exactly that user with no links. Challenges and sessions are empty. |
| `AuthFlows.ChallengeAfterRegistration` | server/src/tests.rs:52-116 | After registering and issuing one challenge, `users` and `challenges` hold exactly the expected records, linked by `auth_id`. Sessions are empty. |
| `AuthFlows.ChallengeForUnregisteredUser` | server/src/state.rs:39-58 | At the state layer, a challenge for an unregistered name is stored and `users` stays empty. |
| `AuthFlows.SecondChallengeSupersedesFirst` | server/src/state.rs:39-58 | A second challenge for the same user leaves exactly one challenge entry, the second. The user's `auth_id` names it. |
| `AuthFlows.ReRegistrationOrphansChallenge` | server/src/state.rs:18-29 | Re-registration keeps the old challenge live. The next challenge does not remove it, so the user owns two live challenges. |
| `AuthFlows.HonestLogin` | server/src/tests.rs:142-229 | For any parameters meeting the subgroup-order hypothesis (the test's fixed group among them), the honest sequence register → commit → challenge → solve → verify (over the stored challenge and user) → create session yields `Ok`. The final maps are exactly those the test asserts: `users == {user: User{user, g^x mod p, h^x mod p, Some(auth_id), Some(session_id)}}`, `challenges == {auth_id: Challenge{auth_id, c, commit(k).r1, commit(k).r2, user}}` (the satisfied challenge stays live) and `sessions == {session_id: Session{session_id, user}}`. |

## Left out

- Network client and CLI (gRPC over tonic, argument parsing): transport plumbing with no logic. The honest client sequence is covered by `Completeness` and `HonestLogin`.
- Server startup and the HTTP routes and handlers: configuration loading and stub handlers returning constants.
- The gRPC service wrapping the state: its source is not part of this model. Its user-not-found check, its call to `verify` and its minting of identifiers appear only as parameters and explicit steps in `AuthFlows.HonestLogin`, not as a modelled component. Its failure paths (`UserNotFound`, `ChallengeNotFound`) are therefore not modelled.
- Concurrency: the reader/writer lock and the async runtime. Each state method is one atomic step, and the verify-then-commit race is not modelled.
- Password hashing (a foreign blake3 call plus zeroize).
- The unused older trait in `chaum-pedersen/src/interface.rs`, which has no implementation.
- Big-endian byte conversion of integers, which is library code.
- `ChaumPedersen::new` (dead code) and `Default`: every operation takes the `Parameters` value explicitly. The accessors `get_first_exponent` and `get_second_exponent` are the datatype's fields `r1` and `r2`.
- ChaumPedersen.GenerateRandom: the entropy source is a parameter, and the result is that entropy reduced below `2^bit_size`. Uniformity is not modelled.
- ChaumPedersen.Commit: its contract states only the range. The exact value `(g^k mod p, h^k mod p)` is its definition, used by `CommitDependsOnExponentModQ` and `Completeness`.
- ChaumPedersen.Verify: the source panics when `s` or `c` is negative, because `modpow` rejects a negative exponent; the model requires `s >= 0` and `c >= 0` instead. No caller in the repository passes a negative value: `s` comes from `solve_challenge`, which returns a value in `[0, q)`, and `c` comes from `generate_random`, which is non-negative.
- ChaumPedersen.Verify: purity and repeatability (the same inputs give the same outcome) hold because it is a function. There is no separate lemma for them.
- Engine functions require `WellFormed` parameters (`p > 0`, `q > 0`). The parameter fields are private and only the fixed constant is ever built, so negative or zero moduli are unreachable. Likewise `bit_size` is a `nat`, not a 64-bit integer.
- Soundness (a response computed from a different secret is rejected) and the 32-byte length of a generated challenge: both are probabilistic and are not stated.
- The subgroup-order facts `g^q ≡ h^q ≡ 1 (mod p)` for the fixed parameters are hypotheses (`SubgroupOrder`), not proved.
