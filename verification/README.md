# go-web-eid, modelled and proved in Dafny

This project models the parts of go-web-eid where its guarantees live and proves
them for all inputs and all runs:

- **Challenge and login** (`LoginProtocol`, `LoginTraces`, `LoginSafety`,
  `NonceFates`, `LoginAnswers`, `StoreEquivalence`, `LoginRuns`,
  `SessionIsolation`, `Handler`, `NonceStore`). Requests are interleaved steps over one non-decreasing clock, one
  nonce store and one reloadable trust store; every sequence of events is a run.
  Accepted logins are traced back to their steps and those of their challenge, every
  stored nonce to the step that ended its life. The same steps are run over a store
  that never sweeps, the in-memory store with its sweep on Put, and the Redis store
  with key expiry, and with and without the requests of other sessions, and the runs
  are compared event for event.
- **Signed assertions** (`Assertion`, `KeySets`, `Base64Url`, `Text`, `Bytes`).
  Issue and Verify, and publishing and reading a JWK set, undo each other through
  base64url, dot splitting, fixed-width integers and truncated timestamps.
- **Validation** (`Validator`, `Certificates`, `Signature`, `Ocsp`,
  `Negotiation`, `Oid`, `GoTime`). The pipeline and its first failing check, the
  multi-origin loop, trusted sets, the two signature verifiers, OCSP freshness with
  Go's saturating and wrapping durations, hash negotiation and OID spellings.

Objects the library updates in place are classes (`InMemoryStore`, `RedisClient`,
`RedisStore`, `TrustStore`, `KeySet`, `Handler`); loops are methods proved against
functions; the rest is functions and lemmas.

Libraries outside the repository appear as records of functions (`Crypto`, `Pki`,
`Codec`), and what a theorem needs of them is a named hypothesis: `JsonRoundTrips`,
`SignsFor` (ecdsa.Sign produces what ecdsa.Verify accepts), `FixedLength` (digest
lengths), `RsaRefusesEmpty`, `CoordinatesFit` (curve points are field elements),
`OneMessagePerSignature` (over the messages of the run), `DistinctValues`,
`NoCollisions`. Clocks, randomness, the
session of a request, the OCSP responder's answer and the certificates found on disk
are parameters. Instants are unbounded integers of nanoseconds.

## Where the code and its documentation differ

The model follows the code.

- The trust store's documentation says that a check that started before a reload
  finishes against the set it started with. That holds of one reading of the store.
  With revocation checking on, `Validate` reads it twice, and `LoginRuns.TwoSets` and
  `LoginRuns.TwoSetsExist` show an accepted login that each of the two sets, alone,
  refuses; `LoginSafety.SameSetExactly` says exactly when one set was used.
- The in-memory store's documentation says that expired entries are removed on
  access. A Put removes all of them, a Take only its own session's entry:
  `NonceFates.FateStep` and `LoginProtocol.TakeFates` say exactly which step removes
  which entry.
- A key set is documented as holding ES256 keys, but `Add` takes a key of any curve
  and `JWKS` labels every key P-256. `KeySets.JwksRoundTrip` gives the exact
  condition for reading a published set back.
- The store's lifetime and the lifetime login enforces are configured separately
  when the store is replaced. `LoginRuns.SweepRefinesExactly` says exactly when the
  sweep cannot be observed, and `SessionIsolation.IsolatedExactly` exactly when one
  session's challenge cannot cost another session its login.

## Model

| member | source | states |
|---|---|---|
| LoginSafety.AcceptedLogin | azugo/routes.go:86-136 | in every interleaving, the steps of an accepted login and of a challenge for the same session stand in the run in order; the nonce was live when taken and consumed by this login alone; its age, from the clock at the stamp to the clock at the expiry check, is at most the lifetime; the algorithm is one of the nine names and the signature value is genuine, in terms of the primitives, over the hash of a configured origin followed by the hash of the nonce; the validator answers Ok at the clock of its first step for the sets in force at its two readings |
| LoginTraces.LoginTrace | azugo/routes.go:68-107 | every accepted login has a trace: positions of its five steps and of its challenge's two, where each recorded time is the clock of that step and each recorded set the one in force there |
| LoginTraces.Entered | azugo/routes.go:68-107 | every phase of every request was entered by a step of that request, in a state whose clock, live nonce, trusted set and previous phase are the ones the phase records |
| LoginTraces.WorldFromEvents | certificate/trust.go:157-163 | after every run the clock is the sum of the ticks and the trusted set that of the last reload that was not empty |
| LoginSafety.AcceptedOneToOne | azugo/routes.go:93-107 | two accepted logins of a run consumed nonces of two different challenges |
| LoginSafety.NoTokenTwice | validator.go:118-133 | no certificate, algorithm and signature value is accepted twice in any run, however the token spells them, given distinct nonces, no collision among their hashes, fixed digest lengths and at most one of the run's messages per signature value |
| LoginSafety.DatagramInjective | validator.go:118-128 | equal datagrams hold equal nonce hashes, whatever the origins |
| LoginSafety.SignatureCoversOneNonce | validator.go:125-133 | a signature accepted for two generated nonces, under any configured origins, was accepted for one |
| NonceFates.Conservation | store_memory.go:47-83 | every nonce ever stored is live, consumed, replaced or swept, exactly one of them, as the first step of the run that ends its life decides; the four counts add up to the puts; one live nonce per session; the request that consumed a nonce still holds it or was rejected, a replaced one has a later put of its session, a swept one had expired at a later put or outlived its key |
| NonceFates.FateStep | store_memory.go:47-83 | a step ends exactly the lives it should: a Take the live nonce of its session, a Put the expired ones and then that of its session; no fate changes and a new nonce lives |
| NonceFates.FatesFromEvents | store_memory.go:47-83 | the recorded fate of every stored nonce is the one the first ending step of the run gave it |
| NonceFates.LiveBound | store_memory.go:47-57 | the in-memory store holds at most one nonce more than those issued within its lifetime before its last Put |
| LoginSafety.SameSetExactly | validator.go:77-90 | an accepted login used one set exactly when revocation is not checked or no reload took effect between its two readings; the validator then answers Ok for the set it started with |
| Validator.OneReadingWithoutOcsp | validator.go:81-90 | without revocation checking only the first reading of the trusted set matters |
| LoginSafety.TrustNeverEmptied | certificate/trust.go:157-163 | before every step of every run the set in force is that of the last effective reload, its pool is its certificate list, once non-empty it stays so, and a refused reload changes nothing |
| LoginProtocol.StepKeeps | azugo/routes.go:86-136 | every step of every request keeps the invariant that ties live entries, fates, phases and trusted sets together |
| LoginProtocol.Reachable | azugo/routes.go:68-136 | the invariant holds after every sequence of events |
| LoginProtocol.SweepFates | store_memory.go:76-83 | a sweep ends the life of exactly the expired live nonces |
| LoginProtocol.InsertFates | store_memory.go:54-55 | storing a nonce replaces the live nonce of that session and of no other |
| LoginProtocol.TakeFates | store_memory.go:60-73 | taking ends the life of the session's live nonce and of no other: consumed by the request, or swept if its key has expired |
| StoreEquivalence.SweepRefines | store_memory.go:47-83 | the swept store and one that never sweeps accept the same logins, with the same nonces and times, in every run where login's lifetime is no longer than the store's |
| StoreEquivalence.SweptRun | store_memory.go:76-83 | at every moment the swept map lacks only expired nonces and a login it turned away would have been refused as expired |
| StoreEquivalence.RedisAgreesWithMemory | redisstore/store.go:112-150 | what Redis accepts memory accepts; what memory accepts below the lifetime Redis accepts; they differ only at an age of exactly the lifetime |
| StoreEquivalence.KeysExpiredRun | redisstore/store.go:130-150 | over whole runs, a login that only Redis turned away held a nonce stored for at least the lifetime |
| LoginRuns.SweepRefinesExactly | store_memory.go:34-57 | both stores accept the same logins in every run exactly when login's lifetime is no longer than the store's |
| LoginRuns.AtTheDeadline | redisstore/store.go:124-141 | at an age of exactly the lifetime memory accepts and Redis accepts only if its key lingers at that Take |
| LoginAnswers.AcceptedExactlyWhen | azugo/routes.go:86-107 | in every run, a login is accepted exactly when some nonce stored for its session before its Take has met no ending step, its key can be read, and the verdict at the clocks and sets of the login's own steps is Ok |
| LoginAnswers.EveryLoginAnswered | azugo/routes.go:86-107 | in every run, every login ends with NotFound, Expired, the validator's error or an acceptance, as the nonce its Take finds and the clocks and sets of its own steps say |
| LoginRuns.InterleavedLogin | azugo/routes.go:98-107 | whatever other requests, ticks and reloads fall between its steps, a login that has taken a nonce ends as the clock and the trusted sets at its own four steps say |
| LoginRuns.UninterruptedLogin | azugo/routes.go:86-136 | login without interruption answers NotFound, Expired or the validator's answer for the session's live nonce, and the nonce is gone |
| LoginRuns.UninterruptedChallenge | nonce.go:37-50 | a challenge makes its nonce the only live one of its session and sweeps exactly the expired ones |
| LoginRuns.TwoSets | validator.go:77-90 | with a reload between the readings, a login is accepted although the validator refuses it under either set alone |
| LoginRuns.TwoSetsExist | validator.go:77-90 | such a run from the initial state, at a concrete configuration, token and pair of sets |
| SessionIsolation.Isolated | azugo/routes.go:68-107 | in every run, deleting the requests of all other sessions leaves each request of a session with the same acceptance and the same data |
| SessionIsolation.IsolatedExactly | store_memory.go:34-57 | over the in-memory store that holds in every run exactly when login's lifetime is no longer than the store's |
| SessionIsolation.AlikeRun | store_memory.go:47-73 | after every run a session sees the same clock, trusted set, live nonce and requests as if it were alone |
| NonceStore.ExpiredMonotone | store.go:31-33 | an expired nonce stays expired, also for shorter lifetimes, through saturating subtraction |
| NonceStore.InMemoryStore.constructor | store_memory.go:34-44 | a non-positive lifetime becomes five minutes; the store starts empty |
| NonceStore.InMemoryStore.SweepLocked | store_memory.go:76-83 | exactly the unexpired entries remain, whatever the iteration order |
| NonceStore.InMemoryStore.Put | store_memory.go:47-57 | the map becomes the unexpired entries with the session's entry replaced; a session error changes nothing |
| NonceStore.InMemoryStore.GetAndRemove | store_memory.go:60-73 | the session's nonce is returned and removed, or reported as not found |
| NonceStore.RedisClient.Set | redisstore/store.go:31-37 | the value is stored with its deadline, replacing what was there |
| NonceStore.RedisClient.GetDel | redisstore/store.go:31-37 | the value is returned and deleted in one step, or reported absent |
| NonceStore.RedisStore.Put | redisstore/store.go:112-125 | the session's key holds the encoded nonce until now plus the lifetime and no other key changes; the session's or the server's error is returned, and then nothing changes |
| NonceStore.RedisStore.GetAndRemove | redisstore/store.go:130-150 | the nonce the key encodes exactly when the server answers, the key is there and readable, and its payload decodes; not found in every other case; the key is gone once the server has answered |
| Handler.Handler.Challenge | azugo/routes.go:68-75 | the returned value is the stored nonce, stamped before it is put; a failure to generate or the store's error is returned in that order, and then the store is unchanged |
| Handler.Handler.Login | azugo/routes.go:86-107 | the nonce is spent before the token is looked at; the answer is the store's error, Expired or Validate's |
| Handler.Handler.ReloadTrust | azugo/handler.go:197-206 | the set is replaced and counted, or on any error stays as it was |
| Handler.VerdictIsOutcome | azugo/routes.go:98-107 | the protocol's verdict at given readings of the clock and the trusted set is login's answer |
| Handler.ReloadTie | azugo/handler.go:197-206 | the protocol's Reload leaves the set the trust store's Reload leaves, and changes nothing exactly for an empty list |
| Handler.MemoryPutTie | store_memory.go:47-57 | the protocol's Put does to the map what the object's Put does |
| Handler.MemoryTakeTie | store_memory.go:60-73 | the protocol's Take does to the map what the object's GetAndRemove does |
| Handler.RedisStoreTie | redisstore/store.go:112-150 | the protocol's Put and Take do to the keys what SET and GETDEL do |
| Certificates.HasExtKeyUsage | certificate/checks.go:76-83 | true exactly for a certificate that lists the usage or the any-usage wildcard |
| Certificates.CheckKeyUsageForAuthentication | certificate/checks.go:52-60 | success exactly with the digital-signature bit and a client-authentication or any usage |
| Certificates.ExtractPolicies | certificate/checks.go:107-123 | the policies of the first Certificate Policies extension, none without one, an error if it cannot be read |
| Certificates.CheckDisallowedPolicies | certificate/checks.go:87-103 | success exactly when nothing is disallowed or the readable policies avoid the list |
| Certificates.NewTrustSnapshot | certificate/trust.go:123-129 | the pool is exactly the set of listed certificates |
| Certificates.TrustStore.NewTrustStore | certificate/trust.go:135-142 | refused exactly for an empty list |
| Certificates.TrustStore.Reload | certificate/trust.go:157-163 | the whole set is swapped; an empty list is refused and changes nothing |
| Certificates.TrustStore.IssuerOf | certificate/trust.go:170-177 | the first listed authority that signed the certificate, none exactly when none did |
| Certificates.TrustStore.Verify | certificate/trust.go:182-197 | the chain check against the current pool, for any usage when none is asked |
| Validator.VerifySignature | validator.go:104-136 | success exactly when the value verifies over hash(origin) followed by hash(nonce) for some configured origin; unsupported algorithm and undecodable signature are reported first, in that order |
| Validator.SignatureCheckExactly | validator.go:104-136 | for each of the nine names: a parse error for an undecodable value, success exactly for a genuine one at some origin, and invalid otherwise |
| Validator.CurveSignatureExactly | validator.go:118-133 | on a curve, success exactly when the value encodes a pair that ECDSA accepts for the hash of the two hashes, origin first |
| Validator.RsaSignatureExactly | validator.go:118-133 | on an RSA key, PSS for the PS names and PKCS #1 v1.5 for the others, over the same digest |
| Validator.Validate | validator.go:45-100 | computes the outcome function from two readings of the trusted set |
| Validator.ValidateExactly | validator.go:45-100 | success exactly when every check holds, otherwise the error of the first failing check |
| Validator.OriginsAsSet | validator.go:125-133 | permuting or repeating origins never changes the outcome |
| Signature.SplitJoinP1363 | signature/verify.go:97-105 | splitting inverts joining for every pair that fits, on every curve size |
| Signature.JoinSplitP1363 | signature/verify.go:97-105 | a signature splits exactly when it is the encoding of some pair, and then it is the encoding of its split |
| Signature.CurveValuesFit | signature/verify.go:97-105 | every value below two to the bit size fits, 521 bits included |
| Signature.HashForExactly | signature/verify.go:25-29 | the hash of each of the nine names, and no other name is supported |
| Signature.TokenVerifierExactly | signature/verify.go:51-90 | by key and family: PS names are RSA-PSS, other names PKCS #1 v1.5 on RSA keys, ECDSA over the encoded pair on a curve, each with the hash the name ends in |
| Signature.ValueVerifierAccepts | signing/verify.go:43-87 | on a digest of the named hash's size, accepted exactly when the key's own scheme accepts it: the split pair on a curve, PSS or PKCS #1 v1.5 by the padding named |
| Signature.ValueVerifierRsa | signing/verify.go:62-82 | on an RSA key, the hash its name spells in either case, a digest of that hash's length, and PSS exactly when the padding scheme spells it; each refusal by its reason |
| Signature.ValueVerifierOther | signing/verify.go:43-87 | missing input first; on a curve the length and then the encoded pair; an unknown hash name or another kind of key is refused |
| Signature.VerifiersAgree | signing/verify.go:43-87 | given the digest of the signed data, a card entry that spells the hash of the JWA name and names PSS exactly for the PS family, both verifiers accept the same signatures |
| Assertion.IssueThenVerify | assertion/assertion.go:179-240 | verifying an issued token yields the issuer and audience, the subject's five fields, the id and both times in whole seconds, each in its own claim, or the verdict of the time checks on them, whatever other keys the set holds |
| Assertion.IssueExactly | assertion/assertion.go:179-203 | a missing national id is refused first and a failing id generator second; otherwise the claims signed are written out field by field |
| Assertion.SignedExactly | assertion/assertion.go:220-240 | signing fails exactly when the signer does; the three parts are the ES256 header, the claims and both integers at full width, signed over the SHA-256 of the first two |
| Assertion.VerifyFirstFailure | assertion/assertion.go:425-481 | every answer of Verify on the token's own parts: the error of the first failing check in order, down to the two time checks |
| Assertion.VerifyExactly | assertion/assertion.go:425-481 | a string is accepted with given claims exactly when it has two dots, the signature holds over everything before the last, and those bytes decode to the claims, which pass the remaining checks |
| Assertion.SameSignedPartSameClaims | assertion/assertion.go:425-465 | accepted tokens that agree up to the last dot yield equal claims |
| Assertion.TimeWindow | assertion/assertion.go:187-193 | with truncated timestamps, accepted from t-L to t+T+L-1s, refused after t+T+L and from t-L-1s back; on whole seconds the window is exactly t-L to t+T+L |
| Assertion.IssuedWindow | assertion/assertion.go:187-193 | the same of an issued token: accepted inside the window and refused as expired or not yet valid outside it |
| Assertion.Sign | assertion/assertion.go:220-240 | the token is the signing input, a dot and the encoded fixed-width integers |
| Assertion.SignatureBytes | assertion/assertion.go:235-238 | the buffer filled in place holds both integers, each in its half |
| Assertion.SignatureRoundTrip | assertion/assertion.go:447-453 | decoding the encoded signature returns both integers |
| Bytes.FillBytes | assertion/assertion.go:236-238 | only the slice changes and holds the integer at full width |
| Base64Url.DecodeEncode | assertion/assertion.go:484 | decoding inverts encoding for every byte string and no encoding holds a dot |
| Base64Url.EncodeDecode | assertion/assertion.go:431-460 | encoding inverts decoding exactly for strings without newlines whose unused trailing bits are zero |
| Base64Url.DecodesExactly | assertion/assertion.go:431-460 | the digits decode exactly when their number is not one past a multiple of four |
| Base64Url.EncodedBits | assertion/assertion.go:484 | the digits of an encoding hold the bits of the bytes in order, six at a time, filled up with zero bits |
| Base64Url.DecodedBits | assertion/assertion.go:431-460 | the decoded bytes hold the bits of the digits in order, and what is left over is dropped |
| Base64Url.AlphabetExactly | assertion/assertion.go:484 | the 64 characters in their order; no other character is a digit |
| Base64Url.DecodesStrings | assertion/assertion.go:431-460 | a string without newlines decodes exactly when all its characters are of the alphabet and their number is not one past a multiple of four |
| Base64Url.NewlinesIgnored | assertion/assertion.go:431-460 | a carriage return or line feed anywhere changes nothing |
| KeySets.KeySet.Add | assertion/assertion.go:251-255 | the key is registered under its id; an empty id changes nothing |
| KeySets.KeySet.JWKS | assertion/assertion.go:279-289 | in whatever order, each key is published once, with full-width coordinates and the EC, P-256, sig and ES256 labels; an error exactly when a key is not on its curve |
| KeySets.KeySet.FromJWKS | assertion/assertion.go:302-327 | the keys of the P-256 entries, later ones replacing earlier; refused exactly when the document or one such entry is bad |
| KeySets.RefusedExactly | assertion/assertion.go:302-327 | a document is refused exactly when some EC P-256 entry has a coordinate that does not decode or is longer than 32 bytes, or a point off the curve |
| KeySets.KeysOfExactly | assertion/assertion.go:302-327 | the ids bound are exactly the non-empty ones of P-256 entries, each to the point of the last entry that bears it |
| KeySets.OtherKindsIgnored | assertion/assertion.go:309-311 | an entry of another kind, wherever it stands, changes nothing |
| KeySets.P256PublicKey | assertion/assertion.go:340-352 | the key of the integers the coordinates denote, whatever leading zeros are missing; both copies land in their own slots |
| KeySets.StrippedCoordinates | assertion/assertion.go:336-351 | stripping leading zero bytes from published coordinates keeps the key |
| KeySets.JwksRoundTrip | assertion/assertion.go:279-327 | reading back a published set, in any order, gives the same map exactly when every key is on P-256 |
| KeySets.LargerCurveRefused | assertion/assertion.go:354-369 | one published key of a larger curve makes the whole set unreadable |
| KeySets.IssuePublishVerify | assertion/assertion.go:205-217 | an assertion verifies against the published and re-read set of its issuer |
| GoTime.SubExceeds | store.go:31-33 | comparing a saturated difference is exact unless the bound is the largest duration |
| Ocsp.NewChecker | ocsp/checker.go:62-80 | each positive duration is kept and each other one becomes its default, so every duration of a checker is positive |
| Ocsp.FreshnessExactly | ocsp/checker.go:218-230 | every answer of the freshness check in plain integers, by the first limit passed, overflow of the age limit included |
| Ocsp.FreshnessInterval | ocsp/checker.go:218-230 | the accepting instants are one closed interval, for every configuration, overflow included |
| Ocsp.ExactAge | ocsp/checker.go:226 | the age check is the exact integer comparison while the sum stays below the largest duration |
| Ocsp.WiderAcceptsMore | ocsp/checker.go:218-230 | wider bounds accept everything narrower ones accept exactly when their sum does not overflow |
| Ocsp.CheckExactly | ocsp/checker.go:108-130 | a definite answer comes exactly from a fresh response of known status that echoes no different nonce; success exactly when it is good |
| Negotiation.NewSigner | signing/signer.go:48-68 | accepted exactly for a non-empty list of recognised names |
| Negotiation.IsSupportedHashFunction | signing/hash.go:25-32 | true exactly for the listed names |
| Negotiation.SelectHashFunction | signing/hash.go:39-50 | the earliest preferred hash the card offers, none exactly when none is offered |
| Negotiation.PickAlgorithmForHash | signing/signer.go:131-138 | the earliest card entry with that hash, or a made-up entry when there is none |
| Negotiation.Negotiate | signing/signer.go:102-108 | the earliest offered preference with its earliest card entry; fails exactly when none is offered; the made-up entry is unreachable |
| Negotiation.SpellingsExactly | signing/hash.go:39-50 | a card offers a recognised name exactly by spelling it in any mix of cases, with the long s for its S at most, and both comparisons see it so |
| Negotiation.ComparisonsAgreeExactly | signing/signer.go:131-138 | upper-casing and case folding agree on an ASCII name, against every offered name, exactly when it holds no K and no I of either case; the Kelvin sign and the dotless i tell them apart |
| Oid.ParseOID | certificate/policy.go:70-84 | the OID the string denotes |
| Oid.DenotesExactly | certificate/policy.go:70-84 | accepted exactly when, outer white space aside, the string is two or more numerals for the components, separated by dots |
| Oid.ParsePrint | certificate/policy.go:70-84 | parsing inverts printing for every OID of two or more int components |
| Oid.SpacedPrint | certificate/policy.go:71 | outer white space does not matter |
| Text.TrimSpaceExactly | certificate/policy.go:71 | trimming drops exactly the outer white space |
| Oid.ParsePrintParse | certificate/policy.go:70-84 | every accepted spelling reaches one canonical spelling, the same for two spellings exactly when they denote the same OID |
| Oid.TolerantComponent | certificate/policy.go:77-81 | a plus sign and leading zeros keep a component's value; a minus sign negates it |

## Left out

- HTTP and framework code, cookies, sessions, request bodies, response writing and configuration.
- `/auth/validate` and `/sign/finalize`: the first keeps no state, the second is a chain of early returns.
- X.509, PEM, DER and ASN.1 parsing, chain building, and OCSP request and response bytes: functions of the environment.
- The internals of ECDSA, RSA, SHA-2 and curve membership: functions of the environment with named hypotheses.
- JSON and RFC 3339 text: a round-trip hypothesis. Strings are sequences of Unicode characters, so invalid UTF-8, which JSON would replace, does not occur.
- Aliasing of nonces, keys and certificate slices: they are values.
- Overflow of time.Time itself, reachable only hundreds of years away from the present or with a signed claim of that size.
- The choice of OCSP responder and whether a nonce is sent: one lookup each in a configured list (designated responder, allowed URLs, responder URLs without nonce support), before the exchange that is modelled.
- Token parsing and origin normalisation: field presence checks and URL trimming ahead of validation.
- Subject fields and the person-binding check: string getters on the subject name and one comparison of two of them.
- Nonce size: a lower bound on a configured length. ParseOIDs: ParseOID on each list element.
- Accepted-policy check: the same nested search as the disallowed-policy check, with the answer reversed.
- Loading of trust material: reading certificate files from a directory; a reload takes the certificates read.
- Negotiation.Negotiate: only the hash and algorithm choice of PrepareSigning; its certificate checks are those of the validator.
- Negotiation.ComparisonsAgreeExactly: a preferred name outside ASCII, which NewSigner refuses, is not covered; case mapping is modelled where its result is ASCII.
- NonceStore.RedisClient.GetDel: a server that fails to answer leaves the key in place; a lost reply to a completed deletion is not modelled.
- LoginProtocol.Reachable: store and randomness failures do not occur in the interleaved runs; they are covered one call at a time by the handler and store objects.
