# Verified model of the Lotus P2P coordination library

The library coordinates peers that sign together with MuSig2: it finds them (discovery over a
cache of advertisements), joins them in sessions, elects a coordinator and its backups, carries
nonces and signatures over the wire, and protects all of it with replay windows, rate limits,
bans and bounded queues. This project models the components that keep state or define formats,
and proves what they promise over whole runs.

| file | models |
|---|---|
| `Sorting.dfy` | stable sorting, the element ranks it produces, dictionary order, pigeonhole |
| `Outcomes.dfy` | optional values and thrown errors |
| `Replay.dfy` | MuSig2 replay protection: freshness window, bounded id table, sequence numbers |
| `DiscoverySecurity.dfy` | replay, rate limit and reputation of discovery advertisements |
| `Election.dfy` | coordinator election, proofs, backup rules, the priority list |
| `Failover.dfy` | election at session creation and the broadcast timeout |
| `Hex.dfy`, `Codecs.dfy`, `Nonces.dfy` | wire codecs and the validators that go with them |
| `DhtQueue.dfy` | the queue of announcements waiting for the DHT |
| `DhtAwaits.dfy`, `DhtReplies.dfy`, `DhtTries.dfy` | its flushes taken apart at their awaits: conservation, replies that meet newer announcements, tries |
| `Security.dfy` | resource tracker, announcement limiter, peer bans |
| `SessionLock.dfy`, `SessionJoin.dfy`, `SessionReady.dfy`, `SessionComplete.dfy` | the session lock, join requests interleaved through it, how often a session is found ready, and whether a complete one is |
| `IndexNames.dfy`, `SessionPersistence.dfy` | property names of indices; session snapshots, their storage and expiry |
| `Bootstrap.dfy` | reconnection to bootstrap peers: dials, timers, backoff |
| `DiscoveryQuery.dfy` | the local discovery query and the cache behind it |

Classes whose methods change fields are classes here too. Each method is proved against a function
of the old state, and runs are sequences of such steps; the theorems about runs are lemmas over
those functions. Clocks, random draws, network replies and orders of arrival are inputs of the
events, so the theorems hold for all of them; clocks are nondecreasing where a lemma says so.
Empty texts and zero count as absent where the code tests for truth. A thrown error is a value.

## What the code does differently from what it says

- The session lock is described as mutual exclusion; it excludes callers exactly as long as nobody
  begins to wait behind a waiter, overtakes a waiter with `tryAcquire` or forces a release
  (`SessionLocks.ExactlyPoliteStepsAreSafe`), so with four signers or more SESSION_READY can be
  emitted twice (`SessionReady.ReadyOnceExactly`), and may never be if the coordinator's own key joins
  too (`SessionComplete.NoticedUnlessListenersThrowExactly`).
- Failover treats coordinator index 0 as missing election data: the default lexicographic method
  and the first-signer method never fail over (`Failover.ElectedZeroStays`).
- Lexicographic backups read the elected index, a place in the sorted list, as a place in the list
  as passed in (`Failover.ListHeadIsElectedKey`).
- `reconnectMaxDelay` caps the delay before jitter, not the delay (`Bootstrap.MaximumHoldsExactlyWithRoom`).
- A security score, documented as 0 to 100, is negative when the penalties exceed 100
  (`DiscoverySecurity.ScoreIsNegativeExactly`), which some verdicts of nearly every policy do
  (`DiscoverySecurity.SomeScoreIsNegativeExactly`).
- A reputation is cut at 100 after a success and at 0 after a failure, which keeps it in 0..100 exactly as
  long as no weight is negative: a success of negative weight can lower it below 0, such a failure lift
  it beyond 100 (`DiscoverySecurity.ScoresStayInRangeExactly`).
- The reply to an announcement deletes whatever is queued under its key by then, also an announcement
  that was never called (`DhtReplies.RepliesTakeOffNewerExactly`, `DhtReplies.RenewedIsLost`).
- Hex of 2n + 1 digits passes a check for n bytes (`Codecs.ValidHexLengths`).
- An advertisement renewed under its id is not stored while the old one is cached
  (`DiscoveryQuery.RenewalsStayHidden`), and the signature check of a query decides nothing
  (`DiscoveryQuery.SignatureNeverDecides`); signatures are checked when messages come in.
- The replay table forgets ids when it is full, so a replay inside the freshness window can pass
  after a stated number of other messages (`Replay.CrowdingOutHappensExactly`); a message without an id or with
  timestamp 0 is not protected at all in the long run (`Replay.ExactlyTimedMessagesAreProtected`).
- A resource type that extends another past a colon breaks the two-index bookkeeping
  (`ResourceTracker.IndexesAgreeExactly`).

## Model

| member | source | states |
|---|---|---|
| `Replay.ReplayProtection.ValidateMessage` | lib/musig2/replay-protection.ts:116-166 | Verdict and new state are those of the checking function: freshness first, then the id, which is recorded before the sequence number is looked at. |
| `Replay.ReplayProtection.ValidateSequenceNumber` | lib/musig2/replay-protection.ts:171-198 | Accepts a number exactly when it exceeds the last one of that signer in that session, and then records it; a refusal leaves an empty record for an unknown session. |
| `Replay.ReplayProtection.RecordMessageId` | lib/musig2/replay-protection.ts:203-218 | A full table first loses its oldest tenth; the id is then stored with the present time. |
| `Replay.ReplayProtection.Cleanup` | lib/musig2/replay-protection.ts:244-254 | Drops exactly the ids recorded more than twice `maxMessageAge` ago, deleting while iterating. |
| `Replay.ReplayProtection.GetNextSequenceNumber` | lib/musig2/replay-protection.ts:224-232 | The number returned is the least that would be accepted next. |
| `Replay.ReplayProtection.ClearSession` | lib/musig2/replay-protection.ts:237-239 | Only the sequence record of the session goes. |
| `Replay.ReplayProtection.Clear` | lib/musig2/replay-protection.ts:259-262 | Both tables are emptied. |
| `Replay.EvictionTakesPrefix` | lib/musig2/replay-protection.ts:205-215 | On a table in time order the eviction sort moves nothing, so a full table loses a prefix of its insertion order. |
| `Replay.AgingTakesPrefix` | lib/musig2/replay-protection.ts:244-254 | Aging too removes a prefix, and exactly the rows that are too old. |
| `Replay.TableStep` | lib/musig2/replay-protection.ts:116-262 | Every call drops a prefix of the table and appends at most one row. |
| `Replay.RunIsSound` | lib/musig2/replay-protection.ts:116-262 | In every run with a nondecreasing clock the ids in the table differ and stand in time order. |
| `Replay.TableIsBounded` | lib/musig2/replay-protection.ts:203-218 | With `maxSeenMessages` >= 1 the table never exceeds it, in any run. |
| `Replay.ZeroLimitIsNoLimit` | lib/musig2/replay-protection.ts:205-215 | With a limit of 0 nothing is evicted: every recorded id makes the table grow. |
| `Replay.RowMoves` | lib/musig2/replay-protection.ts:203-254 | A row survives a call unless it aged out or a full table gave it up, and then enough newer rows stood behind it. |
| `Replay.EnteredIdsAreRemembered` | lib/musig2/replay-protection.ts:203-254 | Over any stretch of a run a recorded id is still in the table, or is older than twice the window, or was crowded out by later ids. |
| `Replay.AdmittedOnceUnlessCrowdedOut` | lib/musig2/replay-protection.ts:116-166 | If one timed message is recorded twice, a full table gave up rows in between and at least M - k + 1 other ids were recorded, k being the eviction batch. |
| `Replay.AcceptedAtMostOnce` | lib/musig2/replay-protection.ts:116-166 | While no full table gives up a row, a message with an id and a nonzero timestamp is accepted at most once in a whole run, across cleanups. |
| `Replay.EnoughCrowdsOut` | lib/musig2/replay-protection.ts:203-218 | For every table size there is a run without cleanups in which a timed message is accepted twice with any number of other ids from M - k + 1 on in between. |
| `Replay.RecordsAreCounted` | lib/musig2/replay-protection.ts:203-218 | The number of other ids in between counts the recording events, each once. |
| `Replay.CrowdingOutHappensExactly` | lib/musig2/replay-protection.ts:116-218 | Together: a timed message can be accepted twice with m other ids recorded in between if and only if M >= 1 and m >= M - k + 1, for every configuration; with a limit of 0 never. |
| `Replay.UntimedMessageIsAcceptedTwice` | lib/musig2/replay-protection.ts:125-133 | A message with timestamp 0 is accepted again once its id has aged out, for every configuration. |
| `Replay.ExactlyTimedMessagesAreProtected` | lib/musig2/replay-protection.ts:116-166 | Under every configuration: in runs in which no full table gives up a row, a message is never accepted twice without a clearing in between if and only if it has an id and a nonzero timestamp. |
| `Replay.AcceptedExactly` | lib/musig2/replay-protection.ts:116-254 | In every run in which no full table has given up a row: a message is accepted if and only if it has no timestamp or one within `maxMessageAge` of now on either side, no id or one that no earlier event recorded (since the last clearing, and not aged out in a cleanup), and, where numbers are checked, one above all accepted of its signer since the session was cleared. |
| `Replay.SequenceNumbersIncrease` | lib/musig2/replay-protection.ts:171-198 | The sequence numbers accepted from one signer in one session strictly increase over the run, until the session is cleared. |
| `DiscoverySecurity.DiscoverySecurityValidator.GetReputation` | lib/discovery/security.ts:211-227 | An unknown peer gets, and keeps, a record with score 75. |
| `DiscoverySecurity.DiscoverySecurityValidator.CheckReplayAttack` | lib/discovery/security.ts:473-487 | Refuses a creation time no later than the nonzero one remembered for the same peer and id; otherwise remembers the new one. |
| `DiscoverySecurity.DiscoverySecurityValidator.ValidateAdvertisement` | lib/discovery/security.ts:57-167 | Score, error and validity of every verdict: 100 less the penalties of the failed checks, 0 on a throw; the last failed check names the error; valid exactly when no check fails and the custom validators cost at most 50. The time is remembered even for an invalid advertisement. |
| `DiscoverySecurity.DiscoverySecurityValidator.CheckTimesAndSignature` | lib/discovery/security.ts:75-100 | Penalties and error of expiration, age and signature, the later check winning. |
| `DiscoverySecurity.DiscoverySecurityValidator.RunCustomValidators` | lib/discovery/security.ts:136-147 | Ten points for each that says no, fifteen for each that throws. |
| `DiscoverySecurity.DiscoverySecurityValidator.CheckPeer` | lib/discovery/security.ts:102-121 | Reputation and replay: their penalties and error, and what is remembered. |
| `DiscoverySecurity.CustomPenaltyCounts` | lib/discovery/security.ts:136-147 | Ten points for each custom validator that says no, fifteen for each that throws. |
| `DiscoverySecurity.ValidMeansUnfailedAndFifty` | lib/discovery/security.ts:149 | An advertisement fails no check exactly when no error is reported, and then is valid exactly when its score is at least 50. |
| `DiscoverySecurity.ScoreIsNegativeExactly` | lib/discovery/security.ts:57-167 | The score is negative if and only if nothing threw and the penalties exceed 100. |
| `DiscoverySecurity.NegativeScoreHappens` | lib/discovery/security.ts:57-167 | A concrete policy and every advertisement expired and too old for it: unsigned, mismatched and of low reputation it scores -70. |
| `DiscoverySecurity.LeastScore` | lib/discovery/security.ts:75-133 | The built-in penalties are at most 230, reached exactly when every check fails. |
| `DiscoverySecurity.SomeScoreIsNegativeExactly` | lib/discovery/security.ts:57-167 | For every policy: some run whose ratings have no negative weight has a verdict of negative score if and only if the policy checks signatures, replays or custom validators, or asks for a reputation above 0; expiration, age and criteria alone cost just 100. |
| `DiscoverySecurity.LoweredFails` | lib/discovery/security.ts:57-167 | With ratings of negative weight every policy has such a verdict. |
| `DiscoverySecurity.DiscoverySecurityValidator.CheckRateLimit` | lib/discovery/security.ts:232-258 | The answer and the new trackers are those of the specification functions. |
| `DiscoverySecurity.DiscoverySecurityValidator.UpdateReputation` | lib/discovery/security.ts:172-206 | Score moved and clamped, totals counted, history cut to its last hundred. |
| `DiscoverySecurity.DiscoverySecurityValidator.Cleanup` | lib/discovery/security.ts:567-595 | Each of the three tables loses exactly the entries past its own age. |
| `DiscoverySecurity.CreationTimeKept` | lib/discovery/security.ts:473-487 | After a valid verdict the creation time, or a later one, is remembered until seven days after it. |
| `DiscoverySecurity.SevenDaysCoverTheAge` | lib/discovery/security.ts:57-167 | With `maxAdvertisementAge` at most seven days the creation times judged valid for one peer and id strictly increase in every run, cleanups and invalid advertisements included. |
| `DiscoverySecurity.LongerAgeLetsReplayThrough` | lib/discovery/security.ts:580-587 | For every longer age there is a run in which the same advertisement is judged valid twice, after a cleanup, whatever reputation the policy asks for; up to 100 without negative weights. |
| `DiscoverySecurity.NoPreventionLetsReplayThrough` | lib/discovery/security.ts:113-120 | Without replay prevention there is one for every policy. |
| `DiscoverySecurity.ReplayPreventedExactlyWithinSevenDays` | lib/discovery/security.ts:57-167 | For every policy: no run accepts an advertisement again if and only if replays are looked for and the age limit is at most the seven days of the cleanup. |
| `DiscoverySecurity.ReplayPreventedWithoutNegativeWeights` | lib/discovery/security.ts:57-206 | In runs whose ratings have no negative weight that is so if and only if the former holds or the policy asks for a reputation above 100. |
| `DiscoverySecurity.RefusedExactlyWhenShadowed` | lib/discovery/security.ts:473-487 | An advertisement is refused as a replay if and only if one of the same peer and id with this creation time or a later one came before, forged or not, and no cleanup came more than seven days after that time. |
| `DiscoverySecurity.KeysAgreeExactly` | lib/discovery/security.ts:474 | Two advertisements have one key if and only if they name the same peer and id, or one peer id extends the other past a colon by what the other id begins with. |
| `DiscoverySecurity.ColonFreeKeysAreNames` | lib/discovery/security.ts:474 | For peer ids without a colon the key is the peer and the id. |
| `DiscoverySecurity.ReplayExactlyWhenBroughtBefore` | lib/discovery/security.ts:473-487 | By names: refused as a replay if and only if one of this peer and this id, created then or later, was brought before and not forgotten. |
| `DiscoverySecurity.ValidExactly` | lib/discovery/security.ts:57-167 | In every run: judged valid if and only if unexpired, within the age, signed where that is checked, of a peer at least as reputable as asked (75 if unknown), not brought before where that is checked, what was asked for, and with at most fifty points lost to custom validators. |
| `DiscoverySecurity.NamedReplayPreventedExactly` | lib/discovery/security.ts:57-167 | By names: no run accepts an advertisement of the same peer and id again, unless created later, if and only if replays are looked for and the age limit is at most the seven days of the cleanup. |
| `DiscoverySecurity.SweepingChangesNoAnswer` | lib/discovery/security.ts:589-594 | Every rate limit answer of a run, given by the trackers as they are, is the one given if no cleanup ever took place. |
| `DiscoverySecurity.RateKeyIsInjective` | lib/discovery/security.ts:239 | `peer:operation` names one peer and one operation, whatever the peer id contains. |
| `DiscoverySecurity.WindowsAccount` | lib/discovery/security.ts:232-258 | Over every prefix of a run, what was granted in an interval is bounded by the counters of the windows it meets. |
| `DiscoverySecurity.FewerThanTwiceTheLimitPerWindow` | lib/discovery/security.ts:232-258 | In any closed interval of one window length a peer is granted an operation at most 2·max - 1 times (none for max 0), whatever is swept when. |
| `DiscoverySecurity.RefusedOnlyWhenUsedUp` | lib/discovery/security.ts:232-258 | A request is refused only to a peer that was granted the whole limit within the last window length. |
| `DiscoverySecurity.TwiceTheLimitLessOneIsReached` | lib/discovery/security.ts:232-258 | That bound is met by some run, for every limit and every window of at least one tick. |
| `DiscoverySecurity.ScoresStayInRange` | lib/discovery/security.ts:172-206 | With nonnegative weights every score stays in 0..100 and every history within a hundred entries, in every run. |
| `DiscoverySecurity.ScoresStayInRangeExactly` | lib/discovery/security.ts:172-206 | For every set of ratings, as pairs of outcome and weight: in all runs with such ratings every score stays in 0..100 if and only if none has a negative weight, however small. |
| `DiscoverySecurity.RatingLastsExactly` | lib/discovery/security.ts:172-227 | What a rating left behind lasts until the next rating if no cleanup comes more than seven days later; otherwise the peer counts as new. |
| `DiscoverySecurity.RatingMovesScore` | lib/discovery/security.ts:182-188 | A success adds two points for each unit of weight, up to 100; a failure takes five, down to 0; an unknown peer is rated from 75. |
| `DiscoverySecurity.TotalsAddUp` | lib/discovery/security.ts:180-206 | As long as nothing is swept, successes and failures are what the ratings of the peer weigh together. |
| `DiscoverySecurity.HistoryIsRecent` | lib/discovery/security.ts:192-203 | The history ends with the latest rating and keeps the ninety-nine before it. |
| `DiscoverySecurity.RatedStaysInRangeExactly` | lib/discovery/security.ts:182-188 | One rating takes a score in range out of it exactly when a success of negative weight takes it below 0 or a failure of negative weight beyond 100. |
| `DiscoverySecurity.SuccessFallsBelowZero` | lib/discovery/security.ts:182-184 | A success of weight -50 takes a new peer to -25. |
| `DiscoverySecurity.FailureRisesBeyondHundred` | lib/discovery/security.ts:185-188 | A failure of weight -6 takes a new peer to 105. |
| `Election.SortedSignersAreSorted` | lib/musig2/election.ts:122-133 | The sorted list holds the same keys in byte order, although the sort carries positions along. |
| `Election.SortedSignersAgree` | lib/musig2/election.ts:122-133 | Any two orderings of the same signers give the same sorted list. |
| `Election.HexOrderIsByteOrder` | lib/musig2/election.ts:129-129 | Ordering keys by hex text, as backups do, and by bytes, as elections do, is the same order. |
| `Election.RankedIsRanking` | lib/musig2/election.ts:122-129 | The ranking is a sorted arrangement in which each position occurs once with its own key. |
| `Election.ElectCoordinator` | lib/musig2/election.ts:76-259 | Refuses the empty list only; otherwise, single signer or not, returns the election of the method. |
| `Election.IndexMappingIsBijection` | lib/musig2/election.ts:136-139 | `indexMapping` is defined on 0..n-1, maps no two positions to one, and `sortedSigners[indexMapping[i]] == signers[i]`. |
| `Election.ProofHashesSortedSigners` | lib/musig2/election.ts:267-273 | The proof, which sorts hex texts, hashes the keys in the order in which the election sorted them. |
| `Election.ElectionIgnoresOrder` | lib/musig2/election.ts:76-273 | Index, key, sorted list and proof depend only on the multiset of keys, for every method. |
| `Election.JoinSplits` | lib/musig2/election.ts:267-273 | Keys of one length can be recovered from their joined hex, so joining confuses no two lists. |
| `Election.SameSignersVerify` | lib/musig2/election.ts:285-298 | A result elected among the same signers in any order is accepted, whatever the hashes. |
| `Election.VerificationComparesSigners` | lib/musig2/election.ts:285-298 | With a collision-free hash and keys of one length a result is accepted if and only if both parties have the same multiset of signers. |
| `Election.AcceptedExactly` | lib/musig2/election.ts:285-298 | Of all results, honest or forged, a party accepts exactly those with the coordinator index and the proof of an election among its own signers in some order. |
| `Election.AcceptedMeansMySigners` | lib/musig2/election.ts:285-298 | With a collision-free hash and keys of one length, a result with the proof of any election is accepted if and only if that was among the same signers and the index is the one elected among them; no other index is. |
| `Election.JoinedHexIsHexOfBytes` | lib/musig2/election.ts:267-273 | The text that is hashed is the hex of the bytes of all keys, end to end. |
| `Election.WhoIsElected` | lib/musig2/election.ts:113-258 | The lexicographic and first-signer methods elect the smallest key, last-signer the largest, hash-based the one at the first word of the hash modulo the number of signers; the proof is the digest of all sorted keys. |
| `Election.HashDecides` | lib/musig2/election.ts:140-160 | With hash-based election each signer can be the one elected: the hash decides. |
| `Election.LexicographicBackup` | lib/musig2/election.ts:385-411 | The lexicographic backup is the cyclic successor in key order, in positions of the list as passed in. |
| `Election.TurnsFollowBackups` | lib/musig2/election.ts:357-459 | For all four rules the backup of the signer whose turn is i is the one whose turn is i + 1; the last has none or the first. |
| `Election.BackupAfterPrefix` | lib/musig2/election.ts:489-497 | The backup of the k-th entry of the priority list is the next entry and new, until all n are in; then the loop stops. |
| `Election.GetCoordinatorPriorityList` | lib/musig2/election.ts:482-500 | The `while (true)` loop terminates (measure n minus list length) and produces the closed form, for every nonempty list and method. |
| `Election.PriorityListIsPermutation` | lib/musig2/election.ts:482-500 | That list is a permutation of 0..n-1 and starts with the elected index. |
| `Failover.ElectedSession.constructor` | lib/musig2/coordinator.ts:431-446 | A session is created with the elected index, the configured method name and, with failover enabled, the priority list. |
| `Failover.ElectedSession.HandleBroadcastTimeout` | lib/musig2/coordinator.ts:1933-1979 | No election data (index 0 counts as none), failover exhausted, or one move to the backup; the index changes in the last case only. |
| `Failover.NamedCoordinator` | lib/musig2/coordinator.ts:1889-1902 | A session configured "last-signer" is coordinated by the largest key, "hash-based" by the one the hash picks, and by any other name by the smallest. |
| `Failover.NamedPriorityList` | lib/musig2/coordinator.ts:1889-1902 | By name: "first-signer" goes through the signers from the first, "last-signer" from the last, "hash-based" round from the one elected; any other begins with signer 0 and follows the lexicographic backups. |
| `Failover.FailoverFollowsPriorityList` | lib/musig2/coordinator.ts:1933-1979 | After k timeouts the coordinator is entry k of the priority list, or index 0 once that has been reached, where it stays. |
| `Failover.NoCoordinatorTwice` | lib/musig2/coordinator.ts:1933-1979 | No signer becomes coordinator a second time, and there are at most n - 1 changes. |
| `Failover.EverySignerIsTriedExactlyWhenZeroIsLast` | lib/musig2/coordinator.ts:1944-1961 | Failover reaches every signer if and only if index 0 is last in the priority list. |
| `Failover.WhenZeroIsLast` | lib/musig2/election.ts:357-500 | That is so exactly for the last-signer method, and for hash-based election when index 1 is elected. |
| `Failover.ElectedZeroStays` | lib/musig2/coordinator.ts:1944-1947 | With the lexicographic or first-signer method no timeout ever changes the coordinator. |
| `Failover.ListHeadIsElectedKey` | lib/musig2/election.ts:482-490 | The head of the lexicographic list, read as an original index, names the elected key exactly when the list as passed in starts with its smallest key. |
| `Failover.SortedSignersTakeTurnsInOrder` | lib/musig2/election.ts:385-500 | For signers passed in sorted order the two index spaces coincide and the list is 0, 1, .., n-1. |
| `Failover.OtherListsIgnoreOrder` | lib/musig2/election.ts:418-500 | For the other methods the priority list depends on the multiset of keys only. |
| `Hex.BytesSurviveHex` | lib/musig2/serialization.ts:30-41 | Bytes survive encoding; the text has two lower-case digits a byte. |
| `Hex.HexSurvivesBytes` | lib/musig2/serialization.ts:47-66 | Hex text survives decoding and encoding up to letter case, without an unpaired last digit. |
| `Hex.HexReadBackExactlyWhenEven` | lib/musig2/serialization.ts:47-66 | It comes back whole, up to case, if and only if its length is even. |
| `Hex.DigitsExactly` | lib/musig2/serialization.ts:47-66 | The hex digits are 0 to 9 and a to f in either case, each standing for its place. |
| `Codecs.NumberSurvivesBytes` | lib/musig2/serialization.ts:231-283 | A number below 256^n survives n big-endian bytes. |
| `Codecs.BytesSurviveNumber` | lib/musig2/serialization.ts:231-283 | n bytes give a number below 256^n and survive being read as one. |
| `Codecs.ValidHexLengths` | lib/musig2/validation.ts:195-220 | The length check accepts exactly the hex texts of 2n or 2n + 1 digits. |
| `Codecs.ValidHexReadBack` | lib/musig2/validation.ts:195-220 | What decoding and encoding again makes of an accepted text. |
| `Codecs.ScalarSurvivesWire` | lib/musig2/serialization.ts:231-283 | For 0 <= x < 2^256: `deserializeBN(serializeBN(x)) == x`, with exactly 64 lower-case digits, which the 32-byte share check accepts. |
| `Codecs.AcceptedScalarReadBack` | lib/musig2/validation.ts:457-478 | An accepted share decodes below 2^256, and is its own re-encoding exactly when it is 64 lower-case digits. |
| `Codecs.SignatureSurvivesWire` | lib/musig2/serialization.ts:439-524 | Exactly the 64-byte signatures are encoded; both halves are accepted and decoding gives the bytes back. |
| `Codecs.ValidatorAgreesWithDecoder` | lib/musig2/validation.ts:292-302 | The validator accepts exactly the signatures that decode, and re-encoding gives their lower-case spelling. |
| `Codecs.PointSurvivesWire` | lib/musig2/serialization.ts:30-98 | Points of the curve survive compressed form (sections 2.3.3 and 2.3.4 of SEC 1), which the nonce check accepts. |
| `Codecs.DecodedPointReadBack` | lib/musig2/serialization.ts:47-98 | Text that decodes is the 33-byte encoding of the point it gives, up to case and an unpaired digit. |
| `Codecs.PublicKeySurvivesWire` | lib/musig2/serialization.ts:292-358 | A key survives if and only if it is 33 or 65 bytes that the key constructor accepts. |
| `Codecs.MessageSurvivesWire` | lib/musig2/serialization.ts:367-422 | Every message survives, the empty one included. |
| `Codecs.NumbersAndMessagesExactly` | lib/musig2/serialization.ts:255-422 | Numbers are read from every nonempty text of hex digits and from no other, messages from the empty text too. |
| `Codecs.KeysExactly` | lib/musig2/serialization.ts:316-358 | Keys are read exactly from 66 or 130 hex digits, or one more that is ignored, whose bytes the key constructor accepts. |
| `Codecs.PointsExactly` | lib/musig2/serialization.ts:47-98 | Points are read exactly from 66 hex digits, or one more that is ignored, that begin with 02 for an even or 03 for an odd ordinate and go on with the abscissa of a point. |
| `Nonces.NumeralReadBack` | lib/musig2/serialization.ts:139-178 | `parseInt` reads back the decimal numeral of every number. |
| `Nonces.NumeralExactly` | lib/musig2/serialization.ts:139-178 | A text of digits is the numeral of its number if and only if it has no leading zero, so the keys are `r1`, `r2`, and so on. |
| `Nonces.NonceKeyReadBack` | lib/musig2/serialization.ts:139-178 | `r` and a numeral is matched by the key pattern and read back as its number. |
| `Nonces.SerializePublicNonces` | lib/musig2/serialization.ts:108-153 | Fewer than two points are refused; otherwise property `ri` holds the i-th point, in that order. |
| `Nonces.DeserializePublicNonces` | lib/musig2/serialization.ts:159-222 | Reads the points under the matching keys in numeric order, and fails exactly when one is missing or malformed or there are fewer than two. |
| `Nonces.ValidatePublicNonces` | lib/musig2/validation.ts:239-277 | The two loops with their early exits accept exactly what the declarative condition says. |
| `Nonces.SortedKeysAreTheMatches` | lib/musig2/serialization.ts:172-178 | The sorted keys are exactly the properties of the form r-digits. |
| `Nonces.KeysSorted` | lib/musig2/serialization.ts:172-178 | If these are r1..rn, numeric sorting puts them in that order for every n, ten and more included. |
| `Nonces.AcceptedKeysAreSequential` | lib/musig2/validation.ts:239-277 | An accepted object has exactly the keys r1..rn, n >= 2, each with 33 bytes of hex. |
| `Nonces.AcceptanceIsExact` | lib/musig2/validation.ts:239-277 | And the converse: accepted if and only if that is so. |
| `Nonces.AcceptedNoncesDecodeInOrder` | lib/musig2/serialization.ts:159-222 | Whatever is accepted and decodes has the point of `ri` at position i - 1. |
| `Nonces.NoncesSurviveWire` | lib/musig2/serialization.ts:108-222 | The encoding of any n >= 2 points, with its properties in any order, is accepted and decodes to the points. |
| `Nonces.EncoderOutputRoundTrips` | lib/musig2/serialization.ts:108-222 | `deserializePublicNonces(serializePublicNonces(ns)) == ns`, and the validator accepts the encoding. |
| `DhtQueue.DHTAnnouncementQueue.FindOldestKey` | lib/dht-queue.ts:350-362 | The first key with the smallest `queuedAt`, found in one pass. |
| `DhtQueue.DHTAnnouncementQueue.Enqueue` | lib/dht-queue.ts:111-143 | Refreshes a queued key in place; otherwise a full queue first gives up its oldest key, unless that is empty, and the item goes last. |
| `DhtQueue.DHTAnnouncementQueue.Remove` | lib/dht-queue.ts:260-262 | Removes the key and says whether it was there. |
| `DhtQueue.DHTAnnouncementQueue.CleanupExpired` | lib/dht-queue.ts:325-345 | Leaves exactly the unexpired items, in order. |
| `DhtQueue.DHTAnnouncementQueue.Clear` | lib/dht-queue.ts:267-269 | Nothing stays queued. |
| `DhtQueue.DHTAnnouncementQueue.Flush` | lib/dht-queue.ts:153-234 | The batched flush ends with the queue and the counts of handling the items one at a time; success and failed add up to the snapshot; the callback is called exactly once for each snapshot item, in order. The call on its own, without anything at its awaits. |
| `DhtQueue.DHTAnnouncementQueue.FlushBatch` | lib/dht-queue.ts:176-216 | A batch: its calls, its delivered items and its effect on the queue. |
| `DhtQueue.DHTAnnouncementQueue.MakeCalls` | lib/dht-queue.ts:176-185 | Up to the awaits: every try of the batch is counted and every call made, in order, before any reply. |
| `DhtQueue.DHTAnnouncementQueue.SettleReplies` | lib/dht-queue.ts:187-213 | The replies are handled in any order, with the same result. |
| `DhtQueue.DHTAnnouncementQueue.CountDelivered` | lib/dht-queue.ts:218-219 | How many items of the batch were delivered. |
| `DhtQueue.EachIsCalledOnce` | lib/dht-queue.ts:171-185 | The calls made are one for each queued key with its announcement, and none else. |
| `DhtQueue.DeliveredAreCounted` | lib/dht-queue.ts:218-219 | The number of successes is the number of queued announcements that the callback delivers. |
| `DhtQueue.Oldest` | lib/dht-queue.ts:350-362 | The place returned holds a minimal `queuedAt`, and the first such. |
| `DhtQueue.SettleReply` | lib/dht-queue.ts:187-213 | One reply, whenever it comes, deletes its item exactly when it was delivered or its tries are used up. |
| `DhtQueue.DeletingExpired` | lib/dht-queue.ts:325-345 | Collecting the expired keys and then deleting them one by one equals filtering. |
| `DhtQueue.FlushKeepsRetriable` | lib/dht-queue.ts:187-213 | An item is in the queue after a flush if and only if it was there with one try less, its try failed and tries are left. |
| `DhtQueue.RetriesDrainTheQueue` | lib/dht-queue.ts:153-234 | `maxRetries` flushes, at least one, empty the queue, whatever the replies of each. |
| `DhtQueue.RoomIsMadeExactly` | lib/dht-queue.ts:121-128 | A full queue stays within its bound on a new key exactly when the oldest key is not the empty text. |
| `DhtAwaits.EnqueueIsEnqueue` | lib/dht-queue.ts:111-143 | With entries as objects that flushes share with the queue, refreshing in place and queueing do to the list of entries what `enqueue` does. |
| `DhtAwaits.StepMoves` | lib/dht-queue.ts:111-345 | What each step does to the list of entries: the start of a batch only counts tries, and a reply deletes whatever then has the key of its call, if that was delivered or its tries are used up. |
| `DhtAwaits.KeysStayDistinct` | lib/dht-queue.ts:111-345 | No run queues a key twice, however calls and replies of any number of flushes, queueing, removal, expiry and clearing are interleaved. |
| `DhtAwaits.QueueIsBounded` | lib/dht-queue.ts:111-143 | With nonempty keys no such run exceeds `maxQueueSize` (or one, if that is less). |
| `DhtAwaits.ExpiryTakesExactly` | lib/dht-queue.ts:325-345 | Expiry takes an entry if and only if it has been queued for longer than `queueTTL`. |
| `DhtAwaits.StaysForItsTime` | lib/dht-queue.ts:111-345 | In every run what is queued stays queued for `queueTTL`, unless a reply, a removal, a clearing or an overflow takes its key off. |
| `DhtAwaits.KeysAreConserved` | lib/dht-queue.ts:111-345 | Key by key, over every such run: newly queued = pending + taken off by the reply of a delivered call + given up by that of a failed one + overflowed + expired + removed. A reply that finds its key gone counts for none. |
| `DhtReplies.EditionsNameEvents` | lib/dht-queue.ts:111-141 | What is queued, and what an open call carries, is what the event of its edition queued. |
| `DhtReplies.NewerExactlyWhenQueuedAgain` | lib/dht-queue.ts:171-213 | While a call is open, what is queued under its key differs from what the call carries if and only if the key was queued again: after the call, or between the start of the flush and the call when it had left the queue. |
| `DhtReplies.RepliesTakeOffNewerExactly` | lib/dht-queue.ts:187-213 | In every run a reply takes off an entry that its call did not carry if and only if it says delivered, or the tries are used up, and the key of the entry was queued again in that sense. |
| `DhtReplies.RenewedIsLost` | lib/dht-queue.ts:111-190 | It happens: an announcement renewed while the call of the old one is open leaves the queue with the reply to that, never called. |
| `DhtTries.TriesAreCallsInRuns` | lib/dht-queue.ts:176-190 | In every run the tries counted on an announcement are the calls made of it, one for each flush that reached it. |
| `DhtTries.AtMostABatchIsOpen` | lib/dht-queue.ts:173-216 | In every run a flush has at most `flushBatchSize` calls open, however long the queue it found. |
| `DhtTries.UsedUpOnlyWhileOpen` | lib/dht-queue.ts:187-213 | In every run an announcement whose tries are used up stays queued only while a call of it is open. |
| `DhtTries.UndisturbedFlush` | lib/dht-queue.ts:153-234 | A flush that nothing disturbs ends, whatever its batches and the order of the replies, with the queue that handling the entries one at a time gives. |
| `ResourceTracker.DHTResourceTracker.CanAnnounceResource` | lib/security.ts:99-146 | Granted exactly when neither cap stands in the way; both indexes then gain the resource, and a refusal changes nothing. |
| `ResourceTracker.DHTResourceTracker.TypeMap` | lib/security.ts:120-124 | The types of the peer, with an empty record created for a new peer. |
| `ResourceTracker.DHTResourceTracker.DeleteTyped` | lib/security.ts:168-180 | The nested index loses the id, the type if left empty, and the peer if left without types. |
| `ResourceTracker.DHTResourceTracker.RemoveResource` | lib/security.ts:151-181 | Both indexes lose the resource and any container left empty. |
| `ResourceTracker.KeysNameResourcesExactly` | lib/security.ts:104 | `type:id` names one resource if and only if no type in use extends another one past a colon. |
| `ResourceTracker.ColonFreeTypesAreUnambiguous` | lib/security.ts:104 | In particular when types contain no colon. |
| `ResourceTracker.IndexesAgree` | lib/security.ts:92-181 | In every reachable state the flat index is the nested one flattened, caps 100 and 20 hold and no container is empty. |
| `ResourceTracker.IndexesAgreeExactly` | lib/security.ts:92-181 | The indexes agree in every run if and only if the types in use are unambiguous. |
| `ResourceTracker.ClashDisagrees` | lib/security.ts:92-181 | For any two types that clash, announcing under both and removing one makes the indexes disagree. |
| `ResourceTracker.FlatSizeIsTotal` | lib/security.ts:186-196 | The size of the flattened index is the sum of the sizes by type. |
| `ResourceTracker.FlatSizeAgrees` | lib/security.ts:186-196 | So the flat count equals the sum of the counts by type in every reachable state. |
| `ResourceTracker.WithdrawUndoesAnnounce` | lib/security.ts:99-181 | Adding a new resource and removing it restores the state exactly. |
| `ResourceTracker.TrackerFollowsRules` | lib/security.ts:92-200 | The two indexes refine a plain set of resources: in every run with unambiguous types they hold exactly what the rules let the peer hold, which grant what is held already, and anything new below 100 resources and 20 of the type. |
| `ResourceTracker.FullExactly` | lib/security.ts:99-160 | A request is refused exactly when those rules refuse it. |
| `AnnouncementLimiter.DHTAnnouncementRateLimiter.CanAnnounce` | lib/security.ts:33-51 | Accepts a peer without a nonzero last time, or after the interval, and records the time and the count. |
| `AnnouncementLimiter.DHTAnnouncementRateLimiter.Cleanup` | lib/security.ts:71-81 | Forgets exactly the peers last accepted more than a day ago. |
| `AnnouncementLimiter.LastIsKept` | lib/security.ts:33-81 | The time of an acceptance, or a later one, is remembered for a day. |
| `AnnouncementLimiter.SpacedExactlyWithinADay` | lib/security.ts:33-81 | In every run, each call with its own interval, an announcement accepted with interval m comes m after any accepted before of the peer, if and only if m is at most a day and one millisecond. |
| `AnnouncementLimiter.AcceptedExactly` | lib/security.ts:33-81 | With an interval of at most a day and one millisecond an announcement is accepted if and only if all accepted before of the peer lie that long back. |
| `AnnouncementLimiter.CountsAddUp` | lib/security.ts:33-67 | As long as nothing is swept, the count of a peer is the number of its accepted announcements. |
| `PeerBans.CorePeerBanManager.BanPeer` | lib/security.ts:215-219 | Adds the peer to the blacklist and nobody else. |
| `PeerBans.CorePeerBanManager.TempBanPeer` | lib/security.ts:224-231 | The ban runs for the duration from now, replacing any other. |
| `PeerBans.CorePeerBanManager.WarnPeer` | lib/security.ts:236-252 | Counts the warning; from the fifth an hour is set, from the tenth the peer is blacklisted too. |
| `PeerBans.CorePeerBanManager.IsAllowed` | lib/security.ts:257-276 | Refuses the blacklisted and those whose ban runs; an expired ban is removed. |
| `PeerBans.CorePeerBanManager.UnbanPeer` | lib/security.ts:281-287 | All three records of the peer go, and nobody else's. |
| `PeerBans.TenWarningsBlacklist` | lib/security.ts:236-252 | The counter is the number of warnings since the last unban, and from ten on the peer is blacklisted. |
| `PeerBans.TenWarningsRefuseForGood` | lib/security.ts:236-276 | From its tenth warning a peer is refused at every time, whatever else happens, until unbanned. |
| `PeerBans.FiveWarningsRefuseForAnHour` | lib/security.ts:236-276 | Each warning from the fifth on refuses the peer for an hour, unless it is unbanned or a ban is set by hand. |
| `PeerBans.AllowedExactly` | lib/security.ts:218-290 | In every run a peer is allowed if and only if it was neither banned by hand nor warned ten times since it was last unbanned, and its last temporary ban is over: one set by hand, or the hour set by a fifth or later warning. |
| `PeerBans.AllowedIsCleared` | lib/security.ts:257-276 | A peer found allowed has no ban recorded any more, and nothing else is forgotten. |
| `SessionLocks.SessionLock.BeginAcquire` | lib/musig2/session-lock.ts:43-48 | What it finds to wait for is held by the caller it was made for and unresolved; if it finds nothing, nobody holds the lock as long as callers exclude one another. |
| `SessionLocks.SessionLock.FinishAcquire` | lib/musig2/session-lock.ts:50-58 | The rest of `acquire`, without a second look: the new promise replaces whatever is there. |
| `SessionLocks.SessionLock.TryAcquire` | lib/musig2/session-lock.ts:76-94 | Nothing when locked, else a lock. |
| `SessionLocks.SessionLock.Release` | lib/musig2/session-lock.ts:60-64 | Drops whatever lock the session has by now and resolves the caller's own promise. |
| `SessionLocks.SessionLock.ForceRelease` | lib/musig2/session-lock.ts:114-121 | Drops the current lock, if any, and resolves its promise. |
| `SessionLocks.SessionLock.IsLocked` | lib/musig2/session-lock.ts:102-104 | `true` means that somebody holds the lock, in every sound state; `false` that nobody does, as long as callers exclude one another. |
| `SessionLocks.StepKeepsSound` | lib/musig2/session-lock.ts:43-121 | The invariant kept by every step: both maps agree, locks in the table are unresolved and held by their owners, waiters wait for resolved or held promises. |
| `SessionLocks.RunIsSound` | lib/musig2/session-lock.ts:43-121 | It holds in every reachable state. |
| `SessionLocks.NoWakeUpIsLost` | lib/musig2/session-lock.ts:43-121 | A blocked `acquire` waits for a promise whose owner still holds it. |
| `SessionLocks.WorkGoesDown` | lib/musig2/session-lock.ts:43-65 | Each wake-up or release takes one from the work that is left. |
| `SessionLocks.SomeoneCanMove` | lib/musig2/session-lock.ts:43-65 | While anybody waits or holds, some wake-up or release is possible. |
| `SessionLocks.EveryoneIsServed` | lib/musig2/session-lock.ts:43-65 | Once no new calls come in, whatever the order: no schedule of wake-ups and releases is longer than the work there was, one that long leaves nobody waiting or holding, and a shorter one can go on. |
| `SessionLocks.PoliteStepKeepsExclusive` | lib/musig2/session-lock.ts:43-121 | Exclusion is kept by every step that does not begin an `acquire` behind a waiter, overtake a waiter with `tryAcquire`, or force a release. |
| `SessionLocks.PoliteCallersExcludeEachOther` | lib/musig2/session-lock.ts:43-104 | In runs of such steps there is at most one holder and `isLocked` says exactly whether there is one. |
| `SessionLocks.TryOnlyRunsArePolite` | lib/musig2/session-lock.ts:76-94 | Runs of `tryAcquire` with each release called once are such runs. |
| `SessionLocks.QueueingLosesExclusion` | lib/musig2/session-lock.ts:43-57 | An `acquire` begun behind a waiter can end, among polite callers, with two holders. |
| `SessionLocks.OvertakingLosesExclusion` | lib/musig2/session-lock.ts:76-94 | So can a `tryAcquire` that overtakes a waiter already woken. |
| `SessionLocks.ForcingLosesExclusion` | lib/musig2/session-lock.ts:114-121 | So can a forced release of a held lock. |
| `SessionLocks.ExactlyPoliteStepsAreSafe` | lib/musig2/session-lock.ts:43-121 | While exclusion holds, a step that changes anything leaves the lock safe in all polite continuations if and only if it is polite. |
| `SessionJoin.ParticipantsAreDistinct` | lib/musig2/coordinator.ts:1386-1536 | In every interleaving, whatever the lock does, participants have different signer indices and each key is the signer's at its index. |
| `SessionJoin.AsManyIndicesAsPeers` | lib/musig2/coordinator.ts:1485-1510 | There are as many indices as participants. |
| `SessionJoin.AllButMine` | lib/musig2/coordinator.ts:1529 | n - 1 different indices below n are all the others' exactly when the coordinator's is not among them. |
| `SessionJoin.ReadySets` | lib/musig2/coordinator.ts:1529-1534 | Each SESSION_READY was emitted in a state of the run with n - 1 participants. |
| `SessionJoin.ReadyMeansAllOthers` | lib/musig2/coordinator.ts:1386-1536 | At each SESSION_READY exactly all the others have joined, if and only if nobody joined under the coordinator's index; so always when its key is not used. |
| `SessionJoin.OneInside` | lib/musig2/coordinator.ts:1457 | In a courteous run two handlers past their `acquire` are the same handler. |
| `SessionJoin.ReadyAtMostOnce` | lib/musig2/coordinator.ts:1457-1534 | SESSION_READY is emitted at most once in each run in which no participant is removed and no request arrives while another waits for the lock. |
| `SessionReady.ReadyTwice` | lib/musig2/coordinator.ts:1457-1534 | Two handlers inside at once for the last two places both emit it. |
| `SessionReady.FewSignersReadyOnce` | lib/musig2/coordinator.ts:1386-1536 | With at most three signers, in every interleaving without removals, the session is found ready at most once, by the handler that completes it. |
| `SessionReady.NoCoordinatorNoHandler` | lib/musig2/coordinator.ts:1410-1421 | A peer that does not coordinate lets nobody in and never finds a session ready. |
| `SessionReady.FewKeysNeverReady` | lib/musig2/coordinator.ts:1529 | With fewer than n - 1 different keys a session is never complete. |
| `SessionReady.ReadyTwiceHappens` | lib/musig2/coordinator.ts:1386-1536 | For every other session there is a run without removals that emits SESSION_READY twice: n - 4 join in turn, then three requests come in at once. |
| `SessionReady.ReadyOnceExactly` | lib/musig2/coordinator.ts:1386-1536 | So: SESSION_READY is emitted at most once in every run without removals if and only if the peer does not coordinate, there are at most three signers, or fewer than n - 1 different keys. |
| `SessionComplete.CompleteIsNoticed` | lib/musig2/coordinator.ts:1457-1534 | In every run without removals and without a throwing listener, while exactly n - 1 participants (and at least one) have joined, SESSION_READY was emitted or a reply is still open that will emit it. |
| `SessionComplete.NeverMissedWithoutOwnKey` | lib/musig2/coordinator.ts:1386-1536 | In such a run, if nobody asks to join with the coordinator's key, no complete session goes unnoticed. |
| `SessionComplete.TwoSignersNoticed` | lib/musig2/coordinator.ts:1457-1534 | With two signers, whoever joins second finds that the first was noticed. |
| `SessionComplete.NoticedUnlessListenersThrowExactly` | lib/musig2/coordinator.ts:1386-1536 | In every run without removals and throwing listeners a session with n - 1 participants or more and no open reply was found ready, if and only if this peer does not coordinate, two signers share a key, or there are two signers or none. Otherwise the last two of n keys, the coordinator's own included, can get inside together, and both find n participants. |
| `SessionComplete.NeverMissedExactly` | lib/musig2/coordinator.ts:1386-1536 | If a listener can throw when a participant is announced, that holds if and only if this peer does not coordinate, there are fewer than n - 1 different keys, or no signers. |
| `SessionPersistence.Serialize` | lib/musig2/session-persistence.ts:180-230 | The three loops write a snapshot: every entry once, under its decimal index or its peer. |
| `SessionPersistence.SerializeNonces` | lib/musig2/session-persistence.ts:184-190 | Index i is written under its numeral as the encodings of its first two points; no other entry is written. |
| `SessionPersistence.SerializeSigs` | lib/musig2/session-persistence.ts:193-196 | Each partial signature is written under the numeral of its index as the hex encoding of its scalar; every index has an entry, and no other entry is written. |
| `SessionPersistence.SerializeParticipants` | lib/musig2/session-persistence.ts:199-209 | Every participant is listed with the peer it is stored under, and nobody else. |
| `SessionPersistence.Deserialize` | lib/musig2/session-persistence.ts:241-312 | Succeeds exactly when every part can be read, whatever the property names, and then holds what the snapshot says, entry by entry. |
| `SessionPersistence.DeserializeRecord` | lib/musig2/session-persistence.ts:264-278 | The loop over either record: one unreadable value fails the whole; otherwise each index parsed from some name holds the value of the last such name. |
| `SessionPersistence.ReadByName` | lib/musig2/session-persistence.ts:264-278 | If all names are those of indices, each index holds the value under its name, whatever the order of properties. |
| `IndexNames.NameReadBack` | lib/musig2/session-persistence.ts:186-266 | `parseInt` of the property name of any whole number, negative or not, or of NaN gives it back. |
| `SessionPersistence.KeysReadBack` | lib/musig2/session-persistence.ts:214-261 | The list of signers survives in order. |
| `SessionPersistence.ParticipantsReadBack` | lib/musig2/session-persistence.ts:199-291 | Exactly the listed peers come back, each with the data written of it and its storage key as peer id. |
| `SessionPersistence.SnapshotIsReadable` | lib/musig2/session-persistence.ts:180-312 | Every snapshot of a well-formed session can be read. |
| `SessionPersistence.SnapshotRestores` | lib/musig2/session-persistence.ts:180-312 | `deserialize(serialize(s))` gives back every persisted field, both index-keyed maps and the participants, each under the peer it was stored under, and two parts of each nonce. |
| `SessionPersistence.RoundTripIsExact` | lib/musig2/session-persistence.ts:180-312 | That is the session itself if and only if every participant is stored under its own `peerId` and every nonce has two parts. |
| `SessionPersistence.SessionPersistenceManager.Save` | lib/musig2/session-persistence.ts:319-322 | The snapshot is stored under the session id it carries; the others stay. |
| `SessionPersistence.SessionPersistenceManager.Load` | lib/musig2/session-persistence.ts:330-338 | Nothing for an unknown id; else the snapshot read back. |
| `SessionPersistence.SessionPersistenceManager.LoadActive` | lib/musig2/session-persistence.ts:355-362 | Fails exactly when an unexpired snapshot cannot be read; otherwise restores exactly the unexpired ones. |
| `SessionPersistence.SessionPersistenceManager.CleanupExpired` | lib/musig2/session-persistence.ts:395-407 | Leaves what is active at the last clock reading and nothing that is not at the first; at a fixed time exactly what `loadActive` returns; reports the number removed. |
| `SessionPersistence.SavedIsLoadedUntilExpiry` | lib/musig2/session-persistence.ts:319-388 | A saved session can be loaded, as it was, exactly until its last activity plus the expiry. |
| `Bootstrap.BootstrapManager.Start` | lib/bootstrap-manager.ts:112-150 | Ignored when started; else tracks every address anew and dials every tracked peer. |
| `Bootstrap.BootstrapManager.Stop` | lib/bootstrap-manager.ts:155-175 | Cancels the recorded timers and forgets all peers; dials already begun go on. |
| `Bootstrap.BootstrapManager.Connect` | lib/bootstrap-manager.ts:180-201 | Tracks the peer if it is new, and dials it, started or not. |
| `Bootstrap.BootstrapManager.Reconnect` | lib/bootstrap-manager.ts:206-228 | For a tracked peer: cancels its timer, resets its attempts, dials. |
| `Bootstrap.BootstrapManager.ConnectToAll` | lib/bootstrap-manager.ts:368-379 | Begins one dial for each tracked peer. |
| `Bootstrap.BootstrapManager.ConnectToPeer` | lib/bootstrap-manager.ts:384-400 | Begins a dial if the peer is tracked. |
| `Bootstrap.BootstrapManager.ClearTimer` | lib/bootstrap-manager.ts:218-222 | The pending timer of the peer, if any, is cancelled and forgotten. |
| `Bootstrap.BootstrapManager.ScheduleReconnect` | lib/bootstrap-manager.ts:488-542 | Nothing for an untracked or exhausted peer; else one attempt more and one timer in place of the old. |
| `Bootstrap.BootstrapManager.HandleConnect` | lib/bootstrap-manager.ts:419-452 | Cancels the timer, marks the peer connected, resets its attempts. |
| `Bootstrap.BootstrapManager.HandleDisconnect` | lib/bootstrap-manager.ts:457-483 | Marks the peer and, if started, schedules a reconnect. |
| `Bootstrap.BootstrapManager.FireTimer` | lib/bootstrap-manager.ts:533-539 | The record of the timer goes and the peer is dialled. |
| `Bootstrap.BootstrapManager.EndDial` | lib/bootstrap-manager.ts:400-413 | A successful dial connects; a failed one schedules, started or not. |
| `Bootstrap.BootstrapManager.PerformHealthCheck` | lib/bootstrap-manager.ts:556-582 | Each peer believed connected and found without a connection is treated as disconnected. |
| `Bootstrap.StepIsSound` | lib/bootstrap-manager.ts:112-582 | The invariant below is kept by each of the nine kinds of event. |
| `Bootstrap.RunIsSound` | lib/bootstrap-manager.ts:112-582 | In every run: live timers are exactly the recorded ones, one a peer; while started every tracked peer is connected, waiting, being dialled or out of attempts; attempts and delays keep their limits. |
| `Bootstrap.NobodyIsGivenUp` | lib/bootstrap-manager.ts:384-542 | Without an attempt limit (the default) no tracked peer is ever left alone while started. |
| `Bootstrap.StopIsFinal` | lib/bootstrap-manager.ts:155-175 | From a stop to the next start or connect no timer is created and no dial begins, however late dials fail. |
| `Bootstrap.EventIsWork` | lib/bootstrap-manager.ts:112-582 | An event that neither reaches the peer nor asks for it adds no work on it, and each dial or timer of it spends some. |
| `Bootstrap.RetriesRunOut` | lib/bootstrap-manager.ts:488-542 | With a limit, a peer that never answers and is not asked for is tried only so often, whatever happens with others: the dials and timers spent on it never exceed a bound given by its state. |
| `Bootstrap.FailuresBackOff` | lib/bootstrap-manager.ts:411-545 | Over runs: while a peer does not answer, the timer pending after k failures in a row has a delay within half the jitter of `reconnectBaseDelay` times 2^(k-1), cut at `reconnectMaxDelay`; attempts stop at the limit, and after each failure within it a timer is pending. |
| `Bootstrap.ConnectingBeginsAnew` | lib/bootstrap-manager.ts:418-545 | After the peer connects, the next loss is followed by a delay around the base delay, whatever failed before. |
| `Bootstrap.ReconnectingBeginsAnew` | lib/bootstrap-manager.ts:206-228 | Asked to reconnect, a tracked peer has no failures against it and no timer, and is being dialled. |
| `Bootstrap.AskingDials` | lib/bootstrap-manager.ts:112-201 | Starting tracks the peer of every address anew and dials each tracked peer once; connecting to a new peer tracks it under its address and dials it. |
| `Bootstrap.SeparatorFound` | lib/bootstrap-manager.ts:357-363 | What is read off an address follows a `/p2p/` and contains none; nothing is read where there is none. |
| `Bootstrap.PeerOfAddress` | lib/bootstrap-manager.ts:357-363 | An address with one place for `/p2p/` names the peer that follows it. |
| `Bootstrap.NoPeerExactly` | lib/bootstrap-manager.ts:357-363 | No peer is named exactly without a separator or with nothing after it. |
| `Bootstrap.BackoffDoubles` | lib/bootstrap-manager.ts:503-507 | The base delay starts at the configured one, doubles with each attempt and stops at the maximum. |
| `Bootstrap.BackoffIsMonotone` | lib/bootstrap-manager.ts:503-507 | It never decreases with attempts and never exceeds `reconnectMaxDelay`. |
| `Bootstrap.DelayNearBase` | lib/bootstrap-manager.ts:510-512 | The drawn delay is not negative and within half the jitter of the base delay. |
| `Bootstrap.MaximumHoldsExactlyWithRoom` | lib/bootstrap-manager.ts:503-512 | The drawn delay respects `reconnectMaxDelay` for every draw if and only if the base delay leaves room for half the jitter. |
| `DiscoveryQuery.DHTDiscoverer.Discover` | lib/discovery/dht-discoverer.ts:232-314 | Fails exactly when not started or over the rate limit. Otherwise, whatever happens to the live cache at the awaits, the result is the query of the entries visited, all of which were there or arrived, and among which is all the cache holds in the end; without expiry it is the query of the final cache, without interference that of the cache as it was, each answer accessed once. |
| `DiscoveryQuery.DHTDiscoverer.VisitNext` | lib/discovery/dht-discoverer.ts:256-290 | One turn of the loop over the live cache, with its await. |
| `DiscoveryQuery.DHTDiscoverer.Await` | lib/discovery/dht-discoverer.ts:281-282 | Whatever arrives, is accessed or expires during an await keeps the loop consistent. |
| `DiscoveryQuery.DHTDiscoverer.CountAccess` | lib/discovery/dht-discoverer.ts:286-287 | The access is counted on the entry visited if it is still cached. |
| `DiscoveryQuery.ChangeStaysUnderway` | lib/discovery/dht-discoverer.ts:931-1020 | Whatever changes, the first n entries of the cache are the visited ones still there, nothing comes from nowhere, and without expiry nothing moves. |
| `DiscoveryQuery.AnswersAlike` | lib/discovery/dht-discoverer.ts:256-290 | The answers depend on the advertisements visited, in order, and on nothing else. |
| `DiscoveryQuery.DHTDiscoverer.CheckRateLimits` | lib/discovery/dht-discoverer.ts:977-1004 | A hundred grants a window; a refusal changes nothing; nothing is counted with the cache disabled. |
| `DiscoveryQuery.HundredAreGranted` | lib/discovery/dht-discoverer.ts:977-1004 | Of the queries made within the window of the first exactly the first hundred are granted; one made later is granted again. |
| `DiscoveryQuery.DHTDiscoverer.AddToCache` | lib/discovery/dht-discoverer.ts:931-972 | A known id keeps its stored advertisement and is refreshed; a new one is appended. |
| `DiscoveryQuery.DHTDiscoverer.CleanupCache` | lib/discovery/dht-discoverer.ts:1009-1020 | Leaves, in order, exactly the entries refreshed in the last half hour. |
| `DiscoveryQuery.SignatureNeverDecides` | lib/discovery/dht-discoverer.ts:856-919 | Neither score nor signature check affects an answer: an advertisement passes exactly when unexpired and of reputation at least 50. |
| `DiscoveryQuery.AnswersExactly` | lib/discovery/dht-discoverer.ts:256-290 | The answers are exactly the entries that are first of their id in the protocol, valid, matching and secure. |
| `DiscoveryQuery.AskingMoreAnswersLess` | lib/discovery/dht-discoverer.ts:256-290 | Stricter criteria of the same protocol never add an answer, although duplicates are dropped before the criteria are looked at. |
| `DiscoveryQuery.MinimumUpToFiftyIsIdle` | lib/discovery/dht-discoverer.ts:812-884 | A minimum reputation of 50 or less changes no answer, since the security check asks for 50. |
| `DiscoveryQuery.IdsAreAnsweredOnce` | lib/discovery/dht-discoverer.ts:264-268 | No id is answered twice. |
| `DiscoveryQuery.ReturnedExactlyWhenFewAreBetter` | lib/discovery/dht-discoverer.ts:292-313 | An answer is returned if and only if fewer answers are better (by reputation, then accesses, then cache order) than may be returned, at the place that number says; a negative `maxResults` cuts that many off the end. |
| `DiscoveryQuery.ListIsTheTop` | lib/discovery/dht-discoverer.ts:292-313 | The list has the right length, holds answers only, is in order, and nothing omitted ranks higher than anything returned. |
| `DiscoveryQuery.ReturnedIsAsAsked` | lib/discovery/dht-discoverer.ts:256-313 | Whatever is returned is of the protocol, names a peer with addresses, is unexpired, has a reputation of at least 50 and of the minimum, lies within the radius if both places are known, and has every capability and every custom pair asked for. |
| `DiscoveryQuery.FirstAsAskedIsAnswered` | lib/discovery/dht-discoverer.ts:256-313 | Conversely the first advertisement of its id that is all this is an answer, and returned if there is no limit. |
| `DiscoveryQuery.BestComeFirst` | lib/discovery/dht-discoverer.ts:292-313 | The list is ordered by reputation and then by accesses, has all answers or as many as the limit, and omits nothing of higher rank. |
| `DiscoveryQuery.OwnAccessesDoNotReorder` | lib/discovery/dht-discoverer.ts:286-303 | With entries stored under their ids, the accesses a query counts do not affect its own order. |
| `DiscoveryQuery.AbsentIsNotCounted` | lib/discovery/dht-discoverer.ts:294-303 | Under an id that is not cached no accesses are counted. |
| `DiscoveryQuery.FirstAdvertisementStays` | lib/discovery/dht-discoverer.ts:931-957 | In every run, while the entry of an id is not dropped its first advertisement is the one stored. |
| `DiscoveryQuery.RenewalsStayHidden` | lib/discovery/dht-discoverer.ts:931-957 | So after that one has expired, queries answer nothing under the id, however often it is advertised anew. |
| `DiscoveryQuery.AddedIsStoredExactlyWhenNew` | lib/discovery/dht-discoverer.ts:935-957 | An added advertisement is the stored one if and only if its id was not cached with other content. |
| `DiscoveryQuery.AddedTwiceIsRefreshed` | lib/discovery/dht-discoverer.ts:935-957 | Added again under its id, an advertisement keeps its first content and time of entry; only its last time and its accesses change. |
| `Sorting.SortSorts` | lib/musig2/election.ts:129 | Sorting orders the elements and neither loses nor invents one. |
| `Sorting.SortKeepsSorted` | lib/musig2/replay-protection.ts:208-210 | A list already in order is left as it is, equals included. |
| `Sorting.SortRanks` | lib/discovery/dht-discoverer.ts:293-303 | Each element stands where the number of elements that precede it says: smaller ones, and equal ones that came earlier. |
| `Sorting.SortedIsUnique` | lib/musig2/election.ts:122-133 | Two sorted lists with the same elements are equal if only equals tie. |
| `Sorting.DictionaryExactly` | lib/musig2/election.ts:122-129 | In dictionary order a text comes first if and only if it is a beginning of the other or has the smaller code at the first difference. |

## Left out

- I/O: libp2p set-up, streams, GossipSub, DHT reads and writes, event emission other than
  SESSION_READY, logging, metrics, statistics getters, timer set-up.
- Cryptography: SHA-256, signatures, curve arithmetic and key parsing are parameters or
  uninterpreted functions; `xpi-ts` is not part of this model. `PublicKey.toString` is taken to be
  the lower-case hex of the key's buffer, and `localeCompare` on such text to be code order.
- Haversine distance and validators supplied by policy: any functions.
- JavaScript numbers: counts, times and indices are unbounded integers, delays,
  reputations and their weights reals; numerals in nonce keys beyond 2^53 are read exactly. `maxSeenMessages * 0.1` is rounded up
  to either of the two values floating point can give.
- Election.VerificationComparesSigners: assumes a hash without collisions and keys of one length, which the converse needs; `Election.SameSignersVerify` needs neither.
- `getBackupCoordinator` on the empty list and with an index outside the list; callers pass neither.
- Codecs.ScalarSurvivesWire: numbers of 2^256 and more, for which the big-number library fails or truncates, are not encoded.
- DhtQueue.DHTAnnouncementQueue.Flush: needs a batch size of at least one, since with zero the loop does not advance; nothing else happens at its awaits. `DhtAwaits` has the steps of flushes interleaved with each other and with queueing, removal, expiry and clearing, and `DhtTries.UndisturbedFlush` says that this method is the case in which nothing interferes.
- DhtAwaits: the entries are objects numbered in a list, so that a flush and the queue share them; the callback does not call the queue itself before its first await.
- DhtQueue: the field `lastAttempt`, which nothing reads.
- Replay.AcceptedAtMostOnce: requires that no full table gives up a row in between; `Replay.AdmittedOnceUnlessCrowdedOut` says what that costs.
- SessionJoin.ReadyAtMostOnce: a sufficient condition on one run; a run that breaks it may still emit the event once, depending on the order of wake-ups. `SessionReady.ReadyOnceExactly` says for which sessions every run does.
- SessionJoin: one session, whose id is not created again; `addParticipant` and the path of a message before its payload object; replies for requests refused before the lock.
- IndexNames.NameReadBack: whole numbers and NaN; fractions, and numbers that print with an exponent, are no signer indices.
- SessionPersistence.SessionPersistenceManager.CleanupExpired: no save is interleaved between its deletions; storage is the in-memory one, and the manager is the source's class of the same name as the module.
- SessionPersistence: snapshots hold no aggregated nonces or key contexts, as in the source, so recovery of a running session is not modelled.
- Bootstrap: the health check is an event that may come at any time, its interval is not modelled; a dial that succeeds comes with its connect event; the manager has been given its node; `lastConnected` and `lastDisconnected`, capabilities and peer lists.
- DiscoveryQuery.DHTDiscoverer.Discover: hits and misses are not counted; the field `source` and the external cache are left out.
- DiscoveryQuery.DHTDiscoverer.CheckRateLimits: the single call, and in `DiscoveryQuery.HundredAreGranted` one window; the bound over any interval proved for `checkRateLimit` in `DiscoverySecurity` has the same form.
- `CoreSecurityManager`, `MuSig2Discovery`, the advertiser, the generic protocol layer and the phases of a signing session: glue over the parts above or over code that is not part of this model.
