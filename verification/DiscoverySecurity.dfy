/** The discovery security validator: replayed advertisements, rate limits, reputation.

    Three maps that `Cleanup` prunes, each with its own age. What has to be shown is that
    pruning loses nothing the checks rely on. */
module DiscoverySecurity {

  const SEVEN_DAYS: int := 7 * 24 * 60 * 60 * 1000

  datatype Policy = Policy(
    minReputation: real,
    maxAdvertisementAge: int,
    enableSignatureVerification: bool,
    enableReplayPrevention: bool,
    enableRateLimiting: bool,
    maxAdvertisementsPerPeer: nat,
    maxDiscoveryQueriesPerPeer: nat,
    windowSizeMs: nat)

  datatype Advertisement = Advertisement(peerId: string, id: string, createdAt: int, expiresAt: int)

  datatype CriteriaCheck = NotAsked | Match | Mismatch | CriteriaThrow

  datatype CustomCheck = Pass | Fail | Throw

  /** What the signature check, the criteria and the custom validators say of an advertisement. */
  datatype Evidence = Evidence(signatureValid: bool, criteria: CriteriaCheck, custom: seq<CustomCheck>)

  datatype Reputation = Reputation(score: real, successes: real, failures: real, lastInteraction: int, history: seq<Interaction>)

  datatype Interaction = Interaction(timestamp: int, success: bool, weight: real)

  datatype Tracker = Tracker(count: nat, windowStart: int)

  datatype Operation = Advertise | Discover

  datatype Failure =
    | NoFailure | Expired | TooOld | InvalidSignature | ReputationTooLow | ReplayDetected | CriteriaMismatch
    | ValidationThrew

  datatype Verdict = Verdict(valid: bool, securityScore: int, error: Failure)

  datatype State = State(reputations: map<string, Reputation>, seen: map<string, int>, trackers: map<string, Tracker>)

  const EMPTY := State(map[], map[], map[])

  // ---------------------------------------------------------------- one call

  function AdKey(ad: Advertisement): string {
    ad.peerId + ":" + ad.id
  }

  function RateKey(peerId: string, op: Operation): string {
    peerId + ":" + (if op.Advertise? then "advertise" else "discover")
  }

  /** A peer never seen before starts at 75. */
  function ReputationOf(reputations: map<string, Reputation>, peerId: string, now: int): Reputation {
    if peerId in reputations then reputations[peerId] else Reputation(75.0, 0.0, 0.0, now, [])
  }

  /** A recorded time of 0 counts as no record. */
  predicate IsReplay(seen: map<string, int>, ad: Advertisement) {
    AdKey(ad) in seen && seen[AdKey(ad)] != 0 && ad.createdAt <= seen[AdKey(ad)]
  }

  function SeenAfter(p: Policy, seen: map<string, int>, ad: Advertisement): map<string, int> {
    if p.enableReplayPrevention && !IsReplay(seen, ad) then seen[AdKey(ad) := ad.createdAt] else seen
  }

  function CustomPenalty(custom: seq<CustomCheck>): nat {
    if custom == [] then 0
    else CustomPenalty(custom[..|custom| - 1]) +
         (match custom[|custom| - 1] case Pass => 0 case Fail => 10 case Throw => 15)
  }

  /** The advertisement meets every built-in check. */
  predicate Acceptable(p: Policy, s: State, now: int, ad: Advertisement, ev: Evidence) {
    && now < ad.expiresAt
    && now - ad.createdAt <= p.maxAdvertisementAge
    && (p.enableSignatureVerification ==> ev.signatureValid)
    && ReputationOf(s.reputations, ad.peerId, now).score >= p.minReputation
    && (p.enableReplayPrevention ==> !IsReplay(s.seen, ad))
    && ev.criteria in {NotAsked, Match}
  }

  function TimePenalty(p: Policy, now: int, ad: Advertisement): nat {
    (if ad.expiresAt <= now then 50 else 0) + (if now - ad.createdAt > p.maxAdvertisementAge then 30 else 0)
  }

  function SignaturePenalty(p: Policy, signatureValid: bool): nat {
    if p.enableSignatureVerification && !signatureValid then 40 else 0
  }

  /** What the built-in checks take off the score. */
  function CheckPenalty(p: Policy, s: State, now: int, ad: Advertisement, ev: Evidence): nat {
    TimePenalty(p, now, ad) + SignaturePenalty(p, ev.signatureValid)
    + (if ReputationOf(s.reputations, ad.peerId, now).score < p.minReputation then 30 else 0)
    + (if p.enableReplayPrevention && IsReplay(s.seen, ad) then 60 else 0)
    + (if ev.criteria.Mismatch? then 20 else 0)
  }

  function Cost(p: Policy, s: State, now: int, ad: Advertisement, ev: Evidence): nat {
    CheckPenalty(p, s, now, ad, ev) + CustomPenalty(ev.custom)
  }

  /** The score: 0 when the validation throws. */
  function Score(p: Policy, s: State, now: int, ad: Advertisement, ev: Evidence): int {
    if ev.criteria.CriteriaThrow? then 0 else 100 - Cost(p, s, now, ad, ev)
  }

  /** The error reported: of the checks that fail, the one made last. */
  function ErrorOf(p: Policy, s: State, now: int, ad: Advertisement, ev: Evidence): Failure {
    if ev.criteria.CriteriaThrow? then ValidationThrew
    else if ev.criteria.Mismatch? then CriteriaMismatch
    else if p.enableReplayPrevention && IsReplay(s.seen, ad) then ReplayDetected
    else if ReputationOf(s.reputations, ad.peerId, now).score < p.minReputation then ReputationTooLow
    else if p.enableSignatureVerification && !ev.signatureValid then InvalidSignature
    else if now - ad.createdAt > p.maxAdvertisementAge then TooOld
    else if ad.expiresAt <= now then Expired
    else NoFailure
  }

  function StateAfterValidation(p: Policy, s: State, now: int, ad: Advertisement): State {
    State(s.reputations[ad.peerId := ReputationOf(s.reputations, ad.peerId, now)], SeenAfter(p, s.seen, ad), s.trackers)
  }

  function Limit(p: Policy, op: Operation): nat {
    if op.Advertise? then p.maxAdvertisementsPerPeer else p.maxDiscoveryQueriesPerPeer
  }

  /** The window in force at `now`: the recorded one, or a new one when that has passed. */
  function Window(p: Policy, trackers: map<string, Tracker>, now: int, key: string): Tracker {
    if key in trackers && trackers[key].windowStart >= now - p.windowSizeMs then trackers[key] else Tracker(0, now)
  }

  predicate Grants(p: Policy, trackers: map<string, Tracker>, now: int, peerId: string, op: Operation) {
    !p.enableRateLimiting || Window(p, trackers, now, RateKey(peerId, op)).count < Limit(p, op)
  }

  function TrackersAfter(p: Policy, trackers: map<string, Tracker>, now: int, peerId: string,
                         op: Operation): map<string, Tracker> {
    var w := Window(p, trackers, now, RateKey(peerId, op));
    if !p.enableRateLimiting then trackers
    else trackers[RateKey(peerId, op) := if w.count < Limit(p, op) then Tracker(w.count + 1, w.windowStart) else w]
  }

  function SweepTrackers(p: Policy, trackers: map<string, Tracker>, now: int): map<string, Tracker> {
    map k | k in trackers && now - trackers[k].windowStart <= 2 * p.windowSizeMs :: trackers[k]
  }

  function SweepSeen(seen: map<string, int>, now: int): map<string, int> {
    map k | k in seen && now - seen[k] <= SEVEN_DAYS :: seen[k]
  }

  function SweepReputations(reputations: map<string, Reputation>, now: int): map<string, Reputation> {
    map k | k in reputations && now - reputations[k].lastInteraction <= SEVEN_DAYS :: reputations[k]
  }

  function Rated(r: Reputation, now: int, success: bool, weight: real): Reputation {
    var history := r.history + [Interaction(now, success, weight)];
    var recent := if |history| > 100 then history[|history| - 100..] else history;
    if success then
      Reputation(if r.score + weight * 2.0 < 100.0 then r.score + weight * 2.0 else 100.0, r.successes + weight, r.failures, now, recent)
    else
      Reputation(if r.score - weight * 5.0 > 0.0 then r.score - weight * 5.0 else 0.0, r.successes, r.failures + weight, now, recent)
  }

  // ---------------------------------------------------------------- the object

  class DiscoverySecurityValidator {
    const policy: Policy
    var reputationData: map<string, Reputation>
    var seenAdvertisements: map<string, int>
    var rateLimitTracker: map<string, Tracker>

    function Contents(): State
      reads this
    {
      State(reputationData, seenAdvertisements, rateLimitTracker)
    }

    constructor (p: Policy)
      ensures policy == p && Contents() == EMPTY
    {
      policy := p;
      reputationData, seenAdvertisements, rateLimitTracker := map[], map[], map[];
    }

    method GetReputation(peerId: string, now: int) returns (r: Reputation)
      modifies this`reputationData
      ensures r == ReputationOf(old(reputationData), peerId, now)
      ensures reputationData == old(reputationData)[peerId := r]
    {
      if peerId !in reputationData {
        reputationData := reputationData[peerId := Reputation(75.0, 0.0, 0.0, now, [])];
      }
      r := reputationData[peerId];
    }

    method CheckReplayAttack(ad: Advertisement) returns (replay: bool)
      modifies this`seenAdvertisements
      ensures replay == IsReplay(old(seenAdvertisements), ad)
      ensures seenAdvertisements == if replay then old(seenAdvertisements) else old(seenAdvertisements)[AdKey(ad) := ad.createdAt]
    {
      var key := AdKey(ad);
      if key in seenAdvertisements && seenAdvertisements[key] != 0 {
        if ad.createdAt <= seenAdvertisements[key] {
          return true;
        }
      }
      seenAdvertisements := seenAdvertisements[key := ad.createdAt];
      return false;
    }

    /** The verdict is valid exactly when every built-in check holds and the custom
        validators together cost no more than fifty points. The advertisement is
        remembered whether or not it is valid. */
    method ValidateAdvertisement(now: int, ad: Advertisement, ev: Evidence) returns (v: Verdict)
      modifies this
      ensures Contents() == StateAfterValidation(policy, old(Contents()), now, ad)
      ensures v.valid <==> Acceptable(policy, old(Contents()), now, ad, ev) && CustomPenalty(ev.custom) <= 50
      ensures v.error == ErrorOf(policy, old(Contents()), now, ad, ev)
      ensures v.securityScore == Score(policy, old(Contents()), now, ad, ev)
    {
      hide AdKey, IsReplay, ReputationOf, CustomPenalty, StateAfterValidation, SeenAfter;
      ghost var was := Contents();
      var valid, error, score := CheckTimesAndSignature(now, ad, ev.signatureValid);
      var late, cost := CheckPeer(now, ad);
      if late != NoFailure {
        valid, error, score := false, late, score - cost;
      }
      match ev.criteria {
        case NotAsked =>
        case Match =>
        case Mismatch =>
          valid, error, score := false, CriteriaMismatch, score - 20;
        case CriteriaThrow =>
          return Verdict(false, 0, ValidationThrew);
      }
      assert score == 100 - CheckPenalty(policy, was, now, ad, ev) && error == ErrorOf(policy, was, now, ad, ev);
      assert valid <==> Acceptable(policy, was, now, ad, ev);
      hide CheckPenalty, ErrorOf, Acceptable;
      score := RunCustomValidators(ev.custom, score);
      return Verdict(valid && score >= 50, score, error);
    }

    /** The checks that need no memory: expiration, age and signature. */
    method CheckTimesAndSignature(now: int, ad: Advertisement, signatureValid: bool)
      returns (valid: bool, error: Failure, score: int)
      ensures score == 100 - TimePenalty(policy, now, ad) - SignaturePenalty(policy, signatureValid)
      ensures error == if SignaturePenalty(policy, signatureValid) > 0 then InvalidSignature
                       else if now - ad.createdAt > policy.maxAdvertisementAge then TooOld
                       else if ad.expiresAt <= now then Expired
                       else NoFailure
      ensures valid <==> error == NoFailure
    {
      valid, error, score := true, NoFailure, 100;
      if ad.expiresAt <= now {
        valid, error, score := false, Expired, score - 50;
      }
      if now - ad.createdAt > policy.maxAdvertisementAge {
        valid, error, score := false, TooOld, score - 30;
      }
      if policy.enableSignatureVerification && !signatureValid {
        valid, error, score := false, InvalidSignature, score - 40;
      }
    }

    /** The checks that look at what is remembered, and remember: reputation and replay. */
    method CheckPeer(now: int, ad: Advertisement) returns (error: Failure, cost: nat)
      modifies this
      ensures Contents() == StateAfterValidation(policy, old(Contents()), now, ad)
      ensures var low := ReputationOf(old(reputationData), ad.peerId, now).score < policy.minReputation;
              var replay := policy.enableReplayPrevention && IsReplay(old(seenAdvertisements), ad);
              && cost == (if low then 30 else 0) + (if replay then 60 else 0)
              && error == if replay then ReplayDetected else if low then ReputationTooLow else NoFailure
    {
      error, cost := NoFailure, 0;
      var reputation := GetReputation(ad.peerId, now);
      if reputation.score < policy.minReputation {
        error, cost := ReputationTooLow, 30;
      }
      if policy.enableReplayPrevention {
        var replay := CheckReplayAttack(ad);
        if replay {
          error, cost := ReplayDetected, cost + 60;
        }
      }
    }

    /** The loop over the custom validators, from the score reached so far. */
    static method RunCustomValidators(custom: seq<CustomCheck>, before: int) returns (score: int)
      ensures score == before - CustomPenalty(custom)
    {
      score := before;
      for i := 0 to |custom|
        invariant score == before - CustomPenalty(custom[..i])
      {
        assert custom[..i + 1][..i] == custom[..i];
        match custom[i] {
          case Pass =>
          case Fail => score := score - 10;
          case Throw => score := score - 15;
        }
      }
      assert custom[..|custom|] == custom;
    }

    method CheckRateLimit(now: int, peerId: string, op: Operation) returns (granted: bool)
      modifies this`rateLimitTracker
      ensures granted == Grants(policy, old(rateLimitTracker), now, peerId, op)
      ensures rateLimitTracker == TrackersAfter(policy, old(rateLimitTracker), now, peerId, op)
    {
      if !policy.enableRateLimiting {
        return true;
      }
      var key := RateKey(peerId, op);
      if key !in rateLimitTracker || rateLimitTracker[key].windowStart < now - policy.windowSizeMs {
        rateLimitTracker := rateLimitTracker[key := Tracker(0, now)];
      }
      var tracker := rateLimitTracker[key];
      if tracker.count >= Limit(policy, op) {
        assert rateLimitTracker == old(rateLimitTracker)[key := tracker];
        return false;
      }
      rateLimitTracker := rateLimitTracker[key := Tracker(tracker.count + 1, tracker.windowStart)];
      return true;
    }

    method UpdateReputation(now: int, peerId: string, success: bool, weight: real)
      modifies this`reputationData
      ensures var rated := Rated(ReputationOf(old(reputationData), peerId, now), now, success, weight);
              reputationData == old(reputationData)[peerId := rated]
    {
      var r := GetReputation(peerId, now);
      if success {
        var raised := r.score + weight * 2.0;
        r := r.(successes := r.successes + weight, score := if raised < 100.0 then raised else 100.0);
      } else {
        var lowered := r.score - weight * 5.0;
        r := r.(failures := r.failures + weight, score := if lowered > 0.0 then lowered else 0.0);
      }
      r := r.(lastInteraction := now, history := r.history + [Interaction(now, success, weight)]);
      if |r.history| > 100 {
        r := r.(history := r.history[|r.history| - 100..]);
      }
      reputationData := reputationData[peerId := r];
    }

    method CleanupReputations(now: int)
      modifies this`reputationData
      ensures reputationData == SweepReputations(old(reputationData), now)
    {
      var peers := reputationData.Keys;
      while peers != {}
        invariant peers <= reputationData.Keys <= old(reputationData).Keys
        invariant forall k | k in reputationData :: reputationData[k] == old(reputationData)[k]
        invariant forall k | k in old(reputationData) && k !in peers ::
                    k in reputationData <==> now - old(reputationData)[k].lastInteraction <= SEVEN_DAYS
      {
        var k :| k in peers;
        if now - reputationData[k].lastInteraction > SEVEN_DAYS {
          reputationData := reputationData - {k};
        }
        peers := peers - {k};
      }
      assert reputationData == SweepReputations(old(reputationData), now);
    }

    method CleanupSeen(now: int)
      modifies this`seenAdvertisements
      ensures seenAdvertisements == SweepSeen(old(seenAdvertisements), now)
    {
      var keys := seenAdvertisements.Keys;
      while keys != {}
        invariant keys <= seenAdvertisements.Keys <= old(seenAdvertisements).Keys
        invariant forall k | k in seenAdvertisements :: seenAdvertisements[k] == old(seenAdvertisements)[k]
        invariant forall k | k in old(seenAdvertisements) && k !in keys ::
                    k in seenAdvertisements <==> now - old(seenAdvertisements)[k] <= SEVEN_DAYS
      {
        var k :| k in keys;
        if now - seenAdvertisements[k] > SEVEN_DAYS {
          seenAdvertisements := seenAdvertisements - {k};
        }
        keys := keys - {k};
      }
      assert seenAdvertisements == SweepSeen(old(seenAdvertisements), now);
    }

    method CleanupTrackers(now: int)
      modifies this`rateLimitTracker
      ensures rateLimitTracker == SweepTrackers(policy, old(rateLimitTracker), now)
    {
      var keys := rateLimitTracker.Keys;
      while keys != {}
        invariant keys <= rateLimitTracker.Keys <= old(rateLimitTracker).Keys
        invariant forall k | k in rateLimitTracker :: rateLimitTracker[k] == old(rateLimitTracker)[k]
        invariant forall k | k in old(rateLimitTracker) && k !in keys ::
                    k in rateLimitTracker <==> now - old(rateLimitTracker)[k].windowStart <= 2 * policy.windowSizeMs
      {
        var k :| k in keys;
        if now - rateLimitTracker[k].windowStart > policy.windowSizeMs * 2 {
          rateLimitTracker := rateLimitTracker - {k};
        }
        keys := keys - {k};
      }
      assert rateLimitTracker == SweepTrackers(policy, old(rateLimitTracker), now);
    }

    method Cleanup(now: int)
      modifies this
      ensures Contents() == State(SweepReputations(old(reputationData), now), SweepSeen(old(seenAdvertisements), now),
                                  SweepTrackers(policy, old(rateLimitTracker), now))
    {
      CleanupReputations(now);
      CleanupSeen(now);
      CleanupTrackers(now);
    }
  }

  // ---------------------------------------------------------------- the score

  /** The verdict can be read off score and error: valid means no failed check and fifty points. */
  lemma ValidMeansUnfailedAndFifty(p: Policy, s: State, now: int, ad: Advertisement, ev: Evidence)
    ensures Acceptable(p, s, now, ad, ev) <==> ErrorOf(p, s, now, ad, ev) == NoFailure
    ensures Acceptable(p, s, now, ad, ev) ==> (CustomPenalty(ev.custom) <= 50 <==> Score(p, s, now, ad, ev) >= 50)
    ensures Acceptable(p, s, now, ad, ev) <==> !ev.criteria.CriteriaThrow? && CheckPenalty(p, s, now, ad, ev) == 0
    ensures ev.criteria.CriteriaThrow? <==> ErrorOf(p, s, now, ad, ev) == ValidationThrew
    ensures ev.criteria.CriteriaThrow? ==> Score(p, s, now, ad, ev) == 0
  {
  }

  /** The score is at most 100, and negative exactly when nothing threw and the penalties exceed 100. */
  lemma ScoreIsNegativeExactly(p: Policy, s: State, now: int, ad: Advertisement, ev: Evidence)
    ensures Score(p, s, now, ad, ev) <= 100
    ensures Score(p, s, now, ad, ev) < 0 <==> !ev.criteria.CriteriaThrow? && Cost(p, s, now, ad, ev) > 100
  {
  }

  /** A new validator gives an advertisement that is expired, too old, unsigned, of too low a
      reputation and not what was asked for 70 points less than none. */
  lemma NegativeScoreHappens(ad: Advertisement, now: int)
    requires ad.expiresAt <= now && now - ad.createdAt > 10
    ensures var p, ev := Policy(80.0, 10, true, false, false, 0, 0, 0), Evidence(false, Mismatch, []);
            Score(p, EMPTY, now, ad, ev) == -70 && ErrorOf(p, EMPTY, now, ad, ev) == CriteriaMismatch
  {
    assert CustomPenalty([]) == 0;
  }

  /** The same advertisement, seen before at this or a later time and with replay prevention on, gets the
      least score there is without custom validators; these lower it further, without end. */
  lemma LeastScore(p: Policy, s: State, now: int, ad: Advertisement, ev: Evidence)
    ensures CheckPenalty(p, s, now, ad, ev) <= 230
    ensures CheckPenalty(p, s, now, ad, ev) == 230 <==>
              && ad.expiresAt <= now && now - ad.createdAt > p.maxAdvertisementAge
              && p.enableSignatureVerification && !ev.signatureValid
              && ReputationOf(s.reputations, ad.peerId, now).score < p.minReputation
              && p.enableReplayPrevention && IsReplay(s.seen, ad) && ev.criteria.Mismatch?
  {
  }

  // ---------------------------------------------------------------- whole runs

  datatype Event =
    | Validate(now: int, ad: Advertisement, ev: Evidence)
    | Request(now: int, peerId: string, op: Operation)
    | Rate(now: int, peerId: string, success: bool, weight: real)
    | Sweep(now: int)

  ghost predicate Clocked(run: seq<Event>) {
    forall i, j | 0 <= i < j < |run| :: run[i].now <= run[j].now
  }

  function Step(p: Policy, s: State, e: Event): State {
    match e
    case Validate(now, ad, _) => StateAfterValidation(p, s, now, ad)
    case Request(now, peerId, op) => s.(trackers := TrackersAfter(p, s.trackers, now, peerId, op))
    case Rate(now, peerId, success, weight) =>
      s.(reputations := s.reputations[peerId := Rated(ReputationOf(s.reputations, peerId, now), now, success, weight)])
    case Sweep(now) => State(SweepReputations(s.reputations, now), SweepSeen(s.seen, now), SweepTrackers(p, s.trackers, now))
  }

  function After(p: Policy, run: seq<Event>, n: nat): State
    requires n <= |run|
  {
    if n == 0 then EMPTY else Step(p, After(p, run, n - 1), run[n - 1])
  }

  predicate JudgedValid(p: Policy, run: seq<Event>, i: nat)
    requires i < |run|
  {
    run[i].Validate? && Acceptable(p, After(p, run, i), run[i].now, run[i].ad, run[i].ev) && CustomPenalty(run[i].ev.custom) <= 50
  }

  // ---------------------------------------------------------------- replayed advertisements

  /** What a valid advertisement leaves behind: its time or a later one, unless seven days passed. */
  lemma {:induction false} CreationTimeKept(p: Policy, run: seq<Event>, i: nat, n: nat)
    requires Clocked(run) && i < n <= |run| && p.enableReplayPrevention
    requires JudgedValid(p, run, i) && run[i].ad.createdAt > 0
    ensures var seen, key := After(p, run, n).seen, AdKey(run[i].ad);
            (key in seen && seen[key] >= run[i].ad.createdAt) || run[n - 1].now - run[i].ad.createdAt > SEVEN_DAYS
  {
    if n > i + 1 {
      CreationTimeKept(p, run, i, n - 1);
    }
  }

  /** Of one peer's advertisement id, the creation times judged valid strictly increase. */
  ghost predicate CreationTimesIncrease(p: Policy, run: seq<Event>) {
    forall i, j | 0 <= i < j < |run| && JudgedValid(p, run, i) && JudgedValid(p, run, j) ::
      AdKey(run[i].ad) == AdKey(run[j].ad) && run[i].ad.createdAt > 0 ==> run[i].ad.createdAt < run[j].ad.createdAt
  }

  lemma SevenDaysCoverTheAge(p: Policy, run: seq<Event>)
    requires Clocked(run) && p.enableReplayPrevention && p.maxAdvertisementAge <= SEVEN_DAYS
    ensures CreationTimesIncrease(p, run)
  {
    forall i, j | 0 <= i < j < |run| && JudgedValid(p, run, i) && JudgedValid(p, run, j)
      ensures AdKey(run[i].ad) == AdKey(run[j].ad) && run[i].ad.createdAt > 0 ==> run[i].ad.createdAt < run[j].ad.createdAt
    {
      if run[i].ad.createdAt > 0 {
        CreationTimeKept(p, run, i, j);
      }
    }
  }

  /** A rating that lifts a peer without a history to the reputation asked for: a success of weight 100,
      or, beyond 100, a failure of negative weight. */
  function Lift(p: Policy, now: int): Event {
    if p.minReputation <= 100.0 then Rate(now, "peer", true, 100.0) else Rate(now, "peer", false, -p.minReputation)
  }

  /** An advertisement, a sweep once its record is older than seven days, the same one again;
      before each the peer's reputation is lifted. */
  function ReplayPastSweep(p: Policy, createdAt: int): seq<Event> {
    var ad := Advertisement("peer", "ad", createdAt, createdAt + SEVEN_DAYS + 2);
    var ev, later := Evidence(true, NotAsked, []), createdAt + SEVEN_DAYS + 1;
    [Lift(p, createdAt), Validate(createdAt, ad, ev), Sweep(later), Lift(p, later), Validate(later, ad, ev)]
  }

  lemma LiftSuffices(p: Policy, reputations: map<string, Reputation>, now: int)
    requires "peer" !in reputations
    ensures var lift := Lift(p, now);
            Rated(ReputationOf(reputations, "peer", now), now, lift.success, lift.weight).score >= p.minReputation
  {
  }

  lemma LongerAgeLetsReplayThrough(p: Policy, createdAt: int)
    requires p.enableReplayPrevention && p.maxAdvertisementAge > SEVEN_DAYS && createdAt > 0
    ensures Clocked(ReplayPastSweep(p, createdAt)) && !CreationTimesIncrease(p, ReplayPastSweep(p, createdAt))
    ensures p.minReputation <= 100.0 ==> NoNegativeWeights(ReplayPastSweep(p, createdAt))
  {
    hide Rated;
    var run := ReplayPastSweep(p, createdAt);
    var s0, s1, s2, s3, s4 := After(p, run, 0), After(p, run, 1), After(p, run, 2), After(p, run, 3), After(p, run, 4);
    assert s0 == EMPTY;
    LiftSuffices(p, s0.reputations, createdAt);
    assert s1.seen == map[];
    assert JudgedValid(p, run, 1);
    assert s2.seen == map[AdKey(run[1].ad) := createdAt];
    RatedNow(ReputationOf(s0.reputations, "peer", createdAt), createdAt, run[0].success, run[0].weight);
    assert s3.seen == map[] && "peer" !in s3.reputations;
    LiftSuffices(p, s3.reputations, run[3].now);
    assert JudgedValid(p, run, 4);
  }

  lemma RatedNow(r: Reputation, now: int, success: bool, weight: real)
    ensures Rated(r, now, success, weight).lastInteraction == now
  {
  }

  /** Without replay prevention the same advertisement is simply accepted twice. */
  function SameTwice(p: Policy): seq<Event> {
    var createdAt := if p.maxAdvertisementAge >= 0 then 1 else 1 - p.maxAdvertisementAge;
    var ad, ev := Advertisement("peer", "ad", createdAt, 2), Evidence(true, NotAsked, []);
    [Lift(p, 1), Validate(1, ad, ev), Validate(1, ad, ev)]
  }

  lemma NoPreventionLetsReplayThrough(p: Policy)
    requires !p.enableReplayPrevention
    ensures Clocked(SameTwice(p)) && !CreationTimesIncrease(p, SameTwice(p))
    ensures p.minReputation <= 100.0 ==> NoNegativeWeights(SameTwice(p))
  {
    hide Rated;
    var run := SameTwice(p);
    assert After(p, run, 0) == EMPTY;
    LiftSuffices(p, After(p, run, 0).reputations, run[0].now);
    assert JudgedValid(p, run, 1);
    assert JudgedValid(p, run, 2);
  }

  ghost predicate NoNegativeWeights(run: seq<Event>) {
    forall i | 0 <= i < |run| && run[i].Rate? :: run[i].weight >= 0.0
  }

  lemma NobodyReputable(p: Policy, run: seq<Event>, i: nat)
    requires NoNegativeWeights(run) && p.minReputation > 100.0 && i < |run|
    ensures !JudgedValid(p, run, i)
  {
    if run[i].Validate? {
      ScoresStayInRange(p, run, i, run[i].ad.peerId);
    }
  }

  /** No run accepts an advertisement again exactly when replays are looked for and advertisements
      expire by age within the seven days for which they are remembered. */
  lemma ReplayPreventedExactlyWithinSevenDays(p: Policy)
    ensures (forall run: seq<Event> | Clocked(run) :: CreationTimesIncrease(p, run))
            <==> p.enableReplayPrevention && p.maxAdvertisementAge <= SEVEN_DAYS
  {
    if !p.enableReplayPrevention {
      NoPreventionLetsReplayThrough(p);
    } else if p.maxAdvertisementAge > SEVEN_DAYS {
      LongerAgeLetsReplayThrough(p, 1);
    } else {
      forall run: seq<Event> | Clocked(run)
        ensures CreationTimesIncrease(p, run)
      {
        SevenDaysCoverTheAge(p, run);
      }
    }
  }

  /** If no rating has a negative weight, a policy that asks for a reputation above 100 accepts nothing
      and so prevents replays as well. */
  lemma ReplayPreventedWithoutNegativeWeights(p: Policy)
    ensures (forall run: seq<Event> | Clocked(run) && NoNegativeWeights(run) :: CreationTimesIncrease(p, run))
            <==> (p.enableReplayPrevention && p.maxAdvertisementAge <= SEVEN_DAYS) || p.minReputation > 100.0
  {
    if p.minReputation > 100.0 {
      forall run: seq<Event> | Clocked(run) && NoNegativeWeights(run)
        ensures CreationTimesIncrease(p, run)
      {
        forall i | 0 <= i < |run|
          ensures !JudgedValid(p, run, i)
        {
          NobodyReputable(p, run, i);
        }
      }
    } else if !p.enableReplayPrevention {
      NoPreventionLetsReplayThrough(p);
    } else if p.maxAdvertisementAge > SEVEN_DAYS {
      LongerAgeLetsReplayThrough(p, 1);
    } else {
      ReplayPreventedExactlyWithinSevenDays(p);
    }
  }

  // ---------------------------------------------------------------- who is taken for a replay

  /** Event `i` brought the same peer's advertisement id with this creation time or a later one, whatever
      else was wrong with it, and no sweep before event `n` came more than seven days after that time. */
  ghost predicate Shadows(run: seq<Event>, i: nat, n: nat, ad: Advertisement)
    requires n <= |run|
  {
    && i < n && run[i].Validate? && AdKey(run[i].ad) == AdKey(ad) && run[i].ad.createdAt >= ad.createdAt
    && Unforgotten(run, i, n)
  }

  ghost predicate Unforgotten(run: seq<Event>, i: nat, n: nat)
    requires i < n <= |run| && run[i].Validate?
  {
    forall k | i < k < n && run[k].Sweep? :: run[k].now - run[i].ad.createdAt <= SEVEN_DAYS
  }

  lemma {:induction false} ShadowIsRemembered(p: Policy, run: seq<Event>, i: nat, n: nat)
    requires i < n <= |run| && p.enableReplayPrevention && run[i].Validate? && run[i].ad.createdAt > 0
    requires Unforgotten(run, i, n)
    ensures var seen, key := After(p, run, n).seen, AdKey(run[i].ad);
            key in seen && seen[key] >= run[i].ad.createdAt
  {
    if n > i + 1 {
      ShadowIsRemembered(p, run, i, n - 1);
    }
  }

  lemma {:induction false} RememberedIsBrought(p: Policy, run: seq<Event>, n: nat, key: string) returns (i: nat)
    requires n <= |run| && p.enableReplayPrevention && key in After(p, run, n).seen
    ensures i < n && run[i].Validate? && AdKey(run[i].ad) == key && run[i].ad.createdAt == After(p, run, n).seen[key]
    ensures Unforgotten(run, i, n)
  {
    var e, before := run[n - 1], After(p, run, n - 1).seen;
    if e.Validate? && AdKey(e.ad) == key && !IsReplay(before, e.ad) {
      i := n - 1;
    } else {
      i := RememberedIsBrought(p, run, n - 1, key);
    }
  }

  /** An advertisement is refused as a replay exactly when such an event came before it: also when that
      advertisement was forged, and refused, and this one is genuine. */
  lemma RefusedExactlyWhenShadowed(p: Policy, run: seq<Event>, n: nat, ad: Advertisement)
    requires n <= |run| && p.enableReplayPrevention && ad.createdAt > 0
    ensures IsReplay(After(p, run, n).seen, ad) <==> exists i :: Shadows(run, i, n, ad)
  {
    if IsReplay(After(p, run, n).seen, ad) {
      var i := RememberedIsBrought(p, run, n, AdKey(ad));
      assert Shadows(run, i, n, ad);
    }
    if i :| Shadows(run, i, n, ad) {
      ShadowIsRemembered(p, run, i, n);
    }
  }

  // ---------------------------------------------------------------- keys and names

  predicate SameNames(a: Advertisement, b: Advertisement) {
    a.peerId == b.peerId && a.id == b.id
  }

  /** The peer of `a` extends that of `b` past a colon, by what the id of `b` begins with. */
  ghost predicate Clash(a: Advertisement, b: Advertisement) {
    exists s: string :: a.peerId == b.peerId + ":" + s && b.id == s + ":" + a.id
  }

  lemma LongerPeerClashes(a: Advertisement, b: Advertisement)
    requires AdKey(a) == AdKey(b) && |a.peerId| > |b.peerId|
    ensures Clash(a, b)
  {
    var k, n, m := AdKey(a), |b.peerId|, |a.peerId|;
    var s := a.peerId[n + 1..];
    assert k[..n] == b.peerId && k[n] == ':' && k[n + 1..] == b.id;
    assert k[..m] == a.peerId && k[m] == ':' && k[m + 1..] == a.id;
    assert a.peerId == b.peerId + ":" + s;
    assert b.id == s + ":" + a.id;
  }

  /** Two advertisements have the same key exactly when they name the same peer and id, or clash. */
  lemma KeysAgreeExactly(a: Advertisement, b: Advertisement)
    ensures AdKey(a) == AdKey(b) <==> SameNames(a, b) || Clash(a, b) || Clash(b, a)
  {
    if AdKey(a) == AdKey(b) {
      if |a.peerId| > |b.peerId| {
        LongerPeerClashes(a, b);
      } else if |b.peerId| > |a.peerId| {
        LongerPeerClashes(b, a);
      } else {
        assert AdKey(a)[..|a.peerId|] == a.peerId && AdKey(b)[..|a.peerId|] == b.peerId;
        assert AdKey(a)[|a.peerId| + 1..] == a.id && AdKey(b)[|a.peerId| + 1..] == b.id;
      }
    }
    if Clash(a, b) {
      ClashesAgree(a, b);
    }
    if Clash(b, a) {
      ClashesAgree(b, a);
    }
  }

  lemma ClashesAgree(a: Advertisement, b: Advertisement)
    requires Clash(a, b)
    ensures AdKey(a) == AdKey(b)
  {
    var s: string :| a.peerId == b.peerId + ":" + s && b.id == s + ":" + a.id;
    assert AdKey(a) == b.peerId + ":" + s + ":" + a.id;
    assert AdKey(b) == b.peerId + ":" + (s + ":" + a.id);
  }

  /** So for peers without a colon the key is the peer and the id. */
  lemma ColonFreeKeysAreNames(a: Advertisement, b: Advertisement)
    requires ':' !in a.peerId && ':' !in b.peerId
    ensures AdKey(a) == AdKey(b) <==> SameNames(a, b)
  {
    KeysAgreeExactly(a, b);
    if Clash(a, b) {
      ClashHasColon(a, b);
    }
    if Clash(b, a) {
      ClashHasColon(b, a);
    }
  }

  lemma ClashHasColon(a: Advertisement, b: Advertisement)
    requires Clash(a, b)
    ensures ':' in a.peerId
  {
    assert a.peerId[|b.peerId|] == ':';
  }

  ghost predicate ColonFree(run: seq<Event>) {
    forall i | 0 <= i < |run| && run[i].Validate? :: ':' !in run[i].ad.peerId
  }

  /** Event `i` brought an advertisement of the same peer and id, created then or later, and it is not forgotten. */
  ghost predicate BroughtBefore(run: seq<Event>, i: nat, n: nat, ad: Advertisement)
    requires n <= |run|
  {
    && i < n && run[i].Validate? && run[i].ad.peerId == ad.peerId && run[i].ad.id == ad.id
    && run[i].ad.createdAt >= ad.createdAt
    && forall k | i < k < n && run[k].Sweep? :: run[k].now - run[i].ad.createdAt <= 7 * 86400000
  }

  lemma ReplayExactlyWhenBroughtBefore(p: Policy, run: seq<Event>, n: nat, ad: Advertisement)
    requires n <= |run| && p.enableReplayPrevention && ad.createdAt > 0 && ColonFree(run) && ':' !in ad.peerId
    ensures IsReplay(After(p, run, n).seen, ad) <==> exists i :: BroughtBefore(run, i, n, ad)
  {
    RefusedExactlyWhenShadowed(p, run, n, ad);
    hide IsReplay, AdKey;
    if i: nat :| Shadows(run, i, n, ad) {
      ColonFreeKeysAreNames(run[i].ad, ad);
      assert BroughtBefore(run, i, n, ad);
    }
    if i: nat :| BroughtBefore(run, i, n, ad) {
      ColonFreeKeysAreNames(run[i].ad, ad);
      assert Shadows(run, i, n, ad);
    }
  }

  /** What the custom validators take off: ten points for a no, fifteen for a throw. */
  lemma {:induction false} CustomPenaltyCounts(custom: seq<CustomCheck>)
    ensures CustomPenalty(custom) == 10 * multiset(custom)[Fail] + 15 * multiset(custom)[Throw]
  {
    if custom != [] {
      var front := custom[..|custom| - 1];
      CustomPenaltyCounts(front);
      assert custom == front + [custom[|custom| - 1]];
    }
  }

  /** An advertisement is judged valid exactly when it is unexpired, young enough, signed if that is looked
      at, of a peer reputable enough, not brought before if that is looked at, what was asked for, and
      the custom validators take at most fifty points. */
  lemma ValidExactly(p: Policy, run: seq<Event>, i: nat)
    requires i < |run| && run[i].Validate? && run[i].ad.createdAt > 0 && ColonFree(run)
    ensures var now, ad, ev, reputations := run[i].now, run[i].ad, run[i].ev, After(p, run, i).reputations;
            JudgedValid(p, run, i) <==>
              && now < ad.expiresAt && now - ad.createdAt <= p.maxAdvertisementAge
              && (p.enableSignatureVerification ==> ev.signatureValid)
              && p.minReputation <= (if ad.peerId in reputations then reputations[ad.peerId].score else 75.0)
              && (p.enableReplayPrevention ==> forall k :: !BroughtBefore(run, k, i, ad))
              && (ev.criteria == NotAsked || ev.criteria == Match)
              && 10 * multiset(ev.custom)[Fail] + 15 * multiset(ev.custom)[Throw] <= 50
  {
    CustomPenaltyCounts(run[i].ev.custom);
    if p.enableReplayPrevention {
      ReplayExactlyWhenBroughtBefore(p, run, i, run[i].ad);
    }
    hide CustomPenalty, IsReplay, BroughtBefore, After;
  }

  /** By names: no advertisement of the same peer and id is accepted again. */
  ghost predicate NamedTimesIncrease(p: Policy, run: seq<Event>) {
    forall i, j | 0 <= i < j < |run| && JudgedValid(p, run, i) && JudgedValid(p, run, j) ::
      run[i].ad.peerId == run[j].ad.peerId && run[i].ad.id == run[j].ad.id && run[i].ad.createdAt > 0
      ==> run[i].ad.createdAt < run[j].ad.createdAt
  }

  lemma NamedReplayPreventedExactly(p: Policy)
    ensures (forall run: seq<Event> | Clocked(run) :: NamedTimesIncrease(p, run))
            <==> p.enableReplayPrevention && p.maxAdvertisementAge <= 7 * 86400000
  {
    hide AdKey, Acceptable;
    if !p.enableReplayPrevention {
      NoPreventionLetsReplayThrough(p);
      ReplayIsNamed(p, SameTwice(p));
    } else if p.maxAdvertisementAge > SEVEN_DAYS {
      LongerAgeLetsReplayThrough(p, 1);
      ReplayIsNamed(p, ReplayPastSweep(p, 1));
    } else {
      forall run: seq<Event> | Clocked(run)
        ensures NamedTimesIncrease(p, run)
      {
        SevenDaysCoverTheAge(p, run);
        KeyedIncreaseIsNamed(p, run);
      }
    }
  }

  lemma KeyedIncreaseIsNamed(p: Policy, run: seq<Event>)
    requires CreationTimesIncrease(p, run)
    ensures NamedTimesIncrease(p, run)
  {
    hide JudgedValid;
  }

  lemma ReplayIsNamed(p: Policy, run: seq<Event>)
    requires !CreationTimesIncrease(p, run) && ColonFree(run)
    ensures !NamedTimesIncrease(p, run)
  {
    hide Acceptable, AdKey;
    var i, j :| 0 <= i < j < |run| && JudgedValid(p, run, i) && JudgedValid(p, run, j) && AdKey(run[i].ad) == AdKey(run[j].ad)
                && run[i].ad.createdAt > 0 && run[i].ad.createdAt >= run[j].ad.createdAt;
    ColonFreeKeysAreNames(run[i].ad, run[j].ad);
  }

  // ---------------------------------------------------------------- rate limits

  /** What the trackers would be after `n` events if nothing were ever swept. */
  function Unswept(p: Policy, run: seq<Event>, n: nat): map<string, Tracker>
    requires n <= |run|
  {
    if n == 0 then map[]
    else
      match run[n - 1]
      case Request(now, peerId, op) => TrackersAfter(p, Unswept(p, run, n - 1), now, peerId, op)
      case _ => Unswept(p, run, n - 1)
  }

  predicate Granted(p: Policy, run: seq<Event>, i: nat)
    requires i < |run|
  {
    run[i].Request? && Grants(p, After(p, run, i).trackers, run[i].now, run[i].peerId, run[i].op)
  }

  /** Sweeping drops only windows that are over by more than a window length. */
  ghost predicate OnlyPassedDropped(p: Policy, swept: map<string, Tracker>, kept: map<string, Tracker>, now: int) {
    && (forall k | k in swept :: k in kept && swept[k] == kept[k])
    && (forall k | k in kept && k !in swept :: now - kept[k].windowStart > 2 * p.windowSizeMs)
  }

  lemma {:induction false} SweepsDropOnlyPassed(p: Policy, run: seq<Event>, n: nat, now: int)
    requires Clocked(run) && n <= |run| && (n > 0 ==> run[n - 1].now <= now)
    ensures OnlyPassedDropped(p, After(p, run, n).trackers, Unswept(p, run, n), now)
  {
    if n > 0 {
      SweepsDropOnlyPassed(p, run, n - 1, run[n - 1].now);
    }
  }

  /** Sweeping, whenever it happens, never changes an answer. */
  lemma SweepingChangesNoAnswer(p: Policy, run: seq<Event>, i: nat)
    requires Clocked(run) && i < |run| && run[i].Request?
    ensures Granted(p, run, i) <==> Grants(p, Unswept(p, run, i), run[i].now, run[i].peerId, run[i].op)
  {
    SweepsDropOnlyPassed(p, run, i, run[i].now);
  }

  predicate GrantedTo(p: Policy, run: seq<Event>, i: nat, peerId: string, op: Operation)
    requires i < |run|
  {
    run[i].Request? && run[i].peerId == peerId && run[i].op == op && Granted(p, run, i)
  }

  /** How many of the first `n` events grant the peer this operation within [from, to]. */
  function GrantsIn(p: Policy, run: seq<Event>, n: nat, peerId: string, op: Operation, from: int, to: int): nat
    requires n <= |run|
  {
    if n == 0 then 0
    else GrantsIn(p, run, n - 1, peerId, op, from, to) +
         (if GrantedTo(p, run, n - 1, peerId, op) && from <= run[n - 1].now <= to then 1 else 0)
  }

  /** The key of a peer and operation names no other peer or operation. */
  lemma RateKeyIsInjective(p1: string, op1: Operation, p2: string, op2: Operation)
    requires RateKey(p1, op1) == RateKey(p2, op2)
    ensures p1 == p2 && op1 == op2
  {
    var k := RateKey(p1, op1);
    assert k[|k| - 1] == (if op1.Advertise? then 'e' else 'r');
    assert k[|k| - 1] == (if op2.Advertise? then 'e' else 'r');
    assert k[..|p1|] == p1 && k[..|p2|] == p2;
  }

  function Spare(limit: nat): nat {
    if limit == 0 then 0 else limit - 1
  }

  lemma {:induction false} LaterStartCountsFewer(p: Policy, run: seq<Event>, n: nat, peerId: string, op: Operation,
                                                 from: int, from': int, to: int)
    requires n <= |run| && from <= from'
    ensures GrantsIn(p, run, n, peerId, op, from', to) <= GrantsIn(p, run, n, peerId, op, from, to)
  {
    if n > 0 {
      LaterStartCountsFewer(p, run, n - 1, peerId, op, from, from', to);
    }
  }

  lemma {:induction false} NoGrantsFromTheFuture(p: Policy, run: seq<Event>, n: nat, peerId: string, op: Operation,
                                                 from: int, to: int)
    requires n <= |run| && Clocked(run) && (n > 0 ==> run[n - 1].now < from)
    ensures GrantsIn(p, run, n, peerId, op, from, to) == 0
  {
    if n > 1 {
      NoGrantsFromTheFuture(p, run, n - 1, peerId, op, from, to);
    }
  }

  /** The current window accounts for its own grants; of the window before, at most
      `limit - 1` lie within one window length before the current one started. */
  ghost predicate WindowAccounts(p: Policy, run: seq<Event>, n: nat, peerId: string, op: Operation, to: int)
    requires n <= |run|
  {
    var trackers, key, limit := Unswept(p, run, n), RateKey(peerId, op), Limit(p, op);
    if key in trackers then
      var w := trackers[key];
      && (n > 0 && w.windowStart <= run[n - 1].now)
      && (if limit == 0 then 0 else 1) <= w.count <= limit
      && GrantsIn(p, run, n, peerId, op, w.windowStart - p.windowSizeMs, to) <= w.count + Spare(limit)
      && GrantsIn(p, run, n, peerId, op, w.windowStart + 1, to) <= Spare(w.count)
    else
      forall from :: GrantsIn(p, run, n, peerId, op, from, to) == 0
  }

  lemma {:induction false} WindowsAccount(p: Policy, run: seq<Event>, n: nat, peerId: string, op: Operation, to: int)
    requires n <= |run| && Clocked(run) && p.enableRateLimiting
    ensures WindowAccounts(p, run, n, peerId, op, to)
  {
    if n > 0 {
      WindowsAccount(p, run, n - 1, peerId, op, to);
      var e := run[n - 1];
      if e.Request? && RateKey(e.peerId, e.op) == RateKey(peerId, op) {
        RateKeyIsInjective(e.peerId, e.op, peerId, op);
        OwnRequestAccounts(p, run, n, peerId, op, to);
      }
    }
  }

  lemma OwnRequestAccounts(p: Policy, run: seq<Event>, n: nat, peerId: string, op: Operation, to: int)
    requires 0 < n <= |run| && Clocked(run) && p.enableRateLimiting
    requires run[n - 1].Request? && run[n - 1].peerId == peerId && run[n - 1].op == op
    requires WindowAccounts(p, run, n - 1, peerId, op, to)
    ensures WindowAccounts(p, run, n, peerId, op, to)
  {
    SweepingChangesNoAnswer(p, run, n - 1);
    var old_, key, now := Unswept(p, run, n - 1), RateKey(peerId, op), run[n - 1].now;
    var w := Window(p, old_, now, key);
    if key in old_ && old_[key] != w {
      LaterStartCountsFewer(p, run, n - 1, peerId, op, old_[key].windowStart + 1, now - p.windowSizeMs, to);
    }
    NoGrantsFromTheFuture(p, run, n, peerId, op, now + 1, to);
  }

  /** Rate limiting: within any closed interval of one window length a peer is granted an
      operation fewer than twice the configured maximum, sweeps or no sweeps. */
  lemma {:induction false} FewerThanTwiceTheLimitPerWindow(p: Policy, run: seq<Event>, n: nat, peerId: string,
                                                           op: Operation, from: int)
    requires n <= |run| && Clocked(run) && p.enableRateLimiting
    ensures GrantsIn(p, run, n, peerId, op, from, from + p.windowSizeMs) <= if Limit(p, op) == 0 then 0 else 2 * Limit(p, op) - 1
  {
    if n > 0 {
      FewerThanTwiceTheLimitPerWindow(p, run, n - 1, peerId, op, from);
      var to := from + p.windowSizeMs;
      if GrantedTo(p, run, n - 1, peerId, op) && from <= run[n - 1].now <= to {
        WindowsAccount(p, run, n, peerId, op, to);
        var w := Unswept(p, run, n)[RateKey(peerId, op)];
        LaterStartCountsFewer(p, run, n, peerId, op, w.windowStart - p.windowSizeMs, from, to);
      }
    }
  }

  /** The current window counts nothing but grants since it started. */
  ghost predicate WindowIsEarned(p: Policy, run: seq<Event>, n: nat, peerId: string, op: Operation, to: int)
    requires n <= |run|
  {
    var trackers, key := Unswept(p, run, n), RateKey(peerId, op);
    key in trackers ==> trackers[key].count <= GrantsIn(p, run, n, peerId, op, trackers[key].windowStart, to)
  }

  lemma {:induction false} WindowsAreEarned(p: Policy, run: seq<Event>, n: nat, peerId: string, op: Operation, to: int)
    requires n <= |run| && Clocked(run) && p.enableRateLimiting && (n > 0 ==> run[n - 1].now <= to)
    ensures WindowIsEarned(p, run, n, peerId, op, to)
  {
    if n > 0 {
      WindowsAreEarned(p, run, n - 1, peerId, op, to);
      var e := run[n - 1];
      if e.Request? && RateKey(e.peerId, e.op) == RateKey(peerId, op) {
        RateKeyIsInjective(e.peerId, e.op, peerId, op);
        SweepingChangesNoAnswer(p, run, n - 1);
        WindowsAccount(p, run, n, peerId, op, to);
      }
    }
  }

  /** A request is refused only to a peer that was granted the whole limit within the last window length. */
  lemma RefusedOnlyWhenUsedUp(p: Policy, run: seq<Event>, i: nat)
    requires Clocked(run) && i < |run| && run[i].Request? && p.enableRateLimiting && !Granted(p, run, i)
    ensures var now := run[i].now;
            GrantsIn(p, run, i, run[i].peerId, run[i].op, now - p.windowSizeMs, now) >= Limit(p, run[i].op)
  {
    var now, peerId, op := run[i].now, run[i].peerId, run[i].op;
    WindowsAreEarned(p, run, i, peerId, op, now);
    SweepingChangesNoAnswer(p, run, i);
    var trackers, key := Unswept(p, run, i), RateKey(peerId, op);
    if Limit(p, op) > 0 {
      LaterStartCountsFewer(p, run, i, peerId, op, now - p.windowSizeMs, trackers[key].windowStart, now);
    }
  }

  function BurstTime(p: Policy, limit: nat, start: int, i: nat): int {
    if i == 0 then start else if i < limit then start + p.windowSizeMs else start + p.windowSizeMs + 1
  }

  /** One request opens a window, the rest of it is used at its very end, then the next one whole. */
  function Burst(p: Policy, op: Operation, peerId: string, start: int): seq<Event> {
    var limit := Limit(p, op);
    seq(2 * limit, (i: nat) => Request(BurstTime(p, limit, start, i), peerId, op))
  }

  function BurstTracker(p: Policy, limit: nat, start: int, n: nat): Tracker {
    if n <= limit then Tracker(n, start) else Tracker(n - limit, start + p.windowSizeMs + 1)
  }

  lemma BurstStep(p: Policy, op: Operation, peerId: string, start: int, n: nat, trackers: map<string, Tracker>)
    requires p.enableRateLimiting && p.windowSizeMs >= 1 && n < 2 * Limit(p, op)
    requires trackers == if n == 0 then map[] else map[RateKey(peerId, op) := BurstTracker(p, Limit(p, op), start, n)]
    ensures Grants(p, trackers, BurstTime(p, Limit(p, op), start, n), peerId, op)
    ensures TrackersAfter(p, trackers, BurstTime(p, Limit(p, op), start, n), peerId, op)
            == map[RateKey(peerId, op) := BurstTracker(p, Limit(p, op), start, n + 1)]
  {
  }

  lemma {:induction false} BurstTrackers(p: Policy, op: Operation, peerId: string, start: int, n: nat)
    requires p.enableRateLimiting && p.windowSizeMs >= 1 && n <= 2 * Limit(p, op)
    ensures Unswept(p, Burst(p, op, peerId, start), n)
            == if n == 0 then map[] else map[RateKey(peerId, op) := BurstTracker(p, Limit(p, op), start, n)]
  {
    if n > 0 {
      BurstTrackers(p, op, peerId, start, n - 1);
      BurstStep(p, op, peerId, start, n - 1, Unswept(p, Burst(p, op, peerId, start), n - 1));
    }
  }

  lemma {:induction false} BurstIsGranted(p: Policy, op: Operation, peerId: string, start: int, n: nat)
    requires p.enableRateLimiting && p.windowSizeMs >= 1 && n <= 2 * Limit(p, op)
    ensures GrantsIn(p, Burst(p, op, peerId, start), n, peerId, op, start + 1, start + 1 + p.windowSizeMs) == Spare(n)
  {
    hide After, Unswept, TrackersAfter, Grants, BurstTracker;
    if n > 0 {
      var run := Burst(p, op, peerId, start);
      assert Clocked(run);
      BurstIsGranted(p, op, peerId, start, n - 1);
      BurstTrackers(p, op, peerId, start, n - 1);
      BurstStep(p, op, peerId, start, n - 1, Unswept(p, run, n - 1));
      SweepingChangesNoAnswer(p, run, n - 1);
    }
  }

  /** The bound is met: with a window of at least one tick there is a run that reaches it. */
  lemma TwiceTheLimitLessOneIsReached(p: Policy, op: Operation, peerId: string, start: int)
    requires p.enableRateLimiting && p.windowSizeMs >= 1
    ensures var run := Burst(p, op, peerId, start);
            && Clocked(run)
            && GrantsIn(p, run, |run|, peerId, op, start + 1, start + 1 + p.windowSizeMs)
               == if Limit(p, op) == 0 then 0 else 2 * Limit(p, op) - 1
  {
    BurstIsGranted(p, op, peerId, start, 2 * Limit(p, op));
  }

  // ---------------------------------------------------------------- reputation

  /** With weights that are not negative every score stays between 0 and 100 and every
      history keeps at most its last hundred interactions. */
  lemma {:induction false} ScoresStayInRange(p: Policy, run: seq<Event>, n: nat, peerId: string)
    requires n <= |run| && forall i | 0 <= i < n && run[i].Rate? :: run[i].weight >= 0.0
    ensures var reputations := After(p, run, n).reputations;
            peerId in reputations ==> 0.0 <= reputations[peerId].score <= 100.0 && |reputations[peerId].history| <= 100
  {
    if n > 0 {
      ScoresStayInRange(p, run, n - 1, peerId);
    }
  }

  ghost predicate ScoresInRange(p: Policy, run: seq<Event>) {
    forall n, peerId | 0 <= n <= |run| && peerId in After(p, run, n).reputations ::
      0.0 <= After(p, run, n).reputations[peerId].score <= 100.0
  }

  /** Each rating of the run is one of these pairs of outcome and weight. */
  ghost predicate RatedWithin(run: seq<Event>, ratings: iset<(bool, real)>) {
    forall i | 0 <= i < |run| && run[i].Rate? :: (run[i].success, run[i].weight) in ratings
  }

  function Repeated(success: bool, weight: real, n: nat): seq<Event> {
    seq(n, _ => Rate(1, "peer", success, weight))
  }

  function Total(weight: real, k: nat): real {
    if k == 0 then 0.0 else Total(weight, k - 1) + weight
  }

  /** Negative weights meet no clamp: a success lowers the score, a failure raises it. */
  lemma {:induction false} RepeatedScore(p: Policy, success: bool, weight: real, n: nat, k: nat)
    requires weight < 0.0 && 0 < k <= n
    ensures Total(weight, k) <= weight
    ensures var reputations := After(p, Repeated(success, weight, n), k).reputations;
            "peer" in reputations
            && reputations["peer"].score == if success then 75.0 + 2.0 * Total(weight, k) else 75.0 - 5.0 * Total(weight, k)
  {
    var run := Repeated(success, weight, n);
    if k == 1 {
      assert After(p, run, 0) == EMPTY;
      assert Total(weight, 0) == 0.0;
    } else {
      RepeatedScore(p, success, weight, n, k - 1);
    }
  }

  lemma {:induction false} TotalIsMultiple(weight: real, k: nat)
    ensures Total(weight, k) == k as real * weight
  {
    if k > 0 {
      TotalIsMultiple(weight, k - 1);
      var fewer := (k - 1) as real;
      assert (fewer + 1.0) * weight == fewer * weight + weight;
    }
  }

  lemma ScalesUp(weight: real, x: real, y: real)
    requires weight < 0.0 && x < y
    ensures y * weight < x * weight
  {
    var d := y - x;
    assert d * weight < 0.0;
    assert y * weight == x * weight + d * weight;
  }

  lemma Quotient(weight: real) returns (x: real)
    requires weight < 0.0
    ensures x > 0.0 && x * weight == -38.0
  {
    x := -38.0 / weight;
    assert x * weight == -38.0;
  }

  lemma Above(x: real) returns (n: nat)
    requires x > 0.0
    ensures n > 0 && n as real > x
  {
    n := x.Floor + 1;
  }

  /** However small, a negative weight adds up. */
  lemma EnoughRatings(weight: real) returns (n: nat)
    requires weight < 0.0
    ensures n > 0 && Total(weight, n) < -38.0
  {
    var enough := Quotient(weight);
    n := Above(enough);
    TotalIsMultiple(weight, n);
    ScalesUp(weight, enough, n as real);
  }

  /** The scores of all runs with these ratings stay in range exactly when none has a negative weight. */
  lemma ScoresStayInRangeExactly(p: Policy, ratings: iset<(bool, real)>)
    ensures (forall run: seq<Event> | Clocked(run) && RatedWithin(run, ratings) :: ScoresInRange(p, run))
            <==> forall r | r in ratings :: r.1 >= 0.0
  {
    if r :| r in ratings && r.1 < 0.0 {
      var n := EnoughRatings(r.1);
      RepeatedScore(p, r.0, r.1, n, n);
      assert Clocked(Repeated(r.0, r.1, n)) && RatedWithin(Repeated(r.0, r.1, n), ratings);
      var reputations := After(p, Repeated(r.0, r.1, n), n).reputations;
      assert !(0.0 <= reputations["peer"].score <= 100.0);
    } else {
      forall run: seq<Event>, n, peerId |
        RatedWithin(run, ratings) && 0 <= n <= |run| && peerId in After(p, run, n).reputations
        ensures 0.0 <= After(p, run, n).reputations[peerId].score <= 100.0
      {
        ScoresStayInRange(p, run, n, peerId);
      }
    }
  }

  /** One rating takes a score out of range exactly when its weight is negative enough: a success
      takes it below 0, a failure beyond 100. */
  lemma RatedStaysInRangeExactly(r: Reputation, now: int, success: bool, weight: real)
    requires 0.0 <= r.score <= 100.0
    ensures 0.0 <= Rated(r, now, success, weight).score <= 100.0
            <==> if success then r.score + weight * 2.0 >= 0.0 else r.score - weight * 5.0 <= 100.0
  {
  }

  /** A success adds two points for each unit of weight, up to 100; a failure takes five, down to 0. */
  lemma RatingMovesScore(p: Policy, run: seq<Event>, n: nat)
    requires n < |run| && run[n].Rate?
    ensures var e, before, after := run[n], After(p, run, n).reputations, After(p, run, n + 1).reputations;
            var score := if e.peerId in before then before[e.peerId].score else 75.0;
            && e.peerId in after
            && var moved := after[e.peerId].score;
               if e.success then
                 moved <= 100.0 && moved <= score + 2.0 * e.weight && (moved == 100.0 || moved == score + 2.0 * e.weight)
               else
                 moved >= 0.0 && moved >= score - 5.0 * e.weight && (moved == 0.0 || moved == score - 5.0 * e.weight)
  {
  }

  lemma SuccessFallsBelowZero(p: Policy)
    ensures var reputations := After(p, Repeated(true, -50.0, 1), 1).reputations;
            "peer" in reputations && reputations["peer"].score == -25.0
  {
    RepeatedScore(p, true, -50.0, 1, 1);
  }

  lemma FailureRisesBeyondHundred(p: Policy)
    ensures var reputations := After(p, Repeated(false, -6.0, 1), 1).reputations;
            "peer" in reputations && reputations["peer"].score == 105.0
  {
    RepeatedScore(p, false, -6.0, 1, 1);
  }

  /** Between events `i` and `n` nobody rates the peer. */
  ghost predicate Unrated(run: seq<Event>, i: nat, n: nat, peerId: string)
    requires n <= |run|
  {
    forall k | i <= k < n && run[k].Rate? :: run[k].peerId != peerId
  }

  ghost predicate ForgottenIn(run: seq<Event>, i: nat, n: nat)
    requires i < n <= |run|
  {
    exists k | i < k < n :: run[k].Sweep? && run[k].now - run[i].now > 7 * 86400000
  }

  /** What a rating left behind lasts, until the next rating, as long as no sweep comes more than seven days
      later; then the peer counts as new again. */
  lemma {:induction false} RatingLastsExactly(p: Policy, run: seq<Event>, i: nat, n: nat, peerId: string)
    requires Clocked(run) && i < n <= |run| && run[i].Rate? && run[i].peerId == peerId && Unrated(run, i + 1, n, peerId)
    ensures var reputations := After(p, run, n).reputations;
            if ForgottenIn(run, i, n) then peerId in reputations ==> reputations[peerId].score == 75.0
            else peerId in reputations && peerId in After(p, run, i + 1).reputations
                 && reputations[peerId] == After(p, run, i + 1).reputations[peerId] && reputations[peerId].lastInteraction == run[i].now
  {
    if n > i + 1 {
      RatingLastsExactly(p, run, i, n - 1, peerId);
      assert ForgottenIn(run, i, n) <==> ForgottenIn(run, i, n - 1) || (run[n - 1].Sweep? && run[n - 1].now - run[i].now > 7 * 86400000);
    }
  }

  /** What the ratings of the peer with this outcome weigh together. */
  function Weighed(run: seq<Event>, n: nat, peerId: string, success: bool): real
    requires n <= |run|
  {
    if n == 0 then 0.0
    else
      var e := run[n - 1];
      Weighed(run, n - 1, peerId, success) + (if e.Rate? && e.peerId == peerId && e.success == success then e.weight else 0.0)
  }

  /** As long as nothing is swept, successes and failures are what the ratings weigh. */
  lemma {:induction false} TotalsAddUp(p: Policy, run: seq<Event>, n: nat, peerId: string)
    requires n <= |run| && forall i | 0 <= i < n :: !run[i].Sweep?
    ensures var reputations := After(p, run, n).reputations;
            if peerId in reputations then
              && reputations[peerId].successes == Weighed(run, n, peerId, true)
              && reputations[peerId].failures == Weighed(run, n, peerId, false)
            else Weighed(run, n, peerId, true) == Weighed(run, n, peerId, false) == 0.0
  {
    if n > 0 {
      TotalsAddUp(p, run, n - 1, peerId);
    }
  }

  /** The latest rating is the last of the history, which keeps ninety-nine before it. */
  lemma HistoryIsRecent(p: Policy, run: seq<Event>, n: nat)
    requires n < |run| && run[n].Rate?
    ensures var e, before, after := run[n], After(p, run, n).reputations, After(p, run, n + 1).reputations;
            && e.peerId in after && |after[e.peerId].history| > 0
            && after[e.peerId].history[|after[e.peerId].history| - 1] == Interaction(e.now, e.success, e.weight)
            && (e.peerId in before && |before[e.peerId].history| < 100 ==>
                  after[e.peerId].history == before[e.peerId].history + [Interaction(e.now, e.success, e.weight)])
            && (e.peerId in before && |before[e.peerId].history| == 100 ==>
                  after[e.peerId].history == before[e.peerId].history[1..] + [Interaction(e.now, e.success, e.weight)])
  {
  }

  // ---------------------------------------------------------------- which policies have negative scores

  predicate NegativeAt(p: Policy, run: seq<Event>, i: nat)
    requires i < |run|
  {
    run[i].Validate? && Score(p, After(p, run, i), run[i].now, run[i].ad, run[i].ev) < 0
  }

  /** Each validation consults this many custom validators. */
  ghost predicate Consults(run: seq<Event>, validators: nat) {
    forall i | 0 <= i < |run| && run[i].Validate? :: |run[i].ev.custom| == validators
  }

  ghost predicate Ordinary(run: seq<Event>, validators: nat) {
    Clocked(run) && NoNegativeWeights(run) && Consults(run, validators)
  }

  /** A rating that lowers a new peer below what is asked for: to 0 by a failure, or, if less than 0
      is asked for, further by a success of negative weight. */
  function Lower(p: Policy, now: int): Event {
    if p.minReputation > 0.0 then Rate(now, "peer", false, 15.0) else Rate(now, "peer", true, (p.minReputation - 76.0) / 2.0)
  }

  /** A peer is rated, then advertises twice what fails every check. */
  function EverythingFails(p: Policy, validators: nat, lowered: bool): seq<Event> {
    var ad, ev := Advertisement("peer", "ad", 1, 1), Evidence(false, Mismatch, seq(validators, _ => Throw));
    var now := if p.maxAdvertisementAge > 0 then p.maxAdvertisementAge + 2 else 2;
    (if lowered then [Lower(p, now)] else []) + [Validate(now, ad, ev), Validate(now, ad, ev)]
  }

  lemma {:induction false} ThrowsCost(validators: nat)
    ensures CustomPenalty(seq(validators, _ => Throw)) == 15 * validators
  {
    if validators > 0 {
      ThrowsCost(validators - 1);
      assert seq(validators, _ => Throw)[..validators - 1] == seq(validators - 1, _ => Throw);
    }
  }

  /** Expiration, age and criteria take 100 points between them. So a policy has an advertisement of
      negative score exactly when it checks anything else that can fail: signatures, replays,
      custom validators or a reputation above 0. */
  lemma SomeScoreIsNegativeExactly(p: Policy, validators: nat)
    ensures (exists run: seq<Event>, i :: Ordinary(run, validators) && 0 <= i < |run| && NegativeAt(p, run, i))
            <==> p.enableSignatureVerification || p.enableReplayPrevention || p.minReputation > 0.0 || validators > 0
  {
    if p.minReputation > 0.0 {
      LoweredFails(p, validators);
      assert Ordinary(EverythingFails(p, validators, true), validators);
    } else if p.enableSignatureVerification || p.enableReplayPrevention || validators > 0 {
      OtherwiseFails(p, validators);
      assert Ordinary(EverythingFails(p, validators, false), validators);
    } else {
      forall run: seq<Event>, i | Ordinary(run, validators) && 0 <= i < |run|
        ensures !NegativeAt(p, run, i)
      {
        if run[i].Validate? {
          ScoresStayInRange(p, run, i, run[i].ad.peerId);
          assert run[i].ev.custom == [];
        }
      }
    }
  }

  /** With ratings of negative weight every policy has one. */
  lemma LoweredFails(p: Policy, validators: nat)
    ensures var run := EverythingFails(p, validators, true);
            Clocked(run) && Consults(run, validators) && NegativeAt(p, run, 2)
  {
    var run := EverythingFails(p, validators, true);
    var s0, s1, s2 := After(p, run, 0), After(p, run, 1), After(p, run, 2);
    assert s0 == EMPTY;
    assert s1.reputations["peer"].score < p.minReputation;
    assert s2.reputations == s1.reputations;
  }

  lemma OtherwiseFails(p: Policy, validators: nat)
    requires p.enableSignatureVerification || p.enableReplayPrevention || validators > 0
    ensures NegativeAt(p, EverythingFails(p, validators, false), 1)
  {
    var run := EverythingFails(p, validators, false);
    var s0, s1 := After(p, run, 0), After(p, run, 1);
    assert s0 == EMPTY;
    assert s1.seen == SeenAfter(p, map[], run[0].ad);
    ThrowsCost(validators);
  }
}
