/** The session lock, as written: `acquire` waits for the lock it finds, once, and then takes
    the lock without looking again.

    A promise is a number; `resolved` holds those that have been resolved. An `acquire` is
    two steps, before and after its only `await`. */
module SessionLocks {
  import opened Outcomes

  datatype LockState = LockState(locks: map<string, nat>, resolvers: map<string, nat>, resolved: set<nat>, next: nat)

  const UNLOCKED := LockState(map[], map[], {}, 0)

  /** A new promise becomes the lock of the session. */
  function Locked(l: LockState, session: string): LockState {
    l.(locks := l.locks[session := l.next], resolvers := l.resolvers[session := l.next], next := l.next + 1)
  }

  /** What a release function does: whatever lock the session has by now is dropped. */
  function Unlocked(l: LockState, session: string, promise: nat): LockState {
    l.(locks := l.locks - {session}, resolvers := l.resolvers - {session}, resolved := l.resolved + {promise})
  }

  function Forced(l: LockState, session: string): LockState {
    if session in l.resolvers then Unlocked(l, session, l.resolvers[session]) else l
  }

  class SessionLock {
    var locks: map<string, nat>
    var resolvers: map<string, nat>
    var resolved: set<nat>
    var next: nat

    function Contents(): LockState
      reads this
    {
      LockState(locks, resolvers, resolved, next)
    }

    constructor ()
      ensures Contents() == UNLOCKED
    {
      locks, resolvers, resolved, next := map[], map[], {}, 0;
    }

    /** `acquire` up to its await. Whoever the callers are: with nothing to wait for, nobody holds a
        lock that the table shows; and what there is to wait for is held and not yet resolved. */
    method BeginAcquire(session: string) returns (existing: Option<nat>)
      ensures existing.Some? <==> session in locks
      ensures existing.Some? ==> existing.value == locks[session]
      ensures forall s: System | s.lock == Contents() && Sound(s) && existing.Some? ::
                existing.value !in s.lock.resolved && HeldByOwner(s, session, existing.value)
      ensures forall s: System | s.lock == Contents() && Sound(s) && Exclusive(s) && existing.None? ::
                forall c :: !Holds(s, c, session)
    {
      existing := if session in locks then Some(locks[session]) else None;
      forall s: System | s.lock == Contents() && Sound(s) && Exclusive(s)
        ensures session in locks <==> exists c :: Holds(s, c, session)
      {
        ExclusiveMeansOneHolder(s, session);
      }
    }

    /** The rest of `acquire`, with no second look at the table. */
    method FinishAcquire(session: string) returns (promise: nat)
      modifies this
      ensures promise == old(next) && Contents() == Locked(old(Contents()), session)
    {
      promise := next;
      next := next + 1;
      locks := locks[session := promise];
      resolvers := resolvers[session := promise];
    }

    method TryAcquire(session: string) returns (promise: Option<nat>)
      modifies this
      ensures promise == if session in old(locks) then None else Some(old(next))
      ensures Contents() == if session in old(locks) then old(Contents()) else Locked(old(Contents()), session)
    {
      if session in locks {
        return None;
      }
      var p := FinishAcquire(session);
      return Some(p);
    }

    method Release(session: string, promise: nat)
      modifies this
      ensures Contents() == Unlocked(old(Contents()), session, promise)
    {
      locks := locks - {session};
      resolvers := resolvers - {session};
      resolved := resolved + {promise};
    }

    method ForceRelease(session: string)
      modifies this
      ensures Contents() == Forced(old(Contents()), session)
    {
      if session in resolvers {
        Release(session, resolvers[session]);
      }
    }

    /** Whoever the callers are: `true` means that somebody holds the lock; `false` means that
        nobody does, as long as they exclude one another. */
    method IsLocked(session: string) returns (locked: bool)
      ensures locked <==> session in locks
      ensures forall s: System | s.lock == Contents() && Sound(s) && locked :: exists c :: Holds(s, c, session)
      ensures forall s: System | s.lock == Contents() && Sound(s) && Exclusive(s) && !locked :: forall c :: !Holds(s, c, session)
    {
      locked := session in locks;
      forall s: System | s.lock == Contents() && Sound(s) && locked
        ensures exists c :: Holds(s, c, session)
      {
        assert Holds(s, s.owner[locks[session]], session);
      }
      forall s: System | s.lock == Contents() && Sound(s) && Exclusive(s)
        ensures session in locks <==> exists c :: Holds(s, c, session)
      {
        ExclusiveMeansOneHolder(s, session);
      }
    }
  }

  // ---------------------------------------------------------------- callers

  datatype Phase = Idle | Waiting(session: string, promise: nat) | Holding(session: string, promise: nat)

  /** The lock and its callers; `owner` remembers which caller each promise was made for. */
  datatype System = System(lock: LockState, phases: map<nat, Phase>, owner: map<nat, nat>)

  const START := System(UNLOCKED, map[], map[])

  datatype Action =
    | Begin(caller: nat, session: string)
    | Resume(caller: nat)
    | Try(caller: nat, session: string)
    | Release(caller: nat)
    | Force(session: string)

  function PhaseOf(s: System, caller: nat): Phase {
    if caller in s.phases then s.phases[caller] else Idle
  }

  function Granted(s: System, caller: nat, session: string): System {
    System(Locked(s.lock, session), s.phases[caller := Holding(session, s.lock.next)], s.owner[s.lock.next := caller])
  }

  /** The action can happen: a caller does one thing at a time, and wakes once its promise is resolved. */
  predicate Enabled(s: System, a: Action) {
    match a
    case Begin(c, _) => PhaseOf(s, c).Idle?
    case Try(c, _) => PhaseOf(s, c).Idle?
    case Resume(c) => PhaseOf(s, c).Waiting? && PhaseOf(s, c).promise in s.lock.resolved
    case Release(c) => PhaseOf(s, c).Holding?
    case Force(_) => true
  }

  /** An action that cannot happen changes nothing. */
  function Step(s: System, a: Action): System {
    if !Enabled(s, a) then s
    else
      match a
      case Begin(c, session) =>
        if session in s.lock.locks then s.(phases := s.phases[c := Waiting(session, s.lock.locks[session])])
        else Granted(s, c, session)
      case Try(c, session) => if session in s.lock.locks then s else Granted(s, c, session)
      case Resume(c) => Granted(s, c, PhaseOf(s, c).session)
      case Release(c) => s.(lock := Unlocked(s.lock, PhaseOf(s, c).session, PhaseOf(s, c).promise), phases := s.phases[c := Idle])
      case Force(session) => s.(lock := Forced(s.lock, session))
  }

  function After(s: System, run: seq<Action>): System {
    if run == [] then s else Step(After(s, run[..|run| - 1]), run[|run| - 1])
  }

  predicate Holds(s: System, caller: nat, session: string) {
    PhaseOf(s, caller).Holding? && PhaseOf(s, caller).session == session
  }

  predicate Waits(s: System, caller: nat, session: string) {
    PhaseOf(s, caller).Waiting? && PhaseOf(s, caller).session == session
  }

  // ---------------------------------------------------------------- no wake-up is lost

  /** The promise's owner holds it and has not released it. */
  predicate HeldByOwner(s: System, session: string, promise: nat) {
    promise in s.owner && PhaseOf(s, s.owner[promise]) == Holding(session, promise)
  }

  /** A caller holds a promise made for it; what it waits for is resolved or still held. */
  predicate CallerSound(s: System, c: nat) {
    match PhaseOf(s, c)
    case Idle => true
    case Holding(session, p) => p in s.owner && s.owner[p] == c
    case Waiting(session, p) => p < s.lock.next && (p in s.lock.resolved || HeldByOwner(s, session, p))
  }

  /** The table shows unresolved promises that are still held, and both maps show the same. */
  ghost predicate TableSound(s: System) {
    && s.lock.locks == s.lock.resolvers
    && (forall session | session in s.lock.locks ::
          s.lock.locks[session] !in s.lock.resolved && HeldByOwner(s, session, s.lock.locks[session]))
    && (forall p | p in s.owner :: p < s.lock.next)
    && (forall p | p in s.lock.resolved :: p < s.lock.next)
  }

  ghost predicate Sound(s: System) {
    TableSound(s) && forall c :: CallerSound(s, c)
  }

  lemma StepKeepsCaller(s: System, a: Action, c: nat)
    requires Sound(s)
    ensures CallerSound(Step(s, a), c)
  {
    assert CallerSound(s, c);
    if !a.Force? {
      assert CallerSound(s, a.caller);
    }
  }

  lemma GrantKeepsTable(s: System, caller: nat, session: string)
    requires Sound(s) && !PhaseOf(s, caller).Holding?
    ensures TableSound(Granted(s, caller, session))
  {
    assert CallerSound(s, caller);
    forall other | other in s.lock.locks
      ensures s.owner[s.lock.locks[other]] != caller
    {
      assert HeldByOwner(s, other, s.lock.locks[other]);
    }
  }

  lemma ReleaseKeepsTable(s: System, caller: nat)
    requires Sound(s) && PhaseOf(s, caller).Holding?
    ensures TableSound(Step(s, Release(caller)))
  {
    assert CallerSound(s, caller);
  }

  lemma StepKeepsTable(s: System, a: Action)
    requires Sound(s)
    ensures TableSound(Step(s, a))
  {
    match a
    case Begin(c, session) =>
      if Enabled(s, a) && session !in s.lock.locks {
        hide TableSound, Granted, CallerSound;
        GrantKeepsTable(s, c, session);
      }
    case Try(c, session) =>
      if Enabled(s, a) && session !in s.lock.locks {
        hide TableSound, Granted, CallerSound;
        GrantKeepsTable(s, c, session);
      }
    case Resume(c) =>
      if Enabled(s, a) {
        hide TableSound, Granted, CallerSound;
        GrantKeepsTable(s, c, PhaseOf(s, c).session);
      }
    case Release(c) =>
      if Enabled(s, a) {
        hide TableSound, CallerSound;
        ReleaseKeepsTable(s, c);
      }
    case Force(_) =>
  }

  lemma StepKeepsSound(s: System, a: Action)
    requires Sound(s)
    ensures Sound(Step(s, a))
  {
    StepKeepsTable(s, a);
    forall c
      ensures CallerSound(Step(s, a), c)
    {
      StepKeepsCaller(s, a, c);
    }
  }

  lemma {:induction false} RunIsSound(run: seq<Action>)
    ensures Sound(After(START, run))
  {
    hide Step, CallerSound, TableSound;
    if run != [] {
      RunIsSound(run[..|run| - 1]);
      StepKeepsSound(After(START, run[..|run| - 1]), run[|run| - 1]);
    } else {
      StartIsSound();
    }
  }

  lemma StartIsSound()
    ensures Sound(START)
  {
  }

  /** In every reachable state a blocked `acquire` waits for a lock that is still held by the
      caller it was made for: no wake-up is lost. */
  lemma NoWakeUpIsLost(run: seq<Action>, caller: nat)
    requires PhaseOf(After(START, run), caller).Waiting?
    requires PhaseOf(After(START, run), caller).promise !in After(START, run).lock.resolved
    ensures var s, phase := After(START, run), PhaseOf(After(START, run), caller);
            HeldByOwner(s, phase.session, phase.promise)
  {
    RunIsSound(run);
    assert CallerSound(After(START, run), caller);
  }

  // ---------------------------------------------------------------- every acquire is served

  function Waiters(s: System): set<nat> {
    set c | c in s.phases && s.phases[c].Waiting?
  }

  function Holders(s: System): set<nat> {
    set c | c in s.phases && s.phases[c].Holding?
  }

  /** What is left to do: a waiting caller has yet to wake and to release, a holding one to release. */
  function Work(s: System): nat {
    2 * |Waiters(s)| + |Holders(s)|
  }

  /** Waking and releasing take one step off the work that is left. */
  lemma WorkGoesDown(s: System, a: Action)
    requires (a.Resume? || a.Release?) && Enabled(s, a)
    ensures Work(Step(s, a)) == Work(s) - 1
  {
    var s', c := Step(s, a), a.caller;
    assert c in s.phases;
    if a.Resume? {
      assert Waiters(s') == Waiters(s) - {c} && Holders(s') == Holders(s) + {c};
    } else {
      assert Waiters(s') == Waiters(s) && Holders(s') == Holders(s) - {c};
    }
  }

  /** While anyone waits or holds, someone can wake or release. */
  lemma SomeoneCanMove(s: System) returns (a: Action)
    requires Sound(s) && Work(s) > 0
    ensures (a.Resume? || a.Release?) && Enabled(s, a)
  {
    if Holders(s) != {} {
      var c :| c in Holders(s);
      a := Release(c);
    } else {
      var c :| c in Waiters(s);
      assert CallerSound(s, c);
      assert forall h | PhaseOf(s, h).Holding? :: h in Holders(s);
      a := Resume(c);
    }
  }

  /** No new calls come in: each action wakes or releases a caller that can do so. */
  ghost predicate Drains(s: System, run: seq<Action>) {
    forall i | 0 <= i < |run| :: (run[i].Resume? || run[i].Release?) && Enabled(After(s, run[..i]), run[i])
  }

  lemma {:induction false} DrainingWorksOff(s: System, run: seq<Action>)
    requires Sound(s) && Drains(s, run)
    ensures Sound(After(s, run)) && |run| + Work(After(s, run)) == Work(s)
  {
    hide Step, Enabled, Sound, Work;
    if run != [] {
      var front, last := run[..|run| - 1], run[|run| - 1];
      assert forall i | 0 <= i < |front| :: front[..i] == run[..i];
      DrainingWorksOff(s, front);
      assert Enabled(After(s, run[..|front|]), last);
      WorkGoesDown(After(s, front), last);
      StepKeepsSound(After(s, front), last);
    } else {
      assert After(s, run) == s;
    }
  }

  lemma NoWorkMeansIdle(s: System)
    ensures Work(s) == 0 <==> forall c :: PhaseOf(s, c).Idle?
  {
    if Work(s) == 0 {
      forall c
        ensures PhaseOf(s, c).Idle?
      {
        assert c !in Waiters(s) && c !in Holders(s);
      }
    }
    if forall c :: PhaseOf(s, c).Idle? {
      assert forall c | c in s.phases :: PhaseOf(s, c).Idle?;
      assert Waiters(s) == {} && Holders(s) == {};
    }
  }

  /** Once no new calls come in, wake-ups and releases happen in whatever order: no schedule is
      longer than the work there was, one that long leaves nobody waiting or holding, and a
      shorter one can go on. */
  lemma EveryoneIsServed(s: System, run: seq<Action>)
    requires Sound(s) && Drains(s, run)
    ensures |run| <= Work(s)
    ensures |run| == Work(s) <==> forall c :: PhaseOf(After(s, run), c).Idle?
    ensures |run| < Work(s) <==> exists a: Action :: (a.Resume? || a.Release?) && Enabled(After(s, run), a)
  {
    DrainingWorksOff(s, run);
    NoWorkMeansIdle(After(s, run));
    hide Enabled, Work, Sound;
    if |run| < Work(s) {
      var a := SomeoneCanMove(After(s, run));
    } else {
      forall a: Action | a.Resume? || a.Release?
        ensures !Enabled(After(s, run), a)
      {
        if Enabled(After(s, run), a) {
          WorkGoesDown(After(s, run), a);
        }
      }
    }
  }

  // ---------------------------------------------------------------- mutual exclusion

  /** Nobody but perhaps one caller holds the lock of the session. */
  ghost predicate OneHolder(s: System, session: string) {
    forall c, d | Holds(s, c, session) && Holds(s, d, session) :: c == d
  }

  /** The caller holds the lock the table shows, and one that waits and has been woken finds the session unlocked. */
  predicate CallerExclusive(s: System, c: nat) {
    match PhaseOf(s, c)
    case Idle => true
    case Holding(session, p) => session in s.lock.locks && s.lock.locks[session] == p
    case Waiting(session, p) => p in s.lock.resolved ==> session !in s.lock.locks
  }

  ghost predicate OneWaiter(s: System, session: string) {
    forall c, d | Waits(s, c, session) && Waits(s, d, session) :: c == d
  }

  ghost predicate Exclusive(s: System) {
    (forall c :: CallerExclusive(s, c)) && (forall session :: OneWaiter(s, session))
  }

  ghost predicate NobodyWaits(s: System, session: string) {
    forall c :: !Waits(s, c, session)
  }

  /** Nobody starts an `acquire` of a session for which another is still waiting, a `tryAcquire`
      does not overtake a waiting caller, and no lock is broken by force. */
  ghost predicate Polite(s: System, a: Action) {
    match a
    case Begin(_, session) => NobodyWaits(s, session)
    case Try(_, session) => session in s.lock.locks || NobodyWaits(s, session)
    case Force(_) => false
    case _ => true
  }

  lemma ExclusiveMeansOneHolder(s: System, session: string)
    requires Sound(s) && Exclusive(s)
    ensures OneHolder(s, session)
    ensures session in s.lock.locks <==> exists c :: Holds(s, c, session)
  {
    forall c | Holds(s, c, session)
      ensures session in s.lock.locks && s.owner[s.lock.locks[session]] == c
    {
      assert CallerExclusive(s, c) && CallerSound(s, c);
    }
    if session in s.lock.locks {
      assert Holds(s, s.owner[s.lock.locks[session]], session);
    }
  }

  lemma WaiterFindsHolder(s: System, c: nat)
    requires Sound(s) && Exclusive(s) && PhaseOf(s, c).Waiting?
    ensures var w := PhaseOf(s, c);
            if w.promise in s.lock.resolved then w.session !in s.lock.locks
            else w.session in s.lock.locks && s.lock.locks[w.session] == w.promise
                 && Holds(s, s.owner[w.promise], w.session)
  {
    var w := PhaseOf(s, c);
    assert CallerSound(s, c) && CallerExclusive(s, c);
    if w.promise !in s.lock.resolved {
      assert CallerExclusive(s, s.owner[w.promise]);
    }
  }

  lemma PoliteStepCaller(s: System, a: Action, c: nat)
    requires Sound(s) && Exclusive(s) && Polite(s, a)
    ensures CallerExclusive(Step(s, a), c)
  {
    assert CallerExclusive(s, c) && CallerSound(s, c);
    if !a.Force? && Enabled(s, a) {
      assert CallerExclusive(s, a.caller) && CallerSound(s, a.caller);
      if PhaseOf(s, c).Waiting? {
        var session := PhaseOf(s, c).session;
        WaiterFindsHolder(s, c);
        assert OneWaiter(s, session) && Waits(s, c, session);
        assert a.Resume? && c != a.caller ==> !Waits(s, a.caller, session);
      }
    }
  }

  lemma PoliteStepWaiters(s: System, a: Action, session: string)
    requires Sound(s) && Exclusive(s) && Polite(s, a)
    ensures OneWaiter(Step(s, a), session)
  {
    assert OneWaiter(s, session);
    forall c, d | Waits(Step(s, a), c, session) && Waits(Step(s, a), d, session)
      ensures c == d
    {
      assert Waits(s, c, session) || (a.Begin? && a.caller == c);
      assert Waits(s, d, session) || (a.Begin? && a.caller == d);
    }
  }

  lemma PoliteStepKeepsExclusive(s: System, a: Action)
    requires Sound(s) && Exclusive(s) && Polite(s, a)
    ensures Sound(Step(s, a)) && Exclusive(Step(s, a))
  {
    StepKeepsSound(s, a);
    forall c
      ensures CallerExclusive(Step(s, a), c)
    {
      PoliteStepCaller(s, a, c);
    }
    forall session
      ensures OneWaiter(Step(s, a), session)
    {
      PoliteStepWaiters(s, a, session);
    }
  }

  lemma StartIsExclusive()
    ensures Sound(START) && Exclusive(START)
  {
  }

  ghost predicate PoliteFrom(s: System, run: seq<Action>) {
    forall i | 0 <= i < |run| :: Polite(After(s, run[..i]), run[i])
  }

  lemma {:induction false} PoliteRunStaysExclusive(s: System, run: seq<Action>)
    requires Sound(s) && Exclusive(s) && PoliteFrom(s, run)
    ensures Sound(After(s, run)) && Exclusive(After(s, run))
  {
    if run != [] {
      var front := run[..|run| - 1];
      assert forall i | 0 <= i < |front| :: front[..i] == run[..i];
      PoliteRunStaysExclusive(s, front);
      PoliteStepKeepsExclusive(After(s, front), run[|run| - 1]);
    }
  }

  /** Callers that never queue behind one another exclude each other, and `isLocked` tells the truth. */
  lemma PoliteCallersExcludeEachOther(run: seq<Action>, session: string)
    requires PoliteFrom(START, run)
    ensures OneHolder(After(START, run), session)
    ensures session in After(START, run).lock.locks <==> exists c :: Holds(After(START, run), c, session)
  {
    StartIsExclusive();
    PoliteRunStaysExclusive(START, run);
    ExclusiveMeansOneHolder(After(START, run), session);
  }

  lemma {:induction false} TryOnlyNobodyWaits(run: seq<Action>, c: nat)
    requires forall i | 0 <= i < |run| :: run[i].Try? || run[i].Release?
    ensures !PhaseOf(After(START, run), c).Waiting?
  {
    if run != [] {
      TryOnlyNobodyWaits(run[..|run| - 1], c);
    }
  }

  /** Runs of `tryAcquire` and release alone are polite, whoever calls when. */
  lemma TryOnlyRunsArePolite(run: seq<Action>)
    requires forall i | 0 <= i < |run| :: run[i].Try? || run[i].Release?
    ensures PoliteFrom(START, run)
  {
    forall i | 0 <= i < |run|
      ensures Polite(After(START, run[..i]), run[i])
    {
      forall c
        ensures !PhaseOf(After(START, run[..i]), c).Waiting?
      {
        TryOnlyNobodyWaits(run[..i], c);
      }
    }
  }

  // ---------------------------------------------------------------- exactly the polite steps

  /** Two callers hold the lock of one session. */
  ghost predicate Clash(s: System) {
    exists session :: !OneHolder(s, session)
  }

  /** Whatever polite callers do afterwards, no lock is ever held twice. */
  ghost predicate SafeFrom(s: System) {
    forall run: seq<Action> | PoliteFrom(s, run) :: !Clash(After(s, run))
  }

  lemma ExclusiveIsSafe(s: System)
    requires Sound(s) && Exclusive(s)
    ensures SafeFrom(s)
  {
    forall run: seq<Action> | PoliteFrom(s, run)
      ensures !Clash(After(s, run))
    {
      PoliteRunStaysExclusive(s, run);
      forall session
        ensures OneHolder(After(s, run), session)
      {
        ExclusiveMeansOneHolder(After(s, run), session);
      }
    }
  }

  lemma TwoHoldersClash(s: System, run: seq<Action>, c: nat, d: nat, session: string)
    requires PoliteFrom(s, run) && c != d && Holds(After(s, run), c, session) && Holds(After(s, run), d, session)
    ensures !SafeFrom(s)
  {
    assert !OneHolder(After(s, run), session);
    assert Clash(After(s, run));
  }

  lemma OneStep(s: System, a: Action)
    ensures After(s, [a]) == Step(s, a)
    ensures PoliteFrom(s, [a]) <==> Polite(s, a)
  {
    assert [a][..0] == [];
    assert After(s, []) == s;
  }

  lemma ThreeSteps(s: System, a: Action, b: Action, e: Action)
    ensures After(s, [a, b, e]) == Step(Step(Step(s, a), b), e)
    ensures a.Release? && b.Resume? && e.Resume? ==> PoliteFrom(s, [a, b, e])
  {
    hide Step;
    var run := [a, b, e];
    assert run[..2] == [a, b] && run[..2][..1] == [a];
    OneStep(s, a);
    assert After(s, [a, b]) == Step(After(s, [a]), b) by {
      assert [a, b][..1] == [a];
    }
  }

  /** An `acquire` begun while another caller waits can end with both holding the lock. */
  lemma QueueingLosesExclusion(s: System, c: nat, d: nat, session: string)
    requires Sound(s) && Exclusive(s) && Waits(s, c, session) && PhaseOf(s, d).Idle?
    ensures !SafeFrom(Step(s, Begin(d, session)))
  {
    WaiterFindsHolder(s, c);
    var p, s1 := PhaseOf(s, c).promise, Step(s, Begin(d, session));
    if p in s.lock.resolved {
      OneStep(s1, Resume(c));
      TwoHoldersClash(s1, [Resume(c)], c, d, session);
    } else {
      var h := s.owner[p];
      var s2 := Step(s1, Release(h));
      assert PhaseOf(s2, c) == Waiting(session, p) && PhaseOf(s2, d) == Waiting(session, p) && p in s2.lock.resolved;
      ThreeSteps(s1, Release(h), Resume(c), Resume(d));
      TwoHoldersClash(s1, [Release(h), Resume(c), Resume(d)], c, d, session);
    }
  }

  /** So can a `tryAcquire` that overtakes a caller already woken. */
  lemma OvertakingLosesExclusion(s: System, c: nat, d: nat, session: string)
    requires Sound(s) && Exclusive(s) && Waits(s, c, session) && PhaseOf(s, d).Idle? && session !in s.lock.locks
    ensures !SafeFrom(Step(s, Try(d, session)))
  {
    WaiterFindsHolder(s, c);
    var s1 := Step(s, Try(d, session));
    OneStep(s1, Resume(c));
    TwoHoldersClash(s1, [Resume(c)], c, d, session);
  }

  lemma {:induction false} FreshCaller(callers: set<nat>) returns (d: nat)
    ensures forall c | c in callers :: c < d
    decreases |callers|
  {
    if callers == {} {
      d := 0;
    } else {
      var c :| c in callers;
      d := FreshCaller(callers - {c});
      d := if d <= c then c + 1 else d;
      assert callers == callers - {c} + {c};
    }
  }

  /** And so can breaking a lock that is held. */
  lemma ForcingLosesExclusion(s: System, session: string)
    requires Sound(s) && Exclusive(s) && session in s.lock.locks
    ensures !SafeFrom(Step(s, Force(session)))
  {
    var p := s.lock.locks[session];
    var h, s1 := s.owner[p], Step(s, Force(session));
    assert HeldByOwner(s, session, p);
    if c :| Waits(s, c, session) {
      WaiterFindsHolder(s, c);
      OneStep(s1, Resume(c));
      TwoHoldersClash(s1, [Resume(c)], c, h, session);
    } else {
      var d := FreshCaller(s.phases.Keys);
      assert d !in s.phases && d != h;
      assert forall c :: Waits(s1, c, session) ==> Waits(s, c, session);
      OneStep(s1, Begin(d, session));
      TwoHoldersClash(s1, [Begin(d, session)], d, h, session);
    }
  }

  /** While exclusion holds, a step that changes anything keeps the lock safe among polite
      callers exactly when it is polite itself. */
  lemma ExactlyPoliteStepsAreSafe(s: System, a: Action)
    requires Sound(s) && Exclusive(s)
    ensures SafeFrom(Step(s, a)) <==> Polite(s, a) || Step(s, a) == s
  {
    if Polite(s, a) || Step(s, a) == s {
      if Polite(s, a) {
        PoliteStepKeepsExclusive(s, a);
      }
      ExclusiveIsSafe(Step(s, a));
    } else {
      match a
      case Begin(d, session) =>
        var c :| Waits(s, c, session);
        QueueingLosesExclusion(s, c, d, session);
      case Try(d, session) =>
        var c :| Waits(s, c, session);
        OvertakingLosesExclusion(s, c, d, session);
      case Force(session) => ForcingLosesExclusion(s, session);
    }
  }
}
