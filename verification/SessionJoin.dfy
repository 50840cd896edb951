/** Join requests at the coordinator, interleaved at their awaits and serialised, as far as it
    goes, by the session lock.

    A handler looks the signer up, begins to acquire the lock, enters the critical section, sends its
    reply there, announces the participant, checks whether the session is ready and releases the lock.
    A reply that cannot be sent is only logged; a listener that throws when the participant is announced
    ends the handler before its check. */
module SessionJoin {
  import Lock = SessionLocks
  import opened Sorting

  /** What does not change while a session lives; keys are compared by their bytes, here as text. */
  datatype Session = Session(sessionId: string, signers: seq<string>, myIndex: nat, isCoordinator: bool)

  datatype Participant = Participant(peerId: string, signerIndex: nat, publicKey: string)

  datatype Stage = Locking | Replying(accepted: bool) | Leaving | Done

  datatype Handler = Handler(peer: string, key: string, stage: Stage)

  /** `stored` says whether the session is still in the table; `ready` lists, for each
      SESSION_READY event, the signer indices that had joined. */
  datatype State = State(locks: Lock.System, stored: bool, participants: map<string, Participant>,
                         handlers: map<nat, Handler>, ready: seq<set<nat>>)

  const START := State(Lock.START, true, map[], map[], [])

  datatype Action =
    | Request(handler: nat, peer: string, key: string)
    | Wake(handler: nat)
    | Enter(handler: nat)
    | ReplySent(handler: nat)
    | ListenerThrows(handler: nat)
    | Leave(handler: nat)
    | RemoveParticipant(peer: string)
    | DeleteSession

  /** `findIndex`: the first position of the key, or the length when there is none. */
  function IndexOf(signers: seq<string>, key: string): (i: nat)
    ensures i <= |signers| && (i < |signers| ==> signers[i] == key)
    ensures forall j | 0 <= j < i :: signers[j] != key
  {
    FirstIndex(signers, signer => signer == key)
  }

  function Indices(participants: map<string, Participant>): set<nat> {
    set peer | peer in participants :: participants[peer].signerIndex
  }

  predicate InStage(s: State, h: nat, stage: Stage) {
    h in s.handlers && s.handlers[h].stage == stage
  }

  /** The checks of the critical section. */
  predicate Admits(c: Session, s: State, h: nat)
    requires h in s.handlers
  {
    s.stored && s.handlers[h].peer !in s.participants && IndexOf(c.signers, s.handlers[h].key) !in Indices(s.participants)
  }

  function InLock(s: State, a: Lock.Action, h: nat, stage: Stage): State
    requires h in s.handlers
  {
    s.(locks := Lock.Step(s.locks, a), handlers := s.handlers[h := s.handlers[h].(stage := stage)])
  }

  function WithStage(s: State, h: nat, stage: Stage): State
    requires h in s.handlers
  {
    s.(handlers := s.handlers[h := s.handlers[h].(stage := stage)])
  }

  function Entered(c: Session, s: State, h: nat): State
    requires h in s.handlers
  {
    if Admits(c, s, h) then
      var x := s.handlers[h];
      WithStage(s, h, Replying(true)).(participants :=
        s.participants[x.peer := Participant(x.peer, IndexOf(c.signers, x.key), x.key)])
    else WithStage(s, h, Replying(false))
  }

  /** The end of the critical section, after the reply: the session is ready when all others are in. */
  function Replied(c: Session, s: State, h: nat, accepted: bool): State
    requires h in s.handlers
  {
    WithStage(s, h, Leaving).(ready :=
      if accepted && |s.participants| == |c.signers| - 1 then s.ready + [Indices(s.participants)] else s.ready)
  }

  /** An action whose turn has not come changes nothing. */
  function Step(c: Session, s: State, a: Action): State {
    match a
    case Request(h, peer, key) =>
      if h in s.handlers then s
      else if !s.stored || !c.isCoordinator || IndexOf(c.signers, key) == |c.signers|
      then s.(handlers := s.handlers[h := Handler(peer, key, Done)])
      else s.(handlers := s.handlers[h := Handler(peer, key, Locking)], locks := Lock.Step(s.locks, Lock.Begin(h, c.sessionId)))
    case Wake(h) => if InStage(s, h, Locking) then InLock(s, Lock.Resume(h), h, Locking) else s
    case Enter(h) => if InStage(s, h, Locking) && Lock.Holds(s.locks, h, c.sessionId) then Entered(c, s, h) else s
    case ReplySent(h) =>
      if InStage(s, h, Replying(true)) then Replied(c, s, h, true)
      else if InStage(s, h, Replying(false)) then Replied(c, s, h, false)
      else s
    case ListenerThrows(h) => if InStage(s, h, Replying(true)) then WithStage(s, h, Leaving) else s
    case Leave(h) => if InStage(s, h, Leaving) then InLock(s, Lock.Release(h), h, Done) else s
    case RemoveParticipant(peer) => if s.stored then s.(participants := s.participants - {peer}) else s
    case DeleteSession => s.(stored := false)
  }

  function After(c: Session, run: seq<Action>, n: nat): State
    requires n <= |run|
  {
    if n == 0 then START else Step(c, After(c, run, n - 1), run[n - 1])
  }

  // ---------------------------------------------------------------- participants

  /** Every participant is filed under its peer, with the first signer index of its key. */
  ghost predicate Filed(c: Session, participants: map<string, Participant>) {
    forall peer | peer in participants ::
      var p := participants[peer];
      p.peerId == peer && p.signerIndex < |c.signers| && p.signerIndex == IndexOf(c.signers, p.publicKey)
  }

  ghost predicate DistinctIndices(participants: map<string, Participant>) {
    forall p, q | p in participants && q in participants && p != q :: participants[p].signerIndex != participants[q].signerIndex
  }

  ghost predicate HandlersKnown(c: Session, s: State) {
    forall h | h in s.handlers && s.handlers[h].stage != Done :: IndexOf(c.signers, s.handlers[h].key) < |c.signers|
  }

  /** In every interleaving, whatever the lock does, the participants have different signer
      indices, and the key of each is the signer's at its index. */
  lemma {:induction false} ParticipantsAreDistinct(c: Session, run: seq<Action>, n: nat)
    requires n <= |run|
    ensures var s := After(c, run, n);
            Filed(c, s.participants) && DistinctIndices(s.participants) && HandlersKnown(c, s)
  {
    if n > 0 {
      ParticipantsAreDistinct(c, run, n - 1);
      hide IndexOf, Step, Filed, DistinctIndices, HandlersKnown;
      StepKeepsFiled(c, After(c, run, n - 1), run[n - 1]);
      StepKeepsKnown(c, After(c, run, n - 1), run[n - 1]);
    }
  }

  lemma AdmittedIsFiled(c: Session, s: State, h: nat)
    requires Filed(c, s.participants) && DistinctIndices(s.participants) && h in s.handlers && Admits(c, s, h)
    requires IndexOf(c.signers, s.handlers[h].key) < |c.signers|
    ensures Filed(c, Entered(c, s, h).participants) && DistinctIndices(Entered(c, s, h).participants)
  {
    hide IndexOf;
    assert forall p | p in s.participants :: s.participants[p].signerIndex in Indices(s.participants);
  }

  lemma StepKeepsFiled(c: Session, s: State, a: Action)
    requires Filed(c, s.participants) && DistinctIndices(s.participants) && HandlersKnown(c, s)
    ensures var s' := Step(c, s, a);
            Filed(c, s'.participants) && DistinctIndices(s'.participants)
  {
    hide IndexOf, Indices, Lock.Step, Lock.Holds;
    if a.Enter? && a.handler in s.handlers && Admits(c, s, a.handler) && s.handlers[a.handler].stage == Locking {
      AdmittedIsFiled(c, s, a.handler);
    } else if !a.RemoveParticipant? {
      assert Step(c, s, a).participants == s.participants;
    }
  }

  lemma StepKeepsKnown(c: Session, s: State, a: Action)
    requires HandlersKnown(c, s)
    ensures HandlersKnown(c, Step(c, s, a))
  {
    hide IndexOf, Indices, Lock.Step, Lock.Holds, Admits;
  }

  // ---------------------------------------------------------------- readiness

  lemma {:induction false} AsManyIndicesAsPeers(participants: map<string, Participant>)
    requires DistinctIndices(participants)
    ensures |Indices(participants)| == |participants|
    decreases |participants|
  {
    if participants != map[] {
      var peer :| peer in participants;
      var rest := participants - {peer};
      AsManyIndicesAsPeers(rest);
      var own := participants[peer].signerIndex;
      forall i
        ensures i in Indices(participants) <==> i in Indices(rest) + {own}
      {
        if q :| q in participants && participants[q].signerIndex == i {
          assert q == peer || (q in rest && rest[q].signerIndex == i);
        }
        if q :| q in rest && rest[q].signerIndex == i {
          assert q in participants && participants[q].signerIndex == i;
        }
      }
      assert Indices(participants) == Indices(rest) + {own};
    }
  }

  predicate IsSigner(c: Session, i: nat) { i < |c.signers| }

  function Others(c: Session): set<nat> {
    set i: nat | i < |c.signers| && IsSigner(c, i) && i != c.myIndex
  }

  /** All others are there: n - 1 indices below n, and not the coordinator's. */
  lemma AllButMine(c: Session, joined: set<nat>)
    requires c.myIndex < |c.signers| && |joined| == |c.signers| - 1 && forall i | i in joined :: i < |c.signers|
    ensures joined == Others(c) <==> c.myIndex !in joined
  {
    if c.myIndex !in joined {
      Pigeonhole(joined + {c.myIndex}, |c.signers|);
      forall i: nat
        ensures i in joined <==> i in Others(c)
      {
        assert i < |c.signers| ==> i in joined + {c.myIndex};
      }
    }
  }

  /** Nobody asks to join with the coordinator's own key. */
  ghost predicate OwnKeyUnused(c: Session, run: seq<Action>)
    requires c.myIndex < |c.signers|
  {
    forall i | 0 <= i < |run| && run[i].Request? :: run[i].key != c.signers[c.myIndex]
  }

  ghost predicate KeyIsOut(s: State, key: string) {
    && (forall h | h in s.handlers :: s.handlers[h].key != key)
    && (forall p | p in s.participants :: s.participants[p].publicKey != key)
  }

  lemma StepKeepsKeyOut(c: Session, s: State, a: Action, key: string)
    requires KeyIsOut(s, key) && (a.Request? ==> a.key != key)
    ensures KeyIsOut(Step(c, s, a), key)
  {
    hide IndexOf, Admits;
  }

  lemma {:induction false} OwnKeyStaysOut(c: Session, run: seq<Action>, n: nat)
    requires n <= |run| && c.myIndex < |c.signers| && OwnKeyUnused(c, run)
    ensures KeyIsOut(After(c, run, n), c.signers[c.myIndex])
  {
    hide Step;
    if n > 0 {
      OwnKeyStaysOut(c, run, n - 1);
      StepKeepsKeyOut(c, After(c, run, n - 1), run[n - 1], c.signers[c.myIndex]);
    }
  }

  /** An event adds at most one readiness, of the participants as they are. */
  lemma ReadyGrows(c: Session, s: State, a: Action)
    ensures var s' := Step(c, s, a);
            || s'.ready == s.ready
            || (s'.ready == s.ready + [Indices(s.participants)] && |s.participants| == |c.signers| - 1)
  {
  }

  lemma {:induction false} ReadySets(c: Session, run: seq<Action>, n: nat, k: nat) returns (m: nat)
    requires n <= |run| && k < |After(c, run, n).ready|
    ensures m < n && After(c, run, n).ready[k] == Indices(After(c, run, m).participants)
    ensures |After(c, run, m).participants| == |c.signers| - 1
  {
    hide Step, Indices;
    var s := After(c, run, n - 1);
    ReadyGrows(c, s, run[n - 1]);
    if k < |s.ready| {
      m := ReadySets(c, run, n - 1, k);
    } else {
      m := n - 1;
    }
  }

  /** At each SESSION_READY the joined indices are n - 1 different ones below n. They are exactly
      those of all the others unless someone joined under the coordinator's own index. */
  lemma ReadyMeansAllOthers(c: Session, run: seq<Action>, n: nat, k: nat)
    requires n <= |run| && k < |After(c, run, n).ready| && c.myIndex < |c.signers|
    ensures var joined := After(c, run, n).ready[k];
            && |joined| == |c.signers| - 1 && (forall i | i in joined :: i < |c.signers|)
            && (joined == Others(c) <==> c.myIndex !in joined)
            && (OwnKeyUnused(c, run) ==> joined == Others(c))
  {
    hide After;
    var m := ReadySets(c, run, n, k);
    var participants := After(c, run, m).participants;
    ParticipantsAreDistinct(c, run, m);
    AsManyIndicesAsPeers(participants);
    AllButMine(c, Indices(participants));
    if OwnKeyUnused(c, run) {
      OwnKeyStaysOut(c, run, m);
    }
  }

  // ---------------------------------------------------------------- ready once

  /** A handler is where the lock says it is. */
  predicate InPlace(c: Session, s: State, h: nat) {
    if h !in s.handlers then Lock.PhaseOf(s.locks, h).Idle?
    else
      match s.handlers[h].stage
      case Locking => Lock.Waits(s.locks, h, c.sessionId) || Lock.Holds(s.locks, h, c.sessionId)
      case Done => Lock.PhaseOf(s.locks, h).Idle?
      case _ => Lock.Holds(s.locks, h, c.sessionId)
  }

  /** A request comes in only while no other request waits for the lock. */
  ghost predicate Courteous(c: Session, s: State, a: Action) {
    a.Request? ==> Lock.NobodyWaits(s.locks, c.sessionId)
  }

  /** The lock excludes, and every handler is in its place. */
  ghost predicate Orderly(c: Session, s: State) {
    Lock.Sound(s.locks) && Lock.Exclusive(s.locks) && forall h :: InPlace(c, s, h)
  }

  lemma LockStaysOrderly(c: Session, s: State, a: Action)
    requires Orderly(c, s) && Courteous(c, s, a)
    ensures Lock.Sound(Step(c, s, a).locks) && Lock.Exclusive(Step(c, s, a).locks)
  {
    hide Lock.Sound, Lock.Exclusive, Lock.Step, IndexOf, Admits;
    match a
    case Request(h, _, _) => Lock.PoliteStepKeepsExclusive(s.locks, Lock.Begin(h, c.sessionId));
    case Wake(h) => Lock.PoliteStepKeepsExclusive(s.locks, Lock.Resume(h));
    case Leave(h) => Lock.PoliteStepKeepsExclusive(s.locks, Lock.Release(h));
    case _ =>
  }

  lemma OthersPhase(s: Lock.System, a: Lock.Action, h: nat)
    requires (a.Begin? || a.Resume? || a.Release?) && a.caller != h
    ensures Lock.PhaseOf(Lock.Step(s, a), h) == Lock.PhaseOf(s, h)
  {
  }

  lemma OwnPhase(s: Lock.System, a: Lock.Action, session: string)
    requires || (a.Begin? && a.session == session && Lock.PhaseOf(s, a.caller).Idle?)
             || (a.Resume? && (Lock.Waits(s, a.caller, session) || Lock.Holds(s, a.caller, session)))
             || (a.Release? && Lock.Holds(s, a.caller, session))
    ensures var s', h := Lock.Step(s, a), a.caller;
            if a.Release? then Lock.PhaseOf(s', h).Idle? else Lock.Waits(s', h, session) || Lock.Holds(s', h, session)
  {
  }

  lemma HandlerStaysInPlace(c: Session, s: State, a: Action, h: nat)
    requires InPlace(c, s, h)
    ensures InPlace(c, Step(c, s, a), h)
  {
    hide Lock.Step, IndexOf, Admits, Indices;
    match a
    case Request(g, _, _) =>
      if g != h {
        OthersPhase(s.locks, Lock.Begin(g, c.sessionId), h);
      } else if h !in s.handlers {
        OwnPhase(s.locks, Lock.Begin(h, c.sessionId), c.sessionId);
      }
    case Wake(g) =>
      if g != h {
        OthersPhase(s.locks, Lock.Resume(g), h);
      } else if InStage(s, h, Locking) {
        OwnPhase(s.locks, Lock.Resume(h), c.sessionId);
      }
    case Leave(g) =>
      if g != h {
        OthersPhase(s.locks, Lock.Release(g), h);
      } else if InStage(s, h, Leaving) {
        OwnPhase(s.locks, Lock.Release(h), c.sessionId);
      }
    case _ =>
  }

  /** At most one handler is past its acquire. */
  lemma OneInside(c: Session, s: State, g: nat, h: nat)
    requires Orderly(c, s) && Lock.Holds(s.locks, g, c.sessionId) && Lock.Holds(s.locks, h, c.sessionId)
    ensures g == h
  {
    Lock.ExclusiveMeansOneHolder(s.locks, c.sessionId);
  }

  /** After the session was found ready nobody can find it ready again. */
  ghost predicate ReadyOnce(c: Session, s: State) {
    && |s.ready| <= 1
    && (s.ready != [] ==> |s.participants| >= |c.signers| - 1)
    && (s.ready != [] ==> forall h | InStage(s, h, Replying(true)) :: |s.participants| >= |c.signers|)
  }

  lemma AloneReplying(c: Session, s: State, g: nat, h: nat)
    requires Orderly(c, s) && InStage(s, g, Replying(true)) && Lock.Holds(s.locks, h, c.sessionId)
    ensures g == h
  {
    Places(c, s, g);
    OneInside(c, s, g, h);
  }

  lemma ReadyStaysOnce(c: Session, s: State, a: Action)
    requires Orderly(c, s) && ReadyOnce(c, s) && !a.RemoveParticipant?
    ensures ReadyOnce(c, Step(c, s, a))
  {
    hide Orderly, IndexOf, Indices, Lock.Step, Lock.Holds;
    var s' := Step(c, s, a);
    if a.Enter? && InStage(s, a.handler, Locking) && Lock.Holds(s.locks, a.handler, c.sessionId) {
      forall g | InStage(s, g, Replying(true))
        ensures g == a.handler
      {
        AloneReplying(c, s, g, a.handler);
      }
      assert forall g | InStage(s', g, Replying(true)) :: g == a.handler || InStage(s, g, Replying(true));
    } else if a.ReplySent? && InStage(s, a.handler, Replying(true)) {
      Places(c, s, a.handler);
      forall g | InStage(s, g, Replying(true))
        ensures g == a.handler
      {
        AloneReplying(c, s, g, a.handler);
      }
      assert forall g | InStage(s', g, Replying(true)) :: InStage(s, g, Replying(true));
      assert !InStage(s', a.handler, Replying(true));
    } else {
      assert s'.participants == s.participants && s'.ready == s.ready;
      assert forall g | InStage(s', g, Replying(true)) :: InStage(s, g, Replying(true));
    }
  }

  lemma Places(c: Session, s: State, h: nat)
    requires Orderly(c, s)
    ensures InPlace(c, s, h)
  {
  }

  ghost predicate CourteousRun(c: Session, run: seq<Action>) {
    forall i | 0 <= i < |run| :: Courteous(c, After(c, run, i), run[i]) && !run[i].RemoveParticipant?
  }

  /** SESSION_READY is emitted at most once in a run in which no participant is removed and no
      request comes in while another waits for the lock. */
  lemma {:induction false} ReadyAtMostOnce(c: Session, run: seq<Action>, n: nat)
    requires n <= |run| && CourteousRun(c, run)
    ensures |After(c, run, n).ready| <= 1
    ensures Orderly(c, After(c, run, n)) && ReadyOnce(c, After(c, run, n))
  {
    hide Step, Orderly, ReadyOnce, Courteous;
    if n > 0 {
      ReadyAtMostOnce(c, run, n - 1);
      var s, a := After(c, run, n - 1), run[n - 1];
      assert Courteous(c, s, a);
      StepStaysOrderly(c, s, a);
      ReadyStaysOnce(c, s, a);
      AtMostOne(c, Step(c, s, a));
    } else {
      StartIsOrderly(c);
    }
  }

  lemma StepStaysOrderly(c: Session, s: State, a: Action)
    requires Orderly(c, s) && Courteous(c, s, a)
    ensures Orderly(c, Step(c, s, a))
  {
    hide Step, InPlace, Lock.Sound, Lock.Exclusive;
    LockStaysOrderly(c, s, a);
    forall h
      ensures InPlace(c, Step(c, s, a), h)
    {
      Places(c, s, h);
      HandlerStaysInPlace(c, s, a, h);
    }
  }

  lemma AtMostOne(c: Session, s: State)
    requires ReadyOnce(c, s)
    ensures |s.ready| <= 1
  {
  }

  lemma StartIsOrderly(c: Session)
    ensures Orderly(c, START) && ReadyOnce(c, START)
  {
    Lock.StartIsExclusive();
  }
}
