/** How often SESSION_READY is emitted, over all interleavings of joins: at most once with up to three
    signers, and twice in some run with four or more. */
module SessionReady {
  import Lock = SessionLocks
  import opened SessionJoin
  import opened Sorting

  // ---------------------------------------------------------------- two inside at once

  /** Two handlers inside at once, for the last two signers, both find the session ready. */
  lemma ReadyTwice(c: Session, s: State, g: nat, h: nat)
    requires g != h && InStage(s, g, Locking) && InStage(s, h, Locking)
    requires Lock.Holds(s.locks, g, c.sessionId) && Lock.Holds(s.locks, h, c.sessionId)
    requires Admits(c, s, g) && Admits(c, s, h) && |s.participants| == |c.signers| - 3
    requires s.handlers[g].peer != s.handlers[h].peer
    requires IndexOf(c.signers, s.handlers[g].key) != IndexOf(c.signers, s.handlers[h].key)
    ensures var s' := Step(c, Step(c, Step(c, Step(c, s, Enter(g)), Enter(h)), ReplySent(g)), ReplySent(h));
            |s'.ready| == |s.ready| + 2
  {
    hide IndexOf;
    var s1 := Step(c, s, Enter(g));
    EnteringAdds(c, s, g);
    assert s1.handlers[h] == s.handlers[h];
    assert Admits(c, s1, h);
    var s2 := Step(c, s1, Enter(h));
    EnteringAdds(c, s1, h);
    hide Step, Admits, Indices;
    BothReply(c, s2, g, h);
  }

  lemma BothReply(c: Session, s: State, g: nat, h: nat)
    requires g != h && InStage(s, g, Replying(true)) && InStage(s, h, Replying(true)) && |s.participants| == |c.signers| - 1
    ensures |Step(c, Step(c, s, ReplySent(g)), ReplySent(h)).ready| == |s.ready| + 2
  {
    hide Indices, IndexOf, Admits, Lock.Step;
  }

  lemma EnteringAdds(c: Session, s: State, g: nat)
    requires InStage(s, g, Locking) && Lock.Holds(s.locks, g, c.sessionId) && Admits(c, s, g)
    ensures var s1 := Step(c, s, Enter(g));
            && InStage(s1, g, Replying(true)) && s1.handlers == s.handlers[g := s1.handlers[g]]
            && s1.locks == s.locks && s1.ready == s.ready && s1.stored
            && |s1.participants| == |s.participants| + 1
            && s1.participants.Keys == s.participants.Keys + {s.handlers[g].peer}
            && Indices(s1.participants) == Indices(s.participants) + {IndexOf(c.signers, s.handlers[g].key)}
  {
    hide IndexOf;
    var s1, peer, i := Step(c, s, Enter(g)), s.handlers[g].peer, IndexOf(c.signers, s.handlers[g].key);
    assert s1.participants == s.participants[peer := Participant(peer, i, s.handlers[g].key)];
    forall x
      ensures x in Indices(s1.participants) <==> x in Indices(s.participants) + {i}
    {
      if q :| q in s.participants && s.participants[q].signerIndex == x {
        assert q in s1.participants && s1.participants[q].signerIndex == x;
      }
      assert peer in s1.participants && s1.participants[peer].signerIndex == i;
    }
  }

  // ---------------------------------------------------------------- few signers: ready at most once

  /** Handlers that accepted and have not replied yet stand for different participants. */
  ghost predicate RepliesOpen(s: State) {
    && (forall g | InStage(s, g, Replying(true)) :: s.handlers[g].peer in s.participants)
    && (forall g, h | InStage(s, g, Replying(true)) && InStage(s, h, Replying(true)) && g != h ::
          s.handlers[g].peer != s.handlers[h].peer)
  }

  ghost predicate NoReplyOpen(s: State) {
    forall g :: !InStage(s, g, Replying(true))
  }

  /** Nobody has released the lock yet: its holder is the only one, and the first to enter. */
  ghost predicate Early(c: Session, s: State) {
    && s.locks.lock.resolved == {} && Lock.Sound(s.locks) && (forall h :: Lock.CallerExclusive(s.locks, h))
    && (forall h :: InPlace(c, s, h))
    && (c.sessionId !in s.locks.lock.locks ==> s.participants == map[])
    && (forall h | InStage(s, h, Locking) && Lock.Holds(s.locks, h, c.sessionId) :: s.participants == map[])
    && (forall h | h in s.handlers && s.handlers[h].stage !in {Locking, Done} :: s.stored ==> s.participants != map[])
  }

  /** Somebody has been through: a session that is still stored has a participant, and a single one has its reply. */
  ghost predicate Late(s: State) {
    s.stored ==> s.participants != map[] && (|s.participants| == 1 ==> NoReplyOpen(s))
  }

  /** The session was found ready at most once: by whoever completed it, before anybody else replied. */
  ghost predicate FoundOnce(c: Session, s: State) {
    && |s.ready| <= 1
    && (|s.participants| < |c.signers| - 1 ==> s.ready == [])
    && (|s.participants| == |c.signers| - 1 && s.ready != [] ==> NoReplyOpen(s))
    && (|s.participants| == |c.signers| - 1 ==>
          forall g, h | InStage(s, g, Replying(true)) && InStage(s, h, Replying(true)) :: g == h)
  }

  ghost predicate Once(c: Session, s: State) {
    RepliesOpen(s) && (Early(c, s) || Late(s)) && FoundOnce(c, s)
  }

  /** The action lets a handler in that is then admitted. */
  ghost predicate Admission(c: Session, s: State, a: Action) {
    a.Enter? && InStage(s, a.handler, Locking) && Lock.Holds(s.locks, a.handler, c.sessionId) && Admits(c, s, a.handler)
  }

  /** All other actions, removals apart, add no participant and open no reply. */
  lemma NobodyNew(c: Session, s: State, a: Action)
    requires !a.RemoveParticipant? && !Admission(c, s, a)
    ensures var s' := Step(c, s, a);
            && s'.participants == s.participants && (s'.stored ==> s.stored)
            && (forall g | InStage(s', g, Replying(true)) ::
                  InStage(s, g, Replying(true)) && s'.handlers[g].peer == s.handlers[g].peer)
            && (s'.ready == s.ready
                || (&& a.ReplySent? && InStage(s, a.handler, Replying(true)) && !InStage(s', a.handler, Replying(true))
                    && |s.participants| == |c.signers| - 1 && |s'.ready| == |s.ready| + 1))
  {
    hide Lock.Step, Lock.Holds, IndexOf, Indices;
  }

  lemma OnlyEarlyHolder(c: Session, s: State, g: nat, h: nat)
    requires Early(c, s) && Lock.Holds(s.locks, g, c.sessionId) && Lock.Holds(s.locks, h, c.sessionId)
    ensures g == h && c.sessionId in s.locks.lock.locks
  {
    assert Lock.CallerExclusive(s.locks, g) && Lock.CallerSound(s.locks, g);
    assert Lock.CallerExclusive(s.locks, h) && Lock.CallerSound(s.locks, h);
  }

  lemma EarlyBegin(l: Lock.System, h: nat, session: string)
    requires l.lock.resolved == {} && Lock.Sound(l) && forall g :: Lock.CallerExclusive(l, g)
    ensures var l' := Lock.Step(l, Lock.Begin(h, session));
            l'.lock.resolved == {} && Lock.Sound(l') && (forall g :: Lock.CallerExclusive(l', g))
  {
    Lock.StepKeepsSound(l, Lock.Begin(h, session));
    var l' := Lock.Step(l, Lock.Begin(h, session));
    forall g
      ensures Lock.CallerExclusive(l', g)
    {
      assert Lock.CallerExclusive(l, g) && Lock.CallerExclusive(l, h);
    }
  }

  lemma EarlyRequest(c: Session, s: State, h: nat, peer: string, key: string)
    requires Early(c, s)
    ensures Early(c, Step(c, s, Request(h, peer, key)))
  {
    var s' := Step(c, s, Request(h, peer, key));
    EarlyBegin(s.locks, h, c.sessionId);
    BeginMoves(s.locks, h, c.sessionId);
    forall g
      ensures InPlace(c, s', g)
    {
      HandlerStaysInPlace(c, s, Request(h, peer, key), g);
    }
    hide Lock.Step, Lock.Sound, Lock.CallerExclusive, IndexOf;
    forall g | InStage(s', g, Locking) && Lock.Holds(s'.locks, g, c.sessionId)
      ensures s'.participants == map[]
    {
      if g == h && h !in s.handlers {
        assert InPlace(c, s, h);
      } else {
        assert InStage(s, g, Locking);
        assert g != h ==> Lock.Holds(s.locks, g, c.sessionId);
      }
    }
  }

  /** Beginning takes the lock only when nobody has it, and touches nobody else. */
  lemma BeginMoves(l: Lock.System, h: nat, session: string)
    ensures var l' := Lock.Step(l, Lock.Begin(h, session));
            && (session !in l'.lock.locks ==> l' == l)
            && (forall g | g != h :: Lock.PhaseOf(l', g) == Lock.PhaseOf(l, g))
            && (Lock.Holds(l', h, session) ==> Lock.Holds(l, h, session) || session !in l.lock.locks)
  {
  }

  lemma EarlyInside(c: Session, s: State, a: Action)
    requires Early(c, s) && (a.Enter? || a.ReplySent? || a.ListenerThrows? || a.Wake? || a.DeleteSession?)
    ensures Early(c, Step(c, s, a))
  {
    forall g
      ensures InPlace(c, Step(c, s, a), g)
    {
      HandlerStaysInPlace(c, s, a, g);
    }
    hide InPlace, IndexOf, Indices, Lock.Sound;
    match a
    case Wake(h) => EarlyWake(c, s, h);
    case Enter(h) =>
      hide Lock.Step, Lock.CallerExclusive;
      if InStage(s, h, Locking) && Lock.Holds(s.locks, h, c.sessionId) {
        EarlyEnter(c, s, h);
      }
    case _ => hide Lock.Step, Lock.CallerExclusive, Lock.Holds;
  }

  lemma EarlyWake(c: Session, s: State, h: nat)
    requires Early(c, s)
    ensures Step(c, s, Wake(h)) == s
  {
    if InStage(s, h, Locking) {
      assert s.handlers[h := s.handlers[h].(stage := Locking)] == s.handlers;
    }
  }

  /** The first to enter finds no participant, and is admitted if the session is still there. */
  lemma EarlyEnter(c: Session, s: State, h: nat)
    requires Early(c, s) && InStage(s, h, Locking) && Lock.Holds(s.locks, h, c.sessionId)
    ensures var s' := Step(c, s, Enter(h));
            && s'.locks == s.locks && c.sessionId in s.locks.lock.locks && s'.stored == s.stored
            && (forall g | g in s'.handlers && s'.handlers[g].stage !in {Locking, Done} :: s'.stored ==> s'.participants != map[])
            && (forall g | InStage(s', g, Locking) && Lock.Holds(s'.locks, g, c.sessionId) :: s'.participants == map[])
  {
    var s' := Step(c, s, Enter(h));
    OnlyEarlyHolder(c, s, h, h);
    if s.stored {
      FirstIsAdmitted(c, s, h);
    }
    forall g | InStage(s', g, Locking) && Lock.Holds(s'.locks, g, c.sessionId)
      ensures false
    {
      OnlyEarlyHolder(c, s, g, h);
    }
    hide Early, IndexOf, Indices, Lock.Holds;
  }

  lemma FirstIsAdmitted(c: Session, s: State, h: nat)
    requires h in s.handlers && s.participants == map[] && s.stored
    ensures Admits(c, s, h)
  {
  }

  /** The first release: whoever was inside has accepted, or found the session gone. */
  lemma FirstLeaves(c: Session, s: State, h: nat)
    requires Early(c, s)
    ensures Early(c, Step(c, s, Leave(h))) || Late(Step(c, s, Leave(h)))
  {
    if InStage(s, h, Leaving) {
      hide Lock.Step, IndexOf, Indices;
      assert InPlace(c, s, h);
      var s' := Step(c, s, Leave(h));
      forall g | InStage(s', g, Replying(true))
        ensures false
      {
        assert InPlace(c, s, g);
        OnlyEarlyHolder(c, s, g, h);
      }
    }
  }

  lemma LateStaysLate(c: Session, s: State, a: Action)
    requires Late(s) && RepliesOpen(s) && !a.RemoveParticipant?
    ensures Late(Step(c, s, a))
  {
    hide Step, RepliesOpen;
    if Admission(c, s, a) {
      EnteringAdds(c, s, a.handler);
      assert s.participants != map[] ==> |s.participants| >= 1;
    } else {
      NobodyNew(c, s, a);
    }
  }

  lemma EarlyOrLate(c: Session, s: State, a: Action)
    requires (Early(c, s) || Late(s)) && RepliesOpen(s) && !a.RemoveParticipant?
    ensures Early(c, Step(c, s, a)) || Late(Step(c, s, a))
  {
    hide Step, Early, Late, RepliesOpen;
    if Early(c, s) {
      match a
      case Request(h, peer, key) => EarlyRequest(c, s, h, peer, key);
      case Leave(h) => FirstLeaves(c, s, h);
      case _ => EarlyInside(c, s, a);
    } else {
      LateStaysLate(c, s, a);
    }
  }

  lemma StepKeepsReplies(c: Session, s: State, a: Action)
    requires RepliesOpen(s) && !a.RemoveParticipant?
    ensures RepliesOpen(Step(c, s, a))
  {
    hide Step, Indices, IndexOf, Lock.Holds;
    if Admission(c, s, a) {
      EnteringAdds(c, s, a.handler);
      var s' := Step(c, s, a);
      assert s'.handlers[a.handler].peer == s.handlers[a.handler].peer by {
        SamePeer(c, s, a);
      }
      assert forall g | InStage(s', g, Replying(true)) :: g == a.handler || InStage(s, g, Replying(true));
    } else {
      NobodyNew(c, s, a);
    }
  }

  lemma SamePeer(c: Session, s: State, a: Action)
    requires Admission(c, s, a)
    ensures Step(c, s, a).handlers[a.handler].peer == s.handlers[a.handler].peer
  {
    hide Indices, IndexOf, Lock.Holds;
  }

  /** The admission that completes a session of at most three finds no reply open. */
  lemma CompletingAlone(c: Session, s: State, h: nat)
    requires RepliesOpen(s) && (Early(c, s) || Late(s)) && |s.participants| <= 1
    requires InStage(s, h, Locking) && Lock.Holds(s.locks, h, c.sessionId) && Admits(c, s, h)
    ensures NoReplyOpen(s)
  {
  }

  lemma AdmissionFindsNone(c: Session, s: State, s': State, h: nat)
    requires FoundOnce(c, s) && (|s.participants| == |c.signers| - 2 ==> NoReplyOpen(s))
    requires |s'.participants| == |s.participants| + 1 && s'.ready == s.ready
    requires forall g | InStage(s', g, Replying(true)) :: g == h || InStage(s, g, Replying(true))
    ensures FoundOnce(c, s')
  {
  }

  lemma OthersFindOne(c: Session, s: State, a: Action)
    requires FoundOnce(c, s) && !a.RemoveParticipant? && !Admission(c, s, a)
    ensures FoundOnce(c, Step(c, s, a))
  {
    NobodyNew(c, s, a);
    hide Step, Admission, InStage;
  }

  lemma StepKeepsOnce(c: Session, s: State, a: Action)
    requires Once(c, s) && |c.signers| <= 3 && !a.RemoveParticipant?
    ensures Once(c, Step(c, s, a))
  {
    StepKeepsReplies(c, s, a);
    EarlyOrLate(c, s, a);
    hide Step, Early, Late, RepliesOpen, FoundOnce, NoReplyOpen, IndexOf, Indices, Admits, Lock.Holds;
    if Admission(c, s, a) {
      if |s.participants| <= 1 {
        CompletingAlone(c, s, a.handler);
      }
      EnteringAdds(c, s, a.handler);
      AdmissionFindsNone(c, s, Step(c, s, a), a.handler);
    } else {
      OthersFindOne(c, s, a);
    }
  }

  ghost predicate NobodyRemoved(run: seq<Action>) {
    forall i | 0 <= i < |run| :: !run[i].RemoveParticipant?
  }

  lemma {:induction false} FewSignersReadyOnce(c: Session, run: seq<Action>, n: nat)
    requires |c.signers| <= 3 && NobodyRemoved(run) && n <= |run|
    ensures Once(c, After(c, run, n))
  {
    hide Step, Once;
    if n > 0 {
      FewSignersReadyOnce(c, run, n - 1);
      StepKeepsOnce(c, After(c, run, n - 1), run[n - 1]);
    } else {
      StartIsOnce(c);
    }
  }

  lemma StartIsOnce(c: Session)
    ensures Once(c, START)
  {
    Lock.StartIsExclusive();
  }

  // ---------------------------------------------------------------- sessions that are never ready

  lemma NobodyIsLetIn(c: Session, s: State, a: Action)
    requires !c.isCoordinator && forall h | h in s.handlers :: s.handlers[h].stage == Done
    ensures Step(c, s, a).ready == s.ready
    ensures forall h | h in Step(c, s, a).handlers :: Step(c, s, a).handlers[h].stage == Done
  {
    hide Lock.Step, Lock.Holds, IndexOf, Indices, Admits;
  }

  lemma {:induction false} NoCoordinatorNoHandler(c: Session, run: seq<Action>, n: nat)
    requires !c.isCoordinator && n <= |run|
    ensures After(c, run, n).ready == []
    ensures forall h | h in After(c, run, n).handlers :: After(c, run, n).handlers[h].stage == Done
  {
    hide Step;
    if n > 0 {
      NoCoordinatorNoHandler(c, run, n - 1);
      NobodyIsLetIn(c, After(c, run, n - 1), run[n - 1]);
    }
  }

  function KeySet(c: Session): set<string> {
    set key | key in c.signers
  }

  function FirstIndices(c: Session, keys: set<string>): set<nat> {
    set key | key in keys :: IndexOf(c.signers, key)
  }

  lemma {:induction false} ImageIsNoLarger(c: Session, keys: set<string>)
    ensures |FirstIndices(c, keys)| <= |keys|
    decreases |keys|
  {
    hide IndexOf;
    if keys != {} {
      var key :| key in keys;
      ImageIsNoLarger(c, keys - {key});
      var rest, x := FirstIndices(c, keys - {key}), IndexOf(c.signers, key);
      assert FirstIndices(c, keys) == rest + {x};
      assert x in rest ==> rest + {x} == rest;
    }
  }

  lemma SubsetIsNoLarger<T>(a: set<T>, b: set<T>)
    requires a <= b
    ensures |a| <= |b|
  {
    assert b == a + (b - a);
  }

  /** There are never more participants than different keys. */
  lemma NoMorePeersThanKeys(c: Session, participants: map<string, Participant>)
    requires Filed(c, participants) && DistinctIndices(participants)
    ensures |participants| <= |KeySet(c)|
  {
    AsManyIndicesAsPeers(participants);
    ImageIsNoLarger(c, KeySet(c));
    var image := FirstIndices(c, KeySet(c));
    forall i | i in Indices(participants)
      ensures i in image
    {
      var peer :| peer in participants && participants[peer].signerIndex == i;
      var key := participants[peer].publicKey;
      assert c.signers[i] == key;
      assert key in KeySet(c) && i == IndexOf(c.signers, key);
    }
    SubsetIsNoLarger(Indices(participants), image);
  }

  lemma FewKeysNeverReady(c: Session, run: seq<Action>, n: nat)
    requires |KeySet(c)| < |c.signers| - 1 && n <= |run|
    ensures After(c, run, n).ready == []
  {
    hide After, KeySet;
    if After(c, run, n).ready != [] {
      var m := ReadySets(c, run, n, 0);
      ParticipantsAreDistinct(c, run, m);
      NoMorePeersThanKeys(c, After(c, run, m).participants);
    }
  }

  // ---------------------------------------------------------------- many signers: ready twice

  function Run(c: Session, s: State, actions: seq<Action>): State {
    if actions == [] then s else Step(c, Run(c, s, actions[..|actions| - 1]), actions[|actions| - 1])
  }

  lemma {:induction false} RunAppend(c: Session, s: State, a: seq<Action>, b: seq<Action>)
    ensures Run(c, s, a + b) == Run(c, Run(c, s, a), b)
  {
    hide Step;
    if b == [] {
      assert a + b == a;
    } else {
      RunAppend(c, s, a, b[..|b| - 1]);
      assert (a + b)[..|a + b| - 1] == a + b[..|b| - 1];
    }
  }

  lemma {:induction false} RunIsAfter(c: Session, run: seq<Action>, n: nat)
    requires n <= |run|
    ensures After(c, run, n) == Run(c, START, run[..n])
  {
    hide Step;
    if n > 0 {
      RunIsAfter(c, run, n - 1);
      assert run[..n][..n - 1] == run[..n - 1];
    }
  }

  lemma RunOfFour(c: Session, s: State, a1: Action, a2: Action, a3: Action, a4: Action)
    ensures Run(c, s, [a1, a2, a3, a4]) == Step(c, Step(c, Step(c, Step(c, s, a1), a2), a3), a4)
  {
    hide Step;
    assert [a1, a2, a3, a4][..3] == [a1, a2, a3] && [a1, a2, a3][..2] == [a1, a2] && [a1, a2][..1] == [a1];
    assert Run(c, s, []) == s;
    assert [a1][..0] == [];
    assert Run(c, s, [a1]) == Step(c, s, a1);
    assert Run(c, s, [a1, a2]) == Step(c, Step(c, s, a1), a2);
  }

  /** Different peers, as many as there are keys. */
  function Peer(i: nat): (peer: string)
    ensures |peer| == i
  {
    seq(i, (_: nat) => 'p')
  }

  /** The first `i` of `keys` have joined, one after the other, and nobody is around any more. */
  ghost predicate Joined(c: Session, keys: seq<string>, s: State, i: nat)
    requires i <= |keys|
  {
    && s.stored && s.ready == [] && c.sessionId !in s.locks.lock.locks
    && (forall h :: Lock.PhaseOf(s.locks, h).Idle?)
    && (forall h | h in s.handlers :: h < i)
    && |s.participants| == i && (forall peer | peer in s.participants :: |peer| < i)
    && (forall x | x in Indices(s.participants) :: exists j | 0 <= j < i :: x == IndexOf(c.signers, keys[j]))
  }

  ghost predicate AreSigners(c: Session, keys: seq<string>) {
    Distinct(keys) && forall j | 0 <= j < |keys| :: keys[j] in c.signers
  }

  lemma KeysHaveIndices(c: Session, keys: seq<string>, i: nat)
    requires AreSigners(c, keys) && i < |keys|
    ensures IndexOf(c.signers, keys[i]) < |c.signers|
    ensures forall j | 0 <= j < |keys| && j != i :: IndexOf(c.signers, keys[j]) != IndexOf(c.signers, keys[i])
  {
    forall j | 0 <= j < |keys|
      ensures IndexOf(c.signers, keys[j]) < |c.signers| && c.signers[IndexOf(c.signers, keys[j])] == keys[j]
    {
      var m :| 0 <= m < |c.signers| && c.signers[m] == keys[j];
    }
  }

  /** A request that finds nobody: its handler takes the lock, and will be admitted. */
  lemma FirstRequest(c: Session, keys: seq<string>, s: State, i: nat)
    requires c.isCoordinator && AreSigners(c, keys) && i < |keys| && Joined(c, keys, s, i)
    ensures var s1 := Step(c, s, Request(i, Peer(i), keys[i]));
            && s1 == s.(handlers := s.handlers[i := Handler(Peer(i), keys[i], Locking)],
                        locks := Lock.Granted(s.locks, i, c.sessionId))
            && Admits(c, s1, i)
  {
    KeysHaveIndices(c, keys, i);
    hide IndexOf, Indices, Peer, AreSigners;
    assert Lock.PhaseOf(s.locks, i).Idle?;
  }

  function JoinOne(i: nat, key: string): seq<Action> {
    [Request(i, Peer(i), key), Enter(i), ReplySent(i), Leave(i)]
  }

  /** After its reply the handler leaves; the session is not complete by it. */
  lemma RepliesAndLeaves(c: Session, s: State, h: nat)
    requires InStage(s, h, Replying(true)) && Lock.Holds(s.locks, h, c.sessionId) && |s.participants| != |c.signers| - 1
    ensures var s' := Step(c, Step(c, s, ReplySent(h)), Leave(h));
            && s'.locks == Lock.Step(s.locks, Lock.Release(h)) && s'.participants == s.participants
            && s'.stored == s.stored && s'.ready == s.ready
            && InStage(s', h, Done) && s'.handlers == s.handlers[h := s'.handlers[h]]
  {
    hide IndexOf, Indices, Admits, Lock.Step;
  }

  lemma IdleAgain(l: Lock.System, h: nat, session: string)
    requires session !in l.lock.locks && forall g :: Lock.PhaseOf(l, g).Idle?
    ensures var l' := Lock.Granted(l, h, session);
            && Lock.Holds(l', h, session)
            && session !in Lock.Step(l', Lock.Release(h)).lock.locks
            && forall g :: Lock.PhaseOf(Lock.Step(l', Lock.Release(h)), g).Idle?
  {
    forall g
      ensures Lock.PhaseOf(Lock.Step(Lock.Granted(l, h, session), Lock.Release(h)), g).Idle?
    {
      assert Lock.PhaseOf(l, g).Idle?;
    }
  }

  lemma IndicesGrow(c: Session, keys: seq<string>, s: State, i: nat, after: set<nat>)
    requires i < |keys| && Joined(c, keys, s, i) && after == Indices(s.participants) + {IndexOf(c.signers, keys[i])}
    ensures forall x | x in after :: exists j | 0 <= j < i + 1 :: x == IndexOf(c.signers, keys[j])
  {
    hide Indices, IndexOf;
    forall x | x in after
      ensures exists j | 0 <= j < i + 1 :: x == IndexOf(c.signers, keys[j])
    {
      if x in Indices(s.participants) {
        var j :| 0 <= j < i && x == IndexOf(c.signers, keys[j]);
      }
    }
  }

  /** One request comes, is served and goes; the session is not complete by it. */
  lemma OneJoins(c: Session, keys: seq<string>, s: State, i: nat)
    requires c.isCoordinator && AreSigners(c, keys) && i < |keys| && i + 1 != |c.signers| - 1 && Joined(c, keys, s, i)
    ensures Joined(c, keys, Run(c, s, JoinOne(i, keys[i])), i + 1)
  {
    hide Step, Run, IndexOf, Indices, Admits, AreSigners, Lock.Step, Lock.Granted, Lock.PhaseOf, Joined, Lock.Holds;
    LocksIdle(c, keys, s, i);
    FirstRequest(c, keys, s, i);
    RunOfFour(c, s, Request(i, Peer(i), keys[i]), Enter(i), ReplySent(i), Leave(i));
    IdleAgain(s.locks, i, c.sessionId);
    var s1 := Step(c, s, Request(i, Peer(i), keys[i]));
    EnteringAdds(c, s1, i);
    var s2 := Step(c, s1, Enter(i));
    RepliesAndLeaves(c, s2, i);
    IndicesGrow(c, keys, s, i, Indices(s2.participants));
    var s4 := Step(c, Step(c, s2, ReplySent(i)), Leave(i));
    JoinedNext(c, keys, s, i, s4);
  }

  lemma JoinedNext(c: Session, keys: seq<string>, s: State, i: nat, s': State)
    requires i < |keys| && Joined(c, keys, s, i)
    requires s'.stored && s'.ready == [] && c.sessionId !in s'.locks.lock.locks
    requires forall h :: Lock.PhaseOf(s'.locks, h).Idle?
    requires forall h | h in s'.handlers :: h == i || h in s.handlers
    requires |s'.participants| == |s.participants| + 1 && s'.participants.Keys == s.participants.Keys + {Peer(i)}
    requires forall x | x in Indices(s'.participants) :: exists j | 0 <= j < i + 1 :: x == IndexOf(c.signers, keys[j])
    ensures Joined(c, keys, s', i + 1)
  {
    hide Indices, IndexOf, Peer, Lock.PhaseOf;
    forall peer | peer in s'.participants
      ensures |peer| < i + 1
    {
      assert peer in s.participants || peer == Peer(i);
    }
  }

  function JoinInTurn(keys: seq<string>, i: nat): seq<Action>
    requires i <= |keys|
  {
    if i == 0 then [] else JoinInTurn(keys, i - 1) + JoinOne(i - 1, keys[i - 1])
  }

  lemma {:induction false} AllJoinInTurn(c: Session, keys: seq<string>, i: nat)
    requires c.isCoordinator && AreSigners(c, keys) && i <= |keys| && i < |c.signers| - 1
    ensures Joined(c, keys, Run(c, START, JoinInTurn(keys, i)), i)
    ensures NobodyRemoved(JoinInTurn(keys, i))
  {
    hide Joined, AreSigners, Step;
    if i == 0 {
      NobodyJoined(c, keys);
    } else {
      AllJoinInTurn(c, keys, i - 1);
      RunAppend(c, START, JoinInTurn(keys, i - 1), JoinOne(i - 1, keys[i - 1]));
      OneJoins(c, keys, Run(c, START, JoinInTurn(keys, i - 1)), i - 1);
    }
  }

  lemma NobodyJoined(c: Session, keys: seq<string>)
    ensures Joined(c, keys, START, 0)
  {
  }

  /** Three requests come in at once; the second and the third wait until the first has left. */
  function ThreeComeIn(keys: seq<string>, i: nat): seq<Action>
    requires i + 3 <= |keys|
  {
    [Request(i, Peer(i), keys[i]), Request(i + 1, Peer(i + 1), keys[i + 1]), Request(i + 2, Peer(i + 2), keys[i + 2]), Enter(i)]
    + [ReplySent(i), Leave(i), Wake(i + 1), Wake(i + 2)]
  }

  function TwoGoOn(i: nat): seq<Action> {
    [Enter(i + 1), Enter(i + 2), ReplySent(i + 1), ReplySent(i + 2)]
  }

  /** What the lock does with three callers of which two come while the first one holds it. */
  lemma TwoGetIn(l: Lock.System, a: nat, b: nat, d: nat, session: string)
    requires a != b && b != d && a != d && session !in l.lock.locks
    requires Lock.PhaseOf(l, a).Idle? && Lock.PhaseOf(l, b).Idle? && Lock.PhaseOf(l, d).Idle?
    ensures var l3 := Lock.Step(Lock.Step(Lock.Step(l, Lock.Begin(a, session)), Lock.Begin(b, session)), Lock.Begin(d, session));
            var l5 := Lock.Step(Lock.Step(Lock.Step(l3, Lock.Release(a)), Lock.Resume(b)), Lock.Resume(d));
            Lock.Holds(l3, a, session) && Lock.Holds(l5, b, session) && Lock.Holds(l5, d, session)
  {
    var l1 := Lock.Step(l, Lock.Begin(a, session));
    assert session in l1.lock.locks && Lock.PhaseOf(l1, b).Idle? && Lock.PhaseOf(l1, d).Idle?;
    var p := l1.lock.locks[session];
    assert Lock.PhaseOf(l1, a) == Lock.Holding(session, p);
    var l2 := Lock.Step(l1, Lock.Begin(b, session));
    assert Lock.PhaseOf(l2, b) == Lock.Waiting(session, p) && l2.lock == l1.lock;
    var l3 := Lock.Step(l2, Lock.Begin(d, session));
    assert Lock.PhaseOf(l3, d) == Lock.Waiting(session, p) && l3.lock == l1.lock;
    var l4 := Lock.Step(l3, Lock.Release(a));
    assert p in l4.lock.resolved;
    var l5 := Lock.Step(l4, Lock.Resume(b));
    assert p in l5.lock.resolved && Lock.PhaseOf(l5, d) == Lock.Waiting(session, p);
  }

  lemma FirstStillHolds(l: Lock.System, a: nat, b: nat, d: nat, session: string)
    requires a != b && b != d && a != d && session !in l.lock.locks
    requires Lock.PhaseOf(l, a).Idle? && Lock.PhaseOf(l, b).Idle? && Lock.PhaseOf(l, d).Idle?
    ensures Lock.Holds(Lock.Step(Lock.Step(Lock.Step(l, Lock.Begin(a, session)), Lock.Begin(b, session)),
                                 Lock.Begin(d, session)), a, session)
  {
    TwoGetIn(l, a, b, d, session);
  }

  /** What a request does to the handlers and the lock. */
  lemma RequestComesIn(c: Session, s: State, h: nat, peer: string, key: string)
    requires s.stored && c.isCoordinator && h !in s.handlers && IndexOf(c.signers, key) < |c.signers|
    ensures Step(c, s, Request(h, peer, key))
            == s.(handlers := s.handlers[h := Handler(peer, key, Locking)], locks := Lock.Step(s.locks, Lock.Begin(h, c.sessionId)))
  {
  }

  lemma WakeMovesLock(c: Session, s: State, h: nat)
    requires InStage(s, h, Locking)
    ensures Step(c, s, Wake(h)) == s.(locks := Lock.Step(s.locks, Lock.Resume(h)))
  {
    hide Lock.Step;
    assert s.handlers[h := s.handlers[h].(stage := Locking)] == s.handlers;
  }

  lemma ThreeRequests(c: Session, s: State, a1: Action, a2: Action, a3: Action)
    requires s.stored && c.isCoordinator && a1.Request? && a2.Request? && a3.Request?
    requires a1.handler != a2.handler && a2.handler != a3.handler && a1.handler != a3.handler
    requires a1.handler !in s.handlers && a2.handler !in s.handlers && a3.handler !in s.handlers
    requires IndexOf(c.signers, a1.key) < |c.signers| && IndexOf(c.signers, a2.key) < |c.signers|
    requires IndexOf(c.signers, a3.key) < |c.signers|
    ensures var s' := Step(c, Step(c, Step(c, s, a1), a2), a3);
            && s'.locks == Lock.Step(Lock.Step(Lock.Step(s.locks, Lock.Begin(a1.handler, c.sessionId)),
                                               Lock.Begin(a2.handler, c.sessionId)), Lock.Begin(a3.handler, c.sessionId))
            && a1.handler in s'.handlers && s'.handlers[a1.handler] == Handler(a1.peer, a1.key, Locking)
            && a2.handler in s'.handlers && s'.handlers[a2.handler] == Handler(a2.peer, a2.key, Locking)
            && a3.handler in s'.handlers && s'.handlers[a3.handler] == Handler(a3.peer, a3.key, Locking)
            && s'.stored == s.stored && s'.participants == s.participants && s'.ready == s.ready
  {
    hide Step, Lock.Step, IndexOf;
    RequestComesIn(c, s, a1.handler, a1.peer, a1.key);
    RequestComesIn(c, Step(c, s, a1), a2.handler, a2.peer, a2.key);
    RequestComesIn(c, Step(c, Step(c, s, a1), a2), a3.handler, a3.peer, a3.key);
  }

  /** Three requests have come in and the first has entered. */
  lemma FirstOfThreeEnters(c: Session, keys: seq<string>, s: State, i: nat)
    requires c.isCoordinator && AreSigners(c, keys) && i + 3 <= |keys| && Joined(c, keys, s, i)
    ensures var s' := Run(c, s, [Request(i, Peer(i), keys[i]), Request(i + 1, Peer(i + 1), keys[i + 1]),
                                 Request(i + 2, Peer(i + 2), keys[i + 2]), Enter(i)]);
            && s'.locks == Lock.Step(Lock.Step(Lock.Step(s.locks, Lock.Begin(i, c.sessionId)),
                                               Lock.Begin(i + 1, c.sessionId)), Lock.Begin(i + 2, c.sessionId))
            && InStage(s', i, Replying(true))
            && i + 1 in s'.handlers && s'.handlers[i + 1] == Handler(Peer(i + 1), keys[i + 1], Locking)
            && i + 2 in s'.handlers && s'.handlers[i + 2] == Handler(Peer(i + 2), keys[i + 2], Locking)
            && s'.stored && s'.ready == [] && |s'.participants| == i + 1
            && s'.participants.Keys == s.participants.Keys + {Peer(i)}
            && Indices(s'.participants) == Indices(s.participants) + {IndexOf(c.signers, keys[i])}
  {
    hide Step, Run, IndexOf, Indices, Admits, Peer, AreSigners, Lock.Step, Lock.Granted, Lock.Holds, Lock.PhaseOf, Joined;
    KeysHaveIndices(c, keys, i);
    KeysHaveIndices(c, keys, i + 1);
    KeysHaveIndices(c, keys, i + 2);
    var a1, a2 := Request(i, Peer(i), keys[i]), Request(i + 1, Peer(i + 1), keys[i + 1]);
    var a3 := Request(i + 2, Peer(i + 2), keys[i + 2]);
    LocksIdle(c, keys, s, i);
    FirstStillHolds(s.locks, i, i + 1, i + 2, c.sessionId);
    FirstRequest(c, keys, s, i);
    ThreeRequests(c, s, a1, a2, a3);
    RunOfFour(c, s, a1, a2, a3, Enter(i));
    var s1, s3 := Step(c, s, a1), Step(c, Step(c, Step(c, s, a1), a2), a3);
    StillAdmitted(c, s1, s3, i);
    EnteringAdds(c, s3, i);
  }

  /** The one inside goes and wakes the other two. */
  lemma FirstGoes(c: Session, s: State, i: nat)
    requires InStage(s, i, Replying(true)) && Lock.Holds(s.locks, i, c.sessionId) && |s.participants| != |c.signers| - 1
    requires InStage(s, i + 1, Locking) && InStage(s, i + 2, Locking)
    ensures var s' := Run(c, s, [ReplySent(i), Leave(i), Wake(i + 1), Wake(i + 2)]);
            && s'.locks == Lock.Step(Lock.Step(Lock.Step(s.locks, Lock.Release(i)), Lock.Resume(i + 1)), Lock.Resume(i + 2))
            && s'.participants == s.participants && s'.stored == s.stored && s'.ready == s.ready
            && InStage(s', i, Done) && s'.handlers == s.handlers[i := s'.handlers[i]]
  {
    hide Step, Run, Lock.Step, Lock.Holds;
    RunOfFour(c, s, ReplySent(i), Leave(i), Wake(i + 1), Wake(i + 2));
    RepliesAndLeaves(c, s, i);
    var s2 := Step(c, Step(c, s, ReplySent(i)), Leave(i));
    assert s2.handlers[i + 1] == s.handlers[i + 1] && s2.handlers[i + 2] == s.handlers[i + 2];
    WakeMovesLock(c, s2, i + 1);
    var s3 := Step(c, s2, Wake(i + 1));
    WakeMovesLock(c, s3, i + 2);
  }

  /** Of three that come in at once, two end up inside together. */
  lemma TwoInside(c: Session, keys: seq<string>, s: State, i: nat)
    requires c.isCoordinator && AreSigners(c, keys) && i + 3 == |keys| <= |c.signers| && Joined(c, keys, s, i)
    ensures var s' := Run(c, s, ThreeComeIn(keys, i));
            && InStage(s', i, Done)
            && Lock.Holds(s'.locks, i + 1, c.sessionId) && Lock.Holds(s'.locks, i + 2, c.sessionId)
            && i + 1 in s'.handlers && s'.handlers[i + 1] == Handler(Peer(i + 1), keys[i + 1], Locking)
            && i + 2 in s'.handlers && s'.handlers[i + 2] == Handler(Peer(i + 2), keys[i + 2], Locking)
            && s'.stored && s'.ready == [] && |s'.participants| == i + 1
            && s'.participants.Keys == s.participants.Keys + {Peer(i)}
            && Indices(s'.participants) == Indices(s.participants) + {IndexOf(c.signers, keys[i])}
  {
    hide Step, Run, IndexOf, Indices, Admits, Peer, AreSigners, Joined, Lock.Step, Lock.Holds;
    LocksIdle(c, keys, s, i);
    TwoGetIn(s.locks, i, i + 1, i + 2, c.sessionId);
    FirstOfThreeEnters(c, keys, s, i);
    var first := [Request(i, Peer(i), keys[i]), Request(i + 1, Peer(i + 1), keys[i + 1]),
                  Request(i + 2, Peer(i + 2), keys[i + 2]), Enter(i)];
    var second := [ReplySent(i), Leave(i), Wake(i + 1), Wake(i + 2)];
    assert ThreeComeIn(keys, i) == first + second;
    RunAppend(c, s, first, second);
    FirstGoes(c, Run(c, s, first), i);
  }

  lemma LocksIdle(c: Session, keys: seq<string>, s: State, i: nat)
    requires i <= |keys| && Joined(c, keys, s, i)
    ensures c.sessionId !in s.locks.lock.locks && forall h :: Lock.PhaseOf(s.locks, h).Idle?
    ensures s.stored && s.ready == [] && |s.participants| == i && forall h | h in s.handlers :: h < i
  {
  }

  lemma StillAdmitted(c: Session, s: State, s': State, h: nat)
    requires h in s.handlers && h in s'.handlers && s.handlers[h] == s'.handlers[h] && Admits(c, s, h)
    requires s'.stored && s'.participants == s.participants
    ensures Admits(c, s', h)
  {
  }

  lemma StillWanted(c: Session, keys: seq<string>, s: State, i: nat, k: nat, s': State)
    requires AreSigners(c, keys) && i < k < |keys| && Joined(c, keys, s, i)
    requires k in s'.handlers && s'.handlers[k] == Handler(Peer(k), keys[k], Locking) && s'.stored
    requires s'.participants.Keys == s.participants.Keys + {Peer(i)}
    requires Indices(s'.participants) == Indices(s.participants) + {IndexOf(c.signers, keys[i])}
    ensures Admits(c, s', k)
  {
    KeysHaveIndices(c, keys, k);
    hide Indices, IndexOf, Peer;
    assert |Peer(i)| == i && |Peer(k)| == k;
  }

  lemma TwoFinish(c: Session, s: State, i: nat, key1: string, key2: string)
    requires i + 1 in s.handlers && s.handlers[i + 1] == Handler(Peer(i + 1), key1, Locking)
    requires i + 2 in s.handlers && s.handlers[i + 2] == Handler(Peer(i + 2), key2, Locking)
    requires Lock.Holds(s.locks, i + 1, c.sessionId) && Lock.Holds(s.locks, i + 2, c.sessionId)
    requires Admits(c, s, i + 1) && Admits(c, s, i + 2) && |s.participants| == |c.signers| - 3
    requires IndexOf(c.signers, key1) != IndexOf(c.signers, key2)
    ensures |Run(c, s, TwoGoOn(i)).ready| == |s.ready| + 2
  {
    hide IndexOf, Run, Step, Admits, Lock.Holds;
    RunOfFour(c, s, Enter(i + 1), Enter(i + 2), ReplySent(i + 1), ReplySent(i + 2));
    assert |Peer(i + 1)| == i + 1 && |Peer(i + 2)| == i + 2;
    ReadyTwice(c, s, i + 1, i + 2);
  }

  lemma BothFindItReady(c: Session, keys: seq<string>, s: State, i: nat)
    requires c.isCoordinator && AreSigners(c, keys) && i + 3 == |keys| && |c.signers| == i + 4 && Joined(c, keys, s, i)
    ensures |Run(c, s, ThreeComeIn(keys, i) + TwoGoOn(i)).ready| == 2
  {
    hide IndexOf, Indices, Run, Step, Joined, AreSigners, Admits, Lock.Holds, ThreeComeIn, TwoGoOn, Peer;
    KeysHaveIndices(c, keys, i + 1);
    TwoInside(c, keys, s, i);
    var s' := Run(c, s, ThreeComeIn(keys, i));
    StillWanted(c, keys, s, i, i + 1, s');
    StillWanted(c, keys, s, i, i + 2, s');
    RunAppend(c, s, ThreeComeIn(keys, i), TwoGoOn(i));
    TwoFinish(c, s', i, keys[i + 1], keys[i + 2]);
  }

  lemma {:induction false} PickKeys(keys: set<string>, n: nat) returns (picked: seq<string>)
    requires n <= |keys|
    ensures |picked| == n && Distinct(picked) && forall j | 0 <= j < n :: picked[j] in keys
  {
    if n == 0 {
      picked := [];
    } else {
      var key :| key in keys;
      picked := PickKeys(keys - {key}, n - 1);
      picked := picked + [key];
    }
  }

  /** With four signers or more SESSION_READY can be emitted twice: the first join in turn, and of the
      last three that come in at once two get inside together. */
  lemma ReadyTwiceHappens(c: Session) returns (run: seq<Action>)
    requires c.isCoordinator && |c.signers| >= 4 && |KeySet(c)| >= |c.signers| - 1
    ensures NobodyRemoved(run) && |After(c, run, |run|).ready| == 2
  {
    hide Run, Joined, Step, After, JoinInTurn;
    var i := |c.signers| - 4;
    var keys := PickKeys(KeySet(c), i + 3);
    assert AreSigners(c, keys);
    AllJoinInTurn(c, keys, i);
    var before := JoinInTurn(keys, i);
    BothFindItReady(c, keys, Run(c, START, before), i);
    RunAppend(c, START, before, ThreeComeIn(keys, i) + TwoGoOn(i));
    run := before + (ThreeComeIn(keys, i) + TwoGoOn(i));
    RunIsAfter(c, run, |run|);
    assert run[..|run|] == run;
  }

  /** Unless participants are removed, SESSION_READY is emitted at most once in every run exactly
      when this peer does not coordinate, there are at most three signers, or so many of them share a
      key that the session can never be complete. */
  lemma ReadyOnceExactly(c: Session)
    ensures (forall run: seq<Action>, n: nat | n <= |run| && NobodyRemoved(run) :: |After(c, run, n).ready| <= 1)
            <==> !c.isCoordinator || |c.signers| <= 3 || |KeySet(c)| < |c.signers| - 1
  {
    hide KeySet, After;
    if c.isCoordinator && |c.signers| > 3 && |KeySet(c)| >= |c.signers| - 1 {
      var run := ReadyTwiceHappens(c);
      assert !(|After(c, run, |run|).ready| <= 1);
    } else {
      forall run: seq<Action>, n: nat | n <= |run| && NobodyRemoved(run)
        ensures |After(c, run, n).ready| <= 1
      {
        if !c.isCoordinator {
          NoCoordinatorNoHandler(c, run, n);
        } else if |c.signers| <= 3 {
          FewSignersReadyOnce(c, run, n);
        } else {
          FewKeysNeverReady(c, run, n);
        }
      }
    }
  }
}
