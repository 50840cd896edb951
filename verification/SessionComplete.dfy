/** Whether a complete session is noticed: SESSION_READY is emitted by the handler that sends the reply
    with which the session is complete, so a listener that throws there, or two replies at once, can miss
    the moment. */
module SessionComplete {
  import Lock = SessionLocks
  import opened SessionJoin
  import opened SessionReady
  import opened Sorting

  /** Enough participants have joined, nobody is about to reply, and SESSION_READY was never emitted. */
  ghost predicate Missed(c: Session, s: State) {
    s.participants != map[] && |s.participants| >= |c.signers| - 1 && s.ready == [] && NoReplyOpen(s)
  }

  ghost predicate NoListenerThrows(run: seq<Action>) {
    forall i | 0 <= i < |run| :: !run[i].ListenerThrows?
  }

  // ---------------------------------------------------------------- with exactly n - 1 participants

  /** With exactly n - 1 participants the session was found ready, or somebody will find it so. */
  ghost predicate Noticed(c: Session, s: State) {
    s.participants != map[] && |s.participants| == |c.signers| - 1 ==> s.ready != [] || !NoReplyOpen(s)
  }

  /** A reply stays open until it is sent, which finds a complete session ready. */
  lemma RepliesStayOpen(c: Session, s: State, a: Action, g: nat)
    requires !a.RemoveParticipant? && !a.ListenerThrows? && InStage(s, g, Replying(true))
    ensures var s' := Step(c, s, a);
            || InStage(s', g, Replying(true))
            || (s'.participants == s.participants && (|s.participants| == |c.signers| - 1 ==> s'.ready != []))
    ensures Step(c, s, a).ready == [] ==> s.ready == []
  {
    hide Lock.Step, Lock.Holds, IndexOf, Indices, Admits;
  }

  lemma StepKeepsNoticed(c: Session, s: State, a: Action)
    requires Noticed(c, s) && !a.RemoveParticipant? && !a.ListenerThrows?
    ensures Noticed(c, Step(c, s, a))
  {
    hide Step, InStage, Admission;
    var s' := Step(c, s, a);
    if Admission(c, s, a) {
      AdmissionReplies(c, s, a);
    } else {
      NobodyNew(c, s, a);
      if g :| InStage(s, g, Replying(true)) {
        RepliesStayOpen(c, s, a, g);
      }
    }
  }

  lemma AdmissionReplies(c: Session, s: State, a: Action)
    requires Admission(c, s, a)
    ensures InStage(Step(c, s, a), a.handler, Replying(true)) && |Step(c, s, a).participants| == |s.participants| + 1
  {
    EnteringAdds(c, s, a.handler);
  }

  /** If no listener throws and nobody is removed, a session of exactly n - 1 participants is always noticed. */
  lemma {:induction false} CompleteIsNoticed(c: Session, run: seq<Action>, n: nat)
    requires n <= |run| && NobodyRemoved(run) && NoListenerThrows(run)
    ensures Noticed(c, After(c, run, n))
  {
    hide Step, Noticed;
    if n > 0 {
      CompleteIsNoticed(c, run, n - 1);
      StepKeepsNoticed(c, After(c, run, n - 1), run[n - 1]);
    } else {
      NoticedAtStart(c);
    }
  }

  lemma NoticedAtStart(c: Session)
    ensures Noticed(c, START)
  {
  }

  /** So it is in every run in which nobody asks to join with the coordinator's own key. */
  lemma NeverMissedWithoutOwnKey(c: Session, run: seq<Action>, n: nat)
    requires n <= |run| && NobodyRemoved(run) && NoListenerThrows(run)
    requires c.myIndex < |c.signers| && OwnKeyUnused(c, run)
    ensures !Missed(c, After(c, run, n))
  {
    hide After, IndexOf, OwnKeyUnused;
    var participants := After(c, run, n).participants;
    CompleteIsNoticed(c, run, n);
    ParticipantsAreDistinct(c, run, n);
    OwnKeyStaysOut(c, run, n);
    AsManyIndicesAsPeers(participants);
    assert forall peer | peer in participants :: participants[peer].signerIndex != c.myIndex;
    Pigeonhole(Indices(participants) + {c.myIndex}, |c.signers|);
  }

  // ---------------------------------------------------------------- two signers

  /** With two signers the second to join finds that the first was answered. */
  ghost predicate FirstWasNoticed(s: State) {
    |s.participants| >= 2 ==> s.ready != []
  }

  lemma StepKeepsFirstNoticed(c: Session, s: State, a: Action)
    requires |c.signers| == 2 && Once(c, s) && Noticed(c, s) && FirstWasNoticed(s)
    requires !a.RemoveParticipant? && !a.ListenerThrows?
    ensures FirstWasNoticed(Step(c, s, a))
  {
    hide Step, Early, Late, RepliesOpen, FoundOnce, NoReplyOpen, IndexOf, Indices, Admits, Lock.Holds;
    if Admission(c, s, a) {
      if |s.participants| == 1 {
        CompletingAlone(c, s, a.handler);
      }
      EnteringAdds(c, s, a.handler);
    } else {
      NobodyNew(c, s, a);
    }
  }

  lemma {:induction false} TwoSignersNoticed(c: Session, run: seq<Action>, n: nat)
    requires n <= |run| && NobodyRemoved(run) && NoListenerThrows(run) && |c.signers| == 2
    ensures FirstWasNoticed(After(c, run, n))
  {
    hide Step, Once, Noticed;
    if n > 0 {
      TwoSignersNoticed(c, run, n - 1);
      FewSignersReadyOnce(c, run, n - 1);
      CompleteIsNoticed(c, run, n - 1);
      StepKeepsFirstNoticed(c, After(c, run, n - 1), run[n - 1]);
    }
  }

  // ---------------------------------------------------------------- runs that miss it

  lemma {:induction false} EveryoneInPlace(c: Session, run: seq<Action>, n: nat)
    requires n <= |run|
    ensures forall h :: InPlace(c, After(c, run, n), h)
  {
    hide Step, InPlace;
    if n > 0 {
      EveryoneInPlace(c, run, n - 1);
      forall h
        ensures InPlace(c, After(c, run, n), h)
      {
        HandlerStaysInPlace(c, After(c, run, n - 1), run[n - 1], h);
      }
    } else {
      forall h
        ensures InPlace(c, START, h)
      {
        PlaceAtStart(c, h);
      }
    }
  }

  lemma PlaceAtStart(c: Session, h: nat)
    ensures InPlace(c, START, h)
  {
  }

  /** Where everyone in the session has come and gone, no reply is open. */
  lemma JoinedAndGone(c: Session, keys: seq<string>, run: seq<Action>, i: nat)
    requires i <= |keys| && Joined(c, keys, Run(c, START, run), i)
    ensures NoReplyOpen(Run(c, START, run))
  {
    RunIsAfter(c, run, |run|);
    assert run[..|run|] == run;
    EveryoneInPlace(c, run, |run|);
    var s := Run(c, START, run);
    forall g
      ensures !InStage(s, g, Replying(true))
    {
      assert InPlace(c, s, g);
    }
  }

  lemma {:induction false} OnlyTheseReply(c: Session, s: State, actions: seq<Action>, these: set<nat>)
    requires NobodyRemoved(actions) && forall k | 0 <= k < |actions| && actions[k].Enter? :: actions[k].handler in these
    requires forall g | InStage(s, g, Replying(true)) :: g in these
    ensures forall g | InStage(Run(c, s, actions), g, Replying(true)) :: g in these
  {
    hide Step, Indices;
    if actions != [] {
      var front, a := actions[..|actions| - 1], actions[|actions| - 1];
      OnlyTheseReply(c, s, front, these);
      if Admission(c, Run(c, s, front), a) {
        EnteringAdds(c, Run(c, s, front), a.handler);
      } else {
        NobodyNew(c, Run(c, s, front), a);
      }
    }
  }

  function LastThrows(i: nat, key: string): seq<Action> {
    [Request(i, Peer(i), key), Enter(i), ListenerThrows(i), Leave(i)]
  }

  lemma NextIsAdmitted(c: Session, keys: seq<string>, s: State, i: nat)
    requires c.isCoordinator && AreSigners(c, keys) && i < |keys| && Joined(c, keys, s, i)
    ensures var s2 := Step(c, Step(c, s, Request(i, Peer(i), keys[i])), Enter(i));
            InStage(s2, i, Replying(true)) && |s2.participants| == i + 1 && s2.ready == []
  {
    hide Run, Step, Joined, Admits, IndexOf, Indices, AreSigners, Peer, Lock.Step, Lock.Granted, Lock.Holds, Lock.PhaseOf;
    FirstRequest(c, keys, s, i);
    LocksIdle(c, keys, s, i);
    IdleAgain(s.locks, i, c.sessionId);
    EnteringAdds(c, Step(c, s, Request(i, Peer(i), keys[i])), i);
  }

  /** A listener throws when the one who completes the session is announced. */
  lemma ThrowingMisses(c: Session, keys: seq<string>, s: State, i: nat)
    requires c.isCoordinator && AreSigners(c, keys) && i < |keys| && Joined(c, keys, s, i) && NoReplyOpen(s)
    requires i + 1 >= |c.signers| - 1
    ensures Missed(c, Run(c, s, LastThrows(i, keys[i])))
  {
    hide Run, Step, Joined, AreSigners, Peer;
    var a := Request(i, Peer(i), keys[i]);
    NextIsAdmitted(c, keys, s, i);
    RunOfFour(c, s, a, Enter(i), ListenerThrows(i), Leave(i));
    OnlyTheseReply(c, s, LastThrows(i, keys[i]), {i});
    ThrowsAndLeaves(c, Step(c, Step(c, s, a), Enter(i)), i);
  }

  lemma ThrowsAndLeaves(c: Session, s: State, h: nat)
    requires InStage(s, h, Replying(true))
    ensures var s' := Step(c, Step(c, s, ListenerThrows(h)), Leave(h));
            && InStage(s', h, Done) && s'.participants == s.participants && s'.ready == s.ready
  {
    hide IndexOf, Indices, Admits, Lock.Step;
  }

  /** Two inside at once for the last two places of all n, the coordinator's own among them: when
      the replies go out there are n participants already. */
  lemma BothTooLate(c: Session, s: State, g: nat, h: nat)
    requires g != h && InStage(s, g, Locking) && InStage(s, h, Locking)
    requires Lock.Holds(s.locks, g, c.sessionId) && Lock.Holds(s.locks, h, c.sessionId)
    requires Admits(c, s, g) && Admits(c, s, h) && |s.participants| == |c.signers| - 2
    requires s.handlers[g].peer != s.handlers[h].peer
    requires IndexOf(c.signers, s.handlers[g].key) != IndexOf(c.signers, s.handlers[h].key)
    ensures var s' := Step(c, Step(c, Step(c, Step(c, s, Enter(g)), Enter(h)), ReplySent(g)), ReplySent(h));
            s'.ready == s.ready && |s'.participants| == |c.signers| && InStage(s', g, Leaving) && InStage(s', h, Leaving)
  {
    hide IndexOf;
    var s1 := Step(c, s, Enter(g));
    EnteringAdds(c, s, g);
    assert s1.handlers[h] == s.handlers[h];
    assert Admits(c, s1, h);
    var s2 := Step(c, s1, Enter(h));
    EnteringAdds(c, s1, h);
    hide Step, Admits, Indices;
    RepliesTooLate(c, s2, g, h);
  }

  lemma RepliesTooLate(c: Session, s: State, g: nat, h: nat)
    requires g != h && InStage(s, g, Replying(true)) && InStage(s, h, Replying(true)) && |s.participants| == |c.signers|
    ensures var s' := Step(c, Step(c, s, ReplySent(g)), ReplySent(h));
            && s'.ready == s.ready && s'.participants == s.participants
            && InStage(s', g, Leaving) && InStage(s', h, Leaving)
  {
    hide Indices, IndexOf, Admits, Lock.Step;
  }

  lemma OnlyTwoReply(c: Session, keys: seq<string>, s: State, i: nat)
    requires c.isCoordinator && AreSigners(c, keys) && i + 3 == |keys| == |c.signers| && Joined(c, keys, s, i) && NoReplyOpen(s)
    ensures forall g | InStage(Run(c, Run(c, s, ThreeComeIn(keys, i)), TwoGoOn(i)), g, Replying(true)) :: g in {i + 1, i + 2}
  {
    hide IndexOf, Indices, Run, Step, Joined, AreSigners, Admits, Lock.Holds, Peer;
    TwoInside(c, keys, s, i);
    OnlyTheseReply(c, s, ThreeComeIn(keys, i), {i});
    OnlyTheseReply(c, Run(c, s, ThreeComeIn(keys, i)), TwoGoOn(i), {i + 1, i + 2});
  }

  lemma TwoTooLate(c: Session, s: State, i: nat, key1: string, key2: string)
    requires i + 1 in s.handlers && s.handlers[i + 1] == Handler(Peer(i + 1), key1, Locking)
    requires i + 2 in s.handlers && s.handlers[i + 2] == Handler(Peer(i + 2), key2, Locking)
    requires Lock.Holds(s.locks, i + 1, c.sessionId) && Lock.Holds(s.locks, i + 2, c.sessionId)
    requires Admits(c, s, i + 1) && Admits(c, s, i + 2) && |s.participants| == |c.signers| - 2
    requires IndexOf(c.signers, key1) != IndexOf(c.signers, key2)
    ensures var s' := Run(c, s, TwoGoOn(i));
            s'.ready == s.ready && |s'.participants| == |c.signers| && InStage(s', i + 1, Leaving) && InStage(s', i + 2, Leaving)
  {
    hide IndexOf, Run, Step, Admits, Lock.Holds;
    RunOfFour(c, s, Enter(i + 1), Enter(i + 2), ReplySent(i + 1), ReplySent(i + 2));
    assert |Peer(i + 1)| == i + 1 && |Peer(i + 2)| == i + 2;
    BothTooLate(c, s, i + 1, i + 2);
  }

  lemma NobodyReplies(c: Session, s: State, a: nat, b: nat)
    requires forall g | InStage(s, g, Replying(true)) :: g in {a, b}
    requires InStage(s, a, Leaving) && InStage(s, b, Leaving) && s.ready == [] && |s.participants| == |c.signers| > 0
    ensures Missed(c, s)
  {
  }

  lemma OvertakenMisses(c: Session, keys: seq<string>, s: State, i: nat)
    requires c.isCoordinator && AreSigners(c, keys) && i + 3 == |keys| == |c.signers| && Joined(c, keys, s, i) && NoReplyOpen(s)
    ensures Missed(c, Run(c, s, ThreeComeIn(keys, i) + TwoGoOn(i)))
  {
    hide IndexOf, Indices, Run, Step, Joined, AreSigners, Admits, Lock.Holds, ThreeComeIn, TwoGoOn, Peer;
    hide InStage, NoReplyOpen, Missed;
    KeysHaveIndices(c, keys, i + 1);
    TwoInside(c, keys, s, i);
    var s' := Run(c, s, ThreeComeIn(keys, i));
    StillWanted(c, keys, s, i, i + 1, s');
    StillWanted(c, keys, s, i, i + 2, s');
    RunAppend(c, s, ThreeComeIn(keys, i), TwoGoOn(i));
    TwoTooLate(c, s', i, keys[i + 1], keys[i + 2]);
    OnlyTwoReply(c, keys, s, i);
    NobodyReplies(c, Run(c, s', TwoGoOn(i)), i + 1, i + 2);
  }

  // ---------------------------------------------------------------- which sessions can be missed

  /** The first `i` of `keys` join in turn and go. */
  lemma InTurn(c: Session, keys: seq<string>, i: nat)
    requires c.isCoordinator && AreSigners(c, keys) && i <= |keys| && (i < |c.signers| - 1 || i == 0)
    ensures var s := Run(c, START, JoinInTurn(keys, i));
            Joined(c, keys, s, i) && NoReplyOpen(s) && NobodyRemoved(JoinInTurn(keys, i))
  {
    hide Joined, AreSigners, NoReplyOpen, Run, Step;
    if i == 0 {
      NobodyJoined(c, keys);
      NothingRun(c);
    } else {
      AllJoinInTurn(c, keys, i);
    }
    JoinedAndGone(c, keys, JoinInTurn(keys, i), i);
  }

  lemma NothingRun(c: Session)
    ensures Run(c, START, []) == START
  {
  }

  lemma {:induction false} JoiningThrowsNothing(keys: seq<string>, i: nat)
    requires i <= |keys|
    ensures NoListenerThrows(JoinInTurn(keys, i))
  {
    if i > 0 {
      JoiningThrowsNothing(keys, i - 1);
    }
  }

  lemma FromTheStart(c: Session, before: seq<Action>, last: seq<Action>)
    ensures After(c, before + last, |before + last|) == Run(c, Run(c, START, before), last)
  {
    hide Run, Step;
    RunAppend(c, START, before, last);
    RunIsAfter(c, before + last, |before + last|);
    assert (before + last)[..|before + last|] == before + last;
  }

  /** If all n keys ask to join, the coordinator's own included, a session of three or more is missed when
      the last two get inside together, and a session of one when its only key joins. */
  lemma OwnKeyMisses(c: Session) returns (run: seq<Action>)
    requires c.isCoordinator && |KeySet(c)| >= |c.signers| && |c.signers| !in {0, 2}
    ensures NobodyRemoved(run) && NoListenerThrows(run) && Missed(c, After(c, run, |run|))
  {
    hide Run, Joined, Step, After, JoinInTurn, NoReplyOpen, Missed, KeySet;
    var n := |c.signers|;
    var keys := PickedKeys(c, n);
    var i := if n == 1 then 0 else n - 3;
    InTurn(c, keys, i);
    JoiningThrowsNothing(keys, i);
    var before := JoinInTurn(keys, i);
    if n == 1 {
      OnlySignerMisses(c, keys, Run(c, START, before));
      run := before + JoinOne(0, keys[0]);
      FromTheStart(c, before, JoinOne(0, keys[0]));
    } else {
      OvertakenMisses(c, keys, Run(c, START, before), i);
      run := before + (ThreeComeIn(keys, i) + TwoGoOn(i));
      FromTheStart(c, before, ThreeComeIn(keys, i) + TwoGoOn(i));
    }
  }

  lemma PickedKeys(c: Session, n: nat) returns (keys: seq<string>)
    requires n <= |KeySet(c)|
    ensures |keys| == n && AreSigners(c, keys)
  {
    keys := PickKeys(KeySet(c), n);
  }

  lemma OnlySignerMisses(c: Session, keys: seq<string>, s: State)
    requires c.isCoordinator && AreSigners(c, keys) && |keys| == |c.signers| == 1 && Joined(c, keys, s, 0) && NoReplyOpen(s)
    ensures Missed(c, Run(c, s, JoinOne(0, keys[0])))
  {
    hide Run, Step, Joined, AreSigners;
    OneJoins(c, keys, s, 0);
    OnlyTheseReply(c, s, JoinOne(0, keys[0]), {0});
    OneHasLeft(c, keys, s);
    LocksIdle(c, keys, Run(c, s, JoinOne(0, keys[0])), 1);
  }

  lemma OneHasLeft(c: Session, keys: seq<string>, s: State)
    requires c.isCoordinator && AreSigners(c, keys) && |keys| == |c.signers| == 1 && Joined(c, keys, s, 0)
    ensures !InStage(Run(c, s, JoinOne(0, keys[0])), 0, Replying(true))
  {
    hide Step, Joined, AreSigners;
    var s3 := Run(c, s, JoinOne(0, keys[0])[..3]);
    assert JoinOne(0, keys[0])[..3][..2] == [Request(0, Peer(0), keys[0]), Enter(0)];
    NotReplyingAfter(c, Run(c, s, [Request(0, Peer(0), keys[0]), Enter(0)]), 0);
  }

  lemma NotReplyingAfter(c: Session, s: State, h: nat)
    ensures !InStage(Step(c, Step(c, s, ReplySent(h)), Leave(h)), h, Replying(true))
  {
    hide IndexOf, Indices, Admits, Lock.Step;
  }

  lemma ListenerMisses(c: Session) returns (run: seq<Action>)
    requires c.isCoordinator && |KeySet(c)| >= |c.signers| - 1 && |c.signers| >= 2
    ensures NobodyRemoved(run) && Missed(c, After(c, run, |run|))
  {
    hide Run, Joined, Step, After, JoinInTurn, NoReplyOpen, Missed, KeySet;
    var i := |c.signers| - 2;
    var keys := PickedKeys(c, i + 1);
    InTurn(c, keys, i);
    var before := JoinInTurn(keys, i);
    ThrowingMisses(c, keys, Run(c, START, before), i);
    run := before + LastThrows(i, keys[i]);
    FromTheStart(c, before, LastThrows(i, keys[i]));
  }

  lemma TooFewToMiss(c: Session, run: seq<Action>, n: nat)
    requires n <= |run| && (!c.isCoordinator || |KeySet(c)| < |c.signers| - 1 || |c.signers| == 0)
    ensures !Missed(c, After(c, run, n))
  {
    hide After, KeySet;
    ParticipantsAreDistinct(c, run, n);
    NoMorePeersThanKeys(c, After(c, run, n).participants);
    if !c.isCoordinator {
      NobodyHasJoined(c, run, n);
    } else if |c.signers| == 0 {
      NoKeys(c);
    }
  }

  lemma NoKeys(c: Session)
    requires |c.signers| == 0
    ensures |KeySet(c)| == 0
  {
  }

  lemma {:induction false} NobodyHasJoined(c: Session, run: seq<Action>, n: nat)
    requires !c.isCoordinator && n <= |run|
    ensures After(c, run, n).participants == map[]
  {
    hide Step;
    if n > 0 {
      NobodyHasJoined(c, run, n - 1);
      NoCoordinatorNoHandler(c, run, n - 1);
      NobodyJoinsNow(c, After(c, run, n - 1), run[n - 1]);
    }
  }

  lemma NobodyJoinsNow(c: Session, s: State, a: Action)
    requires s.participants == map[] && forall h | h in s.handlers :: s.handlers[h].stage == Done
    ensures Step(c, s, a).participants == map[]
  {
    hide Lock.Step, Lock.Holds, IndexOf, Indices, Admits;
  }

  /** While no listener throws, no run without removals misses a complete session exactly when this peer does
      not coordinate, two signers share a key, or there are two signers or none. */
  lemma NoticedUnlessListenersThrowExactly(c: Session)
    ensures (forall run: seq<Action>, n: nat | n <= |run| && NobodyRemoved(run) && NoListenerThrows(run) :: !Missed(c, After(c, run, n)))
            <==> !c.isCoordinator || |KeySet(c)| < |c.signers| || |c.signers| in {0, 2}
  {
    hide After, KeySet, Missed, NobodyRemoved, NoListenerThrows;
    if c.isCoordinator && |KeySet(c)| >= |c.signers| && |c.signers| !in {0, 2} {
      var run := OwnKeyMisses(c);
      assert Missed(c, After(c, run, |run|));
    } else {
      forall run: seq<Action>, n: nat | n <= |run| && NobodyRemoved(run) && NoListenerThrows(run)
        ensures !Missed(c, After(c, run, n))
      {
        if c.isCoordinator && |c.signers| != 0 {
          NotMissed(c, run, n);
        } else {
          TooFewToMiss(c, run, n);
        }
      }
    }
  }

  lemma NotMissed(c: Session, run: seq<Action>, n: nat)
    requires n <= |run| && NobodyRemoved(run) && NoListenerThrows(run) && (|KeySet(c)| < |c.signers| || |c.signers| == 2)
    ensures !Missed(c, After(c, run, n))
  {
    hide After, KeySet;
    CompleteIsNoticed(c, run, n);
    if |c.signers| == 2 {
      TwoSignersNoticed(c, run, n);
    } else {
      ParticipantsAreDistinct(c, run, n);
      NoMorePeersThanKeys(c, After(c, run, n).participants);
    }
  }

  /** If listeners can throw, that is so exactly when this peer does not coordinate or the session can never be complete. */
  lemma NeverMissedExactly(c: Session)
    ensures (forall run: seq<Action>, n: nat | n <= |run| && NobodyRemoved(run) :: !Missed(c, After(c, run, n)))
            <==> !c.isCoordinator || |KeySet(c)| < |c.signers| - 1 || |c.signers| == 0
  {
    hide After, KeySet, Missed, NobodyRemoved, NoListenerThrows;
    if c.isCoordinator && |KeySet(c)| >= |c.signers| - 1 && |c.signers| != 0 {
      var run;
      if |c.signers| == 1 {
        OneKey(c);
        run := OwnKeyMisses(c);
      } else {
        run := ListenerMisses(c);
      }
      assert Missed(c, After(c, run, |run|));
    } else {
      forall run: seq<Action>, n: nat | n <= |run| && NobodyRemoved(run)
        ensures !Missed(c, After(c, run, n))
      {
        TooFewToMiss(c, run, n);
      }
    }
  }

  lemma OneKey(c: Session)
    requires |c.signers| >= 1
    ensures |KeySet(c)| >= 1
  {
    assert c.signers[0] in KeySet(c);
  }
}
