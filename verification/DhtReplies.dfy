/** What the reply of an open call meets: the entry it was called for, a newer one of the same key, or none. */
module DhtReplies {
  import opened Outcomes
  import opened DhtQueue
  import opened DhtAwaits

  // ---------------------------------------------------------------- objects and flushes

  /** No two objects have their announcement from the same event. */
  ghost predicate EditionsSound(s: State) {
    && (forall a, b | 0 <= a < b < |s.objects| :: s.objects[a].edition != s.objects[b].edition)
    && (forall a | 0 <= a < |s.objects| :: s.objects[a].edition < s.turn)
  }

  ghost predicate FlushSound(s: State, r: FlushRun) {
    && r.called <= |r.snapshot|
    && (forall p | 0 <= p < |r.snapshot| :: r.snapshot[p] < |s.objects|)
    && (forall p, q | 0 <= p < q < |r.snapshot| :: r.snapshot[p] != r.snapshot[q])
    && (forall p | p in r.open :: p < r.called && r.open[p] < s.turn)
  }

  ghost predicate FlushesSound(s: State) {
    forall f | 0 <= f < |s.flushes| :: FlushSound(s, s.flushes[f])
  }

  ghost predicate Sound(s: State) {
    QueueSound(s) && EditionsSound(s) && FlushesSound(s)
  }

  lemma OneEntryPerKey(s: State, a: nat, b: nat)
    requires QueueSound(s) && a in s.pending && b in s.pending && KeyOf(s, a) == KeyOf(s, b)
    ensures a == b
  {
    var i :| 0 <= i < |s.pending| && s.pending[i] == a;
    var j :| 0 <= j < |s.pending| && s.pending[j] == b;
    assert Queue(s)[i].key == Queue(s)[j].key;
  }

  lemma QueuedHasObject(s: State, key: string)
    ensures IsQueued(Queue(s), key) <==> exists o :: o in s.pending && KeyOf(s, o) == key
  {
    if IsQueued(Queue(s), key) {
      var i :| 0 <= i < |Queue(s)| && Queue(s)[i].key == key;
      assert s.pending[i] in s.pending && KeyOf(s, s.pending[i]) == key;
    }
    if o :| o in s.pending && KeyOf(s, o) == key {
      var i :| 0 <= i < |s.pending| && s.pending[i] == o;
      assert Queue(s)[i].key == key;
    }
  }

  lemma SnapshotIsDistinct(s: State)
    requires QueueSound(s)
    ensures forall p, q | 0 <= p < q < |s.pending| :: s.pending[p] != s.pending[q]
  {
    forall p, q | 0 <= p < q < |s.pending|
      ensures s.pending[p] != s.pending[q]
    {
      assert Queue(s)[p].key != Queue(s)[q].key;
    }
  }

  /** What every event keeps of the objects: their number never falls, and their keys never change. */
  lemma ObjectsStay(c: Config, s: State, e: Event)
    ensures |s.objects| <= |Step(c, s, e).objects|
    ensures forall o | 0 <= o < |s.objects| :: KeyOf(Step(c, s, e), o) == KeyOf(s, o)
    ensures !e.Enqueue? ==> |Step(c, s, e).objects| == |s.objects|
    ensures !e.Enqueue? ==> forall o | 0 <= o < |s.objects| :: Step(c, s, e).objects[o].edition == s.objects[o].edition
  {
    hide Queue, Room, IsQueued, Called, BatchEnd, Opened, WithoutKey, WithoutExpired;
  }

  lemma StepKeepsEditions(c: Config, s: State, e: Event)
    requires QueueSound(s) && EditionsSound(s)
    ensures EditionsSound(Step(c, s, e))
  {
    ObjectsStay(c, s, e);
    if e.Enqueue? {
      hide Queue, QueueSound, Room, IsQueued;
      forall a, b | 0 <= a < b < |s.objects| && a in s.pending && b in s.pending
        ensures s.objects[a].item.key != s.objects[b].item.key
      {
        if s.objects[a].item.key == s.objects[b].item.key {
          OneEntryPerKey(s, a, b);
        }
      }
    } else {
      hide Step;
      StepTurns(c, s, e);
    }
  }

  lemma StepTurns(c: Config, s: State, e: Event)
    ensures Step(c, s, e).turn == s.turn + 1
  {
  }

  /** The flushes that an event leaves alone. */
  lemma OtherFlushes(c: Config, s: State, e: Event, f: nat)
    requires f < |s.flushes| && !((e.Continue? || e.Answer?) && e.flush == f)
    ensures f < |Step(c, s, e).flushes| && Step(c, s, e).flushes[f] == s.flushes[f]
  {
    hide Queue, Room, IsQueued, Called, BatchEnd, Opened, WithoutKey, WithoutExpired;
  }

  /** An event changes a flush, or begins one, in these ways only. */
  lemma FlushMoves(c: Config, s: State, e: Event, f: nat)
    requires f < |Step(c, s, e).flushes|
    ensures var r' := Step(c, s, e).flushes[f];
            if f >= |s.flushes| then
              && e.Start? && f == |s.flushes|
              && r' == FlushRun(s.pending, BatchEnd(c, FlushRun(s.pending, 0, map[])), Opened(c, s.objects, FlushRun(s.pending, 0, map[])))
            else
              || r' == s.flushes[f]
              || (e == Continue(f) && CanContinue(s, f)
                  && r' == FlushRun(s.flushes[f].snapshot, BatchEnd(c, s.flushes[f]), Opened(c, s.objects, s.flushes[f])))
              || (e.Answer? && e.flush == f && IsOpen(s, f, e.place) && r' == s.flushes[f].(open := s.flushes[f].open - {e.place}))
  {
    hide Queue, Room, IsQueued, Called, BatchEnd, Opened, WithoutKey, WithoutExpired;
  }

  lemma BatchIsSound(c: Config, s: State, s': State, r: FlushRun)
    requires FlushSound(s, r) && EditionsSound(s) && |s.objects| <= |s'.objects| && s'.turn == s.turn + 1
    ensures FlushSound(s', FlushRun(r.snapshot, BatchEnd(c, r), Opened(c, s.objects, r)))
  {
  }

  lemma StepKeepsFlushes(c: Config, s: State, e: Event)
    requires Sound(s)
    ensures FlushesSound(Step(c, s, e))
  {
    var s' := Step(c, s, e);
    ObjectsStay(c, s, e);
    StepTurns(c, s, e);
    forall f | 0 <= f < |s'.flushes|
      ensures FlushSound(s', s'.flushes[f])
    {
      FlushMoves(c, s, e, f);
      hide Step, QueueSound, EditionsSound, BatchEnd, Opened;
      if f >= |s.flushes| {
        SnapshotIsSound(s);
        BatchIsSound(c, s, s', FlushRun(s.pending, 0, map[]));
      } else {
        BatchIsSound(c, s, s', s.flushes[f]);
      }
    }
  }

  lemma SnapshotIsSound(s: State)
    requires QueueSound(s)
    ensures FlushSound(s, FlushRun(s.pending, 0, map[]))
  {
    SnapshotIsDistinct(s);
    assert forall p | 0 <= p < |s.pending| :: s.pending[p] in s.pending;
  }

  lemma StepKeepsSound(c: Config, s: State, e: Event)
    requires Sound(s)
    ensures Sound(Step(c, s, e))
  {
    hide Step, QueueSound, EditionsSound, FlushesSound;
    StepKeepsQueueSound(c, s, e);
    StepKeepsEditions(c, s, e);
    StepKeepsFlushes(c, s, e);
  }

  lemma {:induction false} RunIsSound(c: Config, run: seq<Event>, n: nat)
    requires n <= |run|
    ensures Sound(After(c, run, n)) && After(c, run, n).turn == n
  {
    hide Step, Sound;
    if n > 0 {
      RunIsSound(c, run, n - 1);
      StepKeepsSound(c, After(c, run, n - 1), run[n - 1]);
      StepTurns(c, After(c, run, n - 1), run[n - 1]);
    } else {
      StartIsSound();
    }
  }

  lemma StartIsSound()
    ensures Sound(START)
  {
  }

  // ---------------------------------------------------------------- which event queued what

  /** Everything in the queue, or called, is what the event of its edition queued. */
  ghost predicate FromEvents(run: seq<Event>, s: State) {
    && (forall o | 0 <= o < |s.objects| ::
          var x := s.objects[o];
          x.edition < |run| && run[x.edition] == Enqueue(x.item.queuedAt, x.item.key, x.item.announcement))
    && (forall f: nat, p: nat | IsOpen(s, f, p) ::
          var e := s.flushes[f].open[p];
          e < |run| && run[e].Enqueue? && run[e].key == CalledKey(s, f, p))
  }

  lemma StepKeepsEvents(c: Config, run: seq<Event>, s: State, e: Event)
    requires Sound(s) && FromEvents(run, s) && s.turn < |run| && run[s.turn] == e
    ensures FromEvents(run, Step(c, s, e))
  {
    ObjectsStay(c, s, e);
    ObjectsFromEvents(c, run, s, e);
    var s' := Step(c, s, e);
    forall f: nat, p: nat | IsOpen(s', f, p)
      ensures s'.flushes[f].open[p] < |run| && run[s'.flushes[f].open[p]].Enqueue?
      ensures run[s'.flushes[f].open[p]].key == CalledKey(s', f, p)
    {
      FlushMoves(c, s, e, f);
      hide Step;
      if f < |s.flushes| && s'.flushes[f].snapshot == s.flushes[f].snapshot {
        assert FlushSound(s, s.flushes[f]);
        assert s.flushes[f].snapshot[p] < |s.objects|;
        assert p in s.flushes[f].open ==> IsOpen(s, f, p);
      } else {
        assert s.pending[p] in s.pending;
      }
    }
  }

  lemma ObjectsFromEvents(c: Config, run: seq<Event>, s: State, e: Event)
    requires FromEvents(run, s) && s.turn < |run| && run[s.turn] == e
    ensures forall o | 0 <= o < |Step(c, s, e).objects| ::
              var x := Step(c, s, e).objects[o];
              x.edition < |run| && run[x.edition] == Enqueue(x.item.queuedAt, x.item.key, x.item.announcement)
  {
    hide Queue, Room, IsQueued, Called, BatchEnd, Opened, WithoutKey, WithoutExpired;
  }

  lemma {:induction false} EditionsNameEvents(c: Config, run: seq<Event>, n: nat)
    requires n <= |run|
    ensures FromEvents(run, After(c, run, n))
  {
    hide Step, FromEvents, Sound;
    if n > 0 {
      EditionsNameEvents(c, run, n - 1);
      RunIsSound(c, run, n - 1);
      StepKeepsEvents(c, run, After(c, run, n - 1), run[n - 1]);
    } else {
      NothingYet(run);
    }
  }

  lemma NothingYet(run: seq<Event>)
    ensures FromEvents(run, START)
  {
  }

  // ---------------------------------------------------------------- replies that meet a newer entry

  /** The event queues the key that place `p` of flush `f` calls, while the call is open, or before it is
      made and when the key had left the queue. */
  predicate QueuesAgain(s: State, e: Event, f: nat, p: nat) {
    && f < |s.flushes| && p < |s.flushes[f].snapshot| && e.Enqueue? && e.key == CalledKey(s, f, p)
    && (p in s.flushes[f].open || (s.flushes[f].called <= p && !IsQueued(Queue(s), e.key)))
  }

  /** What is queued under the key of a place that is not yet called is the object itself unless the key was
      queued again; under the key of an open call it then is of another edition than was called. */
  ghost predicate Tracked(s: State, f: nat, p: nat, again: bool) {
    f < |s.flushes| && p < |s.flushes[f].snapshot| ==>
      var r := s.flushes[f];
      forall x | x in s.pending && KeyOf(s, x) == CalledKey(s, f, p) ::
        && (r.called <= p ==> (again <==> x != r.snapshot[p]))
        && (p in r.open ==> (again <==> At(s.objects, x).edition != r.open[p]))
  }

  lemma EnqueueTracks(c: Config, s: State, e: Event, f: nat, p: nat, again: bool)
    requires Sound(s) && Tracked(s, f, p, again) && e.Enqueue? && f < |s.flushes|
    ensures Tracked(Step(c, s, e), f, p, again || QueuesAgain(s, e, f, p))
  {
    var s' := Step(c, s, e);
    ObjectsStay(c, s, e);
    OtherFlushes(c, s, e, f);
    assert FlushSound(s, s.flushes[f]);
    RoomIsQueued(c, s);
    QueuedHasObject(s, e.key);
    hide Queue, Room, IsQueued, DistinctKeys, Overflow;
    if p < |s.flushes[f].snapshot| {
      forall x | x in s'.pending && KeyOf(s', x) == CalledKey(s', f, p)
        ensures s.flushes[f].called <= p ==> (again || QueuesAgain(s, e, f, p) <==> x != s.flushes[f].snapshot[p])
        ensures p in s.flushes[f].open ==>
                  (again || QueuesAgain(s, e, f, p) <==> At(s'.objects, x).edition != s.flushes[f].open[p])
      {
        if x in s.pending {
          assert x < |s.objects|;
          assert KeyOf(s, x) == CalledKey(s, f, p);
        }
      }
    }
  }

  lemma QueueOnlyShrinks(c: Config, s: State, e: Event, x: nat)
    requires !e.Enqueue? && x in Step(c, s, e).pending
    ensures x in s.pending
  {
    hide Called, BatchEnd, Opened, TakesOff;
    match e
    case Expire(now) => ViewWithoutExpired(c, s.objects, s.pending, now);
    case Remove(key) => ViewWithoutKey(s.objects, s.pending, key);
    case Answer(f, p, reply) =>
      if IsOpen(s, f, p) {
        ViewWithoutKey(s.objects, s.pending, CalledKey(s, f, p));
      }
    case _ =>
  }

  lemma OtherEventTracks(c: Config, s: State, e: Event, f: nat, p: nat, again: bool)
    requires Sound(s) && Tracked(s, f, p, again) && !e.Enqueue? && (f >= |s.flushes| ==> !again)
    ensures Tracked(Step(c, s, e), f, p, again)
  {
    var s' := Step(c, s, e);
    ObjectsStay(c, s, e);
    if f < |s'.flushes| && p < |s'.flushes[f].snapshot| {
      FlushMoves(c, s, e, f);
      var r' := s'.flushes[f];
      forall x | x in s'.pending && KeyOf(s', x) == CalledKey(s', f, p)
        ensures r'.called <= p ==> (again <==> x != r'.snapshot[p])
        ensures p in r'.open ==> (again <==> At(s'.objects, x).edition != r'.open[p])
      {
        QueueOnlyShrinks(c, s, e, x);
        hide Step, QueueSound;
        if f >= |s.flushes| {
          SnapshotIsThis(s, x, p);
        } else {
          FlushIsSound(s, f);
          ObjectsDiffer(s, x, r'.snapshot[p]);
        }
      }
    }
  }

  lemma FlushIsSound(s: State, f: nat)
    requires Sound(s) && f < |s.flushes|
    ensures FlushSound(s, s.flushes[f])
  {
  }

  lemma ObjectsDiffer(s: State, x: nat, o: nat)
    requires Sound(s) && x in s.pending && o < |s.objects|
    ensures x < |s.objects| && (At(s.objects, x).edition == At(s.objects, o).edition <==> x == o)
  {
  }

  lemma SnapshotIsThis(s: State, x: nat, p: nat)
    requires Sound(s) && x in s.pending && p < |s.pending|
    ensures x < |s.objects| && s.pending[p] < |s.objects| && (KeyOf(s, x) == KeyOf(s, s.pending[p]) ==> x == s.pending[p])
  {
    assert s.pending[p] in s.pending;
    if KeyOf(s, x) == KeyOf(s, s.pending[p]) {
      OneEntryPerKey(s, x, s.pending[p]);
    }
  }

  ghost predicate QueuedAgain(c: Config, run: seq<Event>, n: nat, f: nat, p: nat)
    requires n <= |run|
  {
    exists e | 0 <= e < n :: QueuesAgain(After(c, run, e), run[e], f, p)
  }

  lemma {:induction false} PlacesAreTracked(c: Config, run: seq<Event>, n: nat, f: nat, p: nat)
    requires n <= |run|
    ensures Tracked(After(c, run, n), f, p, QueuedAgain(c, run, n, f, p))
    ensures f >= |After(c, run, n).flushes| ==> !QueuedAgain(c, run, n, f, p)
  {
    hide Step, Sound, Tracked, QueuesAgain;
    if n > 0 {
      PlacesAreTracked(c, run, n - 1, f, p);
      RunIsSound(c, run, n - 1);
      var s, e := After(c, run, n - 1), run[n - 1];
      assert QueuedAgain(c, run, n, f, p) <==> QueuedAgain(c, run, n - 1, f, p) || QueuesAgain(s, e, f, p);
      PlaceMoves(c, s, e, f, p, QueuedAgain(c, run, n - 1, f, p));
    } else {
      NothingTracked(f, p);
    }
  }

  lemma NothingTracked(f: nat, p: nat)
    ensures Tracked(START, f, p, false)
  {
  }

  lemma PlaceMoves(c: Config, s: State, e: Event, f: nat, p: nat, again: bool)
    requires Sound(s) && Tracked(s, f, p, again) && (f >= |s.flushes| ==> !again)
    ensures Tracked(Step(c, s, e), f, p, again || QueuesAgain(s, e, f, p))
    ensures f >= |Step(c, s, e).flushes| ==> !(again || QueuesAgain(s, e, f, p))
  {
    hide Step, Sound, Tracked;
    if f < |s.flushes| {
      FlushesStay(c, s, e);
    }
    if !e.Enqueue? {
      OtherEventTracks(c, s, e, f, p, again);
    } else if f < |s.flushes| {
      EnqueueTracks(c, s, e, f, p, again);
    } else {
      NoFlushYet(c, s, e, f, p);
    }
  }

  lemma FlushesStay(c: Config, s: State, e: Event)
    ensures |s.flushes| <= |Step(c, s, e).flushes|
  {
    hide Queue, Room, IsQueued, Called, BatchEnd, Opened, WithoutKey, WithoutExpired;
  }

  lemma NoFlushYet(c: Config, s: State, e: Event, f: nat, p: nat)
    requires e.Enqueue? && f >= |s.flushes|
    ensures Tracked(Step(c, s, e), f, p, false)
  {
  }

  /** While a call is open, what is queued under its key differs from what was called exactly when
      the key was queued again: after the call, or between the start of the flush and the call and
      then after it had left the queue. */
  lemma NewerExactlyWhenQueuedAgain(c: Config, run: seq<Event>, n: nat, f: nat, p: nat, x: nat)
    requires n <= |run|
    requires var s := After(c, run, n);
             IsOpen(s, f, p) && x in s.pending && KeyOf(s, x) == CalledKey(s, f, p)
    ensures var s := After(c, run, n);
            At(s.objects, x).edition != s.flushes[f].open[p] <==> QueuedAgain(c, run, n, f, p)
  {
    hide Step, QueuedAgain;
    PlacesAreTracked(c, run, n, f, p);
  }

  /** The entry `x` leaves the queue by the reply of a call that carried what another event had queued. */
  ghost predicate LeavesUncalled(c: Config, run: seq<Event>, n: nat, x: nat)
    requires n < |run| && run[n].Answer?
  {
    var s, f, p := After(c, run, n), run[n].flush, run[n].place;
    && x in s.pending && x !in After(c, run, n + 1).pending
    && IsOpen(s, f, p) && At(s.objects, x).edition != s.flushes[f].open[p]
  }

  /** A reply takes an entry off that it was not called for exactly when it is the reply of a
      delivered call or of one whose tries are used up, and the key of the call was queued again. */
  lemma RepliesTakeOffNewerExactly(c: Config, run: seq<Event>, n: nat, x: nat)
    requires n < |run| && run[n].Answer?
    ensures var s, f, p, reply := After(c, run, n), run[n].flush, run[n].place, run[n].reply;
            LeavesUncalled(c, run, n, x)
            <==> && IsOpen(s, f, p) && TakesOff(c, s, f, p, reply)
                 && x in s.pending && KeyOf(s, x) == CalledKey(s, f, p) && QueuedAgain(c, run, n, f, p)
  {
    var s, f, p := After(c, run, n), run[n].flush, run[n].place;
    AnswerTakesOff(c, s, run[n], x);
    hide QueuedAgain, Step, TakesOff, KeyOf, CalledKey;
    if IsOpen(s, f, p) && x in s.pending && KeyOf(s, x) == CalledKey(s, f, p) {
      NewerExactlyWhenQueuedAgain(c, run, n, f, p, x);
    }
  }

  lemma AnswerTakesOff(c: Config, s: State, e: Event, x: nat)
    requires e.Answer?
    ensures x in s.pending && x !in Step(c, s, e).pending
            <==> && IsOpen(s, e.flush, e.place) && TakesOff(c, s, e.flush, e.place, e.reply)
                 && x in s.pending && KeyOf(s, x) == CalledKey(s, e.flush, e.place)
  {
    if IsOpen(s, e.flush, e.place) {
      ViewWithoutKey(s.objects, s.pending, CalledKey(s, e.flush, e.place));
    }
  }

  // ---------------------------------------------------------------- announcements that are lost

  lemma FirstCall(c: Config, item: Item)
    requires c.flushBatchSize >= 1
    ensures Step(c, State([Object(item, 0)], [0], [], 1), Start)
            == State([Object(item.(attempts := item.attempts + 1), 0)], [0], [FlushRun([0], 1, map[0 := 0])], 2)
  {
    var r := FlushRun([0], 0, map[]);
    assert BatchEnd(c, r) == 1 && Opened(c, [Object(item, 0)], r) == map[0 := 0];
    assert r.snapshot[0] == 0 && Called(c, r, 0);
    assert TriesCounted(c, [Object(item, 0)], r) == [Object(item.(attempts := item.attempts + 1), 0)];
  }

  lemma Renewed(c: Config, item: Item, now: int, renewed: string)
    ensures Step(c, State([Object(item, 0)], [0], [FlushRun([0], 1, map[0 := 0])], 2), Enqueue(now, item.key, renewed))
            == State([Object(item.(announcement := renewed, queuedAt := now), 2)], [0], [FlushRun([0], 1, map[0 := 0])], 3)
  {
    var s := State([Object(item, 0)], [0], [FlushRun([0], 1, map[0 := 0])], 2);
    assert Queue(s)[0] == item;
    assert Refreshed(s, now, item.key, renewed) == [Object(item.(announcement := renewed, queuedAt := now), 2)];
  }

  /** An announcement renewed while the call of the old one is open leaves with the reply to that. */
  lemma RenewedIsLost(c: Config, key: string, first: string, renewed: string, run: seq<Event>)
    requires c.flushBatchSize >= 1 && run == [Enqueue(1, key, first), Start, Enqueue(2, key, renewed), Answer(0, 0, Delivered)]
    ensures LeavesUncalled(c, run, 3, 0) && Queue(After(c, run, 3)) == [Item(key, renewed, 2, 1)] && Queue(After(c, run, 4)) == []
  {
    NoOverflow(c);
    assert After(c, run, 0) == START;
    assert After(c, run, 1) == State([Object(Item(key, first, 1, 0), 0)], [0], [], 1);
    hide Step;
    FirstCall(c, Item(key, first, 1, 0));
    Renewed(c, Item(key, first, 1, 1), 2, renewed);
    var s3 := State([Object(Item(key, renewed, 2, 1), 2)], [0], [FlushRun([0], 1, map[0 := 0])], 3);
    assert After(c, run, 2).turn == 2 && After(c, run, 3) == s3;
    LastLeaves(c, s3);
  }

  lemma LastLeaves(c: Config, s: State)
    requires IsOpen(s, 0, 0) && s.pending == [s.flushes[0].snapshot[0]]
    ensures Step(c, s, Answer(0, 0, Delivered)).pending == []
  {
    assert s.pending[..|s.pending| - 1] == [];
    assert WithoutKey(s.objects, [], CalledKey(s, 0, 0)) == [];
  }

  lemma NoOverflow(c: Config)
    ensures Overflow(c, []) == None
  {
  }
}
