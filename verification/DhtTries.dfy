/** How the tries of an announcement add up over all flushes, and what a flush does that nothing disturbs. */
module DhtTries {
  import opened Outcomes
  import opened DhtQueue
  import opened DhtAwaits
  import opened DhtReplies

  // ---------------------------------------------------------------- tries

  predicate HasCalled(r: FlushRun, o: nat) {
    exists p | 0 <= p < r.called && p < |r.snapshot| :: r.snapshot[p] == o
  }

  /** How many flushes have called the object. */
  function CallsOf(flushes: seq<FlushRun>, o: nat): nat {
    if flushes == [] then 0
    else CallsOf(flushes[..|flushes| - 1], o) + (if HasCalled(flushes[|flushes| - 1], o) then 1 else 0)
  }

  lemma {:induction false} CallsChange(flushes: seq<FlushRun>, f: nat, r: FlushRun, o: nat)
    requires f < |flushes|
    ensures CallsOf(flushes[f := r], o) + (if HasCalled(flushes[f], o) then 1 else 0)
            == CallsOf(flushes, o) + (if HasCalled(r, o) then 1 else 0)
  {
    hide HasCalled;
    var n := |flushes| - 1;
    if f < n {
      CallsChange(flushes[..n], f, r, o);
      assert flushes[f := r][..n] == flushes[..n][f := r];
    } else {
      assert flushes[f := r][..n] == flushes[..n];
    }
  }

  lemma BatchCallsOnce(c: Config, s: State, r: FlushRun, o: nat)
    requires FlushSound(s, r)
    ensures HasCalled(FlushRun(r.snapshot, BatchEnd(c, r), Opened(c, s.objects, r)), o) <==> HasCalled(r, o) || Called(c, r, o)
    ensures !(HasCalled(r, o) && Called(c, r, o))
  {
  }

  ghost predicate TriesAreCalls(s: State) {
    forall o | 0 <= o < |s.objects| :: s.objects[o].item.attempts == CallsOf(s.flushes, o)
  }

  lemma BatchKeepsTries(c: Config, s: State, f: nat)
    requires f < |s.flushes| && FlushSound(s, s.flushes[f]) && TriesAreCalls(s)
    ensures TriesAreCalls(NextBatch(c, s, f))
  {
    var s', r := NextBatch(c, s, f), s.flushes[f];
    forall o | 0 <= o < |s'.objects|
      ensures s'.objects[o].item.attempts == CallsOf(s'.flushes, o)
    {
      CallsChange(s.flushes, f, s'.flushes[f], o);
      BatchCallsOnce(c, s, r, o);
      hide CallsOf, HasCalled, Called, Opened, BatchEnd;
    }
  }

  lemma {:induction false} NotCalledYet(s: State, flushes: seq<FlushRun>)
    requires forall f | 0 <= f < |flushes| :: FlushSound(s, flushes[f])
    ensures CallsOf(flushes, |s.objects|) == 0
  {
    if flushes != [] {
      NotCalledYet(s, flushes[..|flushes| - 1]);
      assert FlushSound(s, flushes[|flushes| - 1]);
    }
  }

  lemma StepKeepsTries(c: Config, s: State, e: Event)
    requires Sound(s) && TriesAreCalls(s)
    ensures TriesAreCalls(Step(c, s, e))
  {
    hide CallsOf, HasCalled;
    match e
    case Enqueue(now, key, announcement) =>
      hide Queue, Room, IsQueued;
      NotCalledYet(s, s.flushes);
    case Start =>
      if s.pending != [] {
        SnapshotIsSound(s);
        StartCallsNothing(s);
        var r := FlushRun(s.pending, 0, map[]);
        hide NextBatch;
        BatchKeepsTries(c, s.(flushes := s.flushes + [r]), |s.flushes|);
      }
    case Continue(f) =>
      if CanContinue(s, f) {
        hide NextBatch;
        BatchKeepsTries(c, s, f);
      }
    case Answer(f, p, _) =>
      if IsOpen(s, f, p) {
        hide TakesOff, WithoutKey;
        AnswerKeepsCalls(s, f, p);
      }
    case _ => hide WithoutKey, WithoutExpired;
  }

  lemma StartCallsNothing(s: State)
    ensures forall o: nat :: CallsOf(s.flushes + [FlushRun(s.pending, 0, map[])], o) == CallsOf(s.flushes, o)
  {
    var r := FlushRun(s.pending, 0, map[]);
    assert (s.flushes + [r])[..|s.flushes|] == s.flushes;
  }

  lemma AnswerKeepsCalls(s: State, f: nat, p: nat)
    requires f < |s.flushes|
    ensures var r := s.flushes[f];
            forall o: nat :: CallsOf(s.flushes[f := r.(open := r.open - {p})], o) == CallsOf(s.flushes, o)
  {
    var r := s.flushes[f];
    forall o: nat
      ensures CallsOf(s.flushes[f := r.(open := r.open - {p})], o) == CallsOf(s.flushes, o)
    {
      CallsChange(s.flushes, f, r.(open := r.open - {p}), o);
    }
  }

  /** In every run the tries counted on an announcement are the calls made of it, over all flushes. */
  lemma {:induction false} TriesAreCallsInRuns(c: Config, run: seq<Event>, n: nat)
    requires n <= |run|
    ensures TriesAreCalls(After(c, run, n))
  {
    hide Step, Sound, TriesAreCalls;
    if n > 0 {
      TriesAreCallsInRuns(c, run, n - 1);
      RunIsSound(c, run, n - 1);
      StepKeepsTries(c, After(c, run, n - 1), run[n - 1]);
    } else {
      NothingTried();
    }
  }

  lemma NothingTried()
    ensures TriesAreCalls(START)
  {
  }

  ghost predicate CallIsOpen(s: State, o: nat) {
    exists f: nat, p: nat :: IsOpen(s, f, p) && s.flushes[f].snapshot[p] == o
  }

  predicate UsedUp(c: Config, s: State, o: nat) {
    var attempts := At(s.objects, o).item.attempts;
    attempts >= 1 && attempts >= c.maxRetries
  }

  ghost predicate UsedUpAreOpen(c: Config, s: State) {
    forall o | o in s.pending && UsedUp(c, s, o) :: CallIsOpen(s, o)
  }

  lemma BatchIsOpen(c: Config, s: State, f: nat)
    requires f < |s.flushes| && s.flushes[f].open == map[] && UsedUpAreOpen(c, s)
    ensures UsedUpAreOpen(c, NextBatch(c, s, f))
  {
    var s', r := NextBatch(c, s, f), s.flushes[f];
    forall o | o in s'.pending && UsedUp(c, s', o)
      ensures CallIsOpen(s', o)
    {
      if o < |s.objects| && Called(c, r, o) {
        var p :| r.called <= p < |r.snapshot| && p < BatchEnd(c, r) && r.snapshot[p] == o;
        assert IsOpen(s', f, p) && s'.flushes[f].snapshot[p] == o;
      } else {
        hide Called, BatchEnd, Opened;
        assert At(s'.objects, o) == At(s.objects, o) && CallIsOpen(s, o);
        var g: nat, p: nat :| IsOpen(s, g, p) && s.flushes[g].snapshot[p] == o;
        assert IsOpen(s', g, p) && s'.flushes[g].snapshot[p] == o;
      }
    }
  }

  lemma AnswerLeavesOpen(c: Config, s: State, f: nat, p: nat, reply: Reply)
    requires IsOpen(s, f, p) && UsedUpAreOpen(c, s)
    ensures UsedUpAreOpen(c, AnswerStep(c, s, f, p, reply))
  {
    var s' := AnswerStep(c, s, f, p, reply);
    ViewWithoutKey(s.objects, s.pending, CalledKey(s, f, p));
    forall o | o in s'.pending && UsedUp(c, s', o)
      ensures CallIsOpen(s', o)
    {
      assert CallIsOpen(s, o);
      var g: nat, q: nat :| IsOpen(s, g, q) && s.flushes[g].snapshot[q] == o;
      assert g != f || q != p;
      assert IsOpen(s', g, q) && s'.flushes[g].snapshot[q] == o;
    }
  }

  lemma OpenStays(s: State, s': State, o: nat)
    requires CallIsOpen(s, o) && s'.flushes == s.flushes
    ensures CallIsOpen(s', o)
  {
    var f: nat, p: nat :| IsOpen(s, f, p) && s.flushes[f].snapshot[p] == o;
    assert IsOpen(s', f, p) && s'.flushes[f].snapshot[p] == o;
  }

  lemma QuietEventLeavesOpen(c: Config, s: State, e: Event)
    requires UsedUpAreOpen(c, s) && (e.Enqueue? || e.Expire? || e.Remove? || e.Clear?)
    ensures UsedUpAreOpen(c, Step(c, s, e))
  {
    var s' := Step(c, s, e);
    if !e.Enqueue? {
      forall o | o in s'.pending
        ensures o in s.pending
      {
        QueueOnlyShrinks(c, s, e, o);
      }
    }
    RoomIsQueued(c, s);
    forall o | o in s'.pending && UsedUp(c, s', o)
      ensures CallIsOpen(s', o)
    {
      hide Queue, Room, IsQueued, WithoutKey, WithoutExpired, CallIsOpen;
      assert o in s.pending && UsedUp(c, s, o);
      OpenStays(s, s', o);
    }
  }

  lemma StepLeavesOpen(c: Config, s: State, e: Event)
    requires UsedUpAreOpen(c, s)
    ensures UsedUpAreOpen(c, Step(c, s, e))
  {
    match e
    case Start =>
      if s.pending != [] {
        var s1 := s.(flushes := s.flushes + [FlushRun(s.pending, 0, map[])]);
        forall o | o in s1.pending && UsedUp(c, s1, o)
          ensures CallIsOpen(s1, o)
        {
          var f: nat, p: nat :| IsOpen(s, f, p) && s.flushes[f].snapshot[p] == o;
          assert IsOpen(s1, f, p) && s1.flushes[f].snapshot[p] == o;
        }
        BatchIsOpen(c, s1, |s.flushes|);
        TurnLeavesOpen(c, StartStep(c, s));
      } else {
        TurnLeavesOpen(c, s);
      }
    case Continue(f) =>
      if CanContinue(s, f) {
        BatchIsOpen(c, s, f);
        TurnLeavesOpen(c, NextBatch(c, s, f));
      } else {
        TurnLeavesOpen(c, s);
      }
    case Answer(f, p, reply) =>
      if IsOpen(s, f, p) {
        AnswerLeavesOpen(c, s, f, p, reply);
        TurnLeavesOpen(c, AnswerStep(c, s, f, p, reply));
      } else {
        TurnLeavesOpen(c, s);
      }
    case _ => QuietEventLeavesOpen(c, s, e);
  }

  lemma TurnLeavesOpen(c: Config, s: State)
    requires UsedUpAreOpen(c, s)
    ensures UsedUpAreOpen(c, s.(turn := s.turn + 1))
  {
    forall o | o in s.pending && UsedUp(c, s, o)
      ensures CallIsOpen(s.(turn := s.turn + 1), o)
    {
      OpenStays(s, s.(turn := s.turn + 1), o);
    }
  }

  /** In every run an announcement whose tries are used up stays queued only while a call of it is open. */
  lemma {:induction false} UsedUpOnlyWhileOpen(c: Config, run: seq<Event>, n: nat)
    requires n <= |run|
    ensures UsedUpAreOpen(c, After(c, run, n))
  {
    hide Step, UsedUpAreOpen;
    if n > 0 {
      UsedUpOnlyWhileOpen(c, run, n - 1);
      StepLeavesOpen(c, After(c, run, n - 1), run[n - 1]);
    } else {
      NothingUsedUp(c);
    }
  }

  lemma NothingUsedUp(c: Config)
    ensures UsedUpAreOpen(c, START)
  {
  }

  // ---------------------------------------------------------------- batches

  lemma {:induction false} PlacesBetween(places: set<nat>, from: nat, to: nat)
    requires from <= to && forall p | p in places :: from <= p < to
    ensures |places| <= to - from
  {
    if from < to {
      PlacesBetween(places - {to - 1}, from, to - 1);
      assert places <= (places - {to - 1}) + {to - 1};
    } else {
      assert places == {};
    }
  }

  lemma BatchIsSmall(c: Config, s: State, r: FlushRun)
    requires r.called <= |r.snapshot|
    ensures |Opened(c, s.objects, r)| <= c.flushBatchSize
  {
    var calls := Opened(c, s.objects, r);
    PlacesBetween(calls.Keys, r.called, BatchEnd(c, r));
    assert |calls| == |calls.Keys|;
  }

  lemma FewerOpen(open: map<nat, nat>, p: nat)
    requires p in open
    ensures |open - {p}| < |open|
  {
    assert open == (open - {p})[p := open[p]];
  }

  /** In every run a flush never has more than `flushBatchSize` calls open, however long the queue it found. */
  lemma {:induction false} AtMostABatchIsOpen(c: Config, run: seq<Event>, n: nat, f: nat)
    requires n <= |run| && f < |After(c, run, n).flushes|
    ensures |After(c, run, n).flushes[f].open| <= c.flushBatchSize
  {
    hide Step, Sound, Opened, FlushSound;
    var s, e := After(c, run, n - 1), run[n - 1];
    RunIsSound(c, run, n - 1);
    FlushMoves(c, s, e, f);
    if f < |s.flushes| {
      AtMostABatchIsOpen(c, run, n - 1, f);
      FlushIsSound(s, f);
      CalledWithin(s, s.flushes[f]);
      BatchIsSmall(c, s, s.flushes[f]);
      if e.Answer? && IsOpen(s, f, e.place) {
        FewerOpen(s.flushes[f].open, e.place);
      }
    } else {
      BatchIsSmall(c, s, FlushRun(s.pending, 0, map[]));
    }
  }

  lemma CalledWithin(s: State, r: FlushRun)
    requires FlushSound(s, r)
    ensures r.called <= |r.snapshot|
  {
  }

  // ---------------------------------------------------------------- a flush on its own

  function Run(c: Config, s: State, events: seq<Event>): State {
    if events == [] then s else Step(c, Run(c, s, events[..|events| - 1]), events[|events| - 1])
  }

  /** After the start of a flush: its batches, and replies to its calls, in any order. */
  ghost predicate OfFlush(s: State, f: Callback, e: Event) {
    || e == Continue(|s.flushes|)
    || (&& e.Answer? && e.flush == |s.flushes|
        && (e.place < |s.pending| ==> e.reply == ReplyTo(f, Queue(s)[e.place])))
  }

  predicate Settled(r: FlushRun, p: nat) {
    p < r.called && p !in r.open
  }

  /** The first `n` objects of the snapshot but for those that settled calls took off. */
  function Kept(c: Config, q: seq<Item>, f: Callback, r: FlushRun, n: nat): seq<nat>
    requires n <= |q| && n <= |r.snapshot|
  {
    if n == 0 then []
    else
      Kept(c, q, f, r, n - 1) +
      (if Settled(r, n - 1) && Tried(c, q[n - 1], ReplyTo(f, q[n - 1])).None? then [] else [r.snapshot[n - 1]])
  }

  /** In the middle of a flush of the queue `q`, begun in state `s`. */
  ghost predicate Midway(c: Config, s: State, f: Callback, s': State) {
    var q, k := Queue(s), |s.flushes|;
    && |s.objects| <= |s'.objects| && k < |s'.flushes| && s'.flushes[k].snapshot == s.pending
    && s'.flushes[k].called <= |q| && (forall p | p in s'.flushes[k].open :: p < s'.flushes[k].called)
    && (forall p | 0 <= p < |q| ::
          At(s'.objects, s.pending[p]).item
          == q[p].(attempts := q[p].attempts + if p < s'.flushes[k].called then 1 else 0))
    && s'.pending == Kept(c, q, f, s'.flushes[k], |q|)
  }

  lemma {:induction false} KeptAlike(c: Config, q: seq<Item>, f: Callback, r: FlushRun, r': FlushRun, n: nat)
    requires n <= |q| && n <= |r.snapshot| && r.snapshot == r'.snapshot
    requires forall p | 0 <= p < n && Tried(c, q[p], ReplyTo(f, q[p])).None? :: Settled(r, p) <==> Settled(r', p)
    ensures Kept(c, q, f, r, n) == Kept(c, q, f, r', n)
  {
    if n > 0 {
      KeptAlike(c, q, f, r, r', n - 1);
    }
  }

  lemma {:induction false} NothingSettled(c: Config, q: seq<Item>, f: Callback, r: FlushRun, n: nat)
    requires n <= |q| && n <= |r.snapshot| && forall p | 0 <= p < n :: !Settled(r, p)
    ensures Kept(c, q, f, r, n) == r.snapshot[..n]
  {
    if n > 0 {
      NothingSettled(c, q, f, r, n - 1);
    }
  }

  ghost predicate KeysAgree(objects: seq<Object>, q: seq<Item>, snapshot: seq<nat>) {
    |q| == |snapshot| && forall p | 0 <= p < |q| :: At(objects, snapshot[p]).item.key == q[p].key
  }

  lemma {:induction false} KeptAbsent(c: Config, objects: seq<Object>, q: seq<Item>, f: Callback, r: FlushRun, n: nat, key: string)
    requires KeysAgree(objects, q, r.snapshot) && n <= |q| && forall p | 0 <= p < n :: q[p].key != key
    ensures WithoutKey(objects, Kept(c, q, f, r, n), key) == Kept(c, q, f, r, n)
  {
    if n > 0 {
      KeptAbsent(c, objects, q, f, r, n - 1, key);
      var front := Kept(c, q, f, r, n - 1);
      assert front + [] == front && (front + [r.snapshot[n - 1]])[..|front|] == front;
    }
  }

  /** Deleting the key of a settled call that takes off is settling it. */
  lemma {:induction false} SettlingDeletes(c: Config, objects: seq<Object>, q: seq<Item>, f: Callback, r: FlushRun,
                                           p: nat, n: nat)
    requires KeysAgree(objects, q, r.snapshot) && DistinctKeys(q) && p < n <= |q| && p < r.called && p in r.open
    requires Tried(c, q[p], ReplyTo(f, q[p])).None?
    ensures WithoutKey(objects, Kept(c, q, f, r, n), q[p].key) == Kept(c, q, f, r.(open := r.open - {p}), n)
  {
    var r' := r.(open := r.open - {p});
    if p == n - 1 {
      KeptAbsent(c, objects, q, f, r, p, q[p].key);
      KeptAlike(c, q, f, r, r', p);
      var front := Kept(c, q, f, r, p);
      assert (front + [r.snapshot[p]])[..|front|] == front;
    } else {
      SettlingDeletes(c, objects, q, f, r, p, n - 1);
      var front := Kept(c, q, f, r, n - 1);
      assert front + [] == front && (front + [r.snapshot[n - 1]])[..|front|] == front;
      assert Settled(r, n - 1) <==> Settled(r', n - 1);
    }
  }

  lemma {:induction false} AllSettled(c: Config, objects: seq<Object>, q: seq<Item>, f: Callback, r: FlushRun, n: nat)
    requires n <= |q| == |r.snapshot| && r.called == |q| && r.open == map[]
    requires forall p | 0 <= p < |q| :: At(objects, r.snapshot[p]).item == q[p].(attempts := q[p].attempts + 1)
    ensures View(objects, Kept(c, q, f, r, n)) == Flushed(c, q[..n], f)
  {
    if n > 0 {
      AllSettled(c, objects, q, f, r, n - 1);
      assert Front(q[..n]) == q[..n - 1];
      var front := Kept(c, q, f, r, n - 1);
      assert View(objects, front + [r.snapshot[n - 1]]) == View(objects, front) + [At(objects, r.snapshot[n - 1]).item];
    }
  }

  lemma BatchCountsOwn(c: Config, objects: seq<Object>, r: FlushRun, p: nat)
    requires p < |r.snapshot| && r.snapshot[p] < |objects| && r.called <= |r.snapshot|
    requires forall i, j | 0 <= i < j < |r.snapshot| :: r.snapshot[i] != r.snapshot[j]
    ensures var item := At(objects, r.snapshot[p]).item;
            At(TriesCounted(c, objects, r), r.snapshot[p]).item
            == item.(attempts := item.attempts + if r.called <= p < BatchEnd(c, r) then 1 else 0)
  {
    assert Called(c, r, r.snapshot[p]) <==> r.called <= p < BatchEnd(c, r);
  }

  lemma BatchSettlesNothing(c: Config, objects: seq<Object>, r: FlushRun, p: nat)
    requires r.open == map[] && r.called <= |r.snapshot|
    ensures Settled(FlushRun(r.snapshot, BatchEnd(c, r), Opened(c, objects, r)), p) <==> Settled(r, p)
    ensures r.called <= BatchEnd(c, r) <= |r.snapshot|
    ensures p in Opened(c, objects, r) ==> p < BatchEnd(c, r)
  {
  }

  lemma MidwayBatch(c: Config, s: State, f: Callback, s': State)
    requires QueueSound(s) && Midway(c, s, f, s') && s'.flushes[|s.flushes|].open == map[]
    ensures Midway(c, s, f, NextBatch(c, s', |s.flushes|))
  {
    hide Queue, Kept, QueueSound, Called, Opened, BatchEnd, TriesCounted, Settled;
    var q, k := Queue(s), |s.flushes|;
    var s'', r := NextBatch(c, s', k), s'.flushes[k];
    SnapshotIsSound(s);
    QueueIsSnapshot(s);
    forall p: nat
      ensures Settled(s''.flushes[k], p) <==> Settled(r, p)
    {
      BatchSettlesNothing(c, s'.objects, r, p);
    }
    forall p | 0 <= p < |q|
      ensures At(s''.objects, s.pending[p]).item
              == q[p].(attempts := q[p].attempts + if p < s''.flushes[k].called then 1 else 0)
    {
      BatchSettlesNothing(c, s'.objects, r, p);
      BatchCountsOwn(c, s'.objects, r, p);
    }
    forall p | p in s''.flushes[k].open
      ensures p < s''.flushes[k].called
    {
      BatchSettlesNothing(c, s'.objects, r, p);
    }
    KeptAlike(c, q, f, r, s''.flushes[k], |q|);
    SameNumber(c, s'.objects, r);
    BatchSettlesNothing(c, s'.objects, r, 0);
  }

  lemma QueueIsSnapshot(s: State)
    ensures |Queue(s)| == |s.pending|
  {
  }

  lemma SameNumber(c: Config, objects: seq<Object>, r: FlushRun)
    ensures |TriesCounted(c, objects, r)| == |objects|
  {
  }

  lemma MidwayReply(c: Config, s: State, f: Callback, s': State, p: nat, reply: Reply)
    requires QueueSound(s) && Midway(c, s, f, s') && IsOpen(s', |s.flushes|, p) && reply == ReplyTo(f, Queue(s)[p])
    ensures Midway(c, s, f, AnswerStep(c, s', |s.flushes|, p, reply))
  {
    var q, k := Queue(s), |s.flushes|;
    var r := s'.flushes[k];
    hide Kept, Queue, DistinctKeys;
    assert KeysAgree(s'.objects, q, r.snapshot);
    if TakesOff(c, s', k, p, reply) {
      SettlingDeletes(c, s'.objects, q, f, r, p, |q|);
    } else {
      KeptAlike(c, q, f, r, r.(open := r.open - {p}), |q|);
    }
  }

  lemma MidwayBegins(c: Config, s: State, f: Callback)
    requires QueueSound(s)
    ensures Midway(c, s, f, s.(flushes := s.flushes + [FlushRun(s.pending, 0, map[])]))
  {
    NothingSettled(c, Queue(s), f, FlushRun(s.pending, 0, map[]), |s.pending|);
    assert s.pending[..|s.pending|] == s.pending;
    hide Kept, QueueSound;
  }

  lemma MidwayStart(c: Config, s: State, f: Callback)
    requires QueueSound(s) && s.pending != []
    ensures Midway(c, s, f, Step(c, s, Start))
  {
    hide Kept, Queue, QueueSound, NextBatch;
    MidwayBegins(c, s, f);
    MidwayBatch(c, s, f, s.(flushes := s.flushes + [FlushRun(s.pending, 0, map[])]));
  }

  lemma MidwayStep(c: Config, s: State, f: Callback, s': State, e: Event)
    requires QueueSound(s) && Midway(c, s, f, s') && OfFlush(s, f, e)
    ensures Midway(c, s, f, Step(c, s', e))
  {
    hide Queue, Kept, QueueSound;
    var k := |s.flushes|;
    if e.Continue? {
      if CanContinue(s', k) {
        MidwayBatch(c, s, f, s');
      }
    } else if IsOpen(s', k, e.place) {
      MidwayReply(c, s, f, s', e.place, e.reply);
    }
  }

  lemma {:induction false} FlushOnItsOwn(c: Config, s: State, f: Callback, events: seq<Event>)
    requires QueueSound(s) && s.pending != [] && forall i | 0 <= i < |events| :: OfFlush(s, f, events[i])
    ensures Midway(c, s, f, Run(c, Step(c, s, Start), events))
  {
    hide Step, Midway, OfFlush, QueueSound;
    if events == [] {
      MidwayStart(c, s, f);
    } else {
      var front := events[..|events| - 1];
      FlushOnItsOwn(c, s, f, front);
      MidwayStep(c, s, f, Run(c, Step(c, s, Start), front), events[|events| - 1]);
    }
  }

  /** A flush that nothing disturbs ends, whatever its batches and the order of the replies, with the queue
      that handling the entries one at a time gives. */
  lemma UndisturbedFlush(c: Config, s: State, f: Callback, events: seq<Event>)
    requires QueueSound(s) && s.pending != [] && forall i | 0 <= i < |events| :: OfFlush(s, f, events[i])
    ensures var s' := Run(c, Step(c, s, Start), events);
            && |s.flushes| < |s'.flushes|
            && (s'.flushes[|s.flushes|].called == |s.pending| && s'.flushes[|s.flushes|].open == map[]
                ==> Queue(s') == Flushed(c, Queue(s), f))
  {
    FlushOnItsOwn(c, s, f, events);
    hide Step, Run, Flushed;
    var s', q := Run(c, Step(c, s, Start), events), Queue(s);
    if s'.flushes[|s.flushes|].called == |s.pending| && s'.flushes[|s.flushes|].open == map[] {
      AllSettled(c, s'.objects, q, f, s'.flushes[|s.flushes|], |q|);
      assert q[..|q|] == q;
    }
  }
}
