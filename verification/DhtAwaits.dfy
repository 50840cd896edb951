/** The announcement queue with its flushes taken apart at their awaits: while calls of the flush
    callback are open, announcements are queued and removed, expire, and other flushes start.

    A flush works on the objects it found in the queue. Such an object may leave the queue while the
    flush goes on, and its key may be queued again; the reply deletes whatever then has the key. */
module DhtAwaits {
  import opened Outcomes
  import opened DhtQueue

  /** A queued announcement as an object: `edition` is the number of the event that set its announcement. */
  datatype Object = Object(item: Item, edition: nat)

  /** One flush under way: the objects it found, how many it has called, and the open calls by
      place, each with the edition of the announcement that the callback was given. */
  datatype FlushRun = FlushRun(snapshot: seq<nat>, called: nat, open: map<nat, nat>)

  /** All objects ever made, by number; the numbers of those in the queue, in order; all flushes. */
  datatype State = State(objects: seq<Object>, pending: seq<nat>, flushes: seq<FlushRun>, turn: nat)

  const START := State([], [], [], 0)

  datatype Event =
    | Enqueue(now: int, key: string, announcement: string)
    | Expire(now: int)
    | Remove(key: string)
    | Clear
    | Start
    | Continue(flush: nat)
    | Answer(flush: nat, place: nat, reply: Reply)

  function At(objects: seq<Object>, o: nat): Object {
    if o < |objects| then objects[o] else Object(Item("", "", 0, 0), 0)
  }

  function KeyOf(s: State, o: nat): string {
    At(s.objects, o).item.key
  }

  function View(objects: seq<Object>, ids: seq<nat>): seq<Item> {
    seq(|ids|, (i: nat) requires i < |ids| => At(objects, ids[i]).item)
  }

  /** The queue as the list of its entries. */
  function Queue(s: State): seq<Item> {
    View(s.objects, s.pending)
  }

  function WithoutKey(objects: seq<Object>, ids: seq<nat>, key: string): seq<nat> {
    if ids == [] then []
    else
      var last := ids[|ids| - 1];
      WithoutKey(objects, ids[..|ids| - 1], key) + (if At(objects, last).item.key == key then [] else [last])
  }

  function WithoutExpired(c: Config, objects: seq<Object>, ids: seq<nat>, now: int): seq<nat> {
    if ids == [] then []
    else
      var last := ids[|ids| - 1];
      WithoutExpired(c, objects, ids[..|ids| - 1], now) + (if IsExpired(c, At(objects, last).item, now) then [] else [last])
  }

  // ---------------------------------------------------------------- one event

  function Refreshed(s: State, now: int, key: string, announcement: string): seq<Object> {
    seq(|s.objects|, (o: nat) requires o < |s.objects| =>
      if o in s.pending && s.objects[o].item.key == key
      then Object(s.objects[o].item.(announcement := announcement, queuedAt := now), s.turn)
      else s.objects[o])
  }

  function Room(c: Config, s: State): seq<nat> {
    match Overflow(c, Queue(s)) case Some(oldest) => WithoutKey(s.objects, s.pending, oldest) case None => s.pending
  }

  function EnqueueStep(c: Config, s: State, now: int, key: string, announcement: string): State {
    if IsQueued(Queue(s), key) then s.(objects := Refreshed(s, now, key, announcement))
    else s.(objects := s.objects + [Object(Item(key, announcement, now, 0), s.turn)], pending := Room(c, s) + [|s.objects|])
  }

  function BatchEnd(c: Config, r: FlushRun): nat {
    if r.called + c.flushBatchSize < |r.snapshot| then r.called + c.flushBatchSize else |r.snapshot|
  }

  /** The objects that a flush calls in its next batch. */
  predicate Called(c: Config, r: FlushRun, o: nat) {
    exists p | r.called <= p < |r.snapshot| && p < BatchEnd(c, r) :: r.snapshot[p] == o
  }

  function TriesCounted(c: Config, objects: seq<Object>, r: FlushRun): seq<Object> {
    seq(|objects|, (o: nat) requires o < |objects| =>
      if Called(c, r, o) then objects[o].(item := objects[o].item.(attempts := objects[o].item.attempts + 1)) else objects[o])
  }

  function Opened(c: Config, objects: seq<Object>, r: FlushRun): map<nat, nat> {
    map p: nat | p < BatchEnd(c, r) && r.called <= p < |r.snapshot| :: At(objects, r.snapshot[p]).edition
  }

  /** The synchronous part of a batch: each try is counted and each call made. */
  function NextBatch(c: Config, s: State, f: nat): State
    requires f < |s.flushes|
  {
    var r := s.flushes[f];
    s.(objects := TriesCounted(c, s.objects, r),
       flushes := s.flushes[f := FlushRun(r.snapshot, BatchEnd(c, r), Opened(c, s.objects, r))])
  }

  /** A flush takes the objects it finds and makes the calls of its first batch. */
  function StartStep(c: Config, s: State): State {
    if s.pending == [] then s
    else NextBatch(c, s.(flushes := s.flushes + [FlushRun(s.pending, 0, map[])]), |s.flushes|)
  }

  /** The batch has all its replies and there is another. */
  predicate CanContinue(s: State, f: nat) {
    f < |s.flushes| && s.flushes[f].open == map[] && s.flushes[f].called < |s.flushes[f].snapshot|
  }

  predicate IsOpen(s: State, f: nat, p: nat) {
    f < |s.flushes| && p in s.flushes[f].open && p < |s.flushes[f].snapshot|
  }

  /** The reply takes the entry of its key off the queue. */
  predicate TakesOff(c: Config, s: State, f: nat, p: nat, reply: Reply)
    requires IsOpen(s, f, p)
  {
    reply.Delivered? || At(s.objects, s.flushes[f].snapshot[p]).item.attempts >= c.maxRetries
  }

  function CalledKey(s: State, f: nat, p: nat): string
    requires f < |s.flushes| && p < |s.flushes[f].snapshot|
  {
    KeyOf(s, s.flushes[f].snapshot[p])
  }

  function AnswerStep(c: Config, s: State, f: nat, p: nat, reply: Reply): State
    requires IsOpen(s, f, p)
  {
    var r := s.flushes[f];
    s.(flushes := s.flushes[f := r.(open := r.open - {p})],
       pending := if TakesOff(c, s, f, p, reply) then WithoutKey(s.objects, s.pending, CalledKey(s, f, p)) else s.pending)
  }

  function Change(c: Config, s: State, e: Event): State {
    match e
    case Enqueue(now, key, announcement) => EnqueueStep(c, s, now, key, announcement)
    case Expire(now) => s.(pending := WithoutExpired(c, s.objects, s.pending, now))
    case Remove(key) => s.(pending := WithoutKey(s.objects, s.pending, key))
    case Clear => s.(pending := [])
    case Start => StartStep(c, s)
    case Continue(f) => if CanContinue(s, f) then NextBatch(c, s, f) else s
    case Answer(f, p, reply) => if IsOpen(s, f, p) then AnswerStep(c, s, f, p, reply) else s
  }

  function Step(c: Config, s: State, e: Event): State {
    Change(c, s, e).(turn := s.turn + 1)
  }

  function After(c: Config, run: seq<Event>, n: nat): State
    requires n <= |run|
  {
    if n == 0 then START else Step(c, After(c, run, n - 1), run[n - 1])
  }

  // ---------------------------------------------------------------- the queue as a list

  lemma {:induction false} ViewWithoutKey(objects: seq<Object>, ids: seq<nat>, key: string)
    ensures View(objects, WithoutKey(objects, ids, key)) == Delete(View(objects, ids), key)
    ensures forall o :: o in WithoutKey(objects, ids, key) <==> o in ids && At(objects, o).item.key != key
  {
    if ids != [] {
      var front := ids[..|ids| - 1];
      ViewWithoutKey(objects, front, key);
      assert ids == front + [ids[|ids| - 1]];
      assert Front(View(objects, ids)) == View(objects, front);
      assert View(objects, WithoutKey(objects, front, key) + [ids[|ids| - 1]])
          == View(objects, WithoutKey(objects, front, key)) + [At(objects, ids[|ids| - 1]).item];
    }
  }

  lemma {:induction false} ViewWithoutExpired(c: Config, objects: seq<Object>, ids: seq<nat>, now: int)
    ensures View(objects, WithoutExpired(c, objects, ids, now)) == Unexpired(c, View(objects, ids), now)
    ensures forall o | o in WithoutExpired(c, objects, ids, now) :: o in ids
  {
    if ids != [] {
      var front := ids[..|ids| - 1];
      ViewWithoutExpired(c, objects, front, now);
      assert ids == front + [ids[|ids| - 1]];
      assert Front(View(objects, ids)) == View(objects, front);
      assert View(objects, WithoutExpired(c, objects, front, now) + [ids[|ids| - 1]])
          == View(objects, WithoutExpired(c, objects, front, now)) + [At(objects, ids[|ids| - 1]).item];
    }
  }

  lemma ViewStays(objects: seq<Object>, objects': seq<Object>, ids: seq<nat>)
    requires forall o | o in ids :: At(objects, o).item == At(objects', o).item
    ensures View(objects, ids) == View(objects', ids)
  {
    assert forall i | 0 <= i < |ids| :: ids[i] in ids;
  }

  ghost predicate QueueSound(s: State) {
    (forall o | o in s.pending :: o < |s.objects|) && DistinctKeys(Queue(s))
  }

  /** Queueing, with objects, does to the list of entries what the queue does. */
  lemma EnqueueIsEnqueue(c: Config, s: State, now: int, key: string, announcement: string)
    requires QueueSound(s)
    ensures Queue(EnqueueStep(c, s, now, key, announcement)) == Enqueued(c, Queue(s), now, key, announcement)
  {
    hide Delete, Overflow;
    var q, s' := Queue(s), EnqueueStep(c, s, now, key, announcement);
    if IsQueued(q, key) {
      forall i | 0 <= i < |s.pending|
        ensures Queue(s')[i] == Refresh(q, key, announcement, now)[i]
      {
        assert s.pending[i] in s.pending;
      }
      assert Queue(s') == Refresh(q, key, announcement, now);
    } else {
      RoomIsQueued(c, s);
      ViewStays(s.objects, s'.objects, Room(c, s));
      assert Queue(s') == View(s'.objects, Room(c, s)) + [Item(key, announcement, now, 0)];
    }
  }

  lemma RoomIsQueued(c: Config, s: State)
    ensures forall o | o in Room(c, s) :: o in s.pending
    ensures View(s.objects, Room(c, s)) == match Overflow(c, Queue(s)) case Some(oldest) => Delete(Queue(s), oldest) case None => Queue(s)
  {
    hide Overflow, Delete;
    if Overflow(c, Queue(s)).Some? {
      ViewWithoutKey(s.objects, s.pending, Overflow(c, Queue(s)).value);
    }
  }

  ghost predicate SameButTries(q: seq<Item>, q': seq<Item>) {
    |q| == |q'| && forall i | 0 <= i < |q| :: q'[i] == q[i].(attempts := q'[i].attempts)
  }

  /** What an event does to the list of entries: a batch only counts tries, a reply only deletes. */
  ghost predicate ListMoves(c: Config, s: State, e: Event, q: seq<Item>, q': seq<Item>) {
    match e
    case Enqueue(now, key, announcement) => q' == Enqueued(c, q, now, key, announcement)
    case Expire(now) => q' == Unexpired(c, q, now)
    case Remove(key) => q' == Delete(q, key)
    case Clear => q' == []
    case Answer(f, p, reply) => q' == if IsOpen(s, f, p) && TakesOff(c, s, f, p, reply) then Delete(q, CalledKey(s, f, p)) else q
    case _ => SameButTries(q, q')
  }

  lemma StepMoves(c: Config, s: State, e: Event)
    requires QueueSound(s)
    ensures ListMoves(c, s, e, Queue(s), Queue(Step(c, s, e)))
    ensures forall o | o in Step(c, s, e).pending :: o < |Step(c, s, e).objects|
  {
    hide Delete, Unexpired, Enqueued, Overflow, DistinctKeys;
    match e
    case Enqueue(now, key, announcement) =>
      EnqueueIsEnqueue(c, s, now, key, announcement);
      RoomIsQueued(c, s);
    case Expire(now) => ViewWithoutExpired(c, s.objects, s.pending, now);
    case Remove(key) => ViewWithoutKey(s.objects, s.pending, key);
    case Clear =>
    case Start => if s.pending != [] { assert forall i | 0 <= i < |s.pending| :: s.pending[i] in s.pending; }
    case Continue(f) => assert forall i | 0 <= i < |s.pending| :: s.pending[i] in s.pending;
    case Answer(f, p, reply) =>
      if IsOpen(s, f, p) {
        ViewWithoutKey(s.objects, s.pending, CalledKey(s, f, p));
      }
  }

  lemma MovesKeepDistinct(c: Config, s: State, e: Event, q: seq<Item>, q': seq<Item>)
    requires DistinctKeys(q) && ListMoves(c, s, e, q, q')
    ensures DistinctKeys(q')
  {
    hide Delete, Unexpired;
    match e
    case Enqueue(now, key, announcement) =>
      if !IsQueued(q, key) && Overflow(c, q).Some? {
        DeleteAt(q, Oldest(q));
      }
    case Expire(now) => UnexpiredDistinct(c, q, now);
    case Remove(key) => DeleteKeepsDistinct(q, key);
    case Answer(f, p, _) =>
      if IsOpen(s, f, p) {
        DeleteKeepsDistinct(q, CalledKey(s, f, p));
      }
    case _ =>
  }

  /** No run queues a key twice, whatever happens while calls are open. */
  lemma {:induction false} KeysStayDistinct(c: Config, run: seq<Event>, n: nat)
    requires n <= |run|
    ensures QueueSound(After(c, run, n))
  {
    hide Step, QueueSound;
    if n > 0 {
      KeysStayDistinct(c, run, n - 1);
      StepKeepsQueueSound(c, After(c, run, n - 1), run[n - 1]);
    } else {
      NobodyQueued();
    }
  }

  lemma NobodyQueued()
    ensures QueueSound(START)
  {
  }

  lemma StepKeepsQueueSound(c: Config, s: State, e: Event)
    requires QueueSound(s)
    ensures QueueSound(Step(c, s, e))
  {
    hide Step, Queue, DistinctKeys, ListMoves;
    StepMoves(c, s, e);
    MovesKeepDistinct(c, s, e, Queue(s), Queue(Step(c, s, e)));
  }

  // ---------------------------------------------------------------- the bound

  lemma MovesKeepBound(c: Config, s: State, e: Event, q: seq<Item>, q': seq<Item>)
    requires DistinctKeys(q) && |q| <= Bound(c) && !IsQueued(q, "") && (e.Enqueue? ==> e.key != "")
    requires ListMoves(c, s, e, q, q')
    ensures |q'| <= Bound(c) && !IsQueued(q', "")
  {
    hide Delete, Unexpired;
    match e
    case Enqueue(now, key, announcement) =>
      if !IsQueued(q, key) && q != [] && |q| >= c.maxQueueSize {
        DeleteAt(q, Oldest(q));
      }
    case Expire(now) =>
      UnexpiredIsNoLonger(c, q, now);
      ExpiredKeysAreQueued(c, q, now, "");
    case Remove(key) =>
      DeleteIsNoLonger(q, key);
      DeleteAbsentToo(q, key, "");
    case Answer(f, p, _) =>
      if IsOpen(s, f, p) {
        DeleteIsNoLonger(q, CalledKey(s, f, p));
        DeleteAbsentToo(q, CalledKey(s, f, p), "");
      }
    case _ =>
  }

  /** While only nonempty keys are queued the queue stays within `maxQueueSize` (taken as at least one). */
  lemma {:induction false} QueueIsBounded(c: Config, run: seq<Event>, n: nat)
    requires n <= |run| && forall i | 0 <= i < n && run[i].Enqueue? :: run[i].key != ""
    ensures |Queue(After(c, run, n))| <= Bound(c)
    ensures !IsQueued(Queue(After(c, run, n)), "")
  {
    hide Step, DistinctKeys, ListMoves;
    if n > 0 {
      QueueIsBounded(c, run, n - 1);
      KeysStayDistinct(c, run, n - 1);
      var s, e := After(c, run, n - 1), run[n - 1];
      StepMoves(c, s, e);
      MovesKeepBound(c, s, e, Queue(s), Queue(Step(c, s, e)));
    }
  }

  // ---------------------------------------------------------------- conservation of keys

  /** What has happened to keys so far: each newly queued key, and how keys left the queue. A key is
      delivered or given up when the reply of a call takes it off; the reply of a call whose key has left
      the queue another way counts for neither. */
  datatype Ledger = Ledger(queued: multiset<string>, delivered: multiset<string>, givenUp: multiset<string>,
                           overflowed: multiset<string>, expired: multiset<string>, removed: multiset<string>)

  function Booked(c: Config, l: Ledger, s: State, e: Event): Ledger {
    var q := Queue(s);
    match e
    case Enqueue(now, key, _) =>
      if IsQueued(q, key) then l
      else l.(queued := l.queued + multiset{key},
              overflowed := l.overflowed + match Overflow(c, q) case Some(oldest) => multiset{oldest} case None => multiset{})
    case Expire(now) => l.(expired := l.expired + multiset(ExpiredKeys(c, q, now)))
    case Remove(key) => if IsQueued(q, key) then l.(removed := l.removed + multiset{key}) else l
    case Clear => l.(removed := l.removed + KeyBag(q))
    case Answer(f, p, reply) =>
      if !(IsOpen(s, f, p) && TakesOff(c, s, f, p, reply) && IsQueued(q, CalledKey(s, f, p))) then l
      else if reply.Delivered? then l.(delivered := l.delivered + multiset{CalledKey(s, f, p)})
      else l.(givenUp := l.givenUp + multiset{CalledKey(s, f, p)})
    case _ => l
  }

  function LedgerAfter(c: Config, run: seq<Event>, n: nat): Ledger
    requires n <= |run|
  {
    if n == 0 then Ledger(multiset{}, multiset{}, multiset{}, multiset{}, multiset{}, multiset{})
    else Booked(c, LedgerAfter(c, run, n - 1), After(c, run, n - 1), run[n - 1])
  }

  /** The account of one key is settled. */
  ghost predicate Balanced(l: Ledger, q: seq<Item>, k: string) {
    l.queued[k] == KeyBag(q)[k] + l.delivered[k] + l.givenUp[k] + l.overflowed[k] + l.expired[k] + l.removed[k]
  }

  lemma {:induction false} TriesKeepKeys(q: seq<Item>, q': seq<Item>)
    requires SameButTries(q, q')
    ensures KeyBag(q') == KeyBag(q)
  {
    if q != [] {
      TriesKeepKeys(Front(q), Front(q'));
    }
  }

  lemma DeletionBooked(q: seq<Item>, key: string, k: string)
    requires DistinctKeys(q)
    ensures KeyBag(q)[k] == KeyBag(Delete(q, key))[k] + (if IsQueued(q, key) && k == key then 1 else 0)
  {
    if IsQueued(q, key) {
      DeletionAccounts(q, key);
    } else {
      DeleteAbsent(q, key);
    }
  }

  lemma EnqueueAccounts(c: Config, s: State, l: Ledger, now: int, key: string, announcement: string, k: string)
    requires DistinctKeys(Queue(s)) && Balanced(l, Queue(s), k)
    ensures Balanced(Booked(c, l, s, Enqueue(now, key, announcement)), Enqueued(c, Queue(s), now, key, announcement), k)
  {
    hide Queue, Delete, KeyBag, DistinctKeys;
    var q := Queue(s);
    if IsQueued(q, key) {
      RefreshAccounts(q, key, announcement, now);
    } else {
      var room := match Overflow(c, q) case Some(oldest) => Delete(q, oldest) case None => q;
      if Overflow(c, q).Some? {
        DeletionAccounts(q, Overflow(c, q).value);
      }
      KeyBagGrows(room, Item(key, announcement, now, 0), k);
    }
  }

  lemma StepAccounts(c: Config, s: State, l: Ledger, e: Event, k: string)
    requires QueueSound(s) && Balanced(l, Queue(s), k)
    ensures Balanced(Booked(c, l, s, e), Queue(Step(c, s, e)), k)
  {
    StepMoves(c, s, e);
    hide Queue, Step, Booked, Balanced, ListMoves;
    MoveAccounts(c, s, l, e, k, Queue(Step(c, s, e))) by {
      AreDistinct(s);
    }
  }

  lemma AreDistinct(s: State)
    requires QueueSound(s)
    ensures DistinctKeys(Queue(s))
  {
  }

  lemma MoveAccounts(c: Config, s: State, l: Ledger, e: Event, k: string, q': seq<Item>)
    requires DistinctKeys(Queue(s)) && Balanced(l, Queue(s), k) && ListMoves(c, s, e, Queue(s), q')
    ensures Balanced(Booked(c, l, s, e), q', k)
  {
    hide Queue, Enqueued, Delete, Unexpired, ExpiredKeys, Overflow, KeyBag, IsQueued, DistinctKeys;
    hide IsOpen, TakesOff, CalledKey, SameButTries;
    var q := Queue(s);
    match e
    case Enqueue(now, key, announcement) => EnqueueAccounts(c, s, l, now, key, announcement, k);
    case Expire(now) => ExpiryAccounts(c, q, now);
    case Remove(key) => DeletionBooked(q, key, k);
    case Clear => NothingQueued();
    case Answer(f, p, reply) => AnswerAccounts(c, s, l, f, p, reply, k, q');
    case _ => TriesKeepKeys(q, q');
  }

  lemma AnswerAccounts(c: Config, s: State, l: Ledger, f: nat, p: nat, reply: Reply, k: string, q': seq<Item>)
    requires DistinctKeys(Queue(s)) && Balanced(l, Queue(s), k) && ListMoves(c, s, Answer(f, p, reply), Queue(s), q')
    ensures Balanced(Booked(c, l, s, Answer(f, p, reply)), q', k)
  {
    hide Queue, Delete, KeyBag, IsQueued, DistinctKeys, TakesOff, CalledKey;
    if IsOpen(s, f, p) {
      DeletionBooked(Queue(s), CalledKey(s, f, p), k);
    }
  }

  lemma NothingQueued()
    ensures KeyBag([]) == multiset{}
  {
  }

  lemma NothingHappened(c: Config, run: seq<Event>, k: string)
    ensures Balanced(LedgerAfter(c, run, 0), Queue(After(c, run, 0)), k)
  {
    NothingQueued();
  }

  /** Conservation: in every run each newly queued key is pending, or one reply, one eviction, one expiry or
      one removal took it off. */
  lemma {:induction false} KeysAreConserved(c: Config, run: seq<Event>, n: nat, k: string)
    requires n <= |run|
    ensures Balanced(LedgerAfter(c, run, n), Queue(After(c, run, n)), k)
  {
    hide Step, Booked, Balanced, Queue;
    if n > 0 {
      KeysAreConserved(c, run, n - 1, k);
      KeysStayDistinct(c, run, n - 1);
      StepAccounts(c, After(c, run, n - 1), LedgerAfter(c, run, n - 1), run[n - 1], k);
    } else {
      NothingHappened(c, run, k);
    }
  }

  // ---------------------------------------------------------------- time to live

  /** The event leaves an entry of this key, queued at time `at`, in the queue. */
  ghost predicate Spares(c: Config, s: State, e: Event, key: string, at: int) {
    match e
    case Enqueue(now, other, _) => if other == key then now == at else IsQueued(Queue(s), other) || Overflow(c, Queue(s)) != Some(key)
    case Expire(now) => now <= at + c.queueTTL
    case Remove(other) => other != key
    case Clear => false
    case Answer(f, p, reply) => IsOpen(s, f, p) && TakesOff(c, s, f, p, reply) ==> CalledKey(s, f, p) != key
    case _ => true
  }

  predicate QueuedSince(q: seq<Item>, key: string, at: int) {
    exists i | 0 <= i < |q| :: q[i].key == key && q[i].queuedAt == at
  }

  lemma {:induction false} DeletionSpares(q: seq<Item>, other: string, key: string, at: int)
    requires other != key
    ensures QueuedSince(Delete(q, other), key, at) <==> QueuedSince(q, key, at)
  {
    if q != [] {
      DeletionSpares(Front(q), other, key, at);
      EndsWith(Front(q), Last(q), key, at);
      EndsWith(Delete(Front(q), other), Last(q), key, at);
      assert q == Front(q) + [Last(q)];
    }
  }

  lemma EndsWith(q: seq<Item>, item: Item, key: string, at: int)
    ensures QueuedSince(q + [item], key, at) <==> QueuedSince(q, key, at) || (item.key == key && item.queuedAt == at)
  {
    var r := q + [item];
    assert r[|q|] == item && forall i | 0 <= i < |q| :: r[i] == q[i];
    if QueuedSince(q, key, at) {
      var i :| 0 <= i < |q| && q[i].key == key && q[i].queuedAt == at;
      assert r[i].key == key && r[i].queuedAt == at;
    }
  }

  /** Expiry takes an entry exactly when it has been queued for longer than `queueTTL`. */
  lemma {:induction false} ExpiryTakesExactly(c: Config, q: seq<Item>, now: int, key: string, at: int)
    ensures QueuedSince(Unexpired(c, q, now), key, at) <==> QueuedSince(q, key, at) && now - at <= c.queueTTL
  {
    if q != [] {
      ExpiryTakesExactly(c, Front(q), now, key, at);
      EndsWith(Front(q), Last(q), key, at);
      EndsWith(Unexpired(c, Front(q), now), Last(q), key, at);
      assert q == Front(q) + [Last(q)];
    }
  }

  lemma EnqueuedSince(c: Config, q: seq<Item>, now: int, key: string, announcement: string)
    ensures QueuedSince(Enqueued(c, q, now, key, announcement), key, now)
  {
    var q' := Enqueued(c, q, now, key, announcement);
    if IsQueued(q, key) {
      var i :| 0 <= i < |q| && q[i].key == key;
      assert q'[i].key == key && q'[i].queuedAt == now;
    } else {
      assert q'[|q'| - 1].key == key && q'[|q'| - 1].queuedAt == now;
    }
  }

  lemma OthersEnqueued(c: Config, q: seq<Item>, now: int, other: string, announcement: string, key: string, at: int)
    requires other != key && (IsQueued(q, other) || Overflow(c, q) != Some(key)) && QueuedSince(q, key, at)
    ensures QueuedSince(Enqueued(c, q, now, other, announcement), key, at)
  {
    hide Delete, Overflow;
    if IsQueued(q, other) {
      var i :| 0 <= i < |q| && q[i].key == key && q[i].queuedAt == at;
      assert Refresh(q, other, announcement, now)[i] == q[i];
    } else {
      var room := match Overflow(c, q) case Some(oldest) => Delete(q, oldest) case None => q;
      if Overflow(c, q).Some? {
        DeletionSpares(q, Overflow(c, q).value, key, at);
      }
      EndsWith(room, Item(other, announcement, now, 0), key, at);
    }
  }

  lemma MoveSpares(c: Config, s: State, e: Event, q': seq<Item>, key: string, at: int)
    requires ListMoves(c, s, e, Queue(s), q') && Spares(c, s, e, key, at) && QueuedSince(Queue(s), key, at)
    ensures QueuedSince(q', key, at)
  {
    hide Queue, Enqueued, Delete, Unexpired, Overflow, IsQueued, QueuedSince, TakesOff;
    match e
    case Enqueue(now, other, announcement) =>
      if other == key {
        EnqueuedSince(c, Queue(s), now, key, announcement);
      } else {
        OthersEnqueued(c, Queue(s), now, other, announcement, key, at);
      }
    case Expire(now) => ExpiryTakesExactly(c, Queue(s), now, key, at);
    case Remove(other) => DeletionSpares(Queue(s), other, key, at);
    case Answer(f, p, reply) =>
      if IsOpen(s, f, p) && TakesOff(c, s, f, p, reply) {
        DeletionSpares(Queue(s), CalledKey(s, f, p), key, at);
      }
    case _ => TriesSpare(Queue(s), q', key, at);
  }

  lemma TriesSpare(q: seq<Item>, q': seq<Item>, key: string, at: int)
    requires SameButTries(q, q')
    ensures QueuedSince(q', key, at) <==> QueuedSince(q, key, at)
  {
    if QueuedSince(q, key, at) {
      var i :| 0 <= i < |q| && q[i].key == key && q[i].queuedAt == at;
      assert q'[i].key == key && q'[i].queuedAt == at;
    }
    if QueuedSince(q', key, at) {
      var i :| 0 <= i < |q'| && q'[i].key == key && q'[i].queuedAt == at;
      assert q[i].key == key && q[i].queuedAt == at;
    }
  }

  /** What is queued stays queued for its time to live, unless a reply, a removal, a clearing or an overflow
      takes its key off. */
  lemma {:induction false} StaysForItsTime(c: Config, run: seq<Event>, i: nat, n: nat)
    requires i < n <= |run| && run[i].Enqueue?
    requires forall k | i < k < n :: Spares(c, After(c, run, k), run[k], run[i].key, run[i].now)
    ensures QueuedSince(Queue(After(c, run, n)), run[i].key, run[i].now)
  {
    hide Step, Queue, ListMoves, Spares, QueuedSince, QueueSound;
    KeysStayDistinct(c, run, n - 1);
    StepMoves(c, After(c, run, n - 1), run[n - 1]);
    if n == i + 1 {
      JustEnqueued(c, After(c, run, i), run[i], Queue(After(c, run, n)));
    } else {
      StaysForItsTime(c, run, i, n - 1);
      MoveSpares(c, After(c, run, n - 1), run[n - 1], Queue(After(c, run, n)), run[i].key, run[i].now);
    }
  }

  lemma JustEnqueued(c: Config, s: State, e: Event, q': seq<Item>)
    requires e.Enqueue? && ListMoves(c, s, e, Queue(s), q')
    ensures QueuedSince(q', e.key, e.now)
  {
    EnqueuedSince(c, Queue(s), e.now, e.key, e.announcement);
  }
}
