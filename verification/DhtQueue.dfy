/** The queue of DHT announcements: bounded, expiring, flushed in batches with retries. */
module DhtQueue {
  import opened Outcomes

  datatype Config = Config(maxQueueSize: nat, queueTTL: int, maxRetries: nat, flushBatchSize: nat)

  datatype Item = Item(key: string, announcement: string, queuedAt: int, attempts: nat)

  /** What the flush callback does with an announcement. */
  datatype Reply = Delivered | Refused | Threw

  type Callback = (string, string) -> Reply

  // ---------------------------------------------------------------- the queue, in insertion order

  ghost predicate DistinctKeys(q: seq<Item>) {
    forall i, j | 0 <= i < j < |q| :: q[i].key != q[j].key
  }

  predicate IsQueued(q: seq<Item>, key: string) {
    exists i | 0 <= i < |q| :: q[i].key == key
  }

  function Front(q: seq<Item>): seq<Item>
    requires q != []
  {
    q[..|q| - 1]
  }

  function Last(q: seq<Item>): Item
    requires q != []
  {
    q[|q| - 1]
  }

  function Delete(q: seq<Item>, key: string): seq<Item> {
    if q == [] then []
    else if Last(q).key == key then Delete(Front(q), key)
    else Delete(Front(q), key) + [Last(q)]
  }

  function Refresh(q: seq<Item>, key: string, announcement: string, now: int): seq<Item> {
    seq(|q|, (i: nat) requires i < |q| =>
      if q[i].key == key then q[i].(announcement := announcement, queuedAt := now) else q[i])
  }

  function Bump(q: seq<Item>, key: string): seq<Item> {
    seq(|q|, (i: nat) requires i < |q| => if q[i].key == key then q[i].(attempts := q[i].attempts + 1) else q[i])
  }

  predicate IsExpired(c: Config, item: Item, now: int) {
    now - item.queuedAt > c.queueTTL
  }

  function Unexpired(c: Config, q: seq<Item>, now: int): seq<Item> {
    if q == [] then []
    else if IsExpired(c, Last(q), now) then Unexpired(c, Front(q), now)
    else Unexpired(c, Front(q), now) + [Last(q)]
  }

  function ExpiredKeys(c: Config, q: seq<Item>, now: int): seq<string> {
    if q == [] then []
    else if IsExpired(c, Last(q), now) then ExpiredKeys(c, Front(q), now) + [Last(q).key]
    else ExpiredKeys(c, Front(q), now)
  }

  function DeleteAll(q: seq<Item>, keys: seq<string>): seq<Item> {
    if keys == [] then q else Delete(DeleteAll(q, keys[..|keys| - 1]), keys[|keys| - 1])
  }

  /** Place of the first entry with the smallest `queuedAt`. */
  function Oldest(q: seq<Item>): (i: nat)
    requires q != []
    ensures i < |q|
    ensures forall j | 0 <= j < |q| :: q[i].queuedAt <= q[j].queuedAt
    ensures forall j | 0 <= j < i :: q[i].queuedAt < q[j].queuedAt
  {
    if |q| == 1 then 0
    else
      var front := Oldest(q[..|q| - 1]);
      if q[|q| - 1].queuedAt < q[front].queuedAt then |q| - 1 else front
  }

  /** The entry a new key pushes out of a full queue; an empty key is taken for "none found". */
  function Overflow(c: Config, q: seq<Item>): Option<string> {
    if |q| < c.maxQueueSize || q == [] || q[Oldest(q)].key == "" then None else Some(q[Oldest(q)].key)
  }

  function Enqueued(c: Config, q: seq<Item>, now: int, key: string, announcement: string): seq<Item> {
    if IsQueued(q, key) then Refresh(q, key, announcement, now)
    else
      var room := match Overflow(c, q) case Some(oldest) => Delete(q, oldest) case None => q;
      room + [Item(key, announcement, now, 0)]
  }

  /** One try of one item: it stays, with the try counted, iff it failed with tries left. */
  function Tried(c: Config, item: Item, reply: Reply): Option<Item> {
    if reply.Delivered? || item.attempts + 1 >= c.maxRetries then None
    else Some(item.(attempts := item.attempts + 1))
  }

  function ReplyTo(f: Callback, item: Item): Reply {
    f(item.key, item.announcement)
  }

  /** Handling the items one at a time. */
  function Flushed(c: Config, q: seq<Item>, f: Callback): seq<Item> {
    if q == [] then []
    else
      match Tried(c, Last(q), ReplyTo(f, Last(q)))
      case Some(kept) => Flushed(c, Front(q), f) + [kept]
      case None => Flushed(c, Front(q), f)
  }

  function DeliveredCount(q: seq<Item>, f: Callback): nat {
    if q == [] then 0 else DeliveredCount(Front(q), f) + (if ReplyTo(f, Last(q)).Delivered? then 1 else 0)
  }

  /** That many places of the queue hold an announcement that the callback delivers. */
  lemma {:induction false} DeliveredAreCounted(q: seq<Item>, f: Callback)
    ensures DeliveredCount(q, f) == |set i | 0 <= i < |q| && f(q[i].key, q[i].announcement) == Delivered|
  {
    var all := set i | 0 <= i < |q| && f(q[i].key, q[i].announcement) == Delivered;
    if q != [] {
      DeliveredAreCounted(Front(q), f);
      var front := set i | 0 <= i < |Front(q)| && f(Front(q)[i].key, Front(q)[i].announcement) == Delivered;
      assert all == if f(Last(q).key, Last(q).announcement) == Delivered then front + {|q| - 1} else front;
    } else {
      assert all == {};
    }
  }

  /** One call of the flush callback. */
  datatype Call = Call(key: string, announcement: string)

  /** One call for each item, in order. */
  function CallsFor(q: seq<Item>): seq<Call> {
    seq(|q|, (i: nat) requires i < |q| => Call(q[i].key, q[i].announcement))
  }

  /** Under different keys that is exactly one call for what is queued, and none for anything else. */
  lemma {:induction false} EachIsCalledOnce(q: seq<Item>, call: Call)
    requires DistinctKeys(q)
    ensures multiset(CallsFor(q))[call] == if exists i | 0 <= i < |q| :: CallsFor(q)[i] == call then 1 else 0
  {
    if q == [] {
      assert CallsFor(q) == [];
    } else {
      var front, last := CallsFor(Front(q)), CallsFor(q)[|q| - 1];
      EachIsCalledOnce(Front(q), call);
      assert CallsFor(q) == front + [last];
      forall i | 0 <= i < |front|
        ensures front[i] != last
      {
        assert q[i].key != q[|q| - 1].key;
      }
      if i :| 0 <= i < |front| && front[i] == call {
        assert CallsFor(q)[i] == call;
      }
    }
  }

  // ---------------------------------------------------------------- list facts

  lemma {:induction false} DeleteConcat(a: seq<Item>, b: seq<Item>, key: string)
    ensures Delete(a + b, key) == Delete(a, key) + Delete(b, key)
  {
    if b == [] {
      assert a + b == a;
    } else {
      DeleteConcat(a, Front(b), key);
      assert Front(a + b) == a + Front(b);
    }
  }

  lemma {:induction false} DeleteAbsent(q: seq<Item>, key: string)
    requires forall i | 0 <= i < |q| :: q[i].key != key
    ensures Delete(q, key) == q
  {
    if q != [] {
      DeleteAbsent(Front(q), key);
    }
  }

  lemma DeleteBetween(a: seq<Item>, item: Item, b: seq<Item>)
    requires forall i | 0 <= i < |a| :: a[i].key != item.key
    requires forall i | 0 <= i < |b| :: b[i].key != item.key
    ensures Delete(a + [item] + b, item.key) == a + b
  {
    DeleteConcat(a + [item], b, item.key);
    assert Front(a + [item]) == a;
    DeleteAbsent(a, item.key);
    DeleteAbsent(b, item.key);
  }

  lemma DeleteAt(q: seq<Item>, i: nat)
    requires DistinctKeys(q) && i < |q|
    ensures Delete(q, q[i].key) == q[..i] + q[i + 1..]
  {
    hide Delete;
    DeleteBetween(q[..i], q[i], q[i + 1..]);
    assert q == q[..i] + [q[i]] + q[i + 1..];
  }

  lemma {:induction false} FlushedAbsent(c: Config, q: seq<Item>, f: Callback, key: string)
    requires forall i | 0 <= i < |q| :: q[i].key != key
    ensures forall i | 0 <= i < |Flushed(c, q, f)| :: Flushed(c, q, f)[i].key != key
  {
    if q != [] {
      FlushedAbsent(c, Front(q), f, key);
    }
  }

  lemma {:induction false} FlushedDistinct(c: Config, q: seq<Item>, f: Callback)
    requires DistinctKeys(q)
    ensures DistinctKeys(Flushed(c, q, f))
  {
    if q != [] {
      FlushedDistinct(c, Front(q), f);
      FlushedAbsent(c, Front(q), f, Last(q).key);
    }
  }

  // ---------------------------------------------------------------- the object

  class DHTAnnouncementQueue {
    const config: Config
    var pendingQueue: seq<Item>

    ghost predicate Valid()
      reads this
    {
      DistinctKeys(pendingQueue)
    }

    constructor (c: Config)
      ensures config == c && pendingQueue == [] && Valid()
    {
      config := c;
      pendingQueue := [];
    }

    method FindOldestKey() returns (oldestKey: Option<string>)
      ensures oldestKey == if pendingQueue == [] then None else Some(pendingQueue[Oldest(pendingQueue)].key)
    {
      oldestKey := None;
      ghost var at := 0;
      var oldestTime := 0;
      for i := 0 to |pendingQueue|
        invariant i == 0 <==> oldestKey.None?
        invariant i > 0 ==> at < i && oldestTime == pendingQueue[at].queuedAt && oldestKey == Some(pendingQueue[at].key)
        invariant forall j | 0 <= j < i :: oldestTime <= pendingQueue[j].queuedAt
        invariant forall j | 0 <= j < at && j < i :: oldestTime < pendingQueue[j].queuedAt
      {
        if oldestKey.None? || pendingQueue[i].queuedAt < oldestTime {
          oldestTime, oldestKey, at := pendingQueue[i].queuedAt, Some(pendingQueue[i].key), i;
        }
      }
    }

    method Enqueue(now: int, key: string, announcement: string) returns (dropped: Option<string>)
      requires Valid()
      modifies this`pendingQueue
      ensures Valid()
      ensures pendingQueue == Enqueued(config, old(pendingQueue), now, key, announcement)
      ensures dropped == if IsQueued(old(pendingQueue), key) then None else Overflow(config, old(pendingQueue))
    {
      hide Delete;
      dropped := None;
      if IsQueued(pendingQueue, key) {
        pendingQueue := Refresh(pendingQueue, key, announcement, now);
        return;
      }
      if |pendingQueue| >= config.maxQueueSize {
        var oldestKey := FindOldestKey();
        if oldestKey.Some? && oldestKey.value != "" {
          DeleteAt(pendingQueue, Oldest(pendingQueue));
          pendingQueue := Delete(pendingQueue, oldestKey.value);
          dropped := oldestKey;
        }
      }
      pendingQueue := pendingQueue + [Item(key, announcement, now, 0)];
    }

    method Remove(key: string) returns (removed: bool)
      requires Valid()
      modifies this`pendingQueue
      ensures Valid()
      ensures pendingQueue == Delete(old(pendingQueue), key) && removed == IsQueued(old(pendingQueue), key)
    {
      removed := IsQueued(pendingQueue, key);
      DeleteKeepsDistinct(pendingQueue, key);
      pendingQueue := Delete(pendingQueue, key);
    }

    method CleanupExpired(now: int)
      requires Valid()
      modifies this`pendingQueue
      ensures Valid()
      ensures pendingQueue == Unexpired(config, old(pendingQueue), now)
    {
      var items, expiredKeys: seq<string> := pendingQueue, [];
      for i := 0 to |items|
        invariant expiredKeys == ExpiredKeys(config, items[..i], now)
      {
        assert Front(items[..i + 1]) == items[..i];
        if now - items[i].queuedAt > config.queueTTL {
          expiredKeys := expiredKeys + [items[i].key];
        }
      }
      assert items[..|items|] == items;
      for k := 0 to |expiredKeys|
        invariant pendingQueue == DeleteAll(items, expiredKeys[..k])
      {
        assert expiredKeys[..k + 1][..k] == expiredKeys[..k];
        pendingQueue := Delete(pendingQueue, expiredKeys[k]);
      }
      assert expiredKeys[..|expiredKeys|] == expiredKeys;
      DeletingExpired(config, items, now);
      UnexpiredDistinct(config, items, now);
    }

    method Clear()
      modifies this`pendingQueue
      ensures pendingQueue == []
    {
      pendingQueue := [];
    }

    /** The batched flush: within a batch every try is counted and every call made first, then the
        replies come in, in any order. The outcome is that of handling the items one at a time, and
        each is tried exactly once: `calls` are the calls of the callback. */
    method Flush(callback: Option<Callback>) returns (success: nat, failed: nat, ghost calls: seq<Call>)
      requires Valid() && config.flushBatchSize >= 1
      modifies this`pendingQueue
      ensures Valid()
      ensures callback.None? ==> pendingQueue == old(pendingQueue) && success == failed == 0 && calls == []
      ensures callback.Some? ==> pendingQueue == Flushed(config, old(pendingQueue), callback.value)
      ensures callback.Some? ==> success == DeliveredCount(old(pendingQueue), callback.value)
      ensures callback.Some? ==> success + failed == |old(pendingQueue)|
      ensures callback.Some? ==> calls == CallsFor(old(pendingQueue))
    {
      success, failed, calls := 0, 0, [];
      if callback.None? || |pendingQueue| == 0 {
        return;
      }
      hide Partial, Flushed, DeliveredCount, DistinctKeys, ReplyTo;
      var f, items := callback.value, pendingQueue;
      NothingDelivered(items, f);
      PartialNone(config, items, f, |items|);
      var i := 0;
      while i < |items|
        invariant 0 <= i <= |items|
        invariant pendingQueue == Partial(config, items, f, Below(i), Below(i), |items|)
        invariant success == DeliveredCount(items[..i], f) && success + failed == i
        invariant calls == CallsFor(items[..i])
        decreases |items| - i
      {
        var end := if i + config.flushBatchSize < |items| then i + config.flushBatchSize else |items|;
        var delivered, made := FlushBatch(items, i, end, f);
        DeliveredCountConcat(items[..i], items[i..end], f);
        assert items[..end] == items[..i] + items[i..end];
        CallsConcat(items[..i], items[i..end]);
        success := success + delivered;
        failed := failed + (end - i - delivered);
        calls := calls + made;
        i := end;
      }
      PartialAll(config, items, f, |items|);
      FlushedDistinct(config, items, f);
      assert items[..|items|] == items;
    }

    /** The only place where the callback is called. */
    static method CallBack(f: Callback, item: Item, ghost before: seq<Call>) returns (reply: Reply, ghost calls: seq<Call>)
      ensures reply == ReplyTo(f, item) && calls == before + [Call(item.key, item.announcement)]
    {
      calls := before + [Call(item.key, item.announcement)];
      return f(item.key, item.announcement), calls;
    }

    /** One batch, `Promise.all` over items `from` to `to`. */
    method FlushBatch(items: seq<Item>, from: nat, to: nat, f: Callback) returns (delivered: nat, ghost calls: seq<Call>)
      requires from < to <= |items| && DistinctKeys(items) && to - from <= config.flushBatchSize
      requires pendingQueue == Partial(config, items, f, Below(from), Below(from), |items|)
      modifies this`pendingQueue
      ensures pendingQueue == Partial(config, items, f, Below(to), Below(to), |items|)
      ensures delivered == DeliveredCount(items[from..to], f) && calls == CallsFor(items[from..to])
    {
      hide Partial, Bump, Delete, DeliveredCount, ReplyTo;
      var replies: seq<Reply>;
      replies, calls := MakeCalls(items, from, to, f);
      SettleReplies(items, from, to, f, replies);
      delivered := CountDelivered(items[from..to], f, replies);
    }

    /** Up to their awaits the items of a batch are handled in order. */
    method MakeCalls(items: seq<Item>, from: nat, to: nat, f: Callback) returns (replies: seq<Reply>, ghost calls: seq<Call>)
      requires from < to <= |items| && DistinctKeys(items)
      requires pendingQueue == Partial(config, items, f, Below(from), Below(from), |items|)
      modifies this`pendingQueue
      ensures pendingQueue == Partial(config, items, f, Below(to), Below(from), |items|)
      ensures |replies| == to - from && forall i | from <= i < to :: replies[i - from] == ReplyTo(f, items[i])
      ensures calls == CallsFor(items[from..to])
    {
      hide Partial, Bump, ReplyTo;
      replies, calls := [], [];
      for j := from to to
        invariant pendingQueue == Partial(config, items, f, Below(j), Below(from), |items|)
        invariant |replies| == j - from && forall i | from <= i < j :: replies[i - from] == ReplyTo(f, items[i])
        invariant calls == CallsFor(items[from..j])
      {
        CountTry(config, items, f, Below(j), Below(from), j, |items|);
        assert Below(j) + {j} == Below(j + 1);
        pendingQueue := Bump(pendingQueue, items[j].key);
        var reply;
        reply, calls := CallBack(f, items[j], calls);
        replies := replies + [reply];
        assert items[from..j + 1] == items[from..j] + [items[j]];
        assert CallsFor(items[from..j + 1]) == CallsFor(items[from..j]) + CallsFor([items[j]]);
      }
    }

    /** The replies come in, in any order. */
    method SettleReplies(items: seq<Item>, from: nat, to: nat, f: Callback, replies: seq<Reply>)
      requires from < to <= |items| && DistinctKeys(items)
      requires |replies| == to - from && forall i | from <= i < to :: replies[i - from] == ReplyTo(f, items[i])
      requires pendingQueue == Partial(config, items, f, Below(to), Below(from), |items|)
      modifies this`pendingQueue
      ensures pendingQueue == Partial(config, items, f, Below(to), Below(to), |items|)
    {
      hide Partial, Delete, ReplyTo, DistinctKeys, Below;
      BatchNumbers(from, to);
      var open := Below(to) - Below(from);
      ghost var settled := Below(from);
      while open != {}
        invariant open + settled == Below(to) && open !! settled && forall j | j in open :: from <= j < to
        invariant pendingQueue == Partial(config, items, f, Below(to), settled, |items|)
        decreases |open|
      {
        var j :| j in open;
        var reply, attempts := replies[j - from], items[j].attempts + 1;
        SettleReply(config, items, f, Below(to), settled, j, |items|);
        if reply.Delivered? || attempts >= config.maxRetries {
          pendingQueue := Delete(pendingQueue, items[j].key);
        }
        open, settled := open - {j}, settled + {j};
      }
      assert settled == Below(to);
    }

    static method CountDelivered(items: seq<Item>, f: Callback, replies: seq<Reply>) returns (delivered: nat)
      requires |replies| == |items| && forall i | 0 <= i < |items| :: replies[i] == ReplyTo(f, items[i])
      ensures delivered == DeliveredCount(items, f)
    {
      delivered := 0;
      for i := 0 to |items|
        invariant delivered == DeliveredCount(items[..i], f)
      {
        assert Front(items[..i + 1]) == items[..i];
        if replies[i].Delivered? {
          delivered := delivered + 1;
        }
      }
      assert items[..|items|] == items;
    }
  }

  // ---------------------------------------------------------------- inside a flush

  lemma BatchNumbers(from: nat, to: nat)
    requires from <= to
    ensures Below(from) <= Below(to) && forall j | j in Below(to) - Below(from) :: from <= j < to
  {
  }

  lemma CallsConcat(a: seq<Item>, b: seq<Item>)
    ensures CallsFor(a + b) == CallsFor(a) + CallsFor(b)
  {
  }

  lemma NothingDelivered(items: seq<Item>, f: Callback)
    ensures DeliveredCount(items[..0], f) == 0
  {
  }

  lemma {:induction false} DeliveredCountConcat(a: seq<Item>, b: seq<Item>, f: Callback)
    ensures DeliveredCount(a + b, f) == DeliveredCount(a, f) + DeliveredCount(b, f)
    ensures DeliveredCount(b, f) <= |b|
  {
    if b == [] {
      assert a + b == a;
    } else {
      DeliveredCountConcat(a, Front(b), f);
      assert Front(a + b) == a + Front(b);
    }
  }

  predicate IsBelow(j: nat, n: nat) { j < n }

  function Below(n: nat): set<nat> {
    set j: nat | j < n && IsBelow(j, n)
  }

  /** The first `n` items with the tries of `tried` counted and the replies of `settled` handled. */
  ghost function Partial(c: Config, items: seq<Item>, f: Callback, tried: set<nat>, settled: set<nat>, n: nat): seq<Item>
    requires n <= |items|
  {
    if n == 0 then []
    else
      var item, front := items[n - 1], Partial(c, items, f, tried, settled, n - 1);
      if n - 1 in settled then
        match Tried(c, item, ReplyTo(f, item))
        case Some(kept) => front + [kept]
        case None => front
      else front + [if n - 1 in tried then item.(attempts := item.attempts + 1) else item]
  }

  lemma {:induction false} PartialNone(c: Config, items: seq<Item>, f: Callback, n: nat)
    requires n <= |items|
    ensures Partial(c, items, f, Below(0), Below(0), n) == items[..n]
  {
    if n > 0 {
      PartialNone(c, items, f, n - 1);
      assert items[..n] == items[..n - 1] + [items[n - 1]];
    }
  }

  lemma {:induction false} PartialAll(c: Config, items: seq<Item>, f: Callback, n: nat)
    requires n <= |items|
    ensures Partial(c, items, f, Below(|items|), Below(|items|), n) == Flushed(c, items[..n], f)
  {
    if n > 0 {
      PartialAll(c, items, f, n - 1);
      assert Front(items[..n]) == items[..n - 1];
    }
  }

  lemma {:induction false} PartialKeys(c: Config, items: seq<Item>, f: Callback, tried: set<nat>, settled: set<nat>,
                                       n: nat, key: string)
    requires n <= |items| && forall i | 0 <= i < n :: items[i].key != key
    ensures forall i | 0 <= i < |Partial(c, items, f, tried, settled, n)| :: Partial(c, items, f, tried, settled, n)[i].key != key
  {
    if n > 0 {
      PartialKeys(c, items, f, tried, settled, n - 1, key);
    }
  }

  lemma BumpConcat(a: seq<Item>, b: seq<Item>, key: string)
    ensures Bump(a + b, key) == Bump(a, key) + Bump(b, key)
  {
  }

  lemma BumpAbsent(q: seq<Item>, key: string)
    requires forall i | 0 <= i < |q| :: q[i].key != key
    ensures Bump(q, key) == q
  {
  }

  lemma {:induction false} CountTry(c: Config, items: seq<Item>, f: Callback, tried: set<nat>, settled: set<nat>,
                                    j: nat, n: nat)
    requires DistinctKeys(items) && j < n <= |items| && j !in tried && j !in settled
    ensures Bump(Partial(c, items, f, tried, settled, n), items[j].key) == Partial(c, items, f, tried + {j}, settled, n)
  {
    var key, front := items[j].key, Partial(c, items, f, tried, settled, n - 1);
    if j == n - 1 {
      PartialKeys(c, items, f, tried, settled, n - 1, key);
      BumpAbsent(front, key);
      BumpConcat(front, [items[j]], key);
      TriedElsewhere(c, items, f, tried, tried + {j}, settled, settled, n - 1);
    } else {
      CountTry(c, items, f, tried, settled, j, n - 1);
      var all := Partial(c, items, f, tried, settled, n);
      BumpConcat(front, all[|front|..], key);
      BumpAbsent(all[|front|..], key);
    }
  }

  lemma {:induction false} TriedElsewhere(c: Config, items: seq<Item>, f: Callback, t: set<nat>, t': set<nat>,
                                          s: set<nat>, s': set<nat>, n: nat)
    requires n <= |items| && forall i: nat | i < n :: (i in t <==> i in t') && (i in s <==> i in s')
    ensures Partial(c, items, f, t, s, n) == Partial(c, items, f, t', s', n)
  {
    if n > 0 {
      TriedElsewhere(c, items, f, t, t', s, s', n - 1);
    }
  }

  lemma {:induction false} SettleReply(c: Config, items: seq<Item>, f: Callback, tried: set<nat>, settled: set<nat>,
                                       j: nat, n: nat)
    requires DistinctKeys(items) && j < n <= |items| && j in tried && j !in settled
    ensures var before, after := Partial(c, items, f, tried, settled, n), Partial(c, items, f, tried, settled + {j}, n);
            after == if ReplyTo(f, items[j]).Delivered? || items[j].attempts + 1 >= c.maxRetries
                     then Delete(before, items[j].key) else before
  {
    var key, front, all := items[j].key, Partial(c, items, f, tried, settled, n - 1), Partial(c, items, f, tried, settled, n);
    if j == n - 1 {
      PartialKeys(c, items, f, tried, settled, n - 1, key);
      DeleteAbsent(front, key);
      assert Front(all) == front && Last(all).key == key;
      TriedElsewhere(c, items, f, tried, tried, settled, settled + {j}, n - 1);
    } else {
      SettleReply(c, items, f, tried, settled, j, n - 1);
      assert |all| > |front| ==> Front(all) == front && Last(all).key != key;
    }
  }

  lemma DeleteKeepsDistinct(q: seq<Item>, key: string)
    requires DistinctKeys(q)
    ensures DistinctKeys(Delete(q, key))
  {
    if IsQueued(q, key) {
      var i :| 0 <= i < |q| && q[i].key == key;
      DeleteAt(q, i);
    } else {
      DeleteAbsent(q, key);
    }
  }

  lemma {:induction false} DeleteAllLast(front: seq<Item>, last: Item, keys: seq<string>)
    requires last.key !in keys
    ensures DeleteAll(front + [last], keys) == DeleteAll(front, keys) + [last]
  {
    if keys != [] {
      var before := keys[..|keys| - 1];
      DeleteAllLast(front, last, before);
      var q := DeleteAll(front, before);
      assert Front(q + [last]) == q;
    }
  }

  lemma {:induction false} ExpiredKeysAreQueued(c: Config, q: seq<Item>, now: int, key: string)
    requires forall i | 0 <= i < |q| :: q[i].key != key
    ensures key !in ExpiredKeys(c, q, now)
    ensures forall i | 0 <= i < |Unexpired(c, q, now)| :: Unexpired(c, q, now)[i].key != key
  {
    if q != [] {
      ExpiredKeysAreQueued(c, Front(q), now, key);
    }
  }

  lemma {:induction false} UnexpiredDistinct(c: Config, q: seq<Item>, now: int)
    requires DistinctKeys(q)
    ensures DistinctKeys(Unexpired(c, q, now))
  {
    if q != [] {
      UnexpiredDistinct(c, Front(q), now);
      ExpiredKeysAreQueued(c, Front(q), now, Last(q).key);
    }
  }

  /** Deleting the expired keys one after the other leaves the unexpired entries in order. */
  lemma {:induction false} DeletingExpired(c: Config, q: seq<Item>, now: int)
    requires DistinctKeys(q)
    ensures DeleteAll(q, ExpiredKeys(c, q, now)) == Unexpired(c, q, now)
  {
    if q != [] {
      var front, last, keys, kept := Front(q), Last(q), ExpiredKeys(c, Front(q), now), Unexpired(c, Front(q), now);
      DeletingExpired(c, front, now);
      ExpiredKeysAreQueued(c, front, now, last.key);
      DeleteAllLast(front, last, keys);
      assert q == front + [last];
      if IsExpired(c, last, now) {
        assert ExpiredKeys(c, q, now)[..|keys|] == keys;
        assert Front(kept + [last]) == kept;
        DeleteAbsent(kept, last.key);
      }
    }
  }

  // ---------------------------------------------------------------- what a flush keeps

  /** An item stays after a flush iff its try failed with tries left, its count then one higher. */
  lemma {:induction false} FlushKeepsRetriable(c: Config, q: seq<Item>, f: Callback, item: Item)
    ensures item in Flushed(c, q, f) <==>
            item.attempts > 0 && item.attempts < c.maxRetries
            && !ReplyTo(f, item).Delivered? && item.(attempts := item.attempts - 1) in q
  {
    if q != [] {
      FlushKeepsRetriable(c, Front(q), f, item);
      assert q == Front(q) + [Last(q)];
    }
  }

  function FlushedRepeatedly(c: Config, q: seq<Item>, callbacks: seq<Callback>): seq<Item> {
    if callbacks == [] then q
    else Flushed(c, FlushedRepeatedly(c, q, callbacks[..|callbacks| - 1]), callbacks[|callbacks| - 1])
  }

  lemma {:induction false} AttemptsAddUp(c: Config, q: seq<Item>, callbacks: seq<Callback>, item: Item)
    requires item in FlushedRepeatedly(c, q, callbacks)
    ensures item.attempts >= |callbacks|
    ensures callbacks != [] ==> item.attempts < c.maxRetries
  {
    if callbacks != [] {
      var front := callbacks[..|callbacks| - 1];
      FlushKeepsRetriable(c, FlushedRepeatedly(c, q, front), callbacks[|callbacks| - 1], item);
      AttemptsAddUp(c, q, front, item.(attempts := item.attempts - 1));
    }
  }

  /** Whatever the replies, `maxRetries` flushes in a row (at least one) leave nothing queued. */
  lemma RetriesDrainTheQueue(c: Config, q: seq<Item>, callbacks: seq<Callback>)
    requires |callbacks| >= c.maxRetries && |callbacks| >= 1
    ensures FlushedRepeatedly(c, q, callbacks) == []
  {
    var rest := FlushedRepeatedly(c, q, callbacks);
    if rest != [] {
      AttemptsAddUp(c, q, callbacks, rest[0]);
    }
  }

  // ---------------------------------------------------------------- the bound

  function Bound(c: Config): nat {
    if c.maxQueueSize >= 1 then c.maxQueueSize else 1
  }

  /** A full queue makes room for a new key exactly when its oldest key is not the empty one. */
  lemma RoomIsMadeExactly(c: Config, q: seq<Item>, now: int, key: string, announcement: string)
    requires DistinctKeys(q) && |q| == Bound(c) && !IsQueued(q, key)
    ensures |Enqueued(c, q, now, key, announcement)| <= Bound(c) <==> q[Oldest(q)].key != ""
  {
    if q[Oldest(q)].key != "" {
      DeleteAt(q, Oldest(q));
    }
  }

  lemma {:induction false} UnexpiredIsNoLonger(c: Config, q: seq<Item>, now: int)
    ensures |Unexpired(c, q, now)| <= |q|
  {
    if q != [] {
      UnexpiredIsNoLonger(c, Front(q), now);
    }
  }

  lemma {:induction false} DeleteIsNoLonger(q: seq<Item>, key: string)
    ensures |Delete(q, key)| <= |q|
  {
    if q != [] {
      DeleteIsNoLonger(Front(q), key);
    }
  }

  lemma {:induction false} DeleteAbsentToo(q: seq<Item>, key: string, other: string)
    requires forall i | 0 <= i < |q| :: q[i].key != other
    ensures forall i | 0 <= i < |Delete(q, key)| :: Delete(q, key)[i].key != other
  {
    if q != [] {
      DeleteAbsentToo(Front(q), key, other);
    }
  }

  // ---------------------------------------------------------------- conservation of keys

  function KeyBag(q: seq<Item>): multiset<string> {
    if q == [] then multiset{} else KeyBag(Front(q)) + multiset{Last(q).key}
  }

  lemma KeyBagGrows(q: seq<Item>, item: Item, k: string)
    ensures KeyBag(q + [item])[k] == KeyBag(q)[k] + (if k == item.key then 1 else 0)
  {
    assert Front(q + [item]) == q;
  }

  lemma {:induction false} ExpiryAccounts(c: Config, q: seq<Item>, now: int)
    ensures KeyBag(q) == KeyBag(Unexpired(c, q, now)) + multiset(ExpiredKeys(c, q, now))
  {
    if q != [] {
      ExpiryAccounts(c, Front(q), now);
      if !IsExpired(c, Last(q), now) {
        assert Front(Unexpired(c, Front(q), now) + [Last(q)]) == Unexpired(c, Front(q), now);
      }
    }
  }

  lemma {:induction false} DeletionAccounts(q: seq<Item>, key: string)
    requires DistinctKeys(q) && IsQueued(q, key)
    ensures KeyBag(q) == KeyBag(Delete(q, key)) + multiset{key}
  {
    var i :| 0 <= i < |q| && q[i].key == key;
    var front := Front(q);
    if i == |front| {
      DeleteAbsent(front, key);
    } else {
      assert front[i].key == key && Last(q).key != key;
      DeletionAccounts(front, key);
      hide Delete;
      DeleteOther(q, key);
    }
  }

  lemma DeleteOther(q: seq<Item>, key: string)
    requires q != [] && Last(q).key != key
    ensures KeyBag(Delete(q, key)) == KeyBag(Delete(Front(q), key)) + multiset{Last(q).key}
  {
    assert Front(Delete(Front(q), key) + [Last(q)]) == Delete(Front(q), key);
  }

  lemma {:induction false} RefreshAccounts(q: seq<Item>, key: string, announcement: string, now: int)
    ensures KeyBag(Refresh(q, key, announcement, now)) == KeyBag(q)
  {
    if q != [] {
      RefreshAccounts(Front(q), key, announcement, now);
      var r := Refresh(q, key, announcement, now);
      assert Front(r) == Refresh(Front(q), key, announcement, now) && Last(r).key == Last(q).key;
      hide Refresh, Front, Last;
    }
  }
}
