/** Answering a discovery query from the local cache, and what the cache holds. */
module DiscoveryQuery {
  import opened Outcomes
  import opened Sorting

  datatype Place = Place(latitude: real, longitude: real)

  datatype PeerInfo = PeerInfo(peerId: string, multiaddrs: seq<string>)

  datatype Advertisement = Advertisement(
    id: string, protocol: string, peerInfo: Option<PeerInfo>, capabilities: seq<string>, reputation: real,
    expiresAt: int, location: Option<Place>, customCriteria: Option<map<string, string>>)

  /** Zero `minReputation` and `maxResults` count as not given. */
  datatype Criteria = Criteria(
    protocol: string, capabilities: Option<seq<string>>, minReputation: real, location: Option<(Place, real)>,
    customCriteria: Option<map<string, string>>, maxResults: int)

  /** A cache entry with the key it is stored under. The cache is in insertion order. */
  datatype Entry = Entry(
    key: string, advertisement: Advertisement, addedAt: int, timestamp: int, accessCount: nat, lastAccess: int)

  /** What became of the signature check of one advertisement. */
  datatype SignatureCheck = Unsigned | Verified | Refuted | Threw

  /** The clock reading and the signature check at one security validation. */
  datatype Check = Check(now: int, signature: SignatureCheck)

  /** `checks` says for each entry visited, in order, what its security validation finds. */
  datatype Query = Query(criteria: Criteria, now: int, checks: nat -> Check, distance: (Place, Place) -> real)

  ghost predicate KeysAreDistinct(cache: seq<Entry>) {
    forall i, j | 0 <= i < j < |cache| :: cache[i].key != cache[j].key
  }

  /** Entries added by the discoverer itself are stored under the advertisement's id. */
  ghost predicate KeyedById(cache: seq<Entry>) {
    forall i | 0 <= i < |cache| :: cache[i].key == cache[i].advertisement.id
  }

  // ---------------------------------------------------------------- filters

  predicate IsValid(ad: Advertisement, now: int) {
    && ad.id != "" && ad.protocol != "" && ad.peerInfo.Some? && ad.expiresAt > now
    && ad.peerInfo.value.peerId != "" && ad.peerInfo.value.multiaddrs != []
  }

  predicate MatchesCriteria(distance: (Place, Place) -> real, ad: Advertisement, criteria: Criteria) {
    && ad.protocol == criteria.protocol
    && (criteria.capabilities.Some? ==>
          forall capability | capability in criteria.capabilities.value :: capability in ad.capabilities)
    && (criteria.minReputation != 0.0 ==> ad.reputation >= criteria.minReputation)
    && (criteria.location.Some? && ad.location.Some? ==>
          distance(criteria.location.value.0, ad.location.value) <= criteria.location.value.1)
    && (criteria.customCriteria.Some? ==>
          && ad.customCriteria.Some?
          && forall key | key in criteria.customCriteria.value ::
               key in ad.customCriteria.value && ad.customCriteria.value[key] == criteria.customCriteria.value[key])
  }

  datatype SecurityResult = SecurityResult(valid: bool, securityScore: int, signatureValid: bool)

  function ValidateSecurity(ad: Advertisement, check: Check): SecurityResult {
    var notExpired, acceptable := ad.expiresAt > check.now, ad.reputation >= 50.0;
    SecurityResult(
      notExpired && acceptable,
      100 - (if notExpired then 0 else 50) - (if acceptable then 0 else 30) - (if check.signature == Threw then 20 else 0),
      check.signature in {Unsigned, Verified})
  }

  predicate IsSecure(ad: Advertisement, check: Check) {
    ValidateSecurity(ad, check).valid && ValidateSecurity(ad, check).securityScore >= 50
  }

  /** Neither the score threshold nor the signature check ever decides: an advertisement passes
      exactly when it has not expired and its reputation is at least 50. */
  lemma SignatureNeverDecides(ad: Advertisement, check: Check)
    ensures IsSecure(ad, check) <==> ad.expiresAt > check.now && ad.reputation >= 50.0
    ensures IsSecure(ad, check) ==> ValidateSecurity(ad, check).securityScore == if check.signature == Threw then 80 else 100
    ensures ValidateSecurity(ad, check).signatureValid <==> check.signature == Unsigned || check.signature == Verified
  {
  }

  // ---------------------------------------------------------------- the answers

  /** Entry `j` is an advertisement of the protocol with this id. */
  ghost predicate Offers(protocol: string, cache: seq<Entry>, j: nat, id: string)
    requires j < |cache|
  {
    cache[j].advertisement.protocol == protocol && cache[j].advertisement.id == id
  }

  ghost predicate Seen(protocol: string, cache: seq<Entry>, n: nat, id: string)
    requires n <= |cache|
  {
    exists j | 0 <= j < n :: Offers(protocol, cache, j, id)
  }

  lemma NothingSeen(protocol: string, cache: seq<Entry>)
    ensures forall id :: !Seen(protocol, cache, 0, id)
  {
  }

  lemma SeenNext(protocol: string, cache: seq<Entry>, n: nat, id: string)
    requires n < |cache|
    ensures Seen(protocol, cache, n + 1, id) <==> Seen(protocol, cache, n, id) || Offers(protocol, cache, n, id)
  {
    if Seen(protocol, cache, n, id) {
      var j :| 0 <= j < n && Offers(protocol, cache, j, id);
    }
    if Seen(protocol, cache, n + 1, id) {
      var j :| 0 <= j < n + 1 && Offers(protocol, cache, j, id);
      assert j < n || j == n;
    }
  }

  /** No earlier entry of the protocol has the same id. */
  ghost predicate IsFirst(q: Query, cache: seq<Entry>, i: nat)
    requires i < |cache|
  {
    !Seen(q.criteria.protocol, cache, i, cache[i].advertisement.id)
  }

  ghost predicate IsAnswer(q: Query, cache: seq<Entry>, i: nat)
    requires i < |cache|
  {
    var ad := cache[i].advertisement;
    && ad.protocol == q.criteria.protocol && IsFirst(q, cache, i) && IsValid(ad, q.now)
    && MatchesCriteria(q.distance, ad, q.criteria) && IsSecure(ad, q.checks(i))
  }

  /** The answers among the first `n` entries, in cache order. */
  ghost function Answers(q: Query, cache: seq<Entry>, n: nat): seq<Advertisement>
    requires n <= |cache|
  {
    if n == 0 then []
    else if IsAnswer(q, cache, n - 1) then Answers(q, cache, n - 1) + [cache[n - 1].advertisement]
    else Answers(q, cache, n - 1)
  }

  function Accessed(e: Entry, now: int): Entry {
    e.(accessCount := e.accessCount + 1, lastAccess := now)
  }

  /** The cache once the first `n` entries are visited: the answers have been accessed once more. */
  ghost function TouchedUpTo(q: Query, cache: seq<Entry>, n: nat): seq<Entry>
    requires n <= |cache|
  {
    seq(|cache|, (i: nat) requires i < |cache| => if i < n && IsAnswer(q, cache, i) then Accessed(cache[i], q.now) else cache[i])
  }

  ghost function Touched(q: Query, cache: seq<Entry>): seq<Entry>
  {
    TouchedUpTo(q, cache, |cache|)
  }

  lemma TouchNext(q: Query, cache: seq<Entry>, i: nat)
    requires i < |cache|
    ensures TouchedUpTo(q, cache, i)[i] == cache[i]
    ensures TouchedUpTo(q, cache, i + 1) ==
            if IsAnswer(q, cache, i) then TouchedUpTo(q, cache, i)[i := Accessed(cache[i], q.now)] else TouchedUpTo(q, cache, i)
  {
  }

  lemma NothingTouched(q: Query, cache: seq<Entry>)
    ensures TouchedUpTo(q, cache, 0) == cache
  {
  }

  // ---------------------------------------------------------------- order

  /** `cache.get(id)?.accessCount || 0` */
  function AccessCount(cache: seq<Entry>, id: string): nat {
    if cache == [] then 0
    else if cache[|cache| - 1].key == id then cache[|cache| - 1].accessCount
    else AccessCount(cache[..|cache| - 1], id)
  }

  /** Higher reputation first, then more accesses. */
  predicate ComesFirst(cache: seq<Entry>, a: Advertisement, b: Advertisement) {
    a.reputation > b.reputation || (a.reputation == b.reputation && AccessCount(cache, a.id) >= AccessCount(cache, b.id))
  }

  function ByRelevance(cache: seq<Entry>): (Advertisement, Advertisement) -> bool {
    (a, b) => ComesFirst(cache, a, b)
  }

  /** `maxResults`, with the meaning `slice` gives a negative bound. */
  function Limited(results: seq<Advertisement>, maxResults: int): seq<Advertisement> {
    if maxResults != 0 && |results| > maxResults then
      if maxResults > 0 then results[..maxResults]
      else if |results| + maxResults > 0 then results[..|results| + maxResults] else []
    else results
  }

  ghost function Discovered(q: Query, cache: seq<Entry>, after: seq<Entry>): seq<Advertisement>
  {
    Limited(Sort(Answers(q, cache, |cache|), ByRelevance(after)), q.criteria.maxResults)
  }

  // ---------------------------------------------------------------- what the cache holds

  /** The place of the entry stored under `key`, or the length of the cache. */
  function IndexOf(cache: seq<Entry>, key: string): (i: nat)
    ensures i <= |cache| && (i < |cache| ==> cache[i].key == key) && forall j | 0 <= j < i :: cache[j].key != key
  {
    FirstIndex(cache, (e: Entry) => e.key == key)
  }

  function Renewed(e: Entry, now: int): Entry {
    var addedAt := if e.addedAt != 0 then e.addedAt else now;
    e.(timestamp := now, addedAt := addedAt, accessCount := e.accessCount + 1, lastAccess := now)
  }

  function Added(cache: seq<Entry>, ad: Advertisement, now: int): seq<Entry> {
    var i := IndexOf(cache, ad.id);
    if i < |cache| then cache[i := Renewed(cache[i], now)] else cache + [Entry(ad.id, ad, now, now, 1, now)]
  }

  function Kept(cache: seq<Entry>, now: int): seq<Entry> {
    if cache == [] then []
    else if now - cache[|cache| - 1].timestamp > MAX_AGE then Kept(cache[..|cache| - 1], now)
    else Kept(cache[..|cache| - 1], now) + [cache[|cache| - 1]]
  }

  // ---------------------------------------------------------------- what happens during a query

  /** What may be done to the cache while a query awaits a security validation. */
  datatype Change = Arrival(ad: Advertisement, now: int) | Access(key: string, now: int) | Expiry(now: int)

  /** The cache after a change, and how many of its first entries the query has visited. */
  function Changed(cache: seq<Entry>, visited: nat, change: Change): (seq<Entry>, nat)
    requires visited <= |cache|
  {
    match change
    case Arrival(ad, now) => (Added(cache, ad, now), visited)
    case Access(key, now) =>
      var i := IndexOf(cache, key);
      (if i < |cache| then cache[i := Accessed(cache[i], now)] else cache, visited)
    case Expiry(now) => (Kept(cache, now), |Kept(cache[..visited], now)|)
  }

  predicate SameAd(a: Entry, b: Entry) {
    a.key == b.key && a.advertisement == b.advertisement
  }

  ghost predicate HasSame(entries: seq<Entry>, e: Entry) {
    exists m | 0 <= m < |entries| :: SameAd(entries[m], e)
  }

  ghost predicate Happens(meanwhile: seq<seq<Change>>, change: Change) {
    exists k | 0 <= k < |meanwhile| :: change in meanwhile[k]
  }

  ghost predicate Brings(change: Change, e: Entry) {
    change.Arrival? && change.ad == e.advertisement && change.ad.id == e.key
  }

  /** The entry was there at the start of the query or arrived meanwhile. */
  ghost predicate FromSomewhere(start: seq<Entry>, meanwhile: seq<seq<Change>>, e: Entry) {
    HasSame(start, e) || exists change :: Happens(meanwhile, change) && Brings(change, e)
  }

  ghost predicate NothingExpires(meanwhile: seq<seq<Change>>) {
    forall change | Happens(meanwhile, change) :: !change.Expiry?
  }

  /** `b` lists what `a` lists, and perhaps more behind it. */
  ghost predicate Extends(a: seq<Entry>, b: seq<Entry>) {
    |a| <= |b| && forall m | 0 <= m < |a| :: SameAd(a[m], b[m])
  }

  /** In the middle of a query: the first `n` entries of the cache have been visited, and nothing comes
      from nowhere. Unless something expires, `visited` is what the cache starts with, and nothing is lost. */
  ghost predicate Underway(start: seq<Entry>, meanwhile: seq<seq<Change>>, cache: seq<Entry>, n: nat, visited: seq<Entry>) {
    && n <= |cache| && KeysAreDistinct(cache)
    && (forall j | 0 <= j < n :: HasSame(visited, cache[j]))
    && (forall m | 0 <= m < |visited| :: FromSomewhere(start, meanwhile, visited[m]))
    && (forall j | 0 <= j < |cache| :: FromSomewhere(start, meanwhile, cache[j]))
    && (NothingExpires(meanwhile) ==> |visited| == n && Extends(visited, cache) && Extends(start, cache))
  }

  lemma {:induction false} KeptConcat(a: seq<Entry>, b: seq<Entry>, now: int)
    ensures Kept(a + b, now) == Kept(a, now) + Kept(b, now)
  {
    if b == [] {
      assert a + b == a;
    } else {
      KeptConcat(a, b[..|b| - 1], now);
      assert (a + b)[..|a + b| - 1] == a + b[..|b| - 1];
    }
  }

  lemma ExpiryKeepsFront(cache: seq<Entry>, n: nat, now: int)
    requires n <= |cache| && KeysAreDistinct(cache)
    ensures var (after, k) := Changed(cache, n, Expiry(now));
            && k <= |after| && KeysAreDistinct(after)
            && (forall j | 0 <= j < k :: after[j] in cache[..n]) && (forall e | e in after :: e in cache)
  {
    KeptConcat(cache[..n], cache[n..], now);
    assert cache == cache[..n] + cache[n..];
    KeptEntries(cache, now);
    KeptEntries(cache[..n], now);
    var front, back := Kept(cache[..n], now), Kept(cache[n..], now);
    assert forall j | 0 <= j < |front| :: (front + back)[j] == front[j] && front[j] in front;
  }

  /** An arrival or an access changes no entry's key or advertisement, and appends at most one. */
  lemma OtherChangesExtend(cache: seq<Entry>, n: nat, change: Change)
    requires n <= |cache| && KeysAreDistinct(cache) && !change.Expiry?
    ensures var (after, k) := Changed(cache, n, change);
            && k == n && KeysAreDistinct(after) && Extends(cache, after)
            && forall j | |cache| <= j < |after| :: Brings(change, after[j])
  {
  }

  lemma SameIsFromSomewhere(start: seq<Entry>, meanwhile: seq<seq<Change>>, a: Entry, b: Entry)
    requires FromSomewhere(start, meanwhile, a) && SameAd(a, b)
    ensures FromSomewhere(start, meanwhile, b)
  {
    if HasSame(start, a) {
      SameIsVisited(start, a, b);
    } else {
      var change :| Happens(meanwhile, change) && Brings(change, a);
      assert Brings(change, b);
    }
  }

  lemma SameIsVisited(visited: seq<Entry>, a: Entry, b: Entry)
    requires HasSame(visited, a) && SameAd(a, b)
    ensures HasSame(visited, b)
  {
    var m :| 0 <= m < |visited| && SameAd(visited[m], a);
    assert SameAd(visited[m], b);
  }

  lemma ExtendsThrough(a: seq<Entry>, b: seq<Entry>, c: seq<Entry>)
    requires Extends(a, b) && Extends(b, c)
    ensures Extends(a, c)
  {
  }

  lemma ChangeStaysUnderway(start: seq<Entry>, meanwhile: seq<seq<Change>>, cache: seq<Entry>, n: nat, visited: seq<Entry>,
                            change: Change)
    requires Underway(start, meanwhile, cache, n, visited) && (change.Access? || Happens(meanwhile, change))
    ensures var (after, k) := Changed(cache, n, change);
            Underway(start, meanwhile, after, k, visited)
  {
    var (after, k) := Changed(cache, n, change);
    hide FromSomewhere, HasSame, Happens;
    if change.Expiry? {
      ExpiryKeepsFront(cache, n, change.now);
      hide Changed, Extends;
      forall j | 0 <= j < k
        ensures HasSame(visited, after[j])
      {
        var i :| 0 <= i < n && cache[i] == after[j];
      }
      forall j | 0 <= j < |after|
        ensures FromSomewhere(start, meanwhile, after[j])
      {
        assert after[j] in after;
        var i :| 0 <= i < |cache| && cache[i] == after[j];
      }
      assert !NothingExpires(meanwhile);
    } else {
      OtherChangesExtend(cache, n, change);
      hide Changed, Brings;
      forall j | 0 <= j < n
        ensures HasSame(visited, after[j])
      {
        SameIsVisited(visited, cache[j], after[j]);
      }
      forall j | 0 <= j < |after|
        ensures FromSomewhere(start, meanwhile, after[j])
      {
        if j < |cache| {
          SameIsFromSomewhere(start, meanwhile, cache[j], after[j]);
        } else {
          ArrivalIsFromSomewhere(start, meanwhile, change, after[j]);
        }
      }
      if NothingExpires(meanwhile) {
        ExtendsThrough(visited, cache, after);
        ExtendsThrough(start, cache, after);
      }
    }
  }

  lemma ArrivalIsFromSomewhere(start: seq<Entry>, meanwhile: seq<seq<Change>>, change: Change, e: Entry)
    requires (change.Access? || Happens(meanwhile, change)) && Brings(change, e)
    ensures FromSomewhere(start, meanwhile, e)
  {
  }

  /** The next entry is visited. */
  lemma VisitStaysUnderway(start: seq<Entry>, meanwhile: seq<seq<Change>>, cache: seq<Entry>, n: nat, visited: seq<Entry>)
    requires Underway(start, meanwhile, cache, n, visited) && n < |cache|
    ensures Underway(start, meanwhile, cache, n + 1, visited + [cache[n]])
  {
    var longer := visited + [cache[n]];
    hide FromSomewhere, NothingExpires;
    forall j | 0 <= j < n + 1
      ensures HasSame(longer, cache[j])
    {
      if j < n {
        var m :| 0 <= m < |visited| && SameAd(visited[m], cache[j]);
        assert longer[m] == visited[m];
      } else {
        assert longer[|visited|] == cache[n] && SameAd(cache[n], cache[n]);
      }
    }
  }

  /** Answers depend on the advertisements visited, in order, and on nothing else of the entries. */
  lemma {:induction false} AnswersAlike(q: Query, a: seq<Entry>, b: seq<Entry>, n: nat)
    requires Extends(a, b) && n <= |a|
    ensures Answers(q, a, n) == Answers(q, b, n)
  {
    if n > 0 {
      AnswersAlike(q, a, b, n - 1);
      assert SameAd(a[n - 1], b[n - 1]);
      SeenAlike(q.criteria.protocol, a, b, n - 1, a[n - 1].advertisement.id);
      hide IsValid, MatchesCriteria, IsSecure, Seen;
    }
  }

  lemma SeenAlike(protocol: string, a: seq<Entry>, b: seq<Entry>, n: nat, id: string)
    requires Extends(a, b) && n <= |a|
    ensures Seen(protocol, a, n, id) <==> Seen(protocol, b, n, id)
  {
    forall j | 0 <= j < n
      ensures Offers(protocol, a, j, id) <==> Offers(protocol, b, j, id)
    {
      assert SameAd(a[j], b[j]);
    }
  }

  /** Visiting one entry more answers as the entry says. */
  lemma AnswersGrow(q: Query, visited: seq<Entry>, e: Entry)
    ensures var longer := visited + [e];
            Answers(q, longer, |longer|)
            == Answers(q, visited, |visited|) + if IsAnswer(q, longer, |visited|) then [e.advertisement] else []
    ensures IsFirst(q, visited + [e], |visited|) <==> !Seen(q.criteria.protocol, visited, |visited|, e.advertisement.id)
    ensures forall id :: Seen(q.criteria.protocol, visited + [e], |visited| + 1, id)
              <==> Seen(q.criteria.protocol, visited, |visited|, id)
                   || (e.advertisement.protocol == q.criteria.protocol && e.advertisement.id == id)
  {
    var longer, protocol := visited + [e], q.criteria.protocol;
    assert forall m | 0 <= m < |visited| :: SameAd(visited[m], longer[m]);
    AnswersAlike(q, visited, longer, |visited|);
    assert longer[|visited|] == e;
    SeenAlike(protocol, visited, longer, |visited|, e.advertisement.id);
    forall id
      ensures Seen(protocol, longer, |visited| + 1, id)
              <==> Seen(protocol, visited, |visited|, id) || (e.advertisement.protocol == protocol && e.advertisement.id == id)
    {
      SeenNext(protocol, longer, |visited|, id);
      SeenAlike(protocol, visited, longer, |visited|, id);
    }
  }

  lemma UnderwayBounds(start: seq<Entry>, meanwhile: seq<seq<Change>>, cache: seq<Entry>, n: nat, visited: seq<Entry>)
    requires Underway(start, meanwhile, cache, n, visited)
    ensures n <= |cache|
  {
  }

  /** The loop of a query: what it has found and seen is what `visited` says; and if nothing else happens,
      that is the beginning of the cache, with the answers in it accessed. */
  ghost predicate Going(q: Query, start: seq<Entry>, meanwhile: seq<seq<Change>>, cache: seq<Entry>, n: nat, visited: seq<Entry>,
                        results: seq<Advertisement>, seenIds: set<string>) {
    && Underway(start, meanwhile, cache, n, visited) && results == Answers(q, visited, |visited|)
    && (forall id :: id in seenIds <==> Seen(q.criteria.protocol, visited, |visited|, id))
    && (meanwhile == [] ==>
          n <= |start| == |cache| && visited == start[..n] && cache == TouchedUpTo(q, start, n))
  }

  lemma GoingBegins(q: Query, start: seq<Entry>, meanwhile: seq<seq<Change>>)
    requires KeysAreDistinct(start)
    ensures Going(q, start, meanwhile, start, 0, [], [], {})
  {
    NothingTouched(q, start);
    NothingSeen(q.criteria.protocol, []);
    forall j | 0 <= j < |start|
      ensures HasSame(start, start[j])
    {
      assert SameAd(start[j], start[j]);
    }
  }

  /** The next visit when nothing else happens. */
  lemma VisitUndisturbed(q: Query, start: seq<Entry>, n: nat)
    requires n < |start|
    ensures TouchedUpTo(q, start, n)[n] == start[n] && start[..n + 1] == start[..n] + [start[n]]
    ensures TouchedUpTo(q, start, n + 1) ==
            if IsAnswer(q, start[..n] + [start[n]], n) then TouchedUpTo(q, start, n)[n := Accessed(start[n], q.now)]
            else TouchedUpTo(q, start, n)
  {
    TouchNext(q, start, n);
    assert start[..n + 1] == start[..n] + [start[n]];
    assert forall m | 0 <= m < n + 1 :: SameAd(start[..n + 1][m], start[m]);
    SeenAlike(q.criteria.protocol, start[..n + 1], start, n, start[n].advertisement.id);
    hide IsValid, MatchesCriteria, IsSecure, Seen, TouchedUpTo, Accessed;
  }

  lemma EverythingVisited(q: Query, start: seq<Entry>, meanwhile: seq<seq<Change>>, cache: seq<Entry>, visited: seq<Entry>,
                          results: seq<Advertisement>, seenIds: set<string>)
    requires Going(q, start, meanwhile, cache, |cache|, visited, results, seenIds)
    ensures KeysAreDistinct(cache) && results == Answers(q, visited, |visited|)
    ensures forall m | 0 <= m < |visited| :: FromSomewhere(start, meanwhile, visited[m])
    ensures forall j | 0 <= j < |cache| :: HasSame(visited, cache[j])
    ensures NothingExpires(meanwhile) ==> Extends(start, cache) && results == Answers(q, cache, |cache|)
    ensures meanwhile == [] ==> cache == Touched(q, start) && visited == start
  {
    if NothingExpires(meanwhile) {
      AnswersAlike(q, visited, cache, |visited|);
    }
  }

  // ---------------------------------------------------------------- the discoverer

  datatype Tracker = Tracker(count: nat, windowStart: int)

  const MAX_QUERIES := 100
  const MAX_AGE := 30 * 60 * 1000

  /** The count of queries after one more is granted, or `None` when it is refused. */
  function Granted(trackers: map<string, Tracker>, key: string, ttl: int, now: int): Option<Tracker> {
    if key !in trackers || trackers[key].windowStart < now - ttl then Some(Tracker(1, now))
    else if trackers[key].count >= MAX_QUERIES then None
    else Some(trackers[key].(count := trackers[key].count + 1))
  }

  /** The tracker after the first `n` queries, made at these times. */
  function TrackerAfter(key: string, ttl: int, times: seq<int>, n: nat): map<string, Tracker>
    requires n <= |times|
  {
    if n == 0 then map[]
    else
      var before := TrackerAfter(key, ttl, times, n - 1);
      match Granted(before, key, ttl, times[n - 1])
      case Some(tracker) => before[key := tracker]
      case None => before
  }

  /** Of the queries made within `ttl` of the first, exactly the first hundred are granted; one made later
      is granted again. */
  lemma {:induction false} HundredAreGranted(key: string, ttl: int, times: seq<int>, n: nat)
    requires n < |times| && forall i | 0 <= i < n :: times[0] <= times[i] <= times[0] + ttl
    ensures n > 0 ==> key in TrackerAfter(key, ttl, times, n)
                      && TrackerAfter(key, ttl, times, n)[key] == Tracker(if n < 100 then n else 100, times[0])
    ensures Granted(TrackerAfter(key, ttl, times, n), key, ttl, times[n]).Some? <==> n < 100 || times[n] > times[0] + ttl
  {
    if n > 0 {
      HundredAreGranted(key, ttl, times, n - 1);
    }
  }

  class DHTDiscoverer {
    var started: bool
    var cache: seq<Entry>
    var rateLimitTracker: map<string, Tracker>

    constructor ()
      ensures Valid() && !started && cache == [] && rateLimitTracker == map[]
    {
      started, cache, rateLimitTracker := false, [], map[];
    }

    method CheckRateLimits(protocol: string, enableCache: bool, cacheTTL: int, now: int) returns (granted: bool)
      modifies `rateLimitTracker
      ensures !enableCache ==> granted && rateLimitTracker == old(rateLimitTracker)
      ensures enableCache ==> (granted <==> Granted(old(rateLimitTracker), "discover:" + protocol, cacheTTL, now).Some?)
      ensures enableCache && granted ==>
                var tracker := Granted(old(rateLimitTracker), "discover:" + protocol, cacheTTL, now).value;
                rateLimitTracker == old(rateLimitTracker)["discover:" + protocol := tracker]
      ensures enableCache && !granted ==> rateLimitTracker == old(rateLimitTracker)
    {
      if !enableCache {
        return true;
      }
      var key := "discover:" + protocol;
      if key !in rateLimitTracker || rateLimitTracker[key].windowStart < now - cacheTTL {
        rateLimitTracker := rateLimitTracker[key := Tracker(0, now)];
      }
      if rateLimitTracker[key].count >= MAX_QUERIES {
        return false;
      }
      rateLimitTracker := rateLimitTracker[key := rateLimitTracker[key].(count := rateLimitTracker[key].count + 1)];
      return true;
    }

    ghost predicate Valid()
      reads this
    {
      KeysAreDistinct(cache)
    }

    /** The loop iterates over the live cache. Each security validation is awaited, and `meanwhile` lists,
        await by await, what else happens to the cache. The answers are those of a query of `visited`, the
        entries in the order visited: all of these were there at the start or arrived meanwhile, and what
        the cache holds in the end is among them. If nothing expires meanwhile, the result is that of a
        query of the final cache; if nothing happens at all, that of a query of the cache as it was. */
    method Discover(q: Query, enableCache: bool, cacheTTL: int, meanwhile: seq<seq<Change>>)
      returns (r: Result<seq<Advertisement>>, ghost visited: seq<Entry>)
      requires Valid()
      modifies this
      ensures Valid() && started == old(started)
      ensures r.Error? ==> cache == old(cache)
      ensures r.Error? <==>
              !old(started)
              || (enableCache && Granted(old(rateLimitTracker), "discover:" + q.criteria.protocol, cacheTTL, q.now).None?)
      ensures r.Ok? ==> r.value == Discovered(q, visited, cache)
      ensures r.Ok? ==> forall m | 0 <= m < |visited| :: FromSomewhere(old(cache), meanwhile, visited[m])
      ensures r.Ok? ==> forall j | 0 <= j < |cache| :: HasSame(visited, cache[j])
      ensures r.Ok? && NothingExpires(meanwhile) ==> Extends(old(cache), cache) && r.value == Discovered(q, cache, cache)
      ensures r.Ok? && meanwhile == [] ==> cache == Touched(q, old(cache)) && r.value == Discovered(q, old(cache), cache)
    {
      visited := [];
      if !started {
        return Error("Discoverer not started"), visited;
      }
      var granted := CheckRateLimits(q.criteria.protocol, enableCache, cacheTTL, q.now);
      if !granted {
        return Error("Discovery rate limit exceeded"), visited;
      }
      hide Granted, Limited, ByRelevance, Going, FromSomewhere, HasSame, Extends, NothingExpires, Answers;
      var results, n: nat, k: nat, count: nat := [], 0, 0, 0;
      var seenIds: set<string> := {};
      GoingBegins(q, cache, meanwhile);
      while n < |cache|
        invariant started == old(started) && k <= |meanwhile| && n <= |cache| && count == |visited|
        invariant Going(q, old(cache), meanwhile, cache, n, visited, results, seenIds)
        decreases |meanwhile| - k, |cache| - n
      {
        n, k, results, seenIds, visited := VisitNext(q, meanwhile, n, k, count, results, seenIds, old(cache), visited);
        count := count + 1;
      }
      EverythingVisited(q, old(cache), meanwhile, cache, visited, results, seenIds);
      return Ok(Limited(Sort(results, ByRelevance(cache)), q.criteria.maxResults)), visited;
    }

    /** The body of the loop. */
    method VisitNext(q: Query, meanwhile: seq<seq<Change>>, n: nat, k: nat, count: nat, results: seq<Advertisement>,
                     seenIds: set<string>, ghost start: seq<Entry>, ghost visited: seq<Entry>)
      returns (n': nat, k': nat, results': seq<Advertisement>, seenIds': set<string>, ghost visited': seq<Entry>)
      requires n < |cache| && k <= |meanwhile| && count == |visited|
      requires Going(q, start, meanwhile, cache, n, visited, results, seenIds)
      modifies `cache
      ensures n' <= |cache| && k' <= |meanwhile| && |visited'| == count + 1
      ensures Going(q, start, meanwhile, cache, n', visited', results', seenIds')
      ensures k' > k || (k' == k && |cache| - n' < old(|cache| - n))
    {
      hide MatchesCriteria, IsValid, IsSecure, Seen, Accessed, Underway, TouchedUpTo, Answers;
      var entry := cache[n];
      AnswersGrow(q, visited, entry);
      VisitStaysUnderway(start, meanwhile, cache, n, visited);
      if meanwhile == [] {
        VisitUndisturbed(q, start, n);
      }
      var ad := entry.advertisement;
      n', k', results', seenIds', visited' := n + 1, k, results, seenIds, visited + [entry];
      UnderwayBounds(start, meanwhile, cache, n', visited');
      if ad.protocol == q.criteria.protocol && ad.id !in seenIds {
        seenIds' := seenIds' + {ad.id};
        if IsValid(ad, q.now) && MatchesCriteria(q.distance, ad, q.criteria) {
          var check := q.checks(count);
          if k < |meanwhile| {
            n' := Await(meanwhile, k, n', start, visited');
            k' := k + 1;
          }
          if IsSecure(ad, check) {
            results' := results' + [ad];
            CountAccess(meanwhile, entry.key, q.now, n', start, visited');
          }
        }
      }
      UnderwayBounds(start, meanwhile, cache, n', visited');
    }

    /** What happens to the cache during one await. */
    method Await(meanwhile: seq<seq<Change>>, k: nat, n: nat, ghost start: seq<Entry>, ghost visited: seq<Entry>) returns (n': nat)
      requires k < |meanwhile| && Underway(start, meanwhile, cache, n, visited)
      modifies `cache
      ensures Underway(start, meanwhile, cache, n', visited)
    {
      hide Changed, FromSomewhere, HasSame, NothingExpires;
      n' := n;
      for i := 0 to |meanwhile[k]|
        invariant Underway(start, meanwhile, cache, n', visited)
      {
        var change := meanwhile[k][i];
        assert Happens(meanwhile, change);
        ChangeStaysUnderway(start, meanwhile, cache, n', visited, change);
        var (after, m) := Changed(cache, n', change);
        cache, n' := after, m;
      }
    }

    /** The access is counted on the entry visited; one dropped meanwhile is no longer in the cache. */
    method CountAccess(meanwhile: seq<seq<Change>>, key: string, now: int, n: nat, ghost start: seq<Entry>, ghost visited: seq<Entry>)
      requires Underway(start, meanwhile, cache, n, visited)
      modifies `cache
      ensures Underway(start, meanwhile, cache, n, visited)
      ensures forall j | 0 <= j < n && j < |old(cache)| && old(cache)[j].key == key ::
                cache == old(cache)[j := Accessed(old(cache)[j], now)]
    {
      var i := IndexOf(cache, key);
      ChangeStaysUnderway(start, meanwhile, cache, n, visited, Access(key, now));
      if i < n {
        cache := cache[i := Accessed(cache[i], now)];
      }
    }

    /** An entry already stored keeps the advertisement it has. */
    method AddToCache(ad: Advertisement, now: int)
      modifies `cache
      ensures cache == Added(old(cache), ad, now)
      ensures old(Valid()) ==> Valid()
    {
      var i := IndexOf(cache, ad.id);
      if i < |cache| {
        cache := cache[i := Renewed(cache[i], now)];
      } else {
        cache := cache + [Entry(ad.id, ad, now, now, 1, now)];
      }
    }

    method CleanupCache(now: int)
      modifies `cache
      ensures cache == Kept(old(cache), now)
      ensures old(Valid()) ==> Valid()
    {
      if Valid() {
        KeptEntries(cache, now);
      }
      var kept := [];
      for i := 0 to |cache|
        invariant cache == old(cache) && kept == Kept(cache[..i], now)
      {
        assert cache[..i + 1][..i] == cache[..i];
        if now - cache[i].timestamp <= MAX_AGE {
          kept := kept + [cache[i]];
        }
      }
      assert cache[..|cache|] == cache;
      cache := kept;
    }
  }

  // ---------------------------------------------------------------- which answers come back

  lemma {:induction false} AnswersExactly(q: Query, cache: seq<Entry>, n: nat, ad: Advertisement)
    requires n <= |cache|
    ensures ad in Answers(q, cache, n) <==> exists i | 0 <= i < n :: IsAnswer(q, cache, i) && cache[i].advertisement == ad
  {
    hide IsAnswer;
    if n > 0 {
      AnswersExactly(q, cache, n - 1, ad);
    }
  }

  /** `b` asks for at least as much as `a`. */
  ghost predicate AsksMore(a: Criteria, b: Criteria) {
    && a.protocol == b.protocol && (a.location.None? || a.location == b.location)
    && (a.capabilities.Some? ==> b.capabilities.Some? && forall x | x in a.capabilities.value :: x in b.capabilities.value)
    && (a.minReputation == 0.0 || (b.minReputation != 0.0 && a.minReputation <= b.minReputation))
    && (a.customCriteria.Some? ==>
          && b.customCriteria.Some?
          && forall k | k in a.customCriteria.value ::
               k in b.customCriteria.value && b.customCriteria.value[k] == a.customCriteria.value[k])
  }

  /** Asking for more never adds an answer, duplicates included. */
  lemma {:induction false} AskingMoreAnswersLess(q: Query, r: Query, cache: seq<Entry>, n: nat, ad: Advertisement)
    requires n <= |cache| && r == q.(criteria := r.criteria) && AsksMore(q.criteria, r.criteria)
    requires ad in Answers(r, cache, n)
    ensures ad in Answers(q, cache, n)
  {
    if n > 0 {
      MoreIsStricter(q, r, cache, n - 1);
      hide IsAnswer, AsksMore;
      if ad in Answers(r, cache, n - 1) {
        AskingMoreAnswersLess(q, r, cache, n - 1, ad);
      }
    }
  }

  lemma MoreIsStricter(q: Query, r: Query, cache: seq<Entry>, i: nat)
    requires i < |cache| && r == q.(criteria := r.criteria) && AsksMore(q.criteria, r.criteria)
    ensures IsAnswer(r, cache, i) ==> IsAnswer(q, cache, i)
  {
    hide IsValid, IsSecure;
  }

  /** A minimum reputation of 50 or less has no effect: the security check asks for 50 anyway. */
  lemma {:induction false} MinimumUpToFiftyIsIdle(q: Query, cache: seq<Entry>, n: nat)
    requires n <= |cache| && q.criteria.minReputation <= 50.0
    ensures Answers(q, cache, n) == Answers(q.(criteria := q.criteria.(minReputation := 0.0)), cache, n)
  {
    if n > 0 {
      MinimumUpToFiftyIsIdle(q, cache, n - 1);
      SignatureNeverDecides(cache[n - 1].advertisement, q.checks(n - 1));
      hide IsValid;
    }
  }

  /** No id is answered twice. */
  lemma {:induction false} IdsAreAnsweredOnce(q: Query, cache: seq<Entry>, n: nat)
    requires n <= |cache|
    ensures forall a, b | 0 <= a < b < |Answers(q, cache, n)| :: Answers(q, cache, n)[a].id != Answers(q, cache, n)[b].id
  {
    if n > 0 {
      IdsAreAnsweredOnce(q, cache, n - 1);
      if IsAnswer(q, cache, n - 1) {
        var front := Answers(q, cache, n - 1);
        forall a | 0 <= a < |front|
          ensures front[a].id != cache[n - 1].advertisement.id
        {
          AnswersExactly(q, cache, n - 1, front[a]);
          assert front[a] in front;
          var j :| 0 <= j < n - 1 && IsAnswer(q, cache, j) && cache[j].advertisement == front[a];
          assert Offers(q.criteria.protocol, cache, j, front[a].id);
        }
      }
    }
  }

  lemma RelevanceIsTotalPreorder(cache: seq<Entry>)
    ensures IsTotalPreorder(ByRelevance(cache))
  {
    var le := ByRelevance(cache);
    forall a, b
      ensures le(a, b) || le(b, a)
    {
      assert le(a, b) == ComesFirst(cache, a, b) && le(b, a) == ComesFirst(cache, b, a);
    }
    forall a, b, c | le(a, b) && le(b, c)
      ensures le(a, c)
    {
      assert le(a, b) == ComesFirst(cache, a, b) && le(b, c) == ComesFirst(cache, b, c) && le(a, c) == ComesFirst(cache, a, c);
    }
  }

  /** How many answers come before answer `k`: of higher reputation, or equal and accessed more,
      or equal in both and earlier in the cache. */
  ghost function BetterAnswers(q: Query, cache: seq<Entry>, counts: seq<Entry>, k: nat): nat
    requires k < |Answers(q, cache, |cache|)|
  {
    var answers := Answers(q, cache, |cache|);
    Ahead(answers, ByRelevance(counts), k, |answers|)
  }

  /** How many of `n` answers are returned: all without a limit, and with a negative one all but that many. */
  function Allowed(maxResults: int, n: nat): nat {
    if maxResults == 0 then n
    else if maxResults > 0 then (if n <= maxResults then n else maxResults)
    else if n + maxResults > 0 then n + maxResults else 0
  }

  lemma LimitedTakesFront(results: seq<Advertisement>, maxResults: int)
    ensures Allowed(maxResults, |results|) <= |results| && Limited(results, maxResults) == results[..Allowed(maxResults, |results|)]
  {
  }

  /** An answer is returned exactly when fewer others are better than may be returned, and its place
      in the list is the number of those. */
  lemma ReturnedExactlyWhenFewAreBetter(q: Query, cache: seq<Entry>, counts: seq<Entry>, k: nat)
    requires k < |Answers(q, cache, |cache|)|
    ensures var better, found := BetterAnswers(q, cache, counts, k), Discovered(q, cache, counts);
            var answer := Answers(q, cache, |cache|)[k];
            && (answer in found <==> better < Allowed(q.criteria.maxResults, |Answers(q, cache, |cache|)|))
            && (answer in found ==> better < |found| && found[better] == answer)
  {
    var answers, le := Answers(q, cache, |cache|), ByRelevance(counts);
    var sorted := Sort(answers, le);
    RelevanceIsTotalPreorder(counts);
    SortSorts(answers, le);
    SortRanks(answers, le, k);
    IdsAreAnsweredOnce(q, cache, |cache|);
    AnswersAreDistinct(answers);
    DistinctSurvives(answers, sorted);
    LimitedTakesFront(sorted, q.criteria.maxResults);
    hide Limited, Allowed, Sort, Ahead, Answers, ByRelevance, IsTotalPreorder;
    var found := Discovered(q, cache, counts);
    if answers[k] in found {
      var j :| 0 <= j < |found| && found[j] == answers[k];
      assert sorted[j] == answers[k];
    }
  }

  lemma AnswersAreDistinct(answers: seq<Advertisement>)
    requires forall a, b | 0 <= a < b < |answers| :: answers[a].id != answers[b].id
    ensures Distinct(answers)
  {
  }

  /** The list holds answers only, as many as allowed, in order, and nothing omitted ranks higher. */
  lemma ListIsTheTop(q: Query, cache: seq<Entry>, counts: seq<Entry>)
    ensures var answers, found, max := Answers(q, cache, |cache|), Discovered(q, cache, counts), q.criteria.maxResults;
            && |found| == Allowed(max, |answers|)
            && (forall ad | ad in found :: ad in answers)
            && (forall a, b | 0 <= a < b < |found| :: ComesFirst(counts, found[a], found[b]))
            && (forall a, b | a in found && b in answers && b !in found :: ComesFirst(counts, a, b))
  {
    var answers, le := Answers(q, cache, |cache|), ByRelevance(counts);
    var sorted, found := Sort(answers, le), Discovered(q, cache, counts);
    RelevanceIsTotalPreorder(counts);
    SortSorts(answers, le);
    LimitedTakesFront(sorted, q.criteria.maxResults);
    hide Limited, Allowed, Sort, Answers, IsTotalPreorder, ComesFirst;
    assert found == sorted[..|found|];
    forall ad | ad in found
      ensures ad in answers
    {
      assert ad in multiset(sorted);
    }
    forall a, b | 0 <= a < b < |found|
      ensures ComesFirst(counts, found[a], found[b])
    {
      assert le(sorted[a], sorted[b]);
    }
    forall a, b | a in found && b in answers && b !in found
      ensures ComesFirst(counts, a, b)
    {
      assert b in multiset(answers);
      var i, j :| 0 <= i < |found| && found[i] == a && 0 <= j < |sorted| && sorted[j] == b;
      assert j >= |found|;
      assert le(sorted[i], sorted[j]);
    }
  }

  /** Whatever is returned is what was asked for: of the protocol, complete, unexpired, reputable, near enough
      if both places are known, with every capability and every custom pair. */
  lemma ReturnedIsAsAsked(q: Query, cache: seq<Entry>, counts: seq<Entry>, ad: Advertisement)
    requires ad in Discovered(q, cache, counts)
    ensures exists i | 0 <= i < |cache| :: cache[i].advertisement == ad && ad.expiresAt > q.checks(i).now
    ensures ad.protocol == q.criteria.protocol && ad.protocol != "" && ad.id != "" && ad.expiresAt > q.now
    ensures ad.peerInfo.Some? && ad.peerInfo.value.peerId != "" && |ad.peerInfo.value.multiaddrs| > 0
    ensures ad.reputation >= 50.0 && ad.reputation >= q.criteria.minReputation
    ensures q.criteria.capabilities.Some? ==> forall x | x in q.criteria.capabilities.value :: x in ad.capabilities
    ensures q.criteria.location.Some? && ad.location.Some? ==>
              q.distance(q.criteria.location.value.0, ad.location.value) <= q.criteria.location.value.1
    ensures q.criteria.customCriteria.Some? ==>
              ad.customCriteria.Some? && q.criteria.customCriteria.value.Items <= ad.customCriteria.value.Items
  {
    ListIsTheTop(q, cache, counts);
    AnswersExactly(q, cache, |cache|, ad);
    var i :| 0 <= i < |cache| && IsAnswer(q, cache, i) && cache[i].advertisement == ad;
    SignatureNeverDecides(ad, q.checks(i));
  }

  /** And the first advertisement of its id that is all this is an answer; without a limit it is returned. */
  lemma FirstAsAskedIsAnswered(q: Query, cache: seq<Entry>, counts: seq<Entry>, i: nat)
    requires i < |cache|
    requires forall j | 0 <= j < i ::
               !(cache[j].advertisement.protocol == q.criteria.protocol && cache[j].advertisement.id == cache[i].advertisement.id)
    requires var ad := cache[i].advertisement;
             && ad.protocol == q.criteria.protocol && ad.protocol != "" && ad.id != ""
             && ad.expiresAt > q.now && ad.expiresAt > q.checks(i).now
             && ad.peerInfo.Some? && ad.peerInfo.value.peerId != "" && |ad.peerInfo.value.multiaddrs| > 0
             && ad.reputation >= 50.0 && ad.reputation >= q.criteria.minReputation
             && (q.criteria.capabilities.Some? ==> forall x | x in q.criteria.capabilities.value :: x in ad.capabilities)
             && (q.criteria.location.Some? && ad.location.Some? ==>
                   q.distance(q.criteria.location.value.0, ad.location.value) <= q.criteria.location.value.1)
             && (q.criteria.customCriteria.Some? ==>
                   ad.customCriteria.Some? && q.criteria.customCriteria.value.Items <= ad.customCriteria.value.Items)
    ensures cache[i].advertisement in Answers(q, cache, |cache|)
    ensures q.criteria.maxResults == 0 ==> cache[i].advertisement in Discovered(q, cache, counts)
  {
    var ad := cache[i].advertisement;
    SignatureNeverDecides(ad, q.checks(i));
    PairsAreCarried(q.criteria.customCriteria, ad.customCriteria);
    hide IsSecure;
    assert IsAnswer(q, cache, i);
    AnswersExactly(q, cache, |cache|, ad);
    ListIsTheTop(q, cache, counts);
    if q.criteria.maxResults == 0 {
      AllAreReturned(q, cache, counts, ad);
    }
  }

  lemma PairsAreCarried(asked: Option<map<string, string>>, carried: Option<map<string, string>>)
    requires asked.Some? ==> carried.Some? && asked.value.Items <= carried.value.Items
    ensures asked.Some? ==> forall key | key in asked.value :: key in carried.value && carried.value[key] == asked.value[key]
  {
    if asked.Some? {
      forall key | key in asked.value
        ensures key in carried.value && carried.value[key] == asked.value[key]
      {
        assert (key, asked.value[key]) in asked.value.Items;
      }
    }
  }

  lemma AllAreReturned(q: Query, cache: seq<Entry>, counts: seq<Entry>, ad: Advertisement)
    requires q.criteria.maxResults == 0 && ad in Answers(q, cache, |cache|)
    ensures ad in Discovered(q, cache, counts)
  {
    var answers, le := Answers(q, cache, |cache|), ByRelevance(counts);
    RelevanceIsTotalPreorder(counts);
    SortSorts(answers, le);
    assert ad in multiset(Sort(answers, le));
  }

  /** The best come first, and the limit cuts off the worst: by reputation, then by the accesses counted
      under the id. */
  lemma BestComeFirst(q: Query, cache: seq<Entry>, counts: seq<Entry>)
    requires q.criteria.maxResults >= 0
    ensures var answers, found, max := Answers(q, cache, |cache|), Discovered(q, cache, counts), q.criteria.maxResults;
            && |found| == (if max == 0 || |answers| <= max then |answers| else max)
            && (forall a, b | 0 <= a < b < |found| ::
                  || found[a].reputation > found[b].reputation
                  || (&& found[a].reputation == found[b].reputation
                      && AccessCount(counts, found[a].id) >= AccessCount(counts, found[b].id)))
            && (forall a, b | a in found && b in answers && b !in found ::
                  a.reputation > b.reputation
                  || (a.reputation == b.reputation && AccessCount(counts, a.id) >= AccessCount(counts, b.id)))
  {
    ListIsTheTop(q, cache, counts);
    hide Answers, Discovered, AccessCount;
  }

  // ---------------------------------------------------------------- the query's own accesses

  lemma {:induction false} AccessCountAt(cache: seq<Entry>, i: nat)
    requires KeysAreDistinct(cache) && i < |cache|
    ensures AccessCount(cache, cache[i].key) == cache[i].accessCount
  {
    if i < |cache| - 1 {
      AccessCountAt(cache[..|cache| - 1], i);
    }
  }

  lemma {:induction false} AbsentIsNotCounted(cache: seq<Entry>, id: string)
    requires forall i | 0 <= i < |cache| :: cache[i].key != id
    ensures AccessCount(cache, id) == 0
  {
    if cache != [] {
      AbsentIsNotCounted(cache[..|cache| - 1], id);
    }
  }

  /** With entries stored under their ids, the accesses a query counts do not change its order. */
  lemma OwnAccessesDoNotReorder(q: Query, cache: seq<Entry>, a: Advertisement, b: Advertisement)
    requires KeysAreDistinct(cache) && KeyedById(cache)
    requires a in Answers(q, cache, |cache|) && b in Answers(q, cache, |cache|)
    ensures ComesFirst(Touched(q, cache), a, b) <==> ComesFirst(cache, a, b)
  {
    AnswerIsCountedOnce(q, cache, a);
    AnswerIsCountedOnce(q, cache, b);
  }

  lemma AnswerIsCountedOnce(q: Query, cache: seq<Entry>, ad: Advertisement)
    requires KeysAreDistinct(cache) && KeyedById(cache) && ad in Answers(q, cache, |cache|)
    ensures AccessCount(Touched(q, cache), ad.id) == AccessCount(cache, ad.id) + 1
  {
    AnswersExactly(q, cache, |cache|, ad);
    hide IsAnswer;
    var i :| 0 <= i < |cache| && IsAnswer(q, cache, i) && cache[i].advertisement == ad;
    AccessCountAt(cache, i);
    AccessCountAt(Touched(q, cache), i);
  }

  // ---------------------------------------------------------------- runs of the cache

  datatype Event = Add(ad: Advertisement, now: int) | Cleanup(now: int) | Ask(q: Query)

  ghost function Step(cache: seq<Entry>, e: Event): seq<Entry>
  {
    match e
    case Add(ad, now) => Added(cache, ad, now)
    case Cleanup(now) => Kept(cache, now)
    case Ask(q) => Touched(q, cache)
  }

  /** The cache after the first `n` events. */
  ghost function After(cache: seq<Entry>, run: seq<Event>, n: nat): seq<Entry>
    requires n <= |run|
  {
    if n == 0 then cache else Step(After(cache, run, n - 1), run[n - 1])
  }

  predicate IsCached(cache: seq<Entry>, id: string) {
    IndexOf(cache, id) < |cache|
  }

  function Stored(cache: seq<Entry>, id: string): Advertisement
    requires IsCached(cache, id)
  {
    cache[IndexOf(cache, id)].advertisement
  }

  lemma StoredAt(cache: seq<Entry>, i: nat)
    requires KeysAreDistinct(cache) && i < |cache|
    ensures IsCached(cache, cache[i].key) && Stored(cache, cache[i].key) == cache[i].advertisement
  {
    var j := IndexOf(cache, cache[i].key);
    assert j < |cache| ==> j == i;
  }

  lemma {:induction false} KeptEntries(cache: seq<Entry>, now: int)
    requires KeysAreDistinct(cache)
    ensures KeysAreDistinct(Kept(cache, now))
    ensures forall e :: e in Kept(cache, now) <==> e in cache && now - e.timestamp <= 30 * 60000
  {
    if cache != [] {
      KeptEntries(cache[..|cache| - 1], now);
      assert cache == cache[..|cache| - 1] + [cache[|cache| - 1]];
    }
  }

  /** An entry found in both caches holds the same advertisement in both. */
  lemma StoredAlike(cache: seq<Entry>, after: seq<Entry>, i: nat, j: nat)
    requires KeysAreDistinct(cache) && KeysAreDistinct(after) && i < |cache| && j < |after|
    requires cache[i].key == after[j].key && cache[i].advertisement == after[j].advertisement
    ensures IsCached(cache, cache[i].key) && IsCached(after, cache[i].key)
    ensures Stored(after, cache[i].key) == Stored(cache, cache[i].key)
  {
    StoredAt(cache, i);
    StoredAt(after, j);
  }

  lemma AddKeepsCache(cache: seq<Entry>, ad: Advertisement, now: int, id: string)
    requires KeysAreDistinct(cache) && KeyedById(cache)
    ensures KeysAreDistinct(Added(cache, ad, now)) && KeyedById(Added(cache, ad, now))
    ensures IsCached(cache, id) ==> IsCached(Added(cache, ad, now), id) && Stored(Added(cache, ad, now), id) == Stored(cache, id)
  {
    var i := IndexOf(cache, id);
    if i < |cache| {
      StoredAlike(cache, Added(cache, ad, now), i, i);
    }
  }

  lemma CleanupKeepsCache(cache: seq<Entry>, now: int, id: string)
    requires KeysAreDistinct(cache) && KeyedById(cache)
    ensures KeysAreDistinct(Kept(cache, now)) && KeyedById(Kept(cache, now))
    ensures IsCached(Kept(cache, now), id) ==> IsCached(cache, id) && Stored(Kept(cache, now), id) == Stored(cache, id)
  {
    var after := Kept(cache, now);
    KeptEntries(cache, now);
    assert forall i | 0 <= i < |after| :: after[i] in cache;
    var j := IndexOf(after, id);
    if j < |after| {
      var i :| 0 <= i < |cache| && cache[i] == after[j];
      StoredAlike(cache, after, i, j);
    }
  }

  lemma AskKeepsCache(cache: seq<Entry>, q: Query, id: string)
    requires KeysAreDistinct(cache) && KeyedById(cache)
    ensures KeysAreDistinct(Touched(q, cache)) && KeyedById(Touched(q, cache))
    ensures IsCached(cache, id) ==> IsCached(Touched(q, cache), id) && Stored(Touched(q, cache), id) == Stored(cache, id)
  {
    hide IsAnswer;
    var i := IndexOf(cache, id);
    if i < |cache| {
      StoredAlike(cache, Touched(q, cache), i, i);
    }
  }

  /** One step keeps the keys in order and never replaces a stored advertisement. */
  lemma StepKeepsCache(cache: seq<Entry>, e: Event, id: string)
    requires KeysAreDistinct(cache) && KeyedById(cache)
    ensures KeysAreDistinct(Step(cache, e)) && KeyedById(Step(cache, e))
    ensures IsCached(cache, id) && IsCached(Step(cache, e), id) ==> Stored(Step(cache, e), id) == Stored(cache, id)
  {
    hide Added, Kept, Touched, KeysAreDistinct, KeyedById, IsCached, Stored;
    match e
    case Add(ad, now) => AddKeepsCache(cache, ad, now, id);
    case Cleanup(now) => CleanupKeepsCache(cache, now, id);
    case Ask(q) => AskKeepsCache(cache, q, id);
  }

  /** However often an id is advertised again, as long as its entry is not dropped the first
      advertisement is the one stored. */
  lemma {:induction false} FirstAdvertisementStays(cache: seq<Entry>, run: seq<Event>, n: nat, id: string)
    requires KeysAreDistinct(cache) && KeyedById(cache) && n <= |run|
    requires forall m | 0 <= m <= n :: IsCached(After(cache, run, m), id)
    ensures KeysAreDistinct(After(cache, run, n)) && KeyedById(After(cache, run, n))
    ensures IsCached(cache, id) && IsCached(After(cache, run, n), id)
    ensures Stored(After(cache, run, n), id) == Stored(cache, id)
  {
    hide Step, KeysAreDistinct, KeyedById, Stored, IsCached;
    assert After(cache, run, 0) == cache;
    if n > 0 {
      FirstAdvertisementStays(cache, run, n - 1, id);
      StepKeepsCache(After(cache, run, n - 1), run[n - 1], id);
    }
  }

  /** So once that one has expired, queries answer nothing under the id. */
  lemma RenewalsStayHidden(cache: seq<Entry>, run: seq<Event>, n: nat, id: string, q: Query)
    requires KeysAreDistinct(cache) && KeyedById(cache) && n <= |run|
    requires forall m | 0 <= m <= n :: IsCached(After(cache, run, m), id)
    requires IsCached(cache, id) && Stored(cache, id).expiresAt <= q.now
    ensures forall ad | ad in Answers(q, After(cache, run, n), |After(cache, run, n)|) :: ad.id != id
  {
    FirstAdvertisementStays(cache, run, n, id);
    var now := After(cache, run, n);
    forall ad | ad in Answers(q, now, |now|)
      ensures ad.id != id
    {
      AnswersExactly(q, now, |now|, ad);
      var i :| 0 <= i < |now| && IsAnswer(q, now, i) && now[i].advertisement == ad;
      StoredAt(now, i);
    }
  }

  /** What is added is what is stored exactly when its id was not cached with other content. */
  lemma AddedIsStoredExactlyWhenNew(cache: seq<Entry>, ad: Advertisement, now: int)
    requires KeysAreDistinct(cache)
    ensures IsCached(Added(cache, ad, now), ad.id)
    ensures Stored(Added(cache, ad, now), ad.id) == ad <==> !IsCached(cache, ad.id) || Stored(cache, ad.id) == ad
  {
    var i, after := IndexOf(cache, ad.id), Added(cache, ad, now);
    assert i < |after| && after[i].key == ad.id;
    if i < |cache| {
      StoredAlike(cache, after, i, i);
    } else {
      assert forall j | 0 <= j < i :: after[j].key == cache[j].key != ad.id;
    }
  }

  /** An advertisement added again under its id is only refreshed: the first content and time of entry stay. */
  lemma AddedTwiceIsRefreshed(cache: seq<Entry>, ad: Advertisement, again: Advertisement, t1: int, t2: int)
    requires !IsCached(cache, ad.id) && again.id == ad.id && t1 != 0
    ensures Added(Added(cache, ad, t1), again, t2) == cache + [Entry(ad.id, ad, t1, t2, 2, t2)]
  {
    var once := Added(cache, ad, t1);
    assert IndexOf(cache, ad.id) == |cache|;
    assert once == cache + [Entry(ad.id, ad, t1, t1, 1, t1)];
    assert once[|cache|].key == ad.id;
    forall j | 0 <= j < |cache|
      ensures once[j].key != ad.id
    {
      assert once[j] == cache[j];
    }
    assert IndexOf(once, again.id) == |cache|;
  }
}
