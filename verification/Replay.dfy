/** Replay protection for MuSig2 messages: freshness, message ids and sequence numbers.

    The table of seen ids is bounded, so it forgets. The lemmas about whole runs say
    exactly what the forgetting costs: nothing for an id that aged out, because its
    timestamp is then stale, and a stated number of other messages for an id that was
    pushed out because the table was full. */
module Replay {
  import opened Sorting

  /** A row of `seenMessages`; the table is a sequence because a Map keeps insertion order. */
  datatype Entry = Entry(id: string, at: int)

  /** `evictionBatch` is `Math.ceil(maxSeenMessages * 0.1)` in double arithmetic. */
  datatype Config = Config(maxMessageAge: nat, maxSeenMessages: nat, evictionBatch: nat, enableSequenceValidation: bool)

  /** The double nearest 0.1 exceeds it, so a multiple of ten may round up one too far (70 gives 8). */
  predicate ValidConfig(c: Config) {
    var tenth := (c.maxSeenMessages + 9) / 10;
    || c.evictionBatch == tenth
    || (c.maxSeenMessages > 0 && c.maxSeenMessages % 10 == 0 && c.evictionBatch == tenth + 1)
  }

  /** An empty id and a zero timestamp are what JavaScript treats as absent. */
  datatype Message = Message(messageId: string, timestamp: int)

  /** Session, signer and sequence number; sequence checking needs all three. */
  datatype Tag = Untagged | Tag(sessionId: string, signerIndex: int, sequenceNumber: int)

  datatype Verdict = Valid | TimestampOutOfRange | DuplicateMessageId | SequenceNotIncreasing

  datatype State = State(seen: seq<Entry>, sequences: map<string, map<int, int>>)

  const EMPTY := State([], map[])

  // ---------------------------------------------------------------- the table of seen ids

  predicate Seen(seen: seq<Entry>, id: string) {
    exists i | 0 <= i < |seen| :: seen[i].id == id
  }

  function Ids(seen: seq<Entry>): set<string> {
    set i | 0 <= i < |seen| :: seen[i].id
  }

  ghost predicate DistinctIds(seen: seq<Entry>) {
    forall i, j | 0 <= i < j < |seen| :: seen[i].id != seen[j].id
  }

  ghost predicate InTimeOrder(seen: seq<Entry>) {
    forall i, j | 0 <= i < j < |seen| :: seen[i].at <= seen[j].at
  }

  predicate NotLater(a: Entry, b: Entry) {
    a.at <= b.at
  }

  function Without(seen: seq<Entry>, ids: set<string>): seq<Entry> {
    if seen == [] then []
    else (if seen[0].id in ids then [] else [seen[0]]) + Without(seen[1..], ids)
  }

  function WithoutOlderThan(seen: seq<Entry>, now: int, maxAge: int): seq<Entry> {
    if seen == [] then []
    else (if now - seen[0].at > maxAge then [] else [seen[0]]) + WithoutOlderThan(seen[1..], now, maxAge)
  }

  /** The rows a full table gives up: the first `batch` of the rows sorted by time. */
  function Evicted(seen: seq<Entry>, batch: nat): seq<Entry> {
    var sorted := Sort(seen, NotLater);
    if batch < |sorted| then sorted[..batch] else sorted
  }

  function MakeRoom(c: Config, seen: seq<Entry>): seq<Entry> {
    if |seen| >= c.maxSeenMessages then Without(seen, Ids(Evicted(seen, c.evictionBatch))) else seen
  }

  function Put(seen: seq<Entry>, id: string, at: int): seq<Entry> {
    if seen == [] then [Entry(id, at)]
    else if seen[0].id == id then [Entry(id, at)] + seen[1..]
    else [seen[0]] + Put(seen[1..], id, at)
  }

  // ---------------------------------------------------------------- one call

  predicate Stale(c: Config, now: int, m: Message) {
    m.timestamp != 0 && (now - m.timestamp > c.maxMessageAge || m.timestamp - now > c.maxMessageAge)
  }

  function LastSequence(sequences: map<string, map<int, int>>, session: string, signer: int): int {
    if session in sequences && signer in sequences[session] then sequences[session][signer] else -1
  }

  function CheckSequence(sequences: map<string, map<int, int>>, t: Tag): (map<string, map<int, int>>, Verdict)
    requires t.Tag?
  {
    var known := if t.sessionId in sequences then sequences[t.sessionId] else map[];
    if t.sequenceNumber <= LastSequence(sequences, t.sessionId, t.signerIndex)
    then (sequences[t.sessionId := known], SequenceNotIncreasing)
    else (sequences[t.sessionId := known[t.signerIndex := t.sequenceNumber]], Valid)
  }

  function Check(c: Config, s: State, now: int, m: Message, t: Tag): (State, Verdict) {
    if Stale(c, now, m) then (s, TimestampOutOfRange)
    else if m.messageId != "" && Seen(s.seen, m.messageId) then (s, DuplicateMessageId)
    else
      var seen := if m.messageId != "" then Put(MakeRoom(c, s.seen), m.messageId, now) else s.seen;
      if c.enableSequenceValidation && t.Tag? then
        var (sequences, v) := CheckSequence(s.sequences, t);
        (State(seen, sequences), v)
      else (State(seen, s.sequences), Valid)
  }

  // ---------------------------------------------------------------- the object

  class ReplayProtection {
    const config: Config
    var seenMessages: seq<Entry>
    var sessionSequences: map<string, map<int, int>>

    function Contents(): State
      reads this
    {
      State(seenMessages, sessionSequences)
    }

    constructor (c: Config)
      ensures config == c && Contents() == EMPTY
    {
      config := c;
      seenMessages := [];
      sessionSequences := map[];
    }

    method ValidateMessage(now: int, message: Message, tag: Tag) returns (verdict: Verdict)
      modifies this
      ensures (Contents(), verdict) == Check(config, old(Contents()), now, message, tag)
    {
      if message.timestamp != 0 {
        var age := if now >= message.timestamp then now - message.timestamp else message.timestamp - now;
        if age > config.maxMessageAge {
          return TimestampOutOfRange;
        }
      }
      if message.messageId != "" {
        if Seen(seenMessages, message.messageId) {
          return DuplicateMessageId;
        }
        RecordMessageId(message.messageId, now);
      }
      if config.enableSequenceValidation && tag.Tag? {
        verdict := ValidateSequenceNumber(tag);
        return;
      }
      return Valid;
    }

    method ValidateSequenceNumber(tag: Tag) returns (verdict: Verdict)
      requires tag.Tag?
      modifies this`sessionSequences
      ensures (sessionSequences, verdict) == CheckSequence(old(sessionSequences), tag)
    {
      var known := map[];
      if tag.sessionId in sessionSequences {
        known := sessionSequences[tag.sessionId];
      }
      sessionSequences := sessionSequences[tag.sessionId := known];
      var last := if tag.signerIndex in known then known[tag.signerIndex] else -1;
      if tag.sequenceNumber <= last {
        return SequenceNotIncreasing;
      }
      sessionSequences := sessionSequences[tag.sessionId := known[tag.signerIndex := tag.sequenceNumber]];
      assert sessionSequences == old(sessionSequences)[tag.sessionId := known[tag.signerIndex := tag.sequenceNumber]];
      return Valid;
    }

    method RecordMessageId(id: string, now: int)
      modifies this`seenMessages
      ensures seenMessages == Put(MakeRoom(config, old(seenMessages)), id, now)
    {
      if |seenMessages| >= config.maxSeenMessages {
        var sortedEntries := Sort(seenMessages, NotLater);
        var i := 0;
        WithoutNothing(seenMessages);
        while i < config.evictionBatch && i < |sortedEntries|
          invariant 0 <= i <= |sortedEntries| && i <= config.evictionBatch
          invariant seenMessages == Without(old(seenMessages), Ids(sortedEntries[..i]))
        {
          WithoutTwice(old(seenMessages), Ids(sortedEntries[..i]), {sortedEntries[i].id});
          assert Ids(sortedEntries[..i + 1]) == Ids(sortedEntries[..i]) + {sortedEntries[i].id};
          seenMessages := Without(seenMessages, {sortedEntries[i].id});
          i := i + 1;
        }
        assert sortedEntries[..i] == Evicted(old(seenMessages), config.evictionBatch);
      }
      seenMessages := Put(seenMessages, id, now);
    }

    method Cleanup(now: int)
      modifies this`seenMessages
      ensures seenMessages == WithoutOlderThan(old(seenMessages), now, 2 * config.maxMessageAge)
    {
      var maxAge := config.maxMessageAge * 2;
      var entries := seenMessages;
      var kept := [];
      for i := 0 to |entries|
        invariant kept + WithoutOlderThan(entries[i..], now, maxAge) == WithoutOlderThan(entries, now, maxAge)
      {
        if !(now - entries[i].at > maxAge) {
          kept := kept + [entries[i]];
        }
      }
      seenMessages := kept;
    }

    method GetNextSequenceNumber(session: string, signer: int) returns (next: int)
      ensures forall n: int ::
                CheckSequence(sessionSequences, Tag(session, signer, n)).1 == Valid <==> next <= n
    {
      if session !in sessionSequences {
        return 0;
      }
      var known := sessionSequences[session];
      next := (if signer in known then known[signer] else -1) + 1;
    }

    method ClearSession(session: string)
      modifies this`sessionSequences
      ensures sessionSequences == old(sessionSequences) - {session}
    {
      sessionSequences := sessionSequences - {session};
    }

    method Clear()
      modifies this
      ensures Contents() == EMPTY
    {
      seenMessages := [];
      sessionSequences := map[];
    }
  }

  lemma {:induction false} WithoutNothing(seen: seq<Entry>)
    ensures Without(seen, Ids(seen[..0])) == seen
  {
    if seen != [] {
      WithoutNothing(seen[1..]);
      assert Ids(seen[1..][..0]) == Ids(seen[..0]);
    }
  }

  lemma {:induction false} WithoutTwice(seen: seq<Entry>, a: set<string>, b: set<string>)
    ensures Without(Without(seen, a), b) == Without(seen, a + b)
  {
    if seen != [] {
      WithoutTwice(seen[1..], a, b);
      var rest := Without(seen[1..], a);
      assert Without(seen, a) == if seen[0].id in a then rest else [seen[0]] + rest;
      assert ([seen[0]] + rest)[1..] == rest;
    }
  }

  // ---------------------------------------------------------------- whole runs

  /** Every event carries the clock reading at which it happens. */
  datatype Event =
    | Validate(now: int, message: Message, tag: Tag)
    | Cleanup(now: int)
    | ClearSession(now: int, session: string)
    | Clear(now: int)

  /** The clock never goes back. */
  ghost predicate Clocked(run: seq<Event>) {
    forall i, j | 0 <= i < j < |run| :: run[i].now <= run[j].now
  }

  function Step(c: Config, s: State, e: Event): State {
    match e
    case Validate(now, m, t) => Check(c, s, now, m, t).0
    case Cleanup(now) => s.(seen := WithoutOlderThan(s.seen, now, 2 * c.maxMessageAge))
    case ClearSession(_, session) => s.(sequences := s.sequences - {session})
    case Clear(_) => EMPTY
  }

  /** The state after the first `n` events. */
  function After(c: Config, run: seq<Event>, n: nat): State
    requires n <= |run|
  {
    if n == 0 then EMPTY else Step(c, After(c, run, n - 1), run[n - 1])
  }

  function VerdictAt(c: Config, run: seq<Event>, i: nat): Verdict
    requires i < |run| && run[i].Validate?
  {
    Check(c, After(c, run, i), run[i].now, run[i].message, run[i].tag).1
  }

  predicate Accepts(c: Config, run: seq<Event>, i: nat)
    requires i < |run|
  {
    run[i].Validate? && VerdictAt(c, run, i) == Valid
  }

  /** Event `i` enters its id in the table. A message refused only for its sequence number does so too. */
  predicate Records(c: Config, run: seq<Event>, i: nat)
    requires i < |run|
  {
    run[i].Validate? && run[i].message.messageId != "" && VerdictAt(c, run, i) in {Valid, SequenceNotIncreasing}
  }

  /** How many ids are entered by the events from `i` up to but not including `j`. */
  function RecordsBetween(c: Config, run: seq<Event>, i: nat, j: nat): nat
    requires i <= j <= |run|
    decreases j
  {
    if i == j then 0
    else RecordsBetween(c, run, i, j - 1) + (if Records(c, run, j - 1) then 1 else 0)
  }

  lemma {:induction false} RecordsAreCounted(c: Config, run: seq<Event>, i: nat, j: nat)
    requires i <= j <= |run|
    ensures RecordsBetween(c, run, i, j) == |set k | i <= k < j && Records(c, run, k)|
    decreases j
  {
    hide Records;
    var all := set k | i <= k < j && Records(c, run, k);
    if i < j {
      RecordsAreCounted(c, run, i, j - 1);
      var front := set k | i <= k < j - 1 && Records(c, run, k);
      assert all == if Records(c, run, j - 1) then front + {j - 1} else front;
    } else {
      assert all == {};
    }
  }

  ghost predicate Uncleared(run: seq<Event>, i: nat, j: nat)
    requires j <= |run|
  {
    forall k | i <= k < j :: !run[k].Clear?
  }

  // ---------------------------------------------------------------- what the table keeps

  /** How many of its oldest rows the table gives up before an id is entered. */
  function Overflow(c: Config, seen: seq<Entry>): nat {
    if |seen| < c.maxSeenMessages then 0
    else if c.evictionBatch < |seen| then c.evictionBatch else |seen|
  }

  lemma {:induction false} WithoutIsPrefix(seen: seq<Entry>, k: nat, ids: set<string>)
    requires k <= |seen|
    requires forall i | 0 <= i < k :: seen[i].id in ids
    requires forall i | k <= i < |seen| :: seen[i].id !in ids
    ensures Without(seen, ids) == seen[k..]
  {
    if seen != [] {
      var rest := seen[1..];
      assert forall i | 0 <= i < |rest| :: rest[i] == seen[i + 1];
      WithoutIsPrefix(rest, if k > 0 then k - 1 else 0, ids);
    }
  }

  /** On a table in time order the sort moves nothing, so a full table loses a prefix. */
  lemma EvictionTakesPrefix(c: Config, seen: seq<Entry>)
    requires DistinctIds(seen) && InTimeOrder(seen)
    ensures MakeRoom(c, seen) == seen[Overflow(c, seen)..]
  {
    if |seen| >= c.maxSeenMessages {
      SortKeepsSorted(seen, NotLater);
      var k := Overflow(c, seen);
      assert Evicted(seen, c.evictionBatch) == seen[..k];
      var ids := Ids(seen[..k]);
      forall i | 0 <= i < |seen|
        ensures i < k <==> seen[i].id in ids
      {
        assert i < k ==> seen[..k][i].id in ids;
      }
      WithoutIsPrefix(seen, k, ids);
    }
  }

  /** Aging also removes a prefix: exactly the rows older than `maxAge`. */
  lemma {:induction false} AgingTakesPrefix(seen: seq<Entry>, now: int, maxAge: int) returns (k: nat)
    requires InTimeOrder(seen)
    ensures k <= |seen| && WithoutOlderThan(seen, now, maxAge) == seen[k..]
    ensures forall i | 0 <= i < k :: now - seen[i].at > maxAge
    ensures forall i | k <= i < |seen| :: now - seen[i].at <= maxAge
  {
    hide WithoutOlderThan;
    AgingStarts(seen, now, maxAge);
    if seen == [] {
      k := 0;
    } else if now - seen[0].at > maxAge {
      var rest := seen[1..];
      assert forall i | 0 <= i < |rest| :: rest[i] == seen[i + 1];
      k := AgingTakesPrefix(rest, now, maxAge);
      assert rest[k..] == seen[k + 1..];
      forall i | 1 <= i < |seen|
        ensures now - seen[i].at > maxAge <==> i <= k
      {
        assert seen[i] == rest[i - 1];
      }
      k := k + 1;
    } else {
      k := 0;
      AgingKeepsYoung(seen, now, maxAge);
    }
  }

  lemma AgingStarts(seen: seq<Entry>, now: int, maxAge: int)
    ensures seen == [] ==> WithoutOlderThan(seen, now, maxAge) == []
    ensures seen != [] && now - seen[0].at > maxAge ==> WithoutOlderThan(seen, now, maxAge) == WithoutOlderThan(seen[1..], now, maxAge)
  {
  }

  lemma {:induction false} AgingKeepsYoung(seen: seq<Entry>, now: int, maxAge: int)
    requires forall i | 0 <= i < |seen| :: now - seen[i].at <= maxAge
    ensures WithoutOlderThan(seen, now, maxAge) == seen
  {
    if seen != [] {
      AgingKeepsYoung(seen[1..], now, maxAge);
    }
  }

  lemma {:induction false} PutAppends(seen: seq<Entry>, id: string, at: int)
    requires !Seen(seen, id)
    ensures Put(seen, id, at) == seen + [Entry(id, at)]
  {
    if seen != [] {
      assert seen[0].id != id;
      assert forall i | 0 <= i < |seen[1..]| :: seen[1..][i] == seen[i + 1];
      PutAppends(seen[1..], id, at);
    }
  }

  ghost predicate Sound(s: State, now: int) {
    && DistinctIds(s.seen)
    && InTimeOrder(s.seen)
    && (forall i | 0 <= i < |s.seen| :: s.seen[i].at <= now)
  }

  predicate Enters(c: Config, s: State, e: Event) {
    e.Validate? && e.message.messageId != "" && Check(c, s, e.now, e.message, e.tag).1 in {Valid, SequenceNotIncreasing}
  }

  /** An id is entered behind what is left of the table after a prefix made room. */
  lemma EnteringStep(c: Config, s: State, e: Event)
    requires Sound(s, e.now) && Enters(c, s, e)
    ensures !Seen(s.seen, e.message.messageId)
    ensures Step(c, s, e).seen == s.seen[Overflow(c, s.seen)..] + [Entry(e.message.messageId, e.now)]
  {
    var k := Overflow(c, s.seen);
    var rest := s.seen[k..];
    EvictionTakesPrefix(c, s.seen);
    assert forall i | 0 <= i < |rest| :: rest[i] == s.seen[k + i];
    PutAppends(rest, e.message.messageId, e.now);
  }

  lemma SuffixIsSound(s: State, k: nat, s': State, now: int)
    requires k <= |s.seen| && Sound(s, now) && s'.seen == s.seen[k..]
    ensures Sound(s', now)
  {
  }

  lemma AppendIsSound(s: State, k: nat, row: Entry, s': State)
    requires k <= |s.seen| && Sound(s, row.at) && !Seen(s.seen, row.id)
    requires s'.seen == s.seen[k..] + [row]
    ensures Sound(s', row.at)
  {
  }

  /** One event, seen from the table: it drops a prefix and may append a single row. */
  lemma TableStep(c: Config, s: State, e: Event) returns (k: nat)
    requires Sound(s, e.now)
    ensures k <= |s.seen| && Sound(Step(c, s, e), e.now)
    ensures Enters(c, s, e) ==>
              k == Overflow(c, s.seen) && Step(c, s, e).seen == s.seen[k..] + [Entry(e.message.messageId, e.now)]
    ensures !Enters(c, s, e) && !e.Clear? ==> Step(c, s, e).seen == s.seen[k..]
    ensures e.Cleanup? ==> forall i | 0 <= i < |s.seen| :: i < k <==> e.now - s.seen[i].at > 2 * c.maxMessageAge
    ensures !Enters(c, s, e) && !e.Cleanup? ==> k == 0
  {
    k := 0;
    if Enters(c, s, e) {
      k := Overflow(c, s.seen);
      EnteringStep(c, s, e);
      AppendIsSound(s, k, Entry(e.message.messageId, e.now), Step(c, s, e));
    } else if e.Cleanup? {
      k := AgingTakesPrefix(s.seen, e.now, 2 * c.maxMessageAge);
      SuffixIsSound(s, k, Step(c, s, e), e.now);
    } else if !e.Clear? {
      assert Step(c, s, e).seen == s.seen;
      SuffixIsSound(s, 0, Step(c, s, e), e.now);
    }
  }

  lemma {:induction false} RunIsSound(c: Config, run: seq<Event>, n: nat)
    requires Clocked(run) && n <= |run|
    ensures n > 0 ==> Sound(After(c, run, n), run[n - 1].now)
    ensures n < |run| ==> Sound(After(c, run, n), run[n].now)
  {
    if n > 0 {
      RunIsSound(c, run, n - 1);
      var k := TableStep(c, After(c, run, n - 1), run[n - 1]);
    }
  }

  /** The table never holds more rows than configured. */
  lemma {:induction false} TableIsBounded(c: Config, run: seq<Event>, n: nat)
    requires Clocked(run) && n <= |run| && ValidConfig(c) && c.maxSeenMessages >= 1
    ensures |After(c, run, n).seen| <= c.maxSeenMessages
  {
    if n > 0 {
      TableIsBounded(c, run, n - 1);
      RunIsSound(c, run, n - 1);
      var k := TableStep(c, After(c, run, n - 1), run[n - 1]);
    }
  }

  /** With a limit of zero nothing is ever evicted: the bound needs a limit of at least one. */
  lemma ZeroLimitIsNoLimit(c: Config, run: seq<Event>, n: nat)
    requires Clocked(run) && n < |run| && ValidConfig(c) && c.maxSeenMessages == 0
    requires Records(c, run, n)
    ensures |After(c, run, n + 1).seen| == |After(c, run, n).seen| + 1
  {
    RunIsSound(c, run, n);
    var k := TableStep(c, After(c, run, n), run[n]);
  }

  /** After event `i` and before event `n` some id was entered for which a full table gave up rows. */
  ghost predicate MadeRoom(c: Config, run: seq<Event>, i: nat, n: nat)
    requires n <= |run|
  {
    exists m | i < m < n :: Records(c, run, m) && Overflow(c, After(c, run, m).seen) > 0
  }

  /** Row `p` holds `row`, with at most `behind` rows after it. */
  predicate Holds(seen: seq<Entry>, p: nat, row: Entry, behind: nat) {
    p < |seen| && seen[p] == row && |seen| - 1 - p <= behind
  }

  /** A row survives an event unless it has aged out or a full table gives it up. */
  lemma RowMoves(c: Config, run: seq<Event>, m: nat, p: nat, row: Entry, behind: nat) returns (q: nat)
    requires Clocked(run) && m < |run| && !run[m].Clear? && Holds(After(c, run, m).seen, p, row, behind)
    ensures || Holds(After(c, run, m + 1).seen, q, row, behind + if Records(c, run, m) then 1 else 0)
            || run[m].now - row.at > 2 * c.maxMessageAge
            || (Overflow(c, After(c, run, m).seen) > 0 && Records(c, run, m)
                && behind + 1 + c.evictionBatch > c.maxSeenMessages)
  {
    hide Check;
    hide Sound;
    var s, e := After(c, run, m), run[m];
    RunIsSound(c, run, m);
    var k := TableStep(c, s, e);
    assert Records(c, run, m) == Enters(c, s, e);
    q := if k <= p then p - k else 0;
  }

  /** What became of the id that event `i` entered, just before event `n`. */
  ghost predicate Remembered(c: Config, run: seq<Event>, i: nat, n: nat, p: nat)
    requires i < n <= |run| && run[i].Validate?
  {
    Holds(After(c, run, n).seen, p, Entry(run[i].message.messageId, run[i].now), RecordsBetween(c, run, i + 1, n))
  }

  ghost predicate AgedOut(c: Config, run: seq<Event>, i: nat, n: nat)
    requires i < n <= |run|
  {
    run[n - 1].now - run[i].now > 2 * c.maxMessageAge
  }

  ghost predicate CrowdedOut(c: Config, run: seq<Event>, i: nat, n: nat)
    requires i < n <= |run|
  {
    MadeRoom(c, run, i, n) && RecordsBetween(c, run, i + 1, n) + c.evictionBatch > c.maxSeenMessages
  }

  /** An id entered at `i` is still in its row with at most the later ids behind it, or it
      has aged past twice the freshness window, or a full table needed its place. */
  lemma {:induction false} EnteredIdsAreRemembered(c: Config, run: seq<Event>, i: nat, n: nat) returns (p: nat)
    requires Clocked(run) && i < n <= |run| && Records(c, run, i) && Uncleared(run, i + 1, n)
    ensures Remembered(c, run, i, n, p) || AgedOut(c, run, i, n) || CrowdedOut(c, run, i, n)
  {
    hide Check;
    hide Sound;
    if n == i + 1 {
      RunIsSound(c, run, i);
      EnteringStep(c, After(c, run, i), run[i]);
      p := |After(c, run, n).seen| - 1;
    } else {
      var m := n - 1;
      p := EnteredIdsAreRemembered(c, run, i, m);
      if Remembered(c, run, i, m, p) {
        var row := Entry(run[i].message.messageId, run[i].now);
        p := RowMoves(c, run, m, p, row, RecordsBetween(c, run, i + 1, m));
      }
    }
  }

  /** Replay protection: the same id and nonzero timestamp pass the duplicate check twice
      only when a full table gave up rows in between and at least
      maxSeenMessages - evictionBatch + 1 other ids came in between. */
  lemma AdmittedOnceUnlessCrowdedOut(c: Config, run: seq<Event>, i: nat, j: nat)
    requires Clocked(run) && i < j < |run| && Uncleared(run, i + 1, j)
    requires Records(c, run, i) && Records(c, run, j)
    requires run[i].message == run[j].message && run[i].message.timestamp != 0
    ensures MadeRoom(c, run, i, j)
    ensures RecordsBetween(c, run, i + 1, j) >= c.maxSeenMessages - c.evictionBatch + 1
  {
    var p := EnteredIdsAreRemembered(c, run, i, j);
    RunIsSound(c, run, j);
    EnteringStep(c, After(c, run, j), run[j]);
  }

  /** While the table gives up nothing for room, one message is accepted at most once in the whole run. */
  lemma AcceptedAtMostOnce(c: Config, run: seq<Event>, i: nat, j: nat)
    requires Clocked(run) && i < j < |run| && Uncleared(run, i + 1, j)
    requires run[i].Validate? && run[j].Validate? && run[i].message == run[j].message
    requires run[i].message.messageId != "" && run[i].message.timestamp != 0
    requires !MadeRoom(c, run, i, j)
    ensures !(Accepts(c, run, i) && Accepts(c, run, j))
  {
    if Accepts(c, run, i) && Accepts(c, run, j) {
      AdmittedOnceUnlessCrowdedOut(c, run, i, j);
    }
  }

  /** An untagged, fresh, unseen message is accepted and its row goes to the end of the table. */
  lemma FreshMessage(c: Config, run: seq<Event>, n: nat, id: string, timestamp: int, now: int)
    requires n < |run| && run[n] == Validate(now, Message(id, timestamp), Untagged)
    requires id != "" && timestamp in {0, now}
    requires Sound(After(c, run, n), now) && !Seen(After(c, run, n).seen, id)
    ensures Accepts(c, run, n) && Records(c, run, n)
    ensures var seen := After(c, run, n).seen;
            After(c, run, n + 1).seen == seen[Overflow(c, seen)..] + [Entry(id, now)]
  {
    EnteringStep(c, After(c, run, n), run[n]);
  }

  lemma FirstRow(c: Config, run: seq<Event>, n: nat, x: string, timestamp: int, t: int)
    requires x != "" && timestamp in {0, t}
    requires n < |run| && run[n] == Validate(t, Message(x, timestamp), Untagged)
    requires After(c, run, n).seen == []
    ensures After(c, run, n + 1).seen == [Entry(x, t)] && Accepts(c, run, n) && Records(c, run, n)
  {
    FreshMessage(c, run, n, x, timestamp, t);
  }

  lemma DropsOnlyRow(c: Config, run: seq<Event>, n: nat, x: string, t: int, later: int)
    requires n < |run| && run[n] == Cleanup(later) && later > t + 2 * c.maxMessageAge
    requires After(c, run, n).seen == [Entry(x, t)]
    ensures After(c, run, n + 1).seen == []
  {
    var seen := After(c, run, n).seen;
    assert seen[0].at == t;
    var k := AgingTakesPrefix(seen, later, 2 * c.maxMessageAge);
  }

  // ---------------------------------------------------------------- exactly how much crowds an id out

  /** One timed message is accepted at `i` and again at `j`, with `others` ids entered in between. */
  ghost predicate ForgottenAfter(c: Config, run: seq<Event>, i: nat, j: nat, others: nat) {
    && i < j < |run| && Clocked(run) && Uncleared(run, i + 1, j)
    && Accepts(c, run, i) && Accepts(c, run, j)
    && run[i].message == run[j].message && run[i].message.messageId != "" && run[i].message.timestamp != 0
    && RecordsBetween(c, run, i + 1, j) == others
  }

  /** The n-th of as many different ids as are needed. */
  function Id(n: nat): (id: string)
    ensures |id| == n + 1
  {
    seq(n + 1, (_: nat) => 'm')
  }

  /** Messages with the ids 0, 1, .. and then once more the last one that a first eviction drops. */
  function CrowdingRun(c: Config, t: int, others: nat): seq<Event>
    requires c.evictionBatch >= 1
  {
    seq(c.evictionBatch + others + 1, (n: nat) =>
      Validate(t, Message(Id(if n < c.evictionBatch + others then n else c.evictionBatch - 1), t), Untagged))
  }

  /** The rows of a table that holds ids `from` up to but not including `to`, in order. */
  ghost predicate HoldsIds(seen: seq<Entry>, from: nat, to: nat) {
    from <= to && |seen| == to - from && forall p | 0 <= p < |seen| :: seen[p].id == Id(from + p)
  }

  lemma NotYetSeen(seen: seq<Entry>, from: nat, to: nat, n: nat)
    requires HoldsIds(seen, from, to) && (n < from || n >= to)
    ensures !Seen(seen, Id(n))
  {
    forall p | 0 <= p < |seen|
      ensures seen[p].id != Id(n)
    {
      assert |seen[p].id| == from + p + 1;
    }
  }

  /** Until the table is full it holds all ids so far; afterwards the first batch is gone for good. */
  lemma {:induction false} CrowdingFills(c: Config, t: int, others: nat, n: nat) returns (from: nat)
    requires 1 <= c.evictionBatch <= c.maxSeenMessages && t != 0 && n <= c.evictionBatch + others
    ensures var run := CrowdingRun(c, t, others);
            && Clocked(run) && HoldsIds(After(c, run, n).seen, from, n)
            && (if n <= c.maxSeenMessages then from == 0 else from >= c.evictionBatch)
            && (n > 0 ==> Records(c, run, n - 1))
  {
    hide Check, Sound, Step, Records, Accepts, Id, HoldsIds, Seen;
    var run := CrowdingRun(c, t, others);
    from := 0;
    if n > 0 {
      from := CrowdingFills(c, t, others, n - 1);
      var seen := After(c, run, n - 1).seen;
      RunIsSound(c, run, n - 1);
      NotYetSeen(seen, from, n - 1, n - 1);
      FreshMessage(c, run, n - 1, Id(n - 1), t, t);
      RowsMoveOn(seen, from, n - 1, Overflow(c, seen), t);
      from := from + Overflow(c, seen);
    } else {
      NothingHeld();
    }
  }

  lemma NothingHeld()
    ensures HoldsIds([], 0, 0)
  {
  }

  lemma RowsMoveOn(seen: seq<Entry>, from: nat, to: nat, k: nat, t: int)
    requires HoldsIds(seen, from, to) && k <= |seen|
    ensures |seen| == to - from && HoldsIds(seen[k..] + [Entry(Id(to), t)], from + k, to + 1)
  {
  }

  lemma {:induction false} AllRecorded(c: Config, t: int, others: nat, j: nat)
    requires 1 <= c.evictionBatch <= c.maxSeenMessages && t != 0 && c.evictionBatch <= j <= c.evictionBatch + others
    ensures RecordsBetween(c, CrowdingRun(c, t, others), c.evictionBatch, j) == j - c.evictionBatch
  {
    if j > c.evictionBatch {
      AllRecorded(c, t, others, j - 1);
      var from := CrowdingFills(c, t, others, j);
    }
  }

  lemma EnoughCrowdsOut(c: Config, t: int, others: nat)
    requires 1 <= c.evictionBatch <= c.maxSeenMessages && t != 0 && others >= c.maxSeenMessages - c.evictionBatch + 1
    ensures ForgottenAfter(c, CrowdingRun(c, t, others), c.evictionBatch - 1, c.evictionBatch + others, others)
  {
    hide Check, Sound;
    var run, k, j := CrowdingRun(c, t, others), c.evictionBatch, c.evictionBatch + others;
    var early := CrowdingFills(c, t, others, k - 1);
    RunIsSound(c, run, k - 1);
    NotYetSeen(After(c, run, k - 1).seen, early, k - 1, k - 1);
    FreshMessage(c, run, k - 1, Id(k - 1), t, t);
    AllRecorded(c, t, others, j);
    var from := CrowdingFills(c, t, others, j);
    RunIsSound(c, run, j);
    NotYetSeen(After(c, run, j).seen, from, j, k - 1);
    FreshMessage(c, run, j, Id(k - 1), t, t);
  }

  /** How much makes the table forget: a message can be accepted twice with `others` ids in between
      exactly when that is at least maxSeenMessages - evictionBatch + 1, and never with a limit of 0. */
  lemma CrowdingOutHappensExactly(c: Config, others: nat)
    requires ValidConfig(c)
    ensures (exists run: seq<Event>, i: nat, j: nat :: ForgottenAfter(c, run, i, j, others))
            <==> c.maxSeenMessages >= 1 && others >= c.maxSeenMessages - c.evictionBatch + 1
  {
    if c.maxSeenMessages >= 1 && others >= c.maxSeenMessages - c.evictionBatch + 1 {
      EnoughCrowdsOut(c, 1, others);
    }
    forall run: seq<Event>, i: nat, j: nat | ForgottenAfter(c, run, i, j, others)
      ensures c.maxSeenMessages >= 1 && others >= c.maxSeenMessages - c.evictionBatch + 1
    {
      AdmittedOnceUnlessCrowdedOut(c, run, i, j);
    }
  }

  // ---------------------------------------------------------------- which messages are protected

  /** This very message is accepted at `i` and again at `j`, and no row was given up for room in between. */
  ghost predicate Repeats(c: Config, run: seq<Event>, i: nat, j: nat, message: Message) {
    && i < j < |run| && Clocked(run) && Uncleared(run, i + 1, j) && !MadeRoom(c, run, i, j)
    && Accepts(c, run, i) && Accepts(c, run, j) && run[i].message == message && run[j].message == message
  }

  /** A message without a timestamp passes again once its id has aged out. */
  lemma UntimedMessageIsAcceptedTwice(c: Config, x: string, t: int, later: int, run: seq<Event>)
    requires x != "" && later > t + 2 * c.maxMessageAge
    requires run == [Validate(t, Message(x, 0), Untagged), Cleanup(later), Validate(later, Message(x, 0), Untagged)]
    ensures Repeats(c, run, 0, 2, Message(x, 0))
  {
    FirstRow(c, run, 0, x, 0, t);
    DropsOnlyRow(c, run, 1, x, t, later);
    FirstRow(c, run, 2, x, 0, later);
  }

  lemma NamelessMessageIsAcceptedTwice(c: Config, t: int, run: seq<Event>)
    requires run == [Validate(t, Message("", t), Untagged), Validate(t, Message("", t), Untagged)]
    ensures Repeats(c, run, 0, 1, Message("", t))
  {
  }

  /** A message is accepted at most once in every run without a clearing and without eviction
      in between exactly when it has an id and a nonzero timestamp. */
  lemma ExactlyTimedMessagesAreProtected(c: Config, message: Message)
    ensures (forall run: seq<Event>, i: nat, j: nat :: !Repeats(c, run, i, j, message))
            <==> message.messageId != "" && message.timestamp != 0
  {
    if message.messageId == "" {
      var again := Validate(message.timestamp, message, Untagged);
      NamelessMessageIsAcceptedTwice(c, message.timestamp, [again, again]);
    } else if message.timestamp == 0 {
      var later := 2 * c.maxMessageAge + 1;
      UntimedMessageIsAcceptedTwice(c, message.messageId, 0, later,
        [Validate(0, message, Untagged), Cleanup(later), Validate(later, message, Untagged)]);
    } else {
      forall run: seq<Event>, i: nat, j: nat
        ensures !Repeats(c, run, i, j, message)
      {
        if Repeats(c, run, i, j, message) {
          AcceptedAtMostOnce(c, run, i, j);
        }
      }
    }
  }

  // ---------------------------------------------------------------- sequence numbers

  ghost predicate SessionKept(run: seq<Event>, i: nat, j: nat, session: string)
    requires j <= |run|
  {
    forall k | i <= k < j :: !run[k].Clear? && !(run[k].ClearSession? && run[k].session == session)
  }

  /** No event but clearing lowers a signer's last sequence number. */
  lemma SequenceStep(c: Config, s: State, e: Event, session: string, signer: int)
    requires !e.Clear? && !(e.ClearSession? && e.session == session)
    ensures LastSequence(s.sequences, session, signer) <= LastSequence(Step(c, s, e).sequences, session, signer)
  {
  }

  lemma {:induction false} SequenceFloor(c: Config, run: seq<Event>, i: nat, n: nat)
    requires i < n <= |run| && c.enableSequenceValidation
    requires Accepts(c, run, i) && run[i].tag.Tag? && SessionKept(run, i + 1, n, run[i].tag.sessionId)
    ensures LastSequence(After(c, run, n).sequences, run[i].tag.sessionId, run[i].tag.signerIndex)
            >= run[i].tag.sequenceNumber
  {
    if n > i + 1 {
      SequenceFloor(c, run, i, n - 1);
      SequenceStep(c, After(c, run, n - 1), run[n - 1], run[i].tag.sessionId, run[i].tag.signerIndex);
    }
  }

  /** Accepted sequence numbers of one signer in one session strictly increase over the run,
      until the session is cleared. */
  lemma SequenceNumbersIncrease(c: Config, run: seq<Event>, i: nat, j: nat)
    requires i < j < |run| && c.enableSequenceValidation
    requires Accepts(c, run, i) && run[i].tag.Tag? && Accepts(c, run, j) && run[j].tag.Tag?
    requires run[i].tag.sessionId == run[j].tag.sessionId && run[i].tag.signerIndex == run[j].tag.signerIndex
    requires SessionKept(run, i + 1, j, run[i].tag.sessionId)
    ensures 0 <= run[i].tag.sequenceNumber < run[j].tag.sequenceNumber
  {
    SequenceFloor(c, run, i, j);
    SequenceAtLeastMinusOne(c, run, i, run[i].tag.sessionId, run[i].tag.signerIndex);
  }

  lemma {:induction false} SequenceAtLeastMinusOne(c: Config, run: seq<Event>, n: nat, session: string, signer: int)
    requires n <= |run|
    ensures LastSequence(After(c, run, n).sequences, session, signer) >= -1
  {
    if n > 0 && !run[n - 1].Clear? && !(run[n - 1].ClearSession? && run[n - 1].session == session) {
      SequenceAtLeastMinusOne(c, run, n - 1, session, signer);
      SequenceStep(c, After(c, run, n - 1), run[n - 1], session, signer);
    }
  }

  // ---------------------------------------------------------------- exactly which messages are accepted

  /** No cleanup between the events `k` and `n` came more than twice `maxMessageAge` after event `k`. */
  ghost predicate Unswept(c: Config, run: seq<Event>, k: nat, n: nat)
    requires k < n <= |run|
  {
    forall m | k < m < n && run[m].Cleanup? :: run[m].now - run[k].now <= 2 * c.maxMessageAge
  }

  /** Event `k` recorded this id, and neither a clearing nor a cleanup has taken it away before event `n`. */
  ghost predicate Remembers(c: Config, run: seq<Event>, k: nat, n: nat, id: string)
    requires n <= |run|
  {
    k < n && Records(c, run, k) && run[k].message.messageId == id && Uncleared(run, k + 1, n) && Unswept(c, run, k, n)
  }

  lemma {:induction false} SeenIsRemembered(c: Config, run: seq<Event>, n: nat, p: nat) returns (k: nat)
    requires Clocked(run) && n <= |run| && p < |After(c, run, n).seen|
    ensures Remembers(c, run, k, n, After(c, run, n).seen[p].id) && run[k].now == After(c, run, n).seen[p].at
  {
    hide Check, Sound, Step;
    var s, e, s' := After(c, run, n - 1), run[n - 1], After(c, run, n);
    RunIsSound(c, run, n - 1);
    var dropped := TableStep(c, s, e);
    assert Records(c, run, n - 1) == Enters(c, s, e);
    if Enters(c, s, e) && p == |s'.seen| - 1 {
      k := n - 1;
    } else {
      ClearedIsEmpty(c, s, e);
      k := SeenIsRemembered(c, run, n - 1, p + dropped);
    }
  }

  lemma ClearedIsEmpty(c: Config, s: State, e: Event)
    ensures e.Clear? ==> Step(c, s, e).seen == []
  {
  }

  lemma {:induction false} RememberedIsSeen(c: Config, run: seq<Event>, k: nat, n: nat, id: string) returns (p: nat)
    requires Clocked(run) && n <= |run| && Remembers(c, run, k, n, id) && !MadeRoom(c, run, k, n)
    ensures p < |After(c, run, n).seen| && After(c, run, n).seen[p] == Entry(id, run[k].now)
  {
    hide Check, Sound, Step;
    var s, e := After(c, run, n - 1), run[n - 1];
    RunIsSound(c, run, n - 1);
    assert Records(c, run, n - 1) == Enters(c, s, e);
    if n == k + 1 {
      EnteringStep(c, s, e);
      p := |After(c, run, n).seen| - 1;
    } else {
      p := RememberedIsSeen(c, run, k, n - 1, id);
      var dropped := TableStep(c, s, e);
      p := p - dropped;
    }
  }

  /** The number of the message exceeds all that its signer has had accepted in its session since that was cleared. */
  ghost predicate NextInOrder(c: Config, run: seq<Event>, i: nat)
    requires i < |run| && run[i].Validate? && run[i].tag.Tag?
  {
    && run[i].tag.sequenceNumber >= 0
    && forall k | 0 <= k < i && Accepts(c, run, k) && SameSigner(run, k, i) && SessionKept(run, k + 1, i, run[i].tag.sessionId) ::
         run[k].tag.sequenceNumber < run[i].tag.sequenceNumber
  }

  predicate SameSigner(run: seq<Event>, k: nat, i: nat)
    requires k < |run| && i < |run| && run[i].Validate? && run[i].tag.Tag?
  {
    && run[k].Validate? && run[k].tag.Tag?
    && run[k].tag.sessionId == run[i].tag.sessionId && run[k].tag.signerIndex == run[i].tag.signerIndex
  }

  /** The last number of a signer is -1, or was accepted and not cleared since. */
  lemma {:induction false} LastWasAccepted(c: Config, run: seq<Event>, n: nat, session: string, signer: int)
    requires n <= |run| && c.enableSequenceValidation
    ensures var last := LastSequence(After(c, run, n).sequences, session, signer);
            || last == -1
            || exists k | 0 <= k < n ::
                 Accepts(c, run, k) && run[k].tag == Tag(session, signer, last) && SessionKept(run, k + 1, n, session)
  {
    hide Accepts, LastSequence, SessionKept, Step;
    if n > 0 {
      LastWasAccepted(c, run, n - 1, session, signer);
      LastChanges(c, run, n - 1, session, signer);
      KeptOneMore(run, n - 1, session);
    } else {
      NoneYet(session, signer);
    }
  }

  lemma NoneYet(session: string, signer: int)
    ensures LastSequence(EMPTY.sequences, session, signer) == -1
  {
  }

  lemma KeptOneMore(run: seq<Event>, n: nat, session: string)
    requires n < |run|
    ensures SessionKept(run, n + 1, n + 1, session)
    ensures forall k: nat | SessionKept(run, k, n, session) && !run[n].Clear? && !(run[n].ClearSession? && run[n].session == session) ::
              SessionKept(run, k, n + 1, session)
  {
  }

  lemma LastChanges(c: Config, run: seq<Event>, n: nat, session: string, signer: int)
    requires n < |run| && c.enableSequenceValidation
    ensures var e, before := run[n], LastSequence(After(c, run, n).sequences, session, signer);
            var last := LastSequence(After(c, run, n + 1).sequences, session, signer);
            if e.Clear? || (e.ClearSession? && e.session == session) then last == -1
            else last == before || (Accepts(c, run, n) && e.tag == Tag(session, signer, last))
  {
  }

  /** Acceptance, in every run in which no full table has given up a row: a message is accepted exactly when
      its timestamp is absent or within `maxMessageAge` of now on either side, its id is absent or not
      remembered from an earlier event, and its sequence number, if looked at, exceeds the accepted ones. */
  lemma AcceptedExactly(c: Config, run: seq<Event>, i: nat)
    requires Clocked(run) && i < |run| && run[i].Validate?
    requires forall k | 0 <= k < i :: !MadeRoom(c, run, k, i)
    ensures var now, m := run[i].now, run[i].message;
            Accepts(c, run, i) <==>
              && (m.timestamp == 0 || now - c.maxMessageAge <= m.timestamp <= now + c.maxMessageAge)
              && (m.messageId == "" || forall k :: !Remembers(c, run, k, i, m.messageId))
              && (c.enableSequenceValidation && run[i].tag.Tag? ==> NextInOrder(c, run, i))
  {
    var s, m := After(c, run, i), run[i].message;
    if Seen(s.seen, m.messageId) {
      var p :| 0 <= p < |s.seen| && s.seen[p].id == m.messageId;
      var k := SeenIsRemembered(c, run, i, p);
    }
    if k :| Remembers(c, run, k, i, m.messageId) {
      var p := RememberedIsSeen(c, run, k, i, m.messageId);
    }
    if c.enableSequenceValidation && run[i].tag.Tag? {
      InOrderExactly(c, run, i);
    }
    hide After, Remembers, NextInOrder, Seen;
  }

  lemma InOrderExactly(c: Config, run: seq<Event>, i: nat)
    requires i < |run| && run[i].Validate? && run[i].tag.Tag? && c.enableSequenceValidation
    ensures var t := run[i].tag;
            NextInOrder(c, run, i) <==> LastSequence(After(c, run, i).sequences, t.sessionId, t.signerIndex) < t.sequenceNumber
  {
    var t := run[i].tag;
    var last := LastSequence(After(c, run, i).sequences, t.sessionId, t.signerIndex);
    SequenceAtLeastMinusOne(c, run, i, t.sessionId, t.signerIndex);
    LastWasAccepted(c, run, i, t.sessionId, t.signerIndex);
    forall k | 0 <= k < i && Accepts(c, run, k) && SameSigner(run, k, i) && SessionKept(run, k + 1, i, t.sessionId)
      ensures run[k].tag.sequenceNumber <= last
    {
      SequenceFloor(c, run, k, i);
    }
    hide After, LastSequence, SessionKept, Accepts;
  }
}
