/** Keeping bootstrap peers connected: dials, reconnect timers and exponential backoff. */
module Bootstrap {
  import opened Outcomes

  /** `maxAttempts` is `None` for no limit. Delays are in milliseconds. */
  datatype Config = Config(baseDelay: real, maxDelay: real, jitter: real, maxAttempts: Option<nat>)

  datatype Connection = Connection(multiaddr: string, isConnected: bool, reconnectAttempts: nat)

  datatype Timer = Timer(peer: string, delay: real)

  /** `timers` are the timers the runtime will fire, `dials` the dials that have not ended. */
  datatype State = State(
    isStarted: bool, peers: map<string, Connection>, reconnectTimers: map<string, nat>,
    timers: map<nat, Timer>, nextTimer: nat, dials: multiset<string>)

  const INITIAL := State(false, map[], map[], map[], 0, multiset{})

  ghost predicate IsConfig(c: Config) {
    c.baseDelay >= 0.0 && c.maxDelay >= 0.0 && c.jitter >= 0.0
  }

  /** A value of `Math.random()`. */
  predicate IsDraw(u: real) {
    0.0 <= u < 1.0
  }

  // ---------------------------------------------------------------- addresses

  const SEPARATOR := "/p2p/"

  /** What follows the last separator, when there is one; separators do not overlap. */
  function AfterLastSeparator(addr: string): Option<string> {
    if |addr| < 5 then None
    else if addr[..5] == SEPARATOR then
      match AfterLastSeparator(addr[5..])
      case Some(rest) => Some(rest)
      case None => Some(addr[5..])
    else AfterLastSeparator(addr[1..])
  }

  /** `_extractPeerId`, with the empty text counted as nothing. */
  function ExtractPeerId(addr: string): Option<string> {
    match AfterLastSeparator(addr)
    case Some(peer) => if peer == "" then None else Some(peer)
    case None => None
  }

  ghost predicate SeparatorAt(addr: string, k: int) {
    0 <= k && k + 5 <= |addr| && addr[k..k + 5] == "/p2p/"
  }

  ghost predicate Separated(addr: string) {
    exists k :: SeparatorAt(addr, k)
  }

  lemma SeparatorShifts(addr: string, n: nat)
    requires n <= |addr|
    ensures forall k | k >= 0 :: SeparatorAt(addr[n..], k) <==> SeparatorAt(addr, k + n)
  {
    forall k | k >= 0
      ensures SeparatorAt(addr[n..], k) <==> SeparatorAt(addr, k + n)
    {
      if k + n + 5 <= |addr| {
        assert addr[n..][k..k + 5] == addr[k + n..k + n + 5];
      }
    }
  }

  /** What is found follows a separator and has none in it; nothing is found where there is no separator. */
  lemma {:induction false} SeparatorFound(addr: string)
    ensures AfterLastSeparator(addr).Some? <==> Separated(addr)
    ensures AfterLastSeparator(addr).Some? ==>
              !Separated(AfterLastSeparator(addr).value)
              && exists k :: SeparatorAt(addr, k) && addr[k + 5..] == AfterLastSeparator(addr).value
    decreases |addr|
  {
    if |addr| >= 5 {
      var n := if addr[..5] == SEPARATOR then 5 else 1;
      SeparatorFound(addr[n..]);
      SeparatorShifts(addr, n);
      assert SeparatorAt(addr, 0) <==> n == 5;
      var found := AfterLastSeparator(addr[n..]);
      if found.Some? {
        var k :| SeparatorAt(addr[n..], k) && addr[n..][k + 5..] == found.value;
        assert SeparatorAt(addr, k + n) && addr[k + n + 5..] == found.value;
      } else if n == 1 {
        assert forall k | SeparatorAt(addr, k) :: k == 0 || SeparatorAt(addr[1..], k - 1);
      } else {
        assert addr[0 + 5..] == AfterLastSeparator(addr).value;
      }
    }
  }

  /** The peer of an address is what follows its separator, if there is but one place where that stands. */
  lemma {:induction false} PeerOfAddress(prefix: string, peer: string)
    requires peer != "" && !Separated(prefix + "/p2p") && !Separated(peer)
    ensures ExtractPeerId(prefix + "/p2p/" + peer) == Some(peer)
  {
    var addr := prefix + "/p2p/" + peer;
    SeparatorFound(peer);
    if prefix == "" {
      assert addr[..5] == SEPARATOR && addr[5..] == peer;
    } else {
      assert addr[1..] == prefix[1..] + "/p2p/" + peer;
      var front := prefix + "/p2p";
      assert front[1..] == prefix[1..] + "/p2p";
      SeparatorShifts(front, 1);
      assert !Separated(prefix[1..] + "/p2p");
      PeerOfAddress(prefix[1..], peer);
      assert addr[..5] == front[0..5];
      assert !SeparatorAt(front, 0);
    }
  }

  /** Without a separator, or with nothing after it, an address names no peer. */
  lemma NoPeerExactly(addr: string)
    ensures ExtractPeerId(addr).None? <==> !Separated(addr) || AfterLastSeparator(addr) == Some("")
    ensures ExtractPeerId(addr).Some? ==> exists k :: SeparatorAt(addr, k) && addr[k + 5..] == ExtractPeerId(addr).value
  {
    SeparatorFound(addr);
  }

  // ---------------------------------------------------------------- backoff

  function Power2(n: nat): real {
    if n == 0 then 1.0 else 2.0 * Power2(n - 1)
  }

  function Min(a: real, b: real): real {
    if a <= b then a else b
  }

  function BaseDelay(c: Config, attempts: nat): real {
    Min(c.baseDelay * Power2(attempts), c.maxDelay)
  }

  function Jittered(base: real, jitter: real, u: real): real {
    base + base * jitter * (u - 0.5)
  }

  function Delay(c: Config, attempts: nat, u: real): real {
    var delay := Jittered(BaseDelay(c, attempts), c.jitter, u);
    if delay >= 0.0 then delay else 0.0
  }

  // ---------------------------------------------------------------- the steps

  function Dialled(s: State, peer: string): State {
    if peer in s.peers then s.(dials := s.dials + multiset{peer}) else s
  }

  predicate Exhausted(c: Config, attempts: nat) {
    c.maxAttempts.Some? && attempts >= c.maxAttempts.value
  }

  /** The peer's pending timer, if any, is cancelled and forgotten. */
  function Unscheduled(s: State, peer: string): State {
    if peer in s.reconnectTimers
    then s.(timers := s.timers - {s.reconnectTimers[peer]}, reconnectTimers := s.reconnectTimers - {peer})
    else s
  }

  function Scheduled(c: Config, s: State, peer: string, u: real): State {
    if peer !in s.peers || Exhausted(c, s.peers[peer].reconnectAttempts) then s
    else
      var connection := s.peers[peer];
      var t := Unscheduled(s, peer);
      t.(peers := t.peers[peer := connection.(reconnectAttempts := connection.reconnectAttempts + 1)],
         timers := t.timers[t.nextTimer := Timer(peer, Delay(c, connection.reconnectAttempts, u))],
         reconnectTimers := t.reconnectTimers[peer := t.nextTimer],
         nextTimer := t.nextTimer + 1)
  }

  function Connected(s: State, peer: string): State {
    if peer !in s.peers then s
    else
      var t := Unscheduled(s, peer);
      t.(peers := t.peers[peer := t.peers[peer].(isConnected := true, reconnectAttempts := 0)])
  }

  function Disconnected(c: Config, s: State, peer: string, u: real): State {
    if peer !in s.peers then s
    else
      var t := s.(peers := s.peers[peer := s.peers[peer].(isConnected := false)]);
      if s.isStarted then Scheduled(c, t, peer, u) else t
  }

  function Tracked(peers: map<string, Connection>, addrs: seq<string>): map<string, Connection> {
    if addrs == [] then peers
    else
      var front, addr := Tracked(peers, addrs[..|addrs| - 1]), addrs[|addrs| - 1];
      match ExtractPeerId(addr)
      case Some(peer) => front[peer := Connection(addr, false, 0)]
      case None => front
  }

  lemma NobodyTracked(peers: map<string, Connection>, addrs: seq<string>)
    ensures Tracked(peers, addrs[..0]) == peers
  {
  }

  lemma TrackedOneMore(peers: map<string, Connection>, addrs: seq<string>, i: nat)
    requires i < |addrs|
    ensures Tracked(peers, addrs[..i + 1]) ==
            match ExtractPeerId(addrs[i])
            case Some(peer) => Tracked(peers, addrs[..i])[peer := Connection(addrs[i], false, 0)]
            case None => Tracked(peers, addrs[..i])
  {
    hide ExtractPeerId;
    assert addrs[..i + 1][..i] == addrs[..i];
  }

  /** Every address is tracked anew, then every tracked peer is dialled. */
  function Started(s: State, addrs: seq<string>): State {
    if s.isStarted then s
    else
      var peers := Tracked(s.peers, addrs);
      s.(isStarted := true, peers := peers, dials := s.dials + multiset(peers.Keys))
  }

  function Stopped(s: State): State {
    s.(isStarted := false, peers := map[], reconnectTimers := map[], timers := s.timers - s.reconnectTimers.Values)
  }

  function ConnectAsked(s: State, addr: string): State {
    match ExtractPeerId(addr)
    case None => s
    case Some(peer) =>
      var t := if peer in s.peers then s else s.(peers := s.peers[peer := Connection(addr, false, 0)]);
      Dialled(t, peer)
  }

  function ReconnectAsked(s: State, addr: string): State {
    match ExtractPeerId(addr)
    case None => s
    case Some(peer) =>
      if peer !in s.peers then s
      else
        var t := Unscheduled(s, peer);
        Dialled(t.(peers := t.peers[peer := t.peers[peer].(reconnectAttempts := 0)]), peer)
  }

  function TimerFired(s: State, id: nat): State
    requires id in s.timers
  {
    var peer := s.timers[id].peer;
    Dialled(s.(timers := s.timers - {id}, reconnectTimers := s.reconnectTimers - {peer}), peer)
  }

  /** A dial that ends well comes with its connect event. */
  function DialEnded(c: Config, s: State, peer: string, ok: bool, u: real): State {
    var t := s.(dials := s.dials - multiset{peer});
    if ok then Connected(t, peer) else Scheduled(c, t, peer, u)
  }

  /** One peer of a health check: believed connected, found without a connection. */
  function LossNoticed(c: Config, s: State, peer: string, u: real): State {
    if peer in s.peers && s.peers[peer].isConnected then Disconnected(c, s, peer, u) else s
  }

  function LossesNoticed(c: Config, s: State, lost: seq<(string, real)>): State {
    if lost == [] then s
    else
      var last := lost[|lost| - 1];
      LossNoticed(c, LossesNoticed(c, s, lost[..|lost| - 1]), last.0, last.1)
  }

  // ---------------------------------------------------------------- the manager

  class BootstrapManager {
    const config: Config
    var isStarted: bool
    var bootstrapPeers: map<string, Connection>
    var reconnectTimers: map<string, nat>
    var timers: map<nat, Timer>
    var nextTimer: nat
    var dials: multiset<string>

    ghost function Now(): State
      reads this
    {
      State(isStarted, bootstrapPeers, reconnectTimers, timers, nextTimer, dials)
    }

    constructor (config: Config)
      ensures this.config == config && Now() == INITIAL
    {
      this.config := config;
      isStarted := false;
      bootstrapPeers, reconnectTimers, timers, nextTimer, dials := map[], map[], map[], 0, multiset{};
    }

    method Start(addrs: seq<string>)
      modifies this
      ensures Now() == Started(old(Now()), addrs)
    {
      hide ExtractPeerId, Tracked;
      if isStarted {
        return;
      }
      isStarted := true;
      NobodyTracked(bootstrapPeers, addrs);
      for i := 0 to |addrs|
        invariant isStarted && bootstrapPeers == Tracked(old(bootstrapPeers), addrs[..i])
        invariant Now() == old(Now()).(isStarted := true, peers := bootstrapPeers)
      {
        TrackedOneMore(old(bootstrapPeers), addrs, i);
        var peerId := ExtractPeerId(addrs[i]);
        if peerId.Some? {
          bootstrapPeers := bootstrapPeers[peerId.value := Connection(addrs[i], false, 0)];
        }
      }
      assert addrs[..|addrs|] == addrs;
      ConnectToAll();
    }

    method ConnectToAll()
      modifies `dials
      ensures Now() == old(Now()).(dials := old(dials) + multiset(old(bootstrapPeers).Keys))
    {
      var keys, done := bootstrapPeers.Keys, {};
      while keys != {}
        invariant keys !! done && keys + done == old(bootstrapPeers).Keys
        invariant dials == old(dials) + multiset(done)
      {
        var peer :| peer in keys;
        ConnectToPeer(peer);
        assert multiset(done + {peer}) == multiset(done) + multiset{peer};
        keys, done := keys - {peer}, done + {peer};
      }
      assert done == old(bootstrapPeers).Keys;
    }

    method Stop()
      modifies this
      ensures Now() == Stopped(old(Now()))
    {
      isStarted := false;
      timers := timers - reconnectTimers.Values;
      reconnectTimers := map[];
      bootstrapPeers := map[];
    }

    method Connect(addr: string) returns (ok: bool)
      modifies this
      ensures Now() == ConnectAsked(old(Now()), addr) && (ok <==> ExtractPeerId(addr).Some?)
    {
      var peerId := ExtractPeerId(addr);
      if peerId.None? {
        return false;
      }
      if peerId.value !in bootstrapPeers {
        bootstrapPeers := bootstrapPeers[peerId.value := Connection(addr, false, 0)];
      }
      ConnectToPeer(peerId.value);
      return true;
    }

    method Reconnect(addr: string) returns (ok: bool)
      modifies this
      ensures Now() == ReconnectAsked(old(Now()), addr)
      ensures ok <==> ExtractPeerId(addr).Some? && ExtractPeerId(addr).value in old(bootstrapPeers)
    {
      var peerId := ExtractPeerId(addr);
      if peerId.None? || peerId.value !in bootstrapPeers {
        return false;
      }
      ClearTimer(peerId.value);
      bootstrapPeers := bootstrapPeers[peerId.value := bootstrapPeers[peerId.value].(reconnectAttempts := 0)];
      ConnectToPeer(peerId.value);
      return true;
    }

    method ConnectToPeer(peer: string)
      modifies `dials
      ensures Now() == Dialled(old(Now()), peer)
    {
      if peer in bootstrapPeers {
        dials := dials + multiset{peer};
      }
    }

    method ClearTimer(peer: string)
      modifies this
      ensures Now() == Unscheduled(old(Now()), peer)
    {
      if peer in reconnectTimers {
        timers := timers - {reconnectTimers[peer]};
        reconnectTimers := reconnectTimers - {peer};
      }
    }

    method ScheduleReconnect(peer: string, u: real)
      modifies this
      ensures Now() == Scheduled(config, old(Now()), peer, u)
    {
      if peer !in bootstrapPeers {
        return;
      }
      var connection := bootstrapPeers[peer];
      if Exhausted(config, connection.reconnectAttempts) {
        return;
      }
      var delay := Delay(config, connection.reconnectAttempts, u);
      bootstrapPeers := bootstrapPeers[peer := connection.(reconnectAttempts := connection.reconnectAttempts + 1)];
      if peer in reconnectTimers {
        timers := timers - {reconnectTimers[peer]};
      }
      timers := timers[nextTimer := Timer(peer, delay)];
      reconnectTimers := reconnectTimers[peer := nextTimer];
      nextTimer := nextTimer + 1;
      assert peer in old(reconnectTimers) ==> (old(reconnectTimers) - {peer})[peer := old(nextTimer)] == reconnectTimers;
    }

    method HandleConnect(peer: string)
      modifies this
      ensures Now() == Connected(old(Now()), peer)
    {
      if peer in bootstrapPeers {
        ClearTimer(peer);
        bootstrapPeers := bootstrapPeers[peer := bootstrapPeers[peer].(isConnected := true, reconnectAttempts := 0)];
      }
    }

    method HandleDisconnect(peer: string, u: real)
      modifies this
      ensures Now() == Disconnected(config, old(Now()), peer, u)
    {
      if peer in bootstrapPeers {
        bootstrapPeers := bootstrapPeers[peer := bootstrapPeers[peer].(isConnected := false)];
        if isStarted {
          ScheduleReconnect(peer, u);
        }
      }
    }

    method FireTimer(id: nat)
      requires id in timers
      modifies this
      ensures Now() == TimerFired(old(Now()), id)
    {
      var peer := timers[id].peer;
      timers := timers - {id};
      reconnectTimers := reconnectTimers - {peer};
      ConnectToPeer(peer);
    }

    method EndDial(peer: string, ok: bool, u: real)
      modifies this
      ensures Now() == DialEnded(config, old(Now()), peer, ok, u)
    {
      dials := dials - multiset{peer};
      if ok {
        HandleConnect(peer);
      } else {
        ScheduleReconnect(peer, u);
      }
    }

    /** `lost` lists the peers found without a connection, in the order they are visited. */
    method PerformHealthCheck(lost: seq<(string, real)>)
      modifies this
      ensures Now() == LossesNoticed(config, old(Now()), lost)
    {
      for i := 0 to |lost|
        invariant Now() == LossesNoticed(config, old(Now()), lost[..i])
      {
        assert lost[..i + 1][..i] == lost[..i];
        if lost[i].0 in bootstrapPeers && bootstrapPeers[lost[i].0].isConnected {
          HandleDisconnect(lost[i].0, lost[i].1);
        }
      }
      assert lost[..|lost|] == lost;
    }
  }

  // ---------------------------------------------------------------- runs

  datatype Event =
    | Start(addrs: seq<string>)
    | Stop
    | Connect(addr: string)
    | Reconnect(addr: string)
    | TimerFires(id: nat)
    | DialEnds(peer: string, ok: bool, u: real)
    | PeerConnects(peer: string)
    | PeerDisconnects(peer: string, u: real)
    | HealthCheck(lost: seq<(string, real)>)

  /** Only pending timers fire and only pending dials end; draws are in range. */
  ghost predicate Possible(s: State, e: Event) {
    match e
    case TimerFires(id) => id in s.timers
    case DialEnds(peer, _, u) => peer in s.dials && IsDraw(u)
    case PeerDisconnects(_, u) => IsDraw(u)
    case HealthCheck(lost) => forall i | 0 <= i < |lost| :: IsDraw(lost[i].1)
    case _ => true
  }

  ghost function Step(c: Config, s: State, e: Event): State
    requires Possible(s, e)
  {
    match e
    case Start(addrs) => Started(s, addrs)
    case Stop => Stopped(s)
    case Connect(addr) => ConnectAsked(s, addr)
    case Reconnect(addr) => ReconnectAsked(s, addr)
    case TimerFires(id) => TimerFired(s, id)
    case DialEnds(peer, ok, u) => DialEnded(c, s, peer, ok, u)
    case PeerConnects(peer) => Connected(s, peer)
    case PeerDisconnects(peer, u) => Disconnected(c, s, peer, u)
    case HealthCheck(lost) => LossesNoticed(c, s, lost)
  }

  /** The state after the first `n` events of a run from `s`, unless one of them is not possible. */
  ghost function After(c: Config, s: State, run: seq<Event>, n: nat): Option<State>
    requires n <= |run|
  {
    if n == 0 then Some(s)
    else
      match After(c, s, run, n - 1)
      case None => None
      case Some(t) => if Possible(t, run[n - 1]) then Some(Step(c, t, run[n - 1])) else None
  }

  // ---------------------------------------------------------------- what every step keeps

  /** The runtime's timers are exactly the recorded ones, one for each peer that has one. */
  ghost predicate TimersMatch(s: State) {
    && (forall peer | peer in s.reconnectTimers ::
          peer in s.peers && s.reconnectTimers[peer] in s.timers && s.timers[s.reconnectTimers[peer]].peer == peer)
    && (forall id | id in s.timers ::
          id < s.nextTimer && s.timers[id].peer in s.reconnectTimers && s.reconnectTimers[s.timers[id].peer] == id)
  }

  /** Somebody is still working on the peer, or it has used up its attempts. */
  ghost predicate Attended(c: Config, s: State, peer: string)
    requires peer in s.peers
  {
    s.peers[peer].isConnected || peer in s.reconnectTimers || peer in s.dials || Exhausted(c, s.peers[peer].reconnectAttempts)
  }

  ghost predicate AllAttended(c: Config, s: State) {
    s.isStarted ==> forall peer | peer in s.peers :: Attended(c, s, peer)
  }

  ghost function LongestDelay(c: Config): real {
    c.maxDelay * (1.0 + c.jitter / 2.0)
  }

  ghost predicate WithinLimits(c: Config, s: State) {
    && (forall peer | peer in s.peers && c.maxAttempts.Some? :: s.peers[peer].reconnectAttempts <= c.maxAttempts.value)
    && (forall id | id in s.timers :: 0.0 <= s.timers[id].delay <= LongestDelay(c))
  }

  ghost predicate Sound(c: Config, s: State) {
    TimersMatch(s) && AllAttended(c, s) && WithinLimits(c, s)
  }

  lemma TimesKeepsOrder(x: real, a: real, b: real)
    requires x >= 0.0 && a <= b
    ensures x * a <= x * b
  {
  }

  lemma HalfTheJitter(base: real, jitter: real)
    ensures base * (1.0 + jitter / 2.0) == base + base * jitter * 0.5
    ensures base * (1.0 - jitter / 2.0) == base - base * jitter * 0.5
  {
  }

  lemma WithinHalf(spread: real, v: real)
    requires spread >= 0.0 && -0.5 <= v <= 0.5
    ensures -(spread * 0.5) <= spread * v <= spread * 0.5
  {
    TimesKeepsOrder(spread, v, 0.5);
    TimesKeepsOrder(spread, -0.5, v);
  }

  lemma Around(base: real, spread: real, v: real, low: real, x: real, high: real)
    requires spread >= 0.0 && -0.5 <= v <= 0.5
    requires low == base - spread * 0.5 && x == base + spread * v && high == base + spread * 0.5
    ensures low <= x <= high
  {
    WithinHalf(spread, v);
  }

  lemma ScaledBy(base: real, jitter: real, u: real)
    requires base >= 0.0 && jitter >= 0.0 && IsDraw(u)
    ensures base * (1.0 - jitter / 2.0) <= Jittered(base, jitter, u) <= base * (1.0 + jitter / 2.0)
  {
    HalfTheJitter(base, jitter);
    Around(base, base * jitter, u - 0.5, base * (1.0 - jitter / 2.0), Jittered(base, jitter, u), base * (1.0 + jitter / 2.0));
  }

  lemma {:induction false} PowerIsPositive(n: nat)
    ensures Power2(n) >= 1.0
  {
    if n > 0 {
      PowerIsPositive(n - 1);
    }
  }

  lemma BaseDelayInRange(c: Config, attempts: nat)
    requires IsConfig(c)
    ensures 0.0 <= BaseDelay(c, attempts) <= c.maxDelay
  {
    PowerIsPositive(attempts);
    assert c.baseDelay * Power2(attempts) >= 0.0;
  }

  /** The drawn delay lies within half the jitter of the base delay. */
  lemma DelayNearBase(c: Config, attempts: nat, u: real)
    requires IsConfig(c) && IsDraw(u)
    ensures BaseDelay(c, attempts) * (1.0 - c.jitter / 2.0) <= Delay(c, attempts, u)
    ensures Delay(c, attempts, u) <= BaseDelay(c, attempts) * (1.0 + c.jitter / 2.0)
    ensures 0.0 <= Delay(c, attempts, u) <= LongestDelay(c)
  {
    BaseDelayInRange(c, attempts);
    hide BaseDelay, Jittered;
    var base, factor := BaseDelay(c, attempts), 1.0 + c.jitter / 2.0;
    ScaledBy(base, c.jitter, u);
    TimesKeepsOrder(factor, base, c.maxDelay);
    assert base * factor <= c.maxDelay * factor;
    assert base * factor >= 0.0;
  }

  lemma UnscheduledKeepsTimers(s: State, peer: string)
    requires TimersMatch(s)
    ensures TimersMatch(Unscheduled(s, peer)) && peer !in Unscheduled(s, peer).reconnectTimers
    ensures forall id | id in Unscheduled(s, peer).timers :: id in s.timers && Unscheduled(s, peer).timers[id] == s.timers[id]
  {
  }

  lemma ScheduledKeepsTimers(c: Config, s: State, peer: string, u: real)
    requires TimersMatch(s)
    ensures TimersMatch(Scheduled(c, s, peer, u))
  {
    UnscheduledKeepsTimers(s, peer);
    hide Delay, Exhausted;
  }

  lemma ScheduledKeepsLimits(c: Config, s: State, peer: string, u: real)
    requires IsConfig(c) && IsDraw(u) && WithinLimits(c, s)
    ensures WithinLimits(c, Scheduled(c, s, peer, u))
  {
    if peer in s.peers {
      DelayNearBase(c, s.peers[peer].reconnectAttempts, u);
    }
    hide Delay, BaseDelay, IsConfig, IsDraw, LongestDelay;
  }

  /** Everybody but `peer` is still attended, and so is `peer` now. */
  ghost predicate OthersAttended(c: Config, s: State, peer: string) {
    s.isStarted ==> forall other | other in s.peers && other != peer :: Attended(c, s, other)
  }

  lemma ScheduledIsAttended(c: Config, s: State, peer: string, u: real)
    requires OthersAttended(c, s, peer)
    ensures AllAttended(c, Scheduled(c, s, peer, u))
  {
    hide Delay;
  }

  lemma ScheduledIsSound(c: Config, s: State, peer: string, u: real)
    requires IsConfig(c) && IsDraw(u) && TimersMatch(s) && OthersAttended(c, s, peer) && WithinLimits(c, s)
    ensures Sound(c, Scheduled(c, s, peer, u))
  {
    ScheduledKeepsTimers(c, s, peer, u);
    ScheduledKeepsLimits(c, s, peer, u);
    ScheduledIsAttended(c, s, peer, u);
  }

  lemma ConnectedIsSound(c: Config, s: State, peer: string)
    requires TimersMatch(s) && OthersAttended(c, s, peer) && WithinLimits(c, s)
    ensures Sound(c, Connected(s, peer))
  {
    UnscheduledKeepsTimers(s, peer);
    hide Exhausted;
  }

  lemma DisconnectedIsSound(c: Config, s: State, peer: string, u: real)
    requires IsConfig(c) && IsDraw(u) && Sound(c, s)
    ensures Sound(c, Disconnected(c, s, peer, u))
  {
    if peer in s.peers {
      var t := s.(peers := s.peers[peer := s.peers[peer].(isConnected := false)]);
      assert TimersMatch(t) && OthersAttended(c, t, peer) && WithinLimits(c, t);
      if s.isStarted {
        ScheduledIsSound(c, t, peer, u);
      }
    }
  }

  lemma DialEndedIsSound(c: Config, s: State, peer: string, ok: bool, u: real)
    requires IsConfig(c) && IsDraw(u) && Sound(c, s)
    ensures Sound(c, DialEnded(c, s, peer, ok, u))
  {
    var t := s.(dials := s.dials - multiset{peer});
    assert TimersMatch(t) && WithinLimits(c, t);
    forall other | s.isStarted && other in s.peers && other != peer
      ensures Attended(c, t, other)
    {
      assert Attended(c, s, other);
      assert t.dials[other] == s.dials[other];
    }
    assert OthersAttended(c, t, peer);
    if ok {
      ConnectedIsSound(c, t, peer);
    } else {
      ScheduledIsSound(c, t, peer, u);
    }
  }

  lemma TimerFiredIsSound(c: Config, s: State, id: nat)
    requires Sound(c, s) && id in s.timers
    ensures Sound(c, TimerFired(s, id))
  {
    hide Exhausted, Dialled, LongestDelay;
    var peer := s.timers[id].peer;
    var t := s.(timers := s.timers - {id}, reconnectTimers := s.reconnectTimers - {peer});
    assert TimersMatch(t) && OthersAttended(c, t, peer) && WithinLimits(c, t);
    DialledIsSound(c, t, peer);
  }

  lemma {:induction false} TrackedKeepsPeers(peers: map<string, Connection>, addrs: seq<string>, maxAttempts: nat)
    ensures peers.Keys <= Tracked(peers, addrs).Keys
    ensures (forall peer | peer in peers :: peers[peer].reconnectAttempts <= maxAttempts) ==>
              forall peer | peer in Tracked(peers, addrs) :: Tracked(peers, addrs)[peer].reconnectAttempts <= maxAttempts
  {
    if addrs != [] {
      TrackedKeepsPeers(peers, addrs[..|addrs| - 1], maxAttempts);
      hide ExtractPeerId;
    }
  }

  lemma StartedIsSound(c: Config, s: State, addrs: seq<string>)
    requires Sound(c, s)
    ensures Sound(c, Started(s, addrs))
  {
    TrackedKeepsPeers(s.peers, addrs, if c.maxAttempts.Some? then c.maxAttempts.value else 0);
    hide Tracked, Exhausted;
    var t := Started(s, addrs);
    if !s.isStarted {
      forall peer | peer in t.peers
        ensures Attended(c, t, peer)
      {
        assert multiset(t.peers.Keys)[peer] == 1;
      }
    }
  }

  /** A dial to a tracked peer attends to it. */
  lemma DialledIsSound(c: Config, s: State, peer: string)
    requires TimersMatch(s) && OthersAttended(c, s, peer) && WithinLimits(c, s)
    ensures Sound(c, Dialled(s, peer))
  {
    hide Exhausted, LongestDelay;
    var t := Dialled(s, peer);
    forall other | t.isStarted && other in t.peers
      ensures Attended(c, t, other)
    {
      assert other != peer ==> Attended(c, s, other);
      assert other == peer ==> other in t.dials;
      assert other in s.dials ==> other in t.dials;
    }
  }

  lemma ConnectIsSound(c: Config, s: State, addr: string)
    requires Sound(c, s)
    ensures Sound(c, ConnectAsked(s, addr))
  {
    hide Exhausted, ExtractPeerId, Dialled, LongestDelay;
    var peerId := ExtractPeerId(addr);
    if peerId.Some? {
      var peer := peerId.value;
      var t := if peer in s.peers then s else s.(peers := s.peers[peer := Connection(addr, false, 0)]);
      assert TimersMatch(t) && OthersAttended(c, t, peer) && WithinLimits(c, t);
      DialledIsSound(c, t, peer);
    }
  }

  lemma ReconnectIsSound(c: Config, s: State, addr: string)
    requires Sound(c, s)
    ensures Sound(c, ReconnectAsked(s, addr))
  {
    hide Exhausted, ExtractPeerId, Dialled, LongestDelay;
    var peerId := ExtractPeerId(addr);
    if peerId.Some? && peerId.value in s.peers {
      var peer := peerId.value;
      UnscheduledKeepsTimers(s, peer);
      var t := Unscheduled(s, peer);
      var v := t.(peers := t.peers[peer := t.peers[peer].(reconnectAttempts := 0)]);
      assert TimersMatch(v) && OthersAttended(c, v, peer) && WithinLimits(c, v);
      DialledIsSound(c, v, peer);
    }
  }

  lemma {:induction false} LossesAreSound(c: Config, s: State, lost: seq<(string, real)>)
    requires IsConfig(c) && Sound(c, s) && forall i | 0 <= i < |lost| :: IsDraw(lost[i].1)
    ensures Sound(c, LossesNoticed(c, s, lost))
  {
    if lost != [] {
      var front, last := lost[..|lost| - 1], lost[|lost| - 1];
      LossesAreSound(c, s, front);
      hide Sound, Disconnected, IsConfig;
      DisconnectedIsSound(c, LossesNoticed(c, s, front), last.0, last.1);
    }
  }

  lemma StoppedIsSound(c: Config, s: State)
    requires Sound(c, s)
    ensures Sound(c, Stopped(s)) && Stopped(s).timers == map[]
  {
    forall id | id in s.timers
      ensures id in s.reconnectTimers.Values
    {
      assert s.reconnectTimers[s.timers[id].peer] == id;
    }
  }

  lemma StepIsSound(c: Config, s: State, e: Event)
    requires IsConfig(c) && Sound(c, s) && Possible(s, e)
    ensures Sound(c, Step(c, s, e))
  {
    hide Started, Stopped, ConnectAsked, ReconnectAsked, TimerFired, DialEnded, Connected, Disconnected, LossesNoticed;
    hide IsConfig, IsDraw;
    match e
    case Start(addrs) => StartedIsSound(c, s, addrs);
    case Stop => StoppedIsSound(c, s);
    case Connect(addr) => ConnectIsSound(c, s, addr);
    case Reconnect(addr) => ReconnectIsSound(c, s, addr);
    case TimerFires(id) => TimerFiredIsSound(c, s, id);
    case DialEnds(peer, ok, u) => DialEndedIsSound(c, s, peer, ok, u);
    case PeerConnects(peer) => ConnectedIsSound(c, s, peer);
    case PeerDisconnects(peer, u) => DisconnectedIsSound(c, s, peer, u);
    case HealthCheck(lost) => LossesAreSound(c, s, lost);
  }

  lemma InitialIsSound(c: Config)
    ensures Sound(c, INITIAL)
  {
  }

  /** In every run: the live timers are exactly the recorded ones; while started every tracked
      peer is connected, waiting for its timer, being dialled, or out of attempts; attempts and
      delays stay within their limits. */
  lemma {:induction false} RunIsSound(c: Config, run: seq<Event>, n: nat)
    requires IsConfig(c) && n <= |run|
    ensures After(c, INITIAL, run, n).Some? ==> Sound(c, After(c, INITIAL, run, n).value)
  {
    hide Step, Sound, Possible, IsConfig;
    if n == 0 {
      InitialIsSound(c);
    } else {
      RunIsSound(c, run, n - 1);
      var before := After(c, INITIAL, run, n - 1);
      if before.Some? && Possible(before.value, run[n - 1]) {
        StepIsSound(c, before.value, run[n - 1]);
      }
    }
  }

  /** Without a limit no tracked peer is ever given up while started. */
  lemma NobodyIsGivenUp(c: Config, run: seq<Event>, n: nat, peer: string)
    requires IsConfig(c) && n <= |run| && c.maxAttempts == None && After(c, INITIAL, run, n).Some?
    requires After(c, INITIAL, run, n).value.isStarted && peer in After(c, INITIAL, run, n).value.peers
    ensures var s := After(c, INITIAL, run, n).value;
            s.peers[peer].isConnected || peer in s.reconnectTimers || peer in s.dials
  {
    RunIsSound(c, run, n);
    assert Attended(c, After(c, INITIAL, run, n).value, peer);
  }

  // ---------------------------------------------------------------- after stop

  /** Nothing is tracked and nothing is scheduled. */
  ghost predicate Quiet(s: State) {
    s.peers == map[] && s.reconnectTimers == map[] && s.timers == map[]
  }

  ghost predicate TracksNobody(e: Event) {
    !e.Start? && !e.Connect?
  }

  lemma {:induction false} QuietLosses(c: Config, s: State, lost: seq<(string, real)>)
    requires Quiet(s)
    ensures LossesNoticed(c, s, lost) == s
  {
    if lost != [] {
      QuietLosses(c, s, lost[..|lost| - 1]);
    }
  }

  lemma QuietStep(c: Config, s: State, e: Event)
    requires Quiet(s) && TracksNobody(e) && Possible(s, e)
    ensures Quiet(Step(c, s, e)) && Step(c, s, e).dials <= s.dials
  {
    hide ExtractPeerId;
    if e.HealthCheck? {
      QuietLosses(c, s, e.lost);
    }
  }

  /** From a stop until the next `start` or `connect`, however late dials fail, no timer is
      created and no dial begins. */
  lemma {:induction false} StopIsFinal(c: Config, s: State, run: seq<Event>, n: nat)
    requires Sound(c, s) && n <= |run| && (forall i | 0 <= i < n :: TracksNobody(run[i])) && After(c, Stopped(s), run, n).Some?
    ensures Quiet(After(c, Stopped(s), run, n).value) && After(c, Stopped(s), run, n).value.dials <= s.dials
  {
    if n == 0 {
      StoppedIsSound(c, s);
    } else {
      StopIsFinal(c, s, run, n - 1);
      QuietStep(c, After(c, Stopped(s), run, n - 1).value, run[n - 1]);
    }
  }

  // ---------------------------------------------------------------- giving up

  /** The peer does not answer and nobody asks for it: everything else may happen, also to other peers. */
  ghost predicate Unanswered(s: State, e: Event, peer: string) {
    match e
    case Start(_) => s.isStarted
    case Connect(addr) => ExtractPeerId(addr) != Some(peer)
    case Reconnect(addr) => ExtractPeerId(addr) != Some(peer)
    case DialEnds(other, ok, _) => ok ==> other != peer
    case PeerConnects(other) => other != peer
    case _ => true
  }

  /** The event spends one of the peer's dials or its timer. */
  ghost predicate Concerns(s: State, e: Event, peer: string) {
    match e
    case TimerFires(id) => id in s.timers && s.timers[id].peer == peer
    case DialEnds(other, _, _) => other == peer
    case _ => false
  }

  /** What is left to do for a peer that never answers. */
  ghost function Work(c: Config, s: State, peer: string): nat
    requires c.maxAttempts.Some? && WithinLimits(c, s)
  {
    s.dials[peer]
    + (if peer in s.peers then 3 * (c.maxAttempts.value - s.peers[peer].reconnectAttempts) else 0)
    + (if peer in s.reconnectTimers then 2 else 0)
  }

  /** How many of the first `n` events spend something of the peer. */
  ghost function Spent(c: Config, s: State, run: seq<Event>, n: nat, peer: string): nat
    requires n <= |run| && After(c, s, run, n).Some?
  {
    if n == 0 then 0
    else Spent(c, s, run, n - 1, peer) + (if Concerns(After(c, s, run, n - 1).value, run[n - 1], peer) then 1 else 0)
  }

  /** The two states look the same as far as the peer's work goes. */
  ghost predicate SameFor(s: State, t: State, peer: string) {
    && s.dials[peer] == t.dials[peer] && (peer in s.peers <==> peer in t.peers)
    && (peer in s.peers ==> s.peers[peer].reconnectAttempts == t.peers[peer].reconnectAttempts)
    && (peer in s.reconnectTimers <==> peer in t.reconnectTimers)
  }

  lemma SchedulingLeavesItAlone(c: Config, s: State, other: string, u: real, peer: string)
    requires other != peer
    ensures SameFor(s, Scheduled(c, s, other, u), peer)
  {
    hide Delay, Exhausted;
  }

  lemma ConnectingLeavesItAlone(s: State, other: string, peer: string)
    requires other != peer
    ensures SameFor(s, Connected(s, other), peer)
  {
  }

  lemma OthersLeaveItAlone(c: Config, s: State, other: string, u: real, ok: bool, peer: string)
    requires other != peer
    ensures SameFor(s, Connected(s, other), peer)
    ensures SameFor(s, Disconnected(c, s, other, u), peer) && SameFor(s, DialEnded(c, s, other, ok, u), peer)
  {
    hide Scheduled, Connected;
    var t := s.(dials := s.dials - multiset{other});
    ConnectingLeavesItAlone(s, other, peer);
    ConnectingLeavesItAlone(t, other, peer);
    SchedulingLeavesItAlone(c, t, other, u, peer);
    if other in s.peers {
      var v := s.(peers := s.peers[other := s.peers[other].(isConnected := false)]);
      SchedulingLeavesItAlone(c, v, other, u, peer);
    }
  }

  lemma RequestsLeaveItAlone(s: State, addr: string, peer: string)
    requires ExtractPeerId(addr) != Some(peer)
    ensures SameFor(s, ConnectAsked(s, addr), peer) && SameFor(s, ReconnectAsked(s, addr), peer)
  {
    hide ExtractPeerId;
  }

  lemma SameWork(c: Config, s: State, t: State, peer: string)
    requires c.maxAttempts.Some? && WithinLimits(c, s) && WithinLimits(c, t) && SameFor(s, t, peer)
    ensures Work(c, t, peer) == Work(c, s, peer)
  {
  }

  /** A further attempt is scheduled at the cost of one that was left. */
  lemma SchedulingIsWork(c: Config, s: State, peer: string, u: real)
    requires c.maxAttempts.Some? && WithinLimits(c, s) && WithinLimits(c, Scheduled(c, s, peer, u))
    ensures Work(c, Scheduled(c, s, peer, u), peer) <= Work(c, s, peer)
  {
    hide Delay, LongestDelay;
  }

  lemma LosingIsWork(c: Config, s: State, peer: string, u: real, other: string)
    requires IsConfig(c) && IsDraw(u) && c.maxAttempts.Some? && Sound(c, s)
    ensures Sound(c, Disconnected(c, s, other, u))
    ensures Work(c, Disconnected(c, s, other, u), peer) <= Work(c, s, peer)
  {
    DisconnectedIsSound(c, s, other, u);
    hide Delay, LongestDelay, TimersMatch, AllAttended, IsConfig, IsDraw, Scheduled;
    if other != peer {
      OthersLeaveItAlone(c, s, other, u, false, peer);
      SameWork(c, s, Disconnected(c, s, other, u), peer);
    } else if peer in s.peers {
      var t := s.(peers := s.peers[peer := s.peers[peer].(isConnected := false)]);
      SameWork(c, s, t, peer);
      if s.isStarted {
        SchedulingIsWork(c, t, peer, u);
      }
    }
  }

  lemma {:induction false} CheckingIsWork(c: Config, s: State, lost: seq<(string, real)>, peer: string)
    requires IsConfig(c) && c.maxAttempts.Some? && Sound(c, s) && forall i | 0 <= i < |lost| :: IsDraw(lost[i].1)
    ensures Sound(c, LossesNoticed(c, s, lost)) && Work(c, LossesNoticed(c, s, lost), peer) <= Work(c, s, peer)
  {
    hide Sound, Work, Disconnected, IsConfig, IsDraw, WithinLimits;
    if lost != [] {
      var front, last := lost[..|lost| - 1], lost[|lost| - 1];
      CheckingIsWork(c, s, front, peer);
      assert IsDraw(last.1);
      LosingIsWork(c, LossesNoticed(c, s, front), peer, last.1, last.0);
    }
  }

  lemma TimerIsWork(c: Config, s: State, id: nat, peer: string)
    requires c.maxAttempts.Some? && Sound(c, s) && id in s.timers && Sound(c, TimerFired(s, id))
    ensures Work(c, TimerFired(s, id), peer) + (if s.timers[id].peer == peer then 1 else 0) <= Work(c, s, peer)
  {
    hide LongestDelay, AllAttended;
  }

  lemma DialIsWork(c: Config, s: State, other: string, ok: bool, u: real, peer: string)
    requires c.maxAttempts.Some? && Sound(c, s) && other in s.dials && (ok ==> other != peer)
    requires Sound(c, DialEnded(c, s, other, ok, u))
    ensures Work(c, DialEnded(c, s, other, ok, u), peer) + (if other == peer then 1 else 0) <= Work(c, s, peer)
  {
    hide Delay, LongestDelay, AllAttended, TimersMatch, Scheduled, Connected;
    if other != peer {
      OthersLeaveItAlone(c, s, other, u, ok, peer);
      SameWork(c, s, DialEnded(c, s, other, ok, u), peer);
    } else {
      SchedulingIsWork(c, s.(dials := s.dials - multiset{peer}), peer, u);
    }
  }

  lemma EventIsWork(c: Config, s: State, e: Event, peer: string)
    requires IsConfig(c) && c.maxAttempts.Some? && Sound(c, s) && Possible(s, e) && Unanswered(s, e, peer)
    ensures Sound(c, Step(c, s, e))
    ensures Work(c, Step(c, s, e), peer) + (if Concerns(s, e, peer) then 1 else 0) <= Work(c, s, peer)
  {
    StepIsSound(c, s, e);
    hide Delay, IsConfig, IsDraw, LongestDelay, AllAttended, TimersMatch, ExtractPeerId;
    match e
    case Start(_) =>
    case Stop =>
    case Connect(addr) =>
      hide ConnectAsked, Work;
      RequestsLeaveItAlone(s, addr, peer);
      SameWork(c, s, ConnectAsked(s, addr), peer);
    case Reconnect(addr) =>
      hide ReconnectAsked, Work;
      RequestsLeaveItAlone(s, addr, peer);
      SameWork(c, s, ReconnectAsked(s, addr), peer);
    case TimerFires(id) =>
      hide TimerFired, Work;
      TimerIsWork(c, s, id, peer);
    case DialEnds(other, ok, u) =>
      hide DialEnded, Work;
      DialIsWork(c, s, other, ok, u, peer);
    case PeerConnects(other) =>
      hide Connected, Work;
      OthersLeaveItAlone(c, s, other, 0.0, false, peer);
      SameWork(c, s, Connected(s, other), peer);
    case PeerDisconnects(other, u) =>
      hide Disconnected, Work;
      LosingIsWork(c, s, peer, u, other);
    case HealthCheck(lost) =>
      hide LossesNoticed, Work;
      CheckingIsWork(c, s, lost, peer);
  }

  /** With a limit on attempts, a peer that never answers is tried only so often, whatever goes on with
      others: the timers and dials spent on it and the work left never exceed the work there was. */
  lemma {:induction false} RetriesRunOut(c: Config, s: State, run: seq<Event>, n: nat, peer: string)
    requires IsConfig(c) && c.maxAttempts.Some? && Sound(c, s) && n <= |run| && After(c, s, run, n).Some?
    requires forall i | 0 <= i < n && After(c, s, run, i).Some? :: Unanswered(After(c, s, run, i).value, run[i], peer)
    ensures Sound(c, After(c, s, run, n).value)
    ensures Spent(c, s, run, n, peer) + Work(c, After(c, s, run, n).value, peer) <= Work(c, s, peer)
  {
    hide Step, Sound, Work, Possible, Concerns, WithinLimits, Unanswered;
    if n > 0 {
      RetriesRunOut(c, s, run, n - 1, peer);
      EventIsWork(c, After(c, s, run, n - 1).value, run[n - 1], peer);
    }
  }

  // ---------------------------------------------------------------- backoff

  /** The base delay doubles with every attempt until it reaches the maximum, and stays there. */
  lemma BackoffDoubles(c: Config, attempts: nat)
    requires IsConfig(c)
    ensures BaseDelay(c, 0) == Min(c.baseDelay, c.maxDelay)
    ensures BaseDelay(c, attempts + 1) == Min(2.0 * BaseDelay(c, attempts), c.maxDelay)
  {
    PowerIsPositive(attempts);
    assert Power2(0) == 1.0;
    var x := c.baseDelay * Power2(attempts);
    assert x >= 0.0;
    assert c.baseDelay * Power2(attempts + 1) == 2.0 * x;
  }

  lemma {:induction false} BackoffIsMonotone(c: Config, a: nat, b: nat)
    requires IsConfig(c) && a <= b
    ensures 0.0 <= BaseDelay(c, a) <= BaseDelay(c, b) <= c.maxDelay
  {
    BaseDelayInRange(c, a);
    BaseDelayInRange(c, b);
    if a < b {
      BackoffIsMonotone(c, a, b - 1);
      BackoffDoubles(c, b - 1);
      BaseDelayInRange(c, b - 1);
      hide BaseDelay;
    }
  }

  /** The drawn delay respects the maximum for every draw exactly when half the jitter leaves room. */
  lemma MaximumHoldsExactlyWithRoom(c: Config, attempts: nat)
    requires IsConfig(c)
    ensures (forall u | IsDraw(u) :: Delay(c, attempts, u) <= c.maxDelay)
            <==> BaseDelay(c, attempts) * (1.0 + c.jitter / 2.0) <= c.maxDelay
  {
    var base := BaseDelay(c, attempts);
    BaseDelayInRange(c, attempts);
    if base * (1.0 + c.jitter / 2.0) <= c.maxDelay {
      forall u | IsDraw(u)
        ensures Delay(c, attempts, u) <= c.maxDelay
      {
        DelayNearBase(c, attempts, u);
      }
    } else {
      var u := HighDraw(base, c.jitter, c.maxDelay);
      assert Delay(c, attempts, u) > c.maxDelay;
    }
  }

  lemma HighDraw(base: real, jitter: real, limit: real) returns (u: real)
    requires 0.0 <= base <= limit && jitter >= 0.0 && base * (1.0 + jitter / 2.0) > limit
    ensures IsDraw(u) && Jittered(base, jitter, u) > limit
  {
    var spread, room := base * jitter, limit - base;
    assert base * (1.0 + jitter / 2.0) == base + spread * 0.5;
    var share := room / spread;
    assert spread * share == room;
    SmallerFactor(spread, share, 0.5);
    NotNegative(spread, share);
    var v := (share + 0.5) / 2.0;
    u := v + 0.5;
    StrictlyMore(spread, share, v);
    assert Jittered(base, jitter, u) == base + spread * v;
  }

  lemma SmallerFactor(x: real, a: real, b: real)
    requires x > 0.0 && x * a < x * b
    ensures a < b
  {
  }

  lemma NotNegative(x: real, a: real)
    requires x > 0.0 && x * a >= 0.0
    ensures a >= 0.0
  {
  }

  lemma StrictlyMore(x: real, a: real, b: real)
    requires x > 0.0 && a < b
    ensures x * a < x * b
  {
  }

  // ---------------------------------------------------------------- backoff over runs

  /** The event makes the manager try the peer again later: a dial failed, or the connection was lost while started. */
  ghost predicate Setback(s: State, e: Event, peer: string) {
    match e
    case DialEnds(other, ok, _) => !ok && other == peer
    case PeerDisconnects(other, _) => s.isStarted && other == peer
    case HealthCheck(lost) => s.isStarted && peer in s.peers && s.peers[peer].isConnected && Loses(lost, peer)
    case _ => false
  }

  ghost predicate Loses(lost: seq<(string, real)>, peer: string) {
    exists i | 0 <= i < |lost| :: lost[i].0 == peer
  }

  /** Neither does the peer answer, nor is it asked for anew, nor does the manager stop or start. */
  ghost predicate NoReset(s: State, e: Event, peer: string) {
    match e
    case Start(_) => s.isStarted
    case Stop => false
    case Reconnect(addr) => ExtractPeerId(addr) != Some(peer)
    case DialEnds(other, ok, _) => ok ==> other != peer
    case PeerConnects(other) => other != peer
    case _ => true
  }

  ghost function Setbacks(c: Config, s: State, run: seq<Event>, n: nat, peer: string): nat
    requires n <= |run| && After(c, s, run, n).Some?
  {
    if n == 0 then 0
    else Setbacks(c, s, run, n - 1, peer) + (if Setback(After(c, s, run, n - 1).value, run[n - 1], peer) then 1 else 0)
  }

  /** At most as many attempts as configured are made. */
  function Attempts(c: Config, k: nat): nat {
    if c.maxAttempts.Some? && k > c.maxAttempts.value then c.maxAttempts.value else k
  }

  /** Within half the jitter of the configured base delay, doubled `doublings` times and cut at the maximum. */
  ghost predicate Near(c: Config, delay: real, doublings: nat) {
    var doubled := c.baseDelay * Power2(doublings);
    var base := if doubled <= c.maxDelay then doubled else c.maxDelay;
    base * (1.0 - c.jitter / 2.0) <= delay <= base * (1.0 + c.jitter / 2.0)
  }

  /** The peer has had `k` setbacks in a row. */
  ghost predicate BackedOff(c: Config, s: State, peer: string, k: nat) {
    && peer in s.peers && s.peers[peer].reconnectAttempts == Attempts(c, k)
    && (peer in s.reconnectTimers ==> Attempts(c, k) >= 1 && NearTimer(c, s, peer, Attempts(c, k) - 1))
  }

  ghost predicate NearTimer(c: Config, s: State, peer: string, doublings: nat)
    requires peer in s.reconnectTimers
  {
    s.reconnectTimers[peer] in s.timers && Near(c, s.timers[s.reconnectTimers[peer]].delay, doublings)
  }

  /** Its own scheduling: one setback more, with the delay for it, unless the attempts are used up. */
  lemma SchedulingBacksOff(c: Config, s: State, peer: string, u: real, k: nat)
    requires IsConfig(c) && IsDraw(u) && BackedOff(c, s, peer, k)
    ensures var t := Scheduled(c, s, peer, u);
            BackedOff(c, t, peer, k + 1) && (Attempts(c, k + 1) == k + 1 ==> peer in t.reconnectTimers)
  {
    DelayIsNear(c, s.peers[peer].reconnectAttempts, u);
    hide Delay, IsConfig, IsDraw, Near;
  }

  lemma DelayIsNear(c: Config, doublings: nat, u: real)
    requires IsConfig(c) && IsDraw(u)
    ensures Near(c, Delay(c, doublings, u), doublings)
  {
    DelayNearBase(c, doublings, u);
    hide Delay, Power2;
  }

  /** What another peer's scheduling or connecting leaves of this one. */
  ghost predicate SamePeer(s: State, t: State, peer: string) {
    && (peer in s.peers <==> peer in t.peers) && (peer in s.peers ==> s.peers[peer] == t.peers[peer])
    && (peer in s.reconnectTimers <==> peer in t.reconnectTimers)
    && (peer in s.reconnectTimers ==>
          && s.reconnectTimers[peer] == t.reconnectTimers[peer]
          && s.reconnectTimers[peer] in s.timers && s.reconnectTimers[peer] in t.timers
          && s.timers[s.reconnectTimers[peer]] == t.timers[s.reconnectTimers[peer]])
  }

  lemma SameIsBackedOff(c: Config, s: State, t: State, peer: string, k: nat)
    requires BackedOff(c, s, peer, k) && SamePeer(s, t, peer)
    ensures BackedOff(c, t, peer, k)
  {
  }

  lemma OthersScheduling(c: Config, s: State, other: string, u: real, peer: string)
    requires TimersMatch(s) && other != peer
    ensures SamePeer(s, Unscheduled(s, other), peer)
    ensures SamePeer(s, Scheduled(c, s, other, u), peer)
  {
    hide Delay, Exhausted;
  }

  lemma OthersConnecting(s: State, other: string, peer: string)
    requires TimersMatch(s) && other != peer
    ensures SamePeer(s, Connected(s, other), peer)
  {
    UnscheduledKeepsTimers(s, other);
  }

  lemma LosingBacksOff(c: Config, s: State, other: string, u: real, peer: string, k: nat)
    requires IsConfig(c) && IsDraw(u) && Sound(c, s) && BackedOff(c, s, peer, k)
    ensures var t := Disconnected(c, s, other, u);
            && Sound(c, t) && t.isStarted == s.isStarted
            && BackedOff(c, t, peer, if other == peer && s.isStarted then k + 1 else k)
            && peer in s.peers && peer in t.peers && t.peers[peer].isConnected == (s.peers[peer].isConnected && other != peer)
            && (other == peer && s.isStarted && Attempts(c, k + 1) == k + 1 ==> peer in t.reconnectTimers)
            && (peer in s.reconnectTimers && other != peer ==> peer in t.reconnectTimers)
  {
    DisconnectedIsSound(c, s, other, u);
    hide Sound, Near, AllAttended, WithinLimits, IsConfig, IsDraw, Attempts, Delay;
    if other in s.peers {
      var t := s.(peers := s.peers[other := s.peers[other].(isConnected := false)]);
      assert TimersMatch(t) by {
        TimersStayMatched(c, s, t);
      }
      if other == peer {
        SchedulingBacksOff(c, t, peer, u, k);
      } else {
        OthersScheduling(c, t, other, u, peer);
      }
    }
  }

  lemma TimersStayMatched(c: Config, s: State, t: State)
    requires Sound(c, s) && t.peers.Keys == s.peers.Keys
    requires t.reconnectTimers == s.reconnectTimers && t.timers == s.timers && t.nextTimer == s.nextTimer
    ensures TimersMatch(t)
  {
  }

  lemma {:induction false} CheckingBacksOff(c: Config, s: State, lost: seq<(string, real)>, peer: string, k: nat)
    requires IsConfig(c) && Sound(c, s) && peer in s.peers && BackedOff(c, s, peer, k)
    requires forall i | 0 <= i < |lost| :: IsDraw(lost[i].1)
    ensures var t, hit := LossesNoticed(c, s, lost), s.isStarted && s.peers[peer].isConnected && Loses(lost, peer);
            && Sound(c, t) && t.isStarted == s.isStarted && BackedOff(c, t, peer, if hit then k + 1 else k)
            && peer in t.peers && t.peers[peer].isConnected == (s.peers[peer].isConnected && !Loses(lost, peer))
            && (hit && Attempts(c, k + 1) == k + 1 ==> peer in t.reconnectTimers)
  {
    hide Sound, BackedOff, Disconnected, IsConfig, IsDraw;
    if lost != [] {
      var front, last := lost[..|lost| - 1], lost[|lost| - 1];
      CheckingBacksOff(c, s, front, peer, k);
      assert IsDraw(last.1);
      assert Loses(lost, peer) <==> Loses(front, peer) || last.0 == peer;
      var k' := if s.isStarted && s.peers[peer].isConnected && Loses(front, peer) then k + 1 else k;
      LosingBacksOff(c, LossesNoticed(c, s, front), last.0, last.1, peer, k');
    }
  }

  lemma ConnectRequestBacksOff(c: Config, s: State, addr: string, peer: string, k: nat)
    requires BackedOff(c, s, peer, k)
    ensures BackedOff(c, ConnectAsked(s, addr), peer, k)
  {
    hide ExtractPeerId, NearTimer, Attempts;
    if peer in s.reconnectTimers {
      SameTimerIsNear(c, s, ConnectAsked(s, addr), peer, Attempts(c, k) - 1);
    }
  }

  lemma SameTimerIsNear(c: Config, s: State, t: State, peer: string, doublings: int)
    requires s.timers == t.timers && s.reconnectTimers == t.reconnectTimers && peer in s.reconnectTimers && doublings >= 0
    ensures NearTimer(c, s, peer, doublings) <==> NearTimer(c, t, peer, doublings)
  {
  }

  lemma ReconnectRequestBacksOff(c: Config, s: State, addr: string, peer: string, k: nat)
    requires TimersMatch(s) && BackedOff(c, s, peer, k) && ExtractPeerId(addr) != Some(peer)
    ensures BackedOff(c, ReconnectAsked(s, addr), peer, k)
  {
    hide ExtractPeerId, BackedOff, Unscheduled;
    var asked := ExtractPeerId(addr);
    if asked.Some? && asked.value in s.peers {
      OthersScheduling(c, s, asked.value, 0.0, peer);
      SameIsBackedOff(c, s, ReconnectAsked(s, addr), peer, k);
    }
  }

  lemma FiringBacksOff(c: Config, s: State, id: nat, peer: string, k: nat)
    requires TimersMatch(s) && BackedOff(c, s, peer, k) && id in s.timers
    ensures BackedOff(c, TimerFired(s, id), peer, k)
  {
    hide Near, Attempts;
  }

  lemma DialBacksOff(c: Config, s: State, other: string, ok: bool, u: real, peer: string, k: nat)
    requires IsConfig(c) && IsDraw(u) && TimersMatch(s) && BackedOff(c, s, peer, k) && (ok ==> other != peer)
    ensures var t := DialEnded(c, s, other, ok, u);
            && BackedOff(c, t, peer, if other == peer then k + 1 else k)
            && (other == peer && Attempts(c, k + 1) == k + 1 ==> peer in t.reconnectTimers)
  {
    hide Near, Attempts, Scheduled, Connected, IsConfig, IsDraw;
    var t := s.(dials := s.dials - multiset{other});
    if other == peer {
      SchedulingBacksOff(c, t, peer, u, k);
    } else {
      OthersScheduling(c, t, other, u, peer);
      OthersConnecting(t, other, peer);
    }
  }

  lemma StepBacksOff(c: Config, s: State, e: Event, peer: string, k: nat)
    requires IsConfig(c) && Sound(c, s) && BackedOff(c, s, peer, k) && Possible(s, e) && NoReset(s, e, peer)
    ensures BackedOff(c, Step(c, s, e), peer, if Setback(s, e, peer) then k + 1 else k)
    ensures Setback(s, e, peer) && Attempts(c, k + 1) == k + 1 ==> peer in Step(c, s, e).reconnectTimers
  {
    hide ExtractPeerId, Near, Attempts, IsConfig, IsDraw, AllAttended, WithinLimits;
    match e
    case Start(_) =>
    case Connect(addr) => hide ConnectAsked; ConnectRequestBacksOff(c, s, addr, peer, k);
    case Reconnect(addr) => hide ReconnectAsked; ReconnectRequestBacksOff(c, s, addr, peer, k);
    case TimerFires(id) => hide TimerFired; FiringBacksOff(c, s, id, peer, k);
    case DialEnds(other, ok, u) => hide DialEnded; DialBacksOff(c, s, other, ok, u, peer, k);
    case PeerConnects(other) => hide Connected; OthersConnecting(s, other, peer);
    case PeerDisconnects(other, u) => hide Disconnected; LosingBacksOff(c, s, other, u, peer, k);
    case HealthCheck(lost) => hide LossesNoticed; CheckingBacksOff(c, s, lost, peer, k);
  }

  /** Backoff, over runs: from when the peer has no failures and no timer, as after it connected, and as long as
      it does not answer, the timer pending after k failures has a delay within half the jitter of the
      configured base delay times 2^(k - 1), cut at the maximum; k stays at the configured limit. After
      each failure within the limit a timer is pending. */
  lemma {:induction false} FailuresBackOff(c: Config, s: State, run: seq<Event>, n: nat, peer: string)
    requires IsConfig(c) && Sound(c, s) && n <= |run| && After(c, s, run, n).Some?
    requires peer in s.peers && s.peers[peer].reconnectAttempts == 0 && peer !in s.reconnectTimers
    requires forall i | 0 <= i < n && After(c, s, run, i).Some? :: NoReset(After(c, s, run, i).value, run[i], peer)
    ensures var t, k := After(c, s, run, n).value, Setbacks(c, s, run, n, peer);
            && Sound(c, t) && BackedOff(c, t, peer, k)
            && (n > 0 && Setback(After(c, s, run, n - 1).value, run[n - 1], peer) && Attempts(c, k) == k ==>
                  peer in t.reconnectTimers)
  {
    hide Step, Sound, BackedOff, Possible, NoReset, Setback, Attempts;
    if n > 0 {
      FailuresBackOff(c, s, run, n - 1, peer);
      var before := After(c, s, run, n - 1).value;
      StepIsSound(c, before, run[n - 1]);
      StepBacksOff(c, before, run[n - 1], peer, Setbacks(c, s, run, n - 1, peer));
    } else {
      NoneYet(c, s, peer);
    }
  }

  lemma NoneYet(c: Config, s: State, peer: string)
    requires peer in s.peers && s.peers[peer].reconnectAttempts == 0 && peer !in s.reconnectTimers
    ensures BackedOff(c, s, peer, 0)
  {
  }

  lemma FirstFailure(c: Config, s: State, peer: string, u: real)
    requires IsConfig(c) && IsDraw(u) && Sound(c, s) && s.isStarted && !Exhausted(c, 0)
    requires peer in s.peers && s.peers[peer].reconnectAttempts == 0 && peer !in s.reconnectTimers
    ensures var base, t := (if c.baseDelay <= c.maxDelay then c.baseDelay else c.maxDelay), Disconnected(c, s, peer, u);
            && peer in t.reconnectTimers && t.reconnectTimers[peer] in t.timers
            && base * (1.0 - c.jitter / 2.0) <= t.timers[t.reconnectTimers[peer]].delay <= base * (1.0 + c.jitter / 2.0)
  {
    hide Sound, Disconnected;
    NoneYet(c, s, peer);
    LosingBacksOff(c, s, peer, u, peer, 0);
    assert c.baseDelay * Power2(0) == c.baseDelay;
  }

  /** Connecting begins anew: whatever failures there were, after a loss the peer is tried again after the base delay. */
  lemma ConnectingBeginsAnew(c: Config, s: State, peer: string, u: real)
    requires IsConfig(c) && IsDraw(u) && Sound(c, s) && peer in s.peers && s.isStarted && !Exhausted(c, 0)
    ensures var t := Connected(s, peer);
            Sound(c, t) && peer in t.peers && t.peers[peer].reconnectAttempts == 0 && peer !in t.reconnectTimers
    ensures var base, t := (if c.baseDelay <= c.maxDelay then c.baseDelay else c.maxDelay), Disconnected(c, Connected(s, peer), peer, u);
            && peer in t.reconnectTimers && t.reconnectTimers[peer] in t.timers
            && base * (1.0 - c.jitter / 2.0) <= t.timers[t.reconnectTimers[peer]].delay <= base * (1.0 + c.jitter / 2.0)
  {
    assert OthersAttended(c, s, peer);
    ConnectedIsSound(c, s, peer);
    hide Sound, Disconnected;
    FirstFailure(c, Connected(s, peer), peer, u);
  }

  /** No failures count against the peer, no timer is pending, and it is being dialled. */
  ghost predicate DialledAnew(s: State, peer: string) {
    peer in s.peers && s.peers[peer].reconnectAttempts == 0 && peer !in s.reconnectTimers && peer in s.dials
  }

  lemma ReconnectingBeginsAnew(s: State, addr: string, peer: string)
    requires ExtractPeerId(addr) == Some(peer) && peer in s.peers
    ensures DialledAnew(ReconnectAsked(s, addr), peer)
  {
    hide ExtractPeerId;
  }

  lemma {:induction false} AddressesAreTracked(peers: map<string, Connection>, addrs: seq<string>, i: nat)
    requires i < |addrs| && ExtractPeerId(addrs[i]).Some?
    ensures var peer := ExtractPeerId(addrs[i]).value;
            && peer in Tracked(peers, addrs)
            && !Tracked(peers, addrs)[peer].isConnected && Tracked(peers, addrs)[peer].reconnectAttempts == 0
            && exists k | 0 <= k < |addrs| :: addrs[k] == Tracked(peers, addrs)[peer].multiaddr && ExtractPeerId(addrs[k]) == Some(peer)
  {
    hide ExtractPeerId;
    var n := |addrs| - 1;
    var front, peer := addrs[..n], ExtractPeerId(addrs[i]).value;
    if ExtractPeerId(addrs[n]) == Some(peer) {
      assert addrs[n] == Tracked(peers, addrs)[peer].multiaddr;
    } else {
      AddressesAreTracked(peers, front, i);
      var k :| 0 <= k < |front| && front[k] == Tracked(peers, front)[peer].multiaddr && ExtractPeerId(front[k]) == Some(peer);
      assert addrs[k] == Tracked(peers, addrs)[peer].multiaddr;
    }
  }

  /** Starting tracks the peer of every address anew, and dials each tracked peer once; connecting to a new
      peer tracks and dials it. */
  lemma AskingDials(s: State, addrs: seq<string>, i: nat, addr: string)
    requires !s.isStarted && i < |addrs| && ExtractPeerId(addrs[i]).Some? && ExtractPeerId(addr).Some?
    ensures var t, peer := Started(s, addrs), ExtractPeerId(addrs[i]).value;
            && t.isStarted && peer in t.peers && !t.peers[peer].isConnected && t.peers[peer].reconnectAttempts == 0
            && forall p | p in t.peers :: t.dials[p] == s.dials[p] + 1
    ensures var t, peer := ConnectAsked(s, addr), ExtractPeerId(addr).value;
            && peer in t.peers && t.dials == s.dials + multiset{peer}
            && (peer !in s.peers ==> t.peers[peer] == Connection(addr, false, 0)) && (peer in s.peers ==> t.peers == s.peers)
  {
    AddressesAreTracked(s.peers, addrs, i);
    hide ExtractPeerId, Tracked;
  }
}
