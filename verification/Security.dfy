/** Which resources a peer announces: one flat index and one by type, which must agree.

    The flat index stores `type:id`. Whether that text names one resource is decided by the
    types in use, not by the ids. */
module ResourceTracker {

  const MAX_PER_PEER := 100
  const MAX_PER_TYPE := 20

  datatype State = State(flat: map<string, set<string>>, byType: map<string, map<string, set<string>>>)

  const EMPTY := State(map[], map[])

  function Key(t: string, id: string): string {
    t + ":" + id
  }

  // ---------------------------------------------------------------- one call

  function FlatOf(s: State, peer: string): set<string> {
    if peer in s.flat then s.flat[peer] else {}
  }

  function TypesOf(s: State, peer: string): map<string, set<string>> {
    if peer in s.byType then s.byType[peer] else map[]
  }

  function IdsOf(s: State, peer: string, t: string): set<string> {
    if t in TypesOf(s, peer) then TypesOf(s, peer)[t] else {}
  }

  /** There is no room for a new element. */
  predicate AtCap(s: set<string>, cap: nat, x: string) {
    |s| >= cap && x !in s
  }

  predicate Full(s: State, peer: string, t: string, id: string) {
    AtCap(FlatOf(s, peer), MAX_PER_PEER, Key(t, id)) || AtCap(IdsOf(s, peer, t), MAX_PER_TYPE, id)
  }

  function Added(s: State, peer: string, t: string, id: string): State {
    State(s.flat[peer := FlatOf(s, peer) + {Key(t, id)}],
          s.byType[peer := TypesOf(s, peer)[t := IdsOf(s, peer, t) + {id}]])
  }

  /** Takes one element out of one set of a map, and the set with it when it becomes empty. */
  function Without(sets: map<string, set<string>>, k: string, x: string): map<string, set<string>> {
    if k !in sets then sets
    else if sets[k] - {x} == {} then sets - {k}
    else sets[k := sets[k] - {x}]
  }

  function Removed(s: State, peer: string, t: string, id: string): State {
    var types := Without(TypesOf(s, peer), t, id);
    State(Without(s.flat, peer, Key(t, id)),
          if peer !in s.byType then s.byType
          else if types == map[] then s.byType - {peer}
          else s.byType[peer := types])
  }

  lemma NothingCapped(cap: nat, x: string)
    requires cap > 0
    ensures !AtCap({}, cap, x)
  {
  }

  class DHTResourceTracker {
    var peerResources: map<string, set<string>>
    var peerResourcesByType: map<string, map<string, set<string>>>

    function Contents(): State
      reads this
    {
      State(peerResources, peerResourcesByType)
    }

    constructor ()
      ensures Contents() == EMPTY
    {
      peerResources, peerResourcesByType := map[], map[];
    }

    method CanAnnounceResource(peer: string, t: string, id: string) returns (granted: bool)
      modifies this
      ensures granted == !Full(old(Contents()), peer, t, id)
      ensures Contents() == if granted then Added(old(Contents()), peer, t, id) else old(Contents())
    {
      hide AtCap;
      ghost var was := Contents();
      var resourceKey := Key(t, id);
      var resources := if peer in peerResources then peerResources[peer] else {};
      if AtCap(resources, MAX_PER_PEER, resourceKey) {
        return false;
      }
      var typeMap := TypeMap(peer);
      var ids := if t in typeMap then typeMap[t] else {};
      assert resources == FlatOf(was, peer) && typeMap == TypesOf(was, peer) && ids == IdsOf(was, peer, t);
      if AtCap(ids, MAX_PER_TYPE, id) {
        NothingCapped(MAX_PER_TYPE, id);
        assert ids != {} && peer in was.byType;
        return false;
      }
      assert !Full(was, peer, t, id);
      hide FlatOf, TypesOf, IdsOf, Full, Key;
      peerResources := peerResources[peer := resources + {resourceKey}];
      typeMap := typeMap[t := ids + {id}];
      assert peerResourcesByType[peer := typeMap] == was.byType[peer := typeMap];
      peerResourcesByType := peerResourcesByType[peer := typeMap];
      return true;
    }

    /** The peer's types, created when there are none. */
    method TypeMap(peer: string) returns (typeMap: map<string, set<string>>)
      modifies this`peerResourcesByType
      ensures typeMap == TypesOf(old(Contents()), peer)
      ensures peer in old(peerResourcesByType) ==> peerResourcesByType == old(peerResourcesByType)
      ensures peer !in old(peerResourcesByType) ==> peerResourcesByType == old(peerResourcesByType)[peer := map[]]
    {
      if peer !in peerResourcesByType {
        peerResourcesByType := peerResourcesByType[peer := map[]];
      }
      typeMap := peerResourcesByType[peer];
    }

    method RemoveResource(peer: string, t: string, id: string)
      modifies this
      ensures Contents() == Removed(old(Contents()), peer, t, id)
    {
      if peer in peerResources {
        peerResources := Delete(peerResources, peer, Key(t, id));
      }
      assert peerResources == Without(old(peerResources), peer, Key(t, id));
      DeleteTyped(peer, t, id);
    }

    method DeleteTyped(peer: string, t: string, id: string)
      modifies this`peerResourcesByType
      ensures peerResourcesByType == Removed(old(Contents()), peer, t, id).byType
    {
      hide Without, Key;
      if peer in peerResourcesByType {
        var typeMap := Delete(peerResourcesByType[peer], t, id);
        peerResourcesByType := peerResourcesByType[peer := typeMap];
        if |typeMap| == 0 {
          peerResourcesByType := peerResourcesByType - {peer};
          assert peerResourcesByType == old(peerResourcesByType) - {peer};
        }
      }
    }

    static method Delete(sets: map<string, set<string>>, k: string, x: string) returns (r: map<string, set<string>>)
      ensures r == Without(sets, k, x)
    {
      r := sets;
      if k in r {
        r := r[k := r[k] - {x}];
        if |r[k]| == 0 {
          r := r - {k};
          assert r == sets - {k};
        }
      }
    }
  }

  // ---------------------------------------------------------------- when keys name one resource

  /** No type extends another one past a colon. */
  predicate Unambiguous(types: set<string>) {
    forall t, u | t in types && u in types :: t != u ==> !(t + ":" <= u)
  }

  ghost predicate KeysNameResources(types: set<string>) {
    forall t, u, i, j | t in types && u in types && Key(t, i) == Key(u, j) :: t == u && i == j
  }

  lemma KeySplits(t: string, i: string, u: string, j: string)
    requires Key(t, i) == Key(u, j) && |t| <= |u|
    ensures (t == u && i == j) || t + ":" <= u
  {
    var k := Key(t, i);
    assert k[..|t|] == t && k[..|u|] == u && k[|t|] == ':';
    assert k[|t| + 1..] == i && k[|u| + 1..] == j;
    if |t| < |u| {
      assert k[..|t| + 1] == t + ":" && u[..|t| + 1] == k[..|t| + 1];
    }
  }

  lemma SameKey(t: string, rest: string, u: string)
    requires u == t + ":" + rest
    ensures Key(t, rest + ":") == Key(u, "")
  {
  }

  /** A key names one resource exactly when the types in use are unambiguous. */
  lemma KeysNameResourcesExactly(types: set<string>)
    ensures KeysNameResources(types) <==> Unambiguous(types)
  {
    if Unambiguous(types) {
      forall t, u, i, j | t in types && u in types && Key(t, i) == Key(u, j)
        ensures t == u && i == j
      {
        if |t| <= |u| {
          KeySplits(t, i, u, j);
        } else {
          KeySplits(u, j, t, i);
        }
      }
    }
    if KeysNameResources(types) {
      forall t, u | t in types && u in types && t != u
        ensures !(t + ":" <= u)
      {
        if t + ":" <= u {
          var rest := u[|t| + 1..];
          assert u == t + ":" + rest;
          SameKey(t, rest, u);
        }
      }
    }
  }

  lemma ColonFreeTypesAreUnambiguous(types: set<string>)
    requires forall t | t in types :: ':' !in t
    ensures Unambiguous(types)
  {
    forall t, u | t in types && u in types && t != u
      ensures !(t + ":" <= u)
    {
      ColonInside(t, u);
    }
  }

  lemma ColonInside(t: string, u: string)
    ensures t + ":" <= u ==> ':' in u
  {
    if t + ":" <= u {
      assert u[|t|] == (t + ":")[|t|] == ':';
    }
  }

  // ---------------------------------------------------------------- agreement of the indexes

  function Flatten(types: map<string, set<string>>): set<string> {
    set t, id | t in types && id in types[t] :: Key(t, id)
  }

  /** The flat set and the sets by type hold the same resources, within the limits, no empty set. */
  ghost predicate Agree(flat: set<string>, byType: map<string, set<string>>, types: set<string>) {
    && flat == Flatten(byType)
    && |flat| <= MAX_PER_PEER
    && (forall t | t in byType :: t in types && byType[t] != {} && |byType[t]| <= MAX_PER_TYPE)
  }

  /** The same of one peer's entries in the two indexes, neither of which is kept when empty. */
  ghost predicate PeerAgrees(s: State, peer: string, types: set<string>) {
    && (peer in s.flat <==> FlatOf(s, peer) != {})
    && (peer in s.byType <==> TypesOf(s, peer) != map[])
    && Agree(FlatOf(s, peer), TypesOf(s, peer), types)
  }

  datatype Event = Announce(peer: string, t: string, id: string) | Withdraw(peer: string, t: string, id: string)

  function Step(s: State, e: Event): State {
    match e
    case Announce(peer, t, id) => if Full(s, peer, t, id) then s else Added(s, peer, t, id)
    case Withdraw(peer, t, id) => Removed(s, peer, t, id)
  }

  function After(run: seq<Event>, n: nat): State
    requires n <= |run|
  {
    if n == 0 then EMPTY else Step(After(run, n - 1), run[n - 1])
  }

  lemma FlattenWith(types: map<string, set<string>>, t: string, ids: set<string>, id: string)
    requires ids == if t in types then types[t] else {}
    ensures Flatten(types[t := ids + {id}]) == Flatten(types) + {Key(t, id)}
  {
    var after := types[t := ids + {id}];
    forall k
      ensures k in Flatten(after) <==> k in Flatten(types) + {Key(t, id)}
    {
      if k in Flatten(after) {
        var u, i :| u in after && i in after[u] && k == Key(u, i);
        assert (u == t && i == id) || (u in types && i in types[u]);
      }
      if k in Flatten(types) {
        var u, i :| u in types && i in types[u] && k == Key(u, i);
        assert u in after && i in after[u];
      }
      assert t in after && id in after[t];
    }
  }

  lemma Larger<T>(s: set<T>, x: T, limit: nat)
    requires |s| <= limit && (|s| < limit || x in s)
    ensures |s + {x}| <= limit
  {
    if x in s {
      assert s + {x} == s;
    }
  }

  lemma AgreeWith(flat: set<string>, byType: map<string, set<string>>, t: string, ids: set<string>, id: string,
                  types: set<string>)
    requires Agree(flat, byType, types) && t in types
    requires ids == if t in byType then byType[t] else {}
    requires |flat| < MAX_PER_PEER || Key(t, id) in flat
    requires |ids| < MAX_PER_TYPE || id in ids
    ensures Agree(flat + {Key(t, id)}, byType[t := ids + {id}], types)
  {
    FlattenWith(byType, t, ids, id);
    Larger(flat, Key(t, id), MAX_PER_PEER);
    Larger(ids, id, MAX_PER_TYPE);
    hide Flatten, Key;
  }

  lemma AnnounceKeepsAgreement(s: State, peer: string, t: string, id: string, types: set<string>)
    requires PeerAgrees(s, peer, types) && t in types && !Full(s, peer, t, id)
    ensures PeerAgrees(Added(s, peer, t, id), peer, types)
  {
    hide Agree, Key;
    AgreeBounds(FlatOf(s, peer), TypesOf(s, peer), types);
    AgreeWith(FlatOf(s, peer), TypesOf(s, peer), t, IdsOf(s, peer, t), id, types);
    var after := Added(s, peer, t, id);
    assert Key(t, id) in FlatOf(after, peer);
    assert t in TypesOf(after, peer);
  }

  lemma AgreeBounds(flat: set<string>, byType: map<string, set<string>>, types: set<string>)
    requires Agree(flat, byType, types)
    ensures |flat| <= MAX_PER_PEER && forall t | t in byType :: |byType[t]| <= MAX_PER_TYPE
    ensures flat == {} <==> byType == map[]
  {
    NothingFlattened(byType);
  }

  lemma FlattenWithout(types: map<string, set<string>>, t: string, id: string, inUse: set<string>)
    requires KeysNameResources(inUse) && t in inUse && forall u | u in types :: u in inUse
    ensures Flatten(Without(types, t, id)) == Flatten(types) - {Key(t, id)}
  {
    var after := Without(types, t, id);
    forall k
      ensures k in Flatten(after) <==> k in Flatten(types) - {Key(t, id)}
    {
      if k in Flatten(after) {
        var u, i :| u in after && i in after[u] && k == Key(u, i);
        assert u in types && i in types[u] && !(u == t && i == id);
      }
      if k in Flatten(types) - {Key(t, id)} {
        var u, i :| u in types && i in types[u] && k == Key(u, i);
        if u == t {
          assert i in types[t] - {id};
        }
        assert u in after && i in after[u];
      }
    }
  }

  lemma NothingFlattened(types: map<string, set<string>>)
    requires forall t | t in types :: types[t] != {}
    ensures Flatten(types) == {} <==> types == map[]
  {
    if types != map[] {
      var t :| t in types;
      var id :| id in types[t];
      assert Key(t, id) in Flatten(types);
    }
  }

  lemma AgreeWithout(flat: set<string>, byType: map<string, set<string>>, t: string, id: string, types: set<string>)
    requires Agree(flat, byType, types) && t in types && KeysNameResources(types)
    ensures Agree(flat - {Key(t, id)}, Without(byType, t, id), types)
  {
    hide Flatten, Key, KeysNameResources;
    FlattenWithout(byType, t, id, types);
    Smaller(flat, {Key(t, id)});
    if t in byType {
      Smaller(byType[t], {id});
    }
    var rest := Without(byType, t, id);
    assert forall u | u in rest :: u in byType && (u == t || rest[u] == byType[u]);
    assert t in rest ==> rest[t] == byType[t] - {id} != {};
    hide Without;
  }

  lemma WithdrawKeepsAgreement(s: State, peer: string, t: string, id: string, types: set<string>)
    requires PeerAgrees(s, peer, types) && t in types && KeysNameResources(types)
    ensures PeerAgrees(Removed(s, peer, t, id), peer, types)
  {
    var flat, byType := FlatOf(s, peer), TypesOf(s, peer);
    AgreeBounds(flat, byType, types);
    AgreeWithout(flat, byType, t, id, types);
    AgreeBounds(flat - {Key(t, id)}, Without(byType, t, id), types);
    hide Agree, Key, KeysNameResources;
    if peer !in s.byType {
      assert Without(byType, t, id) == map[];
    }
  }

  lemma Smaller<T>(s: set<T>, d: set<T>)
    ensures |s - d| <= |s|
  {
    assert s == (s - d) + (s * d);
  }

  /** With unambiguous types the two indexes agree in every reachable state, for every peer. */
  lemma {:induction false} IndexesAgree(run: seq<Event>, n: nat, types: set<string>, peer: string)
    requires n <= |run| && Unambiguous(types) && forall i | 0 <= i < n :: run[i].t in types
    ensures PeerAgrees(After(run, n), peer, types)
  {
    hide Step, PeerAgrees, Unambiguous, KeysNameResources;
    if n > 0 {
      IndexesAgree(run, n - 1, types, peer);
      KeysNameResourcesExactly(types);
      StepKeepsAgreement(After(run, n - 1), run[n - 1], types, peer);
    } else {
      NothingAgrees(types, peer);
    }
  }

  lemma NothingAgrees(types: set<string>, peer: string)
    ensures PeerAgrees(EMPTY, peer, types)
  {
  }

  lemma StepKeepsAgreement(s: State, e: Event, types: set<string>, peer: string)
    requires PeerAgrees(s, peer, types) && e.t in types && KeysNameResources(types)
    ensures PeerAgrees(Step(s, e), peer, types)
  {
    hide Full, KeysNameResources;
    if e.peer != peer {
      OtherPeersUntouched(s, e, peer);
      hide Step, Agree, FlatOf, TypesOf;
    } else if e.Withdraw? {
      hide Added, Removed, PeerAgrees;
      WithdrawKeepsAgreement(s, peer, e.t, e.id, types);
    } else if !Full(s, peer, e.t, e.id) {
      hide Added, Removed, PeerAgrees;
      AnnounceKeepsAgreement(s, peer, e.t, e.id, types);
    }
  }

  lemma OtherPeersUntouched(s: State, e: Event, peer: string)
    requires e.peer != peer
    ensures var s' := Step(s, e);
            && (peer in s'.flat <==> peer in s.flat) && (peer in s'.byType <==> peer in s.byType)
            && FlatOf(s', peer) == FlatOf(s, peer) && TypesOf(s', peer) == TypesOf(s, peer)
  {
    hide Full, Key, IdsOf;
    if e.Withdraw? {
      OthersWithout(s.flat, e.peer, Key(e.t, e.id), peer);
      hide Without;
    }
  }

  lemma OthersWithout(sets: map<string, set<string>>, k: string, x: string, other: string)
    requires other != k
    ensures other in Without(sets, k, x) <==> other in sets
    ensures other in sets ==> Without(sets, k, x)[other] == sets[other]
  {
  }

  /** The number of resources a peer has over all types. */
  ghost function Total(types: map<string, set<string>>): nat
    decreases |types|
  {
    if types == map[] then 0
    else
      var t :| t in types;
      |types[t]| + Total(types - {t})
  }

  lemma {:induction false} KeysOfOneType(t: string, ids: set<string>)
    ensures |set id | id in ids :: Key(t, id)| == |ids|
    decreases |ids|
  {
    if ids != {} {
      var x :| x in ids;
      KeysOfOneType(t, ids - {x});
      var all, rest := set id | id in ids :: Key(t, id), set id | id in ids - {x} :: Key(t, id);
      assert all == rest + {Key(t, x)};
      forall id | id in ids - {x}
        ensures Key(t, id) != Key(t, x)
      {
        assert Key(t, id)[|t| + 1..] == id && Key(t, x)[|t| + 1..] == x;
      }
    }
  }

  /** The size of the flat index is the sum of the sizes by type. */
  lemma {:induction false} FlatSizeIsTotal(types: map<string, set<string>>, inUse: set<string>)
    requires KeysNameResources(inUse) && forall t | t in types :: t in inUse
    ensures |Flatten(types)| == Total(types)
    decreases |types|
  {
    if types == map[] {
      assert Flatten(types) == {};
    } else {
      var t :| t in types && Total(types) == |types[t]| + Total(types - {t});
      var rest := types - {t};
      FlatSizeIsTotal(rest, inUse);
      KeysOfOneType(t, types[t]);
      OneTypeApart(types, t, inUse);
      hide Flatten, Total, KeysNameResources;
    }
  }

  /** The keys of one type and those of the others are different. */
  lemma OneTypeApart(types: map<string, set<string>>, t: string, inUse: set<string>)
    requires KeysNameResources(inUse) && t in types && forall u | u in types :: u in inUse
    ensures var own := set id | id in types[t] :: Key(t, id);
            Flatten(types) == own + Flatten(types - {t}) && own !! Flatten(types - {t})
  {
    var own, rest := set id | id in types[t] :: Key(t, id), types - {t};
    forall k
      ensures k in Flatten(types) <==> k in own || k in Flatten(rest)
    {
      if k in Flatten(types) {
        var u, i :| u in types && i in types[u] && k == Key(u, i);
        assert u == t || (u in rest && i in rest[u]);
      }
    }
  }

  lemma FlatSizeAgrees(run: seq<Event>, n: nat, types: set<string>, peer: string)
    requires n <= |run| && Unambiguous(types) && forall i | 0 <= i < n :: run[i].t in types
    ensures |FlatOf(After(run, n), peer)| == Total(TypesOf(After(run, n), peer))
  {
    IndexesAgree(run, n, types, peer);
    KeysNameResourcesExactly(types);
    FlatSizeIsTotal(TypesOf(After(run, n), peer), types);
  }

  lemma WithoutUndoes(sets: map<string, set<string>>, k: string, before: set<string>, x: string)
    requires before == if k in sets then sets[k] else {}
    requires x !in before && (k in sets ==> before != {})
    ensures Without(sets[k := before + {x}], k, x) == sets
  {
    assert before + {x} - {x} == before;
  }

  lemma NewResourceHasNewKey(byType: map<string, set<string>>, t: string, id: string, types: set<string>)
    requires KeysNameResources(types) && t in types && forall u | u in byType :: u in types
    requires t in byType ==> id !in byType[t]
    ensures Key(t, id) !in Flatten(byType)
  {
  }

  lemma TypesRestored(s: State, peer: string, t: string, id: string)
    requires peer in s.byType <==> TypesOf(s, peer) != map[]
    requires Without(TypesOf(s, peer)[t := IdsOf(s, peer, t) + {id}], t, id) == TypesOf(s, peer)
    ensures Removed(Added(s, peer, t, id), peer, t, id).byType == s.byType
  {
    hide Without, IdsOf, Key;
    var mid := Added(s, peer, t, id);
    if peer in s.byType {
      assert mid.byType[peer := s.byType[peer]] == s.byType;
    } else {
      assert mid.byType - {peer} == s.byType;
    }
  }

  /** Announcing a new resource and withdrawing it again restores the state exactly. */
  lemma WithdrawUndoesAnnounce(s: State, peer: string, t: string, id: string, types: set<string>)
    requires PeerAgrees(s, peer, types) && KeysNameResources(types) && t in types
    requires id !in IdsOf(s, peer, t)
    ensures Removed(Added(s, peer, t, id), peer, t, id) == s
  {
    hide Flatten, KeysNameResources, Key, Without;
    NewResourceHasNewKey(TypesOf(s, peer), t, id, types);
    WithoutUndoes(s.flat, peer, FlatOf(s, peer), Key(t, id));
    WithoutUndoes(TypesOf(s, peer), t, IdsOf(s, peer, t), id);
    TypesRestored(s, peer, t, id);
    hide TypesOf, IdsOf, Agree;
  }

  // ---------------------------------------------------------------- ambiguous types

  ghost predicate OverTypes(run: seq<Event>, types: set<string>) {
    forall i | 0 <= i < |run| :: run[i].t in types
  }

  /** Of two resources with one key, withdrawing the first takes away the key of the second. */
  function Clash(peer: string, t: string, rest: string): seq<Event> {
    [Announce(peer, t, rest + ":"), Announce(peer, t + ":" + rest, ""), Withdraw(peer, t, rest + ":")]
  }

  lemma ClashDisagrees(peer: string, t: string, rest: string, types: set<string>)
    ensures !PeerAgrees(After(Clash(peer, t, rest), 3), peer, types)
  {
    var u, run := t + ":" + rest, Clash(peer, t, rest);
    SameKey(t, rest, u);
    var key := Key(t, rest + ":");
    hide Key, Agree;
    assert After(run, 0) == EMPTY;
    var s1, s2, s3 := After(run, 1), After(run, 2), After(run, 3);
    assert s1 == State(map[peer := {key}], map[peer := map[t := {rest + ":"}]]);
    TwoTypes(s1, s2, peer, t, rest, key);
    assert |u| > |t|;
    assert s3 == Removed(s2, peer, t, rest + ":");
    assert s3.flat == map[];
    assert u in TypesOf(s3, peer) && "" in TypesOf(s3, peer)[u];
  }

  lemma TwoTypes(s1: State, s2: State, peer: string, t: string, rest: string, key: string)
    requires s1 == State(map[peer := {key}], map[peer := map[t := {rest + ":"}]])
    requires s2 == Step(s1, Announce(peer, t + ":" + rest, "")) && key == Key(t + ":" + rest, "")
    ensures s2 == State(map[peer := {key}], map[peer := map[t := {rest + ":"}, t + ":" + rest := {""}]])
  {
    var u := t + ":" + rest;
    hide Key;
    assert |u| > |t|;
    assert IdsOf(s1, peer, u) == {};
    assert {key} + {key} == {key};
    assert s2 == Added(s1, peer, u, "");
  }

  ghost predicate AlwaysAgree(types: set<string>) {
    forall run: seq<Event>, peer | OverTypes(run, types) :: PeerAgrees(After(run, |run|), peer, types)
  }

  lemma AmbiguousPair(types: set<string>) returns (t: string, rest: string)
    requires !Unambiguous(types)
    ensures t in types && t + ":" + rest in types
  {
    var u;
    t, u :| t in types && u in types && t != u && t + ":" <= u;
    rest := u[|t| + 1..];
    assert u == t + ":" + rest;
  }

  /** The indexes agree for every peer in every run exactly when the types in use are unambiguous. */
  lemma IndexesAgreeExactly(types: set<string>)
    ensures AlwaysAgree(types) <==> Unambiguous(types)
  {
    hide After, PeerAgrees, Unambiguous;
    if Unambiguous(types) {
      forall run: seq<Event>, peer | OverTypes(run, types)
        ensures PeerAgrees(After(run, |run|), peer, types)
      {
        IndexesAgree(run, |run|, types, peer);
      }
    } else {
      var t, rest := AmbiguousPair(types);
      var run := Clash("peer", t, rest);
      ClashDisagrees("peer", t, rest, types);
      assert OverTypes(run, types) && |run| == 3;
    }
  }

  // ---------------------------------------------------------------- the simple form

  function OfType(held: set<(string, string)>, t: string): set<(string, string)> {
    set x | x in held && x.0 == t
  }

  /** A resource is granted again at once, and anew while the peer has fewer than 100, and fewer than 20 of the type. */
  predicate Grants(held: set<(string, string)>, t: string, id: string) {
    (t, id) in held || (|held| < 100 && |OfType(held, t)| < 20)
  }

  /** What the peer holds by these rules alone. */
  function Held(run: seq<Event>, n: nat, peer: string): set<(string, string)>
    requires n <= |run|
  {
    if n == 0 then {}
    else
      var before, e := Held(run, n - 1, peer), run[n - 1];
      if e.peer != peer then before
      else if e.Withdraw? then before - {(e.t, e.id)}
      else if Grants(before, e.t, e.id) then before + {(e.t, e.id)}
      else before
  }

  ghost predicate Tracks(s: State, peer: string, held: set<(string, string)>) {
    forall t, id :: (t, id) in held <==> id in IdsOf(s, peer, t)
  }

  lemma {:induction false} PairsOfType(ids: set<string>, t: string, pairs: set<(string, string)>)
    requires forall x :: x in pairs <==> x.0 == t && x.1 in ids
    ensures |pairs| == |ids|
  {
    if ids == {} {
      assert pairs == {};
    } else {
      var id :| id in ids;
      PairsOfType(ids - {id}, t, pairs - {(t, id)});
      assert (t, id) in pairs;
    }
  }

  lemma {:induction false} AsManyKeys(held: set<(string, string)>, keys: set<string>, types: set<string>)
    requires KeysNameResources(types) && forall x | x in held :: x.0 in types
    requires forall k :: k in keys <==> exists x | x in held :: k == Key(x.0, x.1)
    ensures |keys| == |held|
    decreases |held|
  {
    hide Key;
    if held == {} {
      assert keys == {};
    } else {
      var x :| x in held;
      var k := Key(x.0, x.1);
      assert k in keys;
      forall j
        ensures j in keys - {k} <==> exists y | y in held - {x} :: j == Key(y.0, y.1)
      {
        if j in keys - {k} {
          var y :| y in held && j == Key(y.0, y.1);
        }
        if y :| y in held - {x} && j == Key(y.0, y.1) {
          assert y.0 in types && x.0 in types;
        }
      }
      AsManyKeys(held - {x}, keys - {k}, types);
    }
  }

  /** So the sizes that the caps look at are those of what is held. */
  lemma SizesAreHeld(s: State, peer: string, held: set<(string, string)>, types: set<string>, t: string, id: string)
    requires PeerAgrees(s, peer, types) && KeysNameResources(types) && Tracks(s, peer, held) && t in types
    ensures |FlatOf(s, peer)| == |held| && |IdsOf(s, peer, t)| == |OfType(held, t)|
    ensures Key(t, id) in FlatOf(s, peer) <==> (t, id) in held
  {
    PairsOfType(IdsOf(s, peer, t), t, OfType(held, t));
    hide Key;
    forall x | x in held
      ensures x.0 in types
    {
      assert x.1 in IdsOf(s, peer, x.0);
    }
    forall k
      ensures k in FlatOf(s, peer) <==> exists x | x in held :: k == Key(x.0, x.1)
    {
      if k in FlatOf(s, peer) {
        var u, i :| u in TypesOf(s, peer) && i in TypesOf(s, peer)[u] && k == Key(u, i);
        assert i in IdsOf(s, peer, u) && (u, i) in held;
      }
      if x :| x in held && k == Key(x.0, x.1) {
        assert x.1 in IdsOf(s, peer, x.0);
      }
    }
    AsManyKeys(held, FlatOf(s, peer), types);
    if Key(t, id) in FlatOf(s, peer) {
      var x :| x in held && Key(t, id) == Key(x.0, x.1);
    }
  }

  lemma AddingTracks(s: State, peer: string, t: string, id: string, held: set<(string, string)>)
    requires Tracks(s, peer, held)
    ensures Tracks(Added(s, peer, t, id), peer, held + {(t, id)})
  {
    hide Key;
  }

  lemma RemovingTracks(s: State, peer: string, t: string, id: string, held: set<(string, string)>)
    requires Tracks(s, peer, held)
    ensures Tracks(Removed(s, peer, t, id), peer, held - {(t, id)})
  {
    hide Key;
    var s' := Removed(s, peer, t, id);
    forall u, i
      ensures i in IdsOf(s', peer, u) <==> i in IdsOf(s, peer, u) && (u, i) != (t, id)
    {
    }
  }

  lemma NothingTracked(peer: string)
    ensures Tracks(EMPTY, peer, {})
  {
  }

  lemma OthersTrack(s: State, e: Event, peer: string, held: set<(string, string)>)
    requires e.peer != peer && Tracks(s, peer, held)
    ensures Tracks(Step(s, e), peer, held)
  {
    OtherPeersUntouched(s, e, peer);
    hide Step;
  }

  lemma FullExactly(s: State, peer: string, t: string, id: string, held: set<(string, string)>)
    requires Tracks(s, peer, held) && |FlatOf(s, peer)| == |held| && |IdsOf(s, peer, t)| == |OfType(held, t)|
    requires Key(t, id) in FlatOf(s, peer) <==> (t, id) in held
    ensures !Full(s, peer, t, id) <==> Grants(held, t, id)
  {
    assert (t, id) in held <==> id in IdsOf(s, peer, t);
    hide Key, IdsOf, FlatOf, OfType, Tracks;
  }

  lemma OwnStepTracks(s: State, e: Event, held: set<(string, string)>)
    requires Tracks(s, e.peer, held) && |FlatOf(s, e.peer)| == |held| && |IdsOf(s, e.peer, e.t)| == |OfType(held, e.t)|
    requires Key(e.t, e.id) in FlatOf(s, e.peer) <==> (e.t, e.id) in held
    ensures !Full(s, e.peer, e.t, e.id) <==> Grants(held, e.t, e.id)
    ensures Tracks(Step(s, e), e.peer,
                   if e.Withdraw? then held - {(e.t, e.id)} else if Grants(held, e.t, e.id) then held + {(e.t, e.id)} else held)
  {
    FullExactly(s, e.peer, e.t, e.id, held);
    hide Key, IdsOf, FlatOf, Grants, Full, Tracks, Added, Removed;
    if e.Withdraw? {
      RemovingTracks(s, e.peer, e.t, e.id, held);
    } else {
      AddingTracks(s, e.peer, e.t, e.id, held);
    }
  }

  /** The two indexes refine the simple form: in every run they hold what the rules say the peer holds, and
      a request is granted exactly when the rules grant it. */
  lemma {:induction false} TrackerFollowsRules(run: seq<Event>, n: nat, types: set<string>, peer: string)
    requires n <= |run| && Unambiguous(types) && forall i | 0 <= i < n :: run[i].t in types
    ensures Tracks(After(run, n), peer, Held(run, n, peer))
    ensures |FlatOf(After(run, n), peer)| == |Held(run, n, peer)| <= 100
  {
    KeysNameResourcesExactly(types);
    hide Step, Key, Unambiguous, KeysNameResources, Tracks, FlatOf, IdsOf, OfType;
    if n > 0 {
      TrackerFollowsRules(run, n - 1, types, peer);
      IndexesAgree(run, n - 1, types, peer);
      hide PeerAgrees;
      var s, e, held := After(run, n - 1), run[n - 1], Held(run, n - 1, peer);
      if e.peer == peer {
        SizesAreHeld(s, peer, held, types, e.t, e.id);
        OwnStepTracks(s, e, held);
      } else {
        OthersTrack(s, e, peer, held);
      }
    } else {
      NothingTracked(peer);
    }
    SameSize(run, n, types, peer);
  }

  lemma SameSize(run: seq<Event>, n: nat, types: set<string>, peer: string)
    requires n <= |run| && Unambiguous(types) && forall i | 0 <= i < n :: run[i].t in types
    requires Tracks(After(run, n), peer, Held(run, n, peer))
    ensures |FlatOf(After(run, n), peer)| == |Held(run, n, peer)| <= 100
  {
    KeysNameResourcesExactly(types);
    IndexesAgree(run, n, types, peer);
    assert |FlatOf(After(run, n), peer)| <= 100;
    hide PeerAgrees, Unambiguous, KeysNameResources, Tracks;
    if n > 0 {
      SizesAreHeld(After(run, n), peer, Held(run, n, peer), types, run[0].t, "");
    }
  }
}

/** How often a peer may announce: the limiter forgets peers that were quiet for a day. */
module AnnouncementLimiter {

  const DAY: int := 24 * 60 * 60 * 1000

  datatype State = State(last: map<string, int>, counts: map<string, nat>)

  const EMPTY := State(map[], map[])

  /** A recorded time of 0 counts as no record. */
  predicate Accepts(s: State, now: int, peer: string, minInterval: int) {
    peer !in s.last || s.last[peer] == 0 || now - s.last[peer] >= minInterval
  }

  function CountOf(s: State, peer: string): nat {
    if peer in s.counts then s.counts[peer] else 0
  }

  function Announced(s: State, now: int, peer: string): State {
    State(s.last[peer := now], s.counts[peer := CountOf(s, peer) + 1])
  }

  function Swept(s: State, now: int): State {
    var stale := set p | p in s.last && now - s.last[p] > DAY;
    State(s.last - stale, s.counts - stale)
  }

  class DHTAnnouncementRateLimiter {
    var lastAnnouncement: map<string, int>
    var announcementCount: map<string, nat>

    function Contents(): State
      reads this
    {
      State(lastAnnouncement, announcementCount)
    }

    constructor ()
      ensures Contents() == EMPTY
    {
      lastAnnouncement, announcementCount := map[], map[];
    }

    method CanAnnounce(now: int, peer: string, minInterval: int) returns (accepted: bool)
      modifies this
      ensures accepted == Accepts(old(Contents()), now, peer, minInterval)
      ensures Contents() == if accepted then Announced(old(Contents()), now, peer) else old(Contents())
    {
      if peer in lastAnnouncement && lastAnnouncement[peer] != 0 {
        var elapsed := now - lastAnnouncement[peer];
        if elapsed < minInterval {
          return false;
        }
      }
      lastAnnouncement := lastAnnouncement[peer := now];
      announcementCount := announcementCount[peer := (if peer in announcementCount then announcementCount[peer] else 0) + 1];
      return true;
    }

    method Cleanup(now: int)
      modifies this
      ensures Contents() == Swept(old(Contents()), now)
    {
      ghost var stale := set p | p in lastAnnouncement && now - lastAnnouncement[p] > DAY;
      var peers := lastAnnouncement.Keys;
      while peers != {}
        invariant peers <= lastAnnouncement.Keys
        invariant lastAnnouncement == old(lastAnnouncement) - (stale - peers)
        invariant announcementCount == old(announcementCount) - (stale - peers)
      {
        var p :| p in peers;
        if now - lastAnnouncement[p] > DAY {
          lastAnnouncement := lastAnnouncement - {p};
          announcementCount := announcementCount - {p};
        }
        peers := peers - {p};
      }
      assert stale - {} == stale;
    }
  }

  /** Each call brings its own interval. */
  datatype Event = Announce(now: int, peer: string, minInterval: int) | Sweep(now: int)

  ghost predicate Clocked(run: seq<Event>) {
    && (forall i | 0 <= i < |run| :: run[i].now > 0)
    && (forall i, j | 0 <= i < j < |run| :: run[i].now <= run[j].now)
  }

  function After(run: seq<Event>, n: nat): State
    requires n <= |run|
  {
    if n == 0 then EMPTY
    else
      var s := After(run, n - 1);
      match run[n - 1]
      case Announce(now, peer, minInterval) => if Accepts(s, now, peer, minInterval) then Announced(s, now, peer) else s
      case Sweep(now) => Swept(s, now)
  }

  predicate AcceptedAt(run: seq<Event>, i: nat)
    requires i < |run|
  {
    run[i].Announce? && Accepts(After(run, i), run[i].now, run[i].peer, run[i].minInterval)
  }

  /** An announcement accepted with this interval comes that long after any accepted before it of the
      same peer, whatever the intervals of those. */
  ghost predicate Spaced(run: seq<Event>, minInterval: int) {
    forall i, j | 0 <= i < j < |run| && AcceptedAt(run, i) && AcceptedAt(run, j) ::
      run[i].peer == run[j].peer && run[j].minInterval == minInterval ==> run[j].now - run[i].now >= minInterval
  }

  lemma {:induction false} LastIsKept(run: seq<Event>, i: nat, n: nat)
    requires Clocked(run) && i < n <= |run| && AcceptedAt(run, i)
    ensures var last, peer := After(run, n).last, run[i].peer;
            (peer in last && last[peer] >= run[i].now) || run[n - 1].now - run[i].now > 86400000
  {
    if n > i + 1 {
      LastIsKept(run, i, n - 1);
    }
  }

  lemma ADayCoversTheInterval(run: seq<Event>, minInterval: int)
    requires Clocked(run) && minInterval <= DAY + 1
    ensures Spaced(run, minInterval)
  {
    forall i, j | 0 <= i < j < |run| && AcceptedAt(run, i) && AcceptedAt(run, j)
      ensures run[i].peer == run[j].peer && run[j].minInterval == minInterval ==> run[j].now - run[i].now >= minInterval
    {
      LastIsKept(run, i, j);
    }
  }

  /** How many announcements of the peer were accepted. */
  function Acceptances(run: seq<Event>, n: nat, peer: string): nat
    requires n <= |run|
  {
    if n == 0 then 0
    else Acceptances(run, n - 1, peer) + (if AcceptedAt(run, n - 1) && run[n - 1].peer == peer then 1 else 0)
  }

  lemma {:induction false} CountsAddUp(run: seq<Event>, n: nat, peer: string)
    requires n <= |run| && forall i | 0 <= i < n :: !run[i].Sweep?
    ensures CountOf(After(run, n), peer) == Acceptances(run, n, peer)
  {
    if n > 0 {
      CountsAddUp(run, n - 1, peer);
    }
  }

  lemma {:induction false} LastWasAccepted(run: seq<Event>, n: nat, peer: string)
    requires n <= |run| && peer in After(run, n).last
    ensures exists k | 0 <= k < n :: AcceptedAt(run, k) && run[k].peer == peer && run[k].now == After(run, n).last[peer]
  {
    var e, before := run[n - 1], After(run, n - 1);
    if AcceptedAt(run, n - 1) && e.peer == peer {
      assert run[n - 1].now == After(run, n).last[peer];
    } else {
      LastWasAccepted(run, n - 1, peer);
    }
  }

  /** An announcement is accepted exactly when every one accepted before of the peer lies its interval back. */
  lemma AcceptedExactly(run: seq<Event>, i: nat)
    requires Clocked(run) && i < |run| && run[i].Announce? && run[i].minInterval <= DAY + 1
    ensures AcceptedAt(run, i) <==>
              forall k | 0 <= k < i && AcceptedAt(run, k) && run[k].peer == run[i].peer :: run[i].now - run[k].now >= run[i].minInterval
  {
    if AcceptedAt(run, i) {
      ADayCoversTheInterval(run, run[i].minInterval);
    } else {
      LastWasAccepted(run, i, run[i].peer);
    }
  }

  /** In every run the announcements accepted with an interval keep it, sweeps and other intervals
      notwithstanding, exactly when it is at most a day and one tick. */
  lemma SpacedExactlyWithinADay(minInterval: int)
    ensures (forall run: seq<Event> | Clocked(run) :: Spaced(run, minInterval)) <==> minInterval <= 86400001
  {
    if minInterval <= DAY + 1 {
      forall run: seq<Event> | Clocked(run)
        ensures Spaced(run, minInterval)
      {
        ADayCoversTheInterval(run, minInterval);
      }
    } else {
      var later := DAY + 2;
      var run := [Announce(1, "peer", minInterval), Sweep(later), Announce(later, "peer", minInterval)];
      assert After(run, 0) == EMPTY;
      assert After(run, 1).last == map["peer" := 1];
      assert After(run, 2).last == map[];
      assert AcceptedAt(run, 0) && AcceptedAt(run, 2);
      assert Clocked(run) && !Spaced(run, minInterval);
    }
  }
}

/** Warnings that escalate to a temporary and then a permanent ban. */
module PeerBans {

  const HOUR: int := 60 * 60 * 1000

  datatype State = State(blacklist: set<string>, tempBans: map<string, int>, warnings: map<string, nat>)

  const EMPTY := State({}, map[], map[])

  function WarningsOf(s: State, peer: string): nat {
    if peer in s.warnings then s.warnings[peer] else 0
  }

  function Warned(s: State, now: int, peer: string): State {
    var count := WarningsOf(s, peer) + 1;
    State(if count >= 10 then s.blacklist + {peer} else s.blacklist,
          if count >= 5 then s.tempBans[peer := now + HOUR] else s.tempBans,
          s.warnings[peer := count])
  }

  /** A ban end of 0 counts as no ban. */
  predicate Allowed(s: State, now: int, peer: string) {
    peer !in s.blacklist && !(peer in s.tempBans && s.tempBans[peer] != 0 && now < s.tempBans[peer])
  }

  function Checked(s: State, now: int, peer: string): State {
    if Allowed(s, now, peer) && peer in s.tempBans && s.tempBans[peer] != 0
    then s.(tempBans := s.tempBans - {peer}) else s
  }

  class CorePeerBanManager {
    var blacklist: set<string>
    var tempBans: map<string, int>
    var warningCount: map<string, nat>

    function Contents(): State
      reads this
    {
      State(blacklist, tempBans, warningCount)
    }

    constructor ()
      ensures Contents() == EMPTY
    {
      blacklist, tempBans, warningCount := {}, map[], map[];
    }

    method BanPeer(peer: string)
      modifies this`blacklist
      ensures blacklist == old(blacklist) + {peer}
    {
      blacklist := blacklist + {peer};
    }

    method TempBanPeer(now: int, peer: string, duration: int)
      modifies this`tempBans
      ensures tempBans == old(tempBans)[peer := now + duration]
    {
      tempBans := tempBans[peer := now + duration];
    }

    method WarnPeer(now: int, peer: string)
      modifies this
      ensures Contents() == Warned(old(Contents()), now, peer)
    {
      var count := (if peer in warningCount then warningCount[peer] else 0) + 1;
      warningCount := warningCount[peer := count];
      if count >= 5 {
        TempBanPeer(now, peer, HOUR);
      }
      if count >= 10 {
        BanPeer(peer);
      }
    }

    method IsAllowed(now: int, peer: string) returns (allowed: bool)
      modifies this`tempBans
      ensures allowed == Allowed(old(Contents()), now, peer)
      ensures Contents() == Checked(old(Contents()), now, peer)
    {
      if peer in blacklist {
        return false;
      }
      if peer in tempBans && tempBans[peer] != 0 {
        if now < tempBans[peer] {
          return false;
        }
        tempBans := tempBans - {peer};
      }
      return true;
    }

    method UnbanPeer(peer: string)
      modifies this
      ensures Contents() == State(old(blacklist) - {peer}, old(tempBans) - {peer}, old(warningCount) - {peer})
    {
      blacklist, tempBans, warningCount := blacklist - {peer}, tempBans - {peer}, warningCount - {peer};
    }
  }

  datatype Event =
    | Warn(now: int, peer: string)
    | TempBan(now: int, peer: string, duration: int)
    | Ban(now: int, peer: string)
    | Check(now: int, peer: string)
    | Unban(now: int, peer: string)

  function Step(s: State, e: Event): State {
    match e
    case Warn(now, peer) => Warned(s, now, peer)
    case TempBan(now, peer, duration) => s.(tempBans := s.tempBans[peer := now + duration])
    case Ban(_, peer) => s.(blacklist := s.blacklist + {peer})
    case Check(now, peer) => Checked(s, now, peer)
    case Unban(_, peer) => State(s.blacklist - {peer}, s.tempBans - {peer}, s.warnings - {peer})
  }

  function After(run: seq<Event>, n: nat): State
    requires n <= |run|
  {
    if n == 0 then EMPTY else Step(After(run, n - 1), run[n - 1])
  }

  /** Warnings to the peer since it was last unbanned. */
  function WarningsSince(run: seq<Event>, n: nat, peer: string): nat
    requires n <= |run|
  {
    if n == 0 || run[n - 1] == Unban(run[n - 1].now, peer) then 0
    else WarningsSince(run, n - 1, peer) + (if run[n - 1].Warn? && run[n - 1].peer == peer then 1 else 0)
  }

  lemma {:induction false} TenWarningsBlacklist(run: seq<Event>, n: nat, peer: string)
    requires n <= |run|
    ensures WarningsOf(After(run, n), peer) == WarningsSince(run, n, peer)
    ensures WarningsSince(run, n, peer) >= 10 ==> peer in After(run, n).blacklist
  {
    if n > 0 {
      TenWarningsBlacklist(run, n - 1, peer);
    }
  }

  /** From its tenth warning on a peer is refused at every time, whatever else happens, until it is unbanned. */
  lemma TenWarningsRefuseForGood(run: seq<Event>, n: nat, now: int, peer: string)
    requires n <= |run| && WarningsSince(run, n, peer) >= 10
    ensures !Allowed(After(run, n), now, peer)
  {
    TenWarningsBlacklist(run, n, peer);
  }

  ghost predicate BanStands(run: seq<Event>, i: nat, n: nat, peer: string)
    requires n <= |run|
  {
    forall k | i <= k < n :: !(run[k].peer == peer && (run[k].Unban? || run[k].TempBan?))
  }

  /** From its fifth warning on each warning refuses the peer for an hour, unless it is unbanned
      or a ban of another length is set by hand. */
  lemma {:induction false} FiveWarningsRefuseForAnHour(run: seq<Event>, i: nat, n: nat, peer: string, now: int)
    requires i < n <= |run| && run[i].Warn? && run[i].peer == peer && WarningsSince(run, i + 1, peer) >= 5
    requires BanStands(run, i + 1, n, peer) && run[i].now > 0 && run[i].now <= now < run[i].now + HOUR
    requires forall k | i < k < n :: run[i].now <= run[k].now <= now
    ensures !Allowed(After(run, n), now, peer)
    ensures peer in After(run, n).tempBans && After(run, n).tempBans[peer] >= run[i].now + HOUR
  {
    TenWarningsBlacklist(run, i, peer);
    if n > i + 1 {
      FiveWarningsRefuseForAnHour(run, i, n - 1, peer, now);
    }
  }

  /** The peer was banned by hand since it was last unbanned. */
  predicate BannedByHand(run: seq<Event>, n: nat, peer: string)
    requires n <= |run|
  {
    n > 0 && !(run[n - 1].Unban? && run[n - 1].peer == peer)
    && ((run[n - 1].Ban? && run[n - 1].peer == peer) || BannedByHand(run, n - 1, peer))
  }

  /** A peer that is found allowed has no ban recorded any more, and nothing else is forgotten. */
  lemma AllowedIsCleared(s: State, now: int, peer: string)
    ensures Allowed(s, now, peer) && peer in Checked(s, now, peer).tempBans ==> s.tempBans[peer] == 0
    ensures Checked(s, now, peer).(tempBans := map[]) == s.(tempBans := map[])
    ensures forall p | p in s.tempBans && (p != peer || !Allowed(s, now, peer)) ::
              p in Checked(s, now, peer).tempBans && Checked(s, now, peer).tempBans[p] == s.tempBans[p]
  {
  }

  /** When the last temporary ban of the peer ends: one set by hand, or the hour that a fifth or later warning sets. */
  function BannedUntil(run: seq<Event>, n: nat, peer: string): int
    requires n <= |run|
  {
    if n == 0 then 0
    else
      var e := run[n - 1];
      if e.peer != peer then BannedUntil(run, n - 1, peer)
      else
        match e
        case Unban(_, _) => 0
        case TempBan(now, _, duration) => now + duration
        case Warn(now, _) => if WarningsSince(run, n, peer) >= 5 then now + 3600000 else BannedUntil(run, n - 1, peer)
        case _ => BannedUntil(run, n - 1, peer)
  }

  lemma {:induction false} BansAreRecorded(run: seq<Event>, n: nat, now: int, peer: string)
    requires n <= |run| && now >= 0 && forall k | 0 <= k < n :: run[k].now <= now
    ensures var s := After(run, n);
            && (peer in s.blacklist <==> BannedByHand(run, n, peer) || WarningsSince(run, n, peer) >= 10)
            && (if peer in s.tempBans then s.tempBans[peer] == BannedUntil(run, n, peer) else BannedUntil(run, n, peer) <= now)
  {
    if n > 0 {
      BansAreRecorded(run, n - 1, now, peer);
      TenWarningsBlacklist(run, n - 1, peer);
    }
  }

  /** A peer is allowed exactly when it was neither banned by hand nor warned ten times since it was
      last unbanned, and its last temporary ban is over. */
  lemma AllowedExactly(run: seq<Event>, n: nat, now: int, peer: string)
    requires n <= |run| && now >= 0 && forall k | 0 <= k < n :: run[k].now <= now
    ensures Allowed(After(run, n), now, peer) <==>
              !BannedByHand(run, n, peer) && WarningsSince(run, n, peer) < 10 && BannedUntil(run, n, peer) <= now
  {
    BansAreRecorded(run, n, now, peer);
  }
}
