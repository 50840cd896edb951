/** Coordinator failover: what repeated broadcast timeouts do to a session's coordinator. */
module Failover {
  import opened Election
  import opened Hex
  import opened Outcomes
  import opened Sorting

  datatype Config = Config(electionMethod: string, enableCoordinatorElection: bool, enableCoordinatorFailover: bool)

  /** `_getElectionMethod`: an unknown name means lexicographic. */
  function MethodNamed(name: string): Method {
    match name
    case "hash-based" => HashBased
    case "first-signer" => FirstSigner
    case "last-signer" => LastSigner
    case _ => Lexicographic
  }

  datatype Outcome = NoElectionData | Exhausted | FailedOver(failed: nat, successor: nat)

  /** One timeout. A coordinator index of 0 reads as missing election data, as does an empty method name. */
  function Timeout(signers: seq<PublicKey>, m: Method, index: Option<nat>, methodName: string): Outcome
    requires signers != []
  {
    if index.None? || index.value == 0 || methodName == "" then NoElectionData
    else
      match BackupCoordinator(signers, index.value, m)
      case Next(backup) => FailedOver(index.value, backup)
      case _ => Exhausted
  }

  function IndexAfter(index: Option<nat>, o: Outcome): Option<nat> {
    if o.FailedOver? then Some(o.successor) else index
  }

  /** The election data of a session. */
  class ElectedSession {
    const hashes: Hashes
    const config: Config
    const signers: seq<PublicKey>
    var coordinatorIndex: Option<nat>
    var electionMethod: string
    var electionProof: Option<string>
    var backupCoordinators: Option<seq<nat>>

    /** The election part of `createSession`. */
    constructor (h: Hashes, c: Config, signers: seq<PublicKey>)
      requires signers != []
      ensures hashes == h && config == c && this.signers == signers
      ensures var m := MethodNamed(c.electionMethod);
              if c.enableCoordinatorElection then
                && coordinatorIndex == Some(Elect(h, signers, m).coordinatorIndex)
                && electionMethod == c.electionMethod
                && electionProof == Some(ElectionProof(h, signers))
                && backupCoordinators == (if c.enableCoordinatorFailover then Some(PriorityList(h, signers, m)) else None)
              else coordinatorIndex == None && electionMethod == "" && electionProof == None && backupCoordinators == None
    {
      hashes, config, this.signers := h, c, signers;
      coordinatorIndex, electionMethod, electionProof, backupCoordinators := None, "", None, None;
      new;
      if c.enableCoordinatorElection {
        var m := MethodNamed(c.electionMethod);
        var election := ElectCoordinator(h, signers, m);
        coordinatorIndex := Some(election.value.coordinatorIndex);
        electionMethod := c.electionMethod;
        electionProof := Some(election.value.electionProof);
        if c.enableCoordinatorFailover {
          var list := GetCoordinatorPriorityList(h, signers, m);
          backupCoordinators := Some(list.value);
        }
      }
    }

    method HandleBroadcastTimeout() returns (o: Outcome)
      requires signers != []
      modifies this`coordinatorIndex
      ensures o == Timeout(signers, MethodNamed(config.electionMethod), old(coordinatorIndex), electionMethod)
      ensures coordinatorIndex == IndexAfter(old(coordinatorIndex), o)
    {
      if coordinatorIndex.None? || coordinatorIndex.value == 0 || electionMethod == "" {
        return NoElectionData;
      }
      var backup := BackupCoordinator(signers, coordinatorIndex.value, MethodNamed(config.electionMethod));
      if !backup.Next? {
        return Exhausted;
      }
      var oldCoordinator := coordinatorIndex.value;
      coordinatorIndex := Some(backup.index);
      return FailedOver(oldCoordinator, backup.index);
    }
  }

  // ---------------------------------------------------------------- the names of the methods

  /** A session configured "last-signer" is coordinated by the signer with the largest key, "hash-based" by the
      one the hash of all keys picks, and by any other name by the one with the smallest. */
  lemma NamedCoordinator(h: Hashes, signers: seq<PublicKey>, name: string)
    requires signers != []
    ensures var e := Elect(h, signers, MethodNamed(name));
            if name == "hash-based" then
              e.coordinatorPublicKey == e.sortedSigners[h.firstWord(ToHex(AllBytes(e.sortedSigners))) % |signers|]
            else if name == "last-signer" then
              e.coordinatorIndex == |signers| - 1 && forall key | key in signers :: BytesAtMost(key, e.coordinatorPublicKey)
            else
              e.coordinatorIndex == 0 && forall key | key in signers :: BytesAtMost(e.coordinatorPublicKey, key)
  {
    WhoIsElected(h, signers, MethodNamed(name));
    hide Elect, ToHex, AllBytes, BytesAtMost;
  }

  /** And its backups: from the first signer on, from the last back, or round from the one elected; by
      any other name the list begins with signer 0. */
  lemma NamedPriorityList(h: Hashes, signers: seq<PublicKey>, name: string, i: nat)
    requires i < |signers|
    ensures var list, e := PriorityList(h, signers, MethodNamed(name)), Elect(h, signers, MethodNamed(name));
            && |list| == |signers|
            && (name == "first-signer" ==> list[i] == i)
            && (name == "last-signer" ==> list[i] == |signers| - 1 - i)
            && (name == "hash-based" ==> list[i] == (e.coordinatorIndex + i) % |signers|)
            && (name !in {"first-signer", "last-signer", "hash-based"} ==>
                  list[0] == 0 && (i > 0 ==> BackupCoordinator(signers, list[i - 1], Lexicographic) == Next(list[i])))
  {
    hide Turn, BackupCoordinator, Elect;
    var m := MethodNamed(name);
    TurnByMethod(h, signers, m, i);
    if i > 0 {
      TurnsFollowBackups(h, signers, m, i - 1);
    }
    if m == Lexicographic {
      TurnByMethod(h, signers, m, 0);
    }
  }

  lemma TurnByMethod(h: Hashes, signers: seq<PublicKey>, m: Method, i: nat)
    requires i < |signers|
    ensures m == FirstSigner ==> Turn(h, signers, m, i) == i
    ensures m == LastSigner ==> Turn(h, signers, m, i) == |signers| - 1 - i
    ensures m == HashBased ==> Turn(h, signers, m, i) == (Elect(h, signers, m).coordinatorIndex + i) % |signers|
    ensures m == Lexicographic && i == 0 ==> Turn(h, signers, m, 0) == 0
  {
    hide Ranked, ElectedIndex, SortedSigners, FindOriginal;
    if m == HashBased {
      AroundTheSigners(Elect(h, signers, m).coordinatorIndex, i, |signers|);
    }
  }

  lemma AroundTheSigners(start: nat, i: nat, n: nat)
    requires start < n && i < n
    ensures Cyclic(start, i, n) == (start + i) % n
  {
  }

  // ---------------------------------------------------------------- runs of timeouts

  /** The coordinator of a freshly elected session after `k` timeouts. */
  function CoordinatorAfter(h: Hashes, signers: seq<PublicKey>, name: string, k: nat): Option<nat>
    requires signers != []
  {
    if k == 0 then Some(Elect(h, signers, MethodNamed(name)).coordinatorIndex)
    else
      var before := CoordinatorAfter(h, signers, name, k - 1);
      IndexAfter(before, Timeout(signers, MethodNamed(name), before, name))
  }

  /** The turn of the signer at index 0. */
  function TurnOfZero(list: seq<nat>): nat {
    if list == [] || list[0] == 0 then 0 else 1 + TurnOfZero(list[1..])
  }

  lemma {:induction false} TurnOfZeroFinds(list: seq<nat>)
    requires 0 in list
    ensures TurnOfZero(list) < |list| && list[TurnOfZero(list)] == 0
    ensures 0 !in list[..TurnOfZero(list)]
  {
    if list[0] != 0 {
      assert list == [list[0]] + list[1..];
      TurnOfZeroFinds(list[1..]);
      assert list[..TurnOfZero(list)] == [list[0]] + list[1..][..TurnOfZero(list[1..])];
    }
  }

  /** Timeouts walk down the priority list, one place each, and stop at the signer of index 0. */
  lemma {:induction false} FailoverFollowsPriorityList(h: Hashes, signers: seq<PublicKey>, name: string, k: nat)
    requires signers != [] && name != ""
    ensures var list := PriorityList(h, signers, MethodNamed(name));
            && TurnOfZero(list) < |list| == |signers|
            && CoordinatorAfter(h, signers, name, k) == Some(list[if k < TurnOfZero(list) then k else TurnOfZero(list)])
  {
    var m := MethodNamed(name);
    var list := PriorityList(h, signers, m);
    PriorityListIsPermutation(h, signers, m);
    assert 0 in list;
    TurnOfZeroFinds(list);
    hide Elect, PriorityList, BackupCoordinator, MethodNamed, TurnOfZero;
    if k > 0 {
      FailoverFollowsPriorityList(h, signers, name, k - 1);
      if k <= TurnOfZero(list) {
        assert list[k - 1] in list[..TurnOfZero(list)];
        BackupAfterPrefix(h, signers, m, k);
      }
    }
  }

  /** No signer becomes coordinator a second time: after k changes k + 1 different ones had the role. */
  lemma NoCoordinatorTwice(h: Hashes, signers: seq<PublicKey>, name: string, i: nat, j: nat)
    requires signers != [] && name != "" && i < j
    requires CoordinatorAfter(h, signers, name, j - 1) != CoordinatorAfter(h, signers, name, j)
    ensures CoordinatorAfter(h, signers, name, i) != CoordinatorAfter(h, signers, name, j)
    ensures j < |signers|
  {
    FailoverFollowsPriorityList(h, signers, name, i);
    FailoverFollowsPriorityList(h, signers, name, j - 1);
    FailoverFollowsPriorityList(h, signers, name, j);
    PriorityListIsPermutation(h, signers, MethodNamed(name));
  }

  /** The signer at index `i` is coordinator after some number of timeouts. */
  ghost predicate IsTried(h: Hashes, signers: seq<PublicKey>, name: string, i: nat)
    requires signers != []
  {
    exists k: nat :: CoordinatorAfter(h, signers, name, k) == Some(i)
  }

  /** Failover tries every signer exactly when index 0 comes last in the priority list. */
  lemma EverySignerIsTriedExactlyWhenZeroIsLast(h: Hashes, signers: seq<PublicKey>, name: string)
    requires signers != [] && name != ""
    ensures (forall i: nat | i < |signers| :: IsTried(h, signers, name, i))
            <==> PriorityList(h, signers, MethodNamed(name))[|signers| - 1] == 0
  {
    var list, n := PriorityList(h, signers, MethodNamed(name)), |signers|;
    PriorityListIsPermutation(h, signers, MethodNamed(name));
    assert 0 in list;
    TurnOfZeroFinds(list);
    hide PriorityList, CoordinatorAfter, MethodNamed;
    if list[n - 1] == 0 {
      assert TurnOfZero(list) == n - 1;
      forall i: nat | i < n
        ensures IsTried(h, signers, name, i)
      {
        assert i in list;
        var k :| 0 <= k < n && list[k] == i;
        FailoverFollowsPriorityList(h, signers, name, k);
      }
    } else {
      var missed := list[n - 1];
      assert missed in list;
      forall k: nat
        ensures CoordinatorAfter(h, signers, name, k) != Some(missed)
      {
        FailoverFollowsPriorityList(h, signers, name, k);
      }
      assert !IsTried(h, signers, name, missed);
    }
  }

  /** Which that is: always for the last-signer method, and for hash-based election when it
      elects index 1. A method that elects index 0 never fails over at all. */
  lemma WhenZeroIsLast(h: Hashes, signers: seq<PublicKey>, m: Method)
    requires |signers| >= 2
    ensures PriorityList(h, signers, m)[|signers| - 1] == 0
            <==> m.LastSigner? || (m.HashBased? && Elect(h, signers, m).coordinatorIndex == 1)
  {
    PriorityListIsPermutation(h, signers, m);
    hide Ranked;
  }

  lemma ElectedZeroStays(h: Hashes, signers: seq<PublicKey>, name: string, k: nat)
    requires signers != [] && name != "" && MethodNamed(name) in {Lexicographic, FirstSigner}
    ensures CoordinatorAfter(h, signers, name, k) == Some(0)
  {
    FailoverFollowsPriorityList(h, signers, name, k);
    PriorityListIsPermutation(h, signers, MethodNamed(name));
  }

  // ---------------------------------------------------------------- the two index spaces

  /** The head of the lexicographic priority list, read as a position in the list as passed
      in, names the elected key exactly when that list starts with its smallest key. */
  lemma ListHeadIsElectedKey(h: Hashes, signers: seq<PublicKey>)
    requires signers != []
    ensures var head := PriorityList(h, signers, Lexicographic)[0];
            && head < |signers|
            && (signers[head] == Elect(h, signers, Lexicographic).coordinatorPublicKey
                <==> forall i | 0 <= i < |signers| :: BytesAtMost(signers[0], signers[i]))
  {
    PriorityListIsPermutation(h, signers, Lexicographic);
    SortedSignersAreSorted(signers);
    BytesOrder();
    var sorted := SortedSigners(signers);
    assert sorted[0] in multiset(signers);
    var low :| 0 <= low < |signers| && signers[low] == sorted[0];
    forall i | 0 <= i < |signers|
      ensures BytesAtMost(sorted[0], signers[i])
    {
      assert signers[i] in multiset(sorted);
      SortedHead(sorted, BytesAtMost, signers[i]);
    }
  }

  /** Signers passed in sorted order: the lexicographic list is the identity, so both readings agree. */
  lemma SortedSignersTakeTurnsInOrder(h: Hashes, signers: seq<PublicKey>)
    requires signers != [] && Sorted(signers, BytesAtMost)
    ensures PriorityList(h, signers, Lexicographic) == seq(|signers|, (i: nat) => i)
    ensures SortedSigners(signers) == signers
  {
    var tagged := WithIndex(signers);
    assert Sorted(tagged, ByKey);
    SortKeepsSorted(tagged, ByKey);
    SortedSignersAreSorted(signers);
    SortKeepsSorted(signers, BytesAtMost);
    assert RankOfFirst(signers) == 0;
  }

  /** For the other three methods the list itself does not depend on the order of the signers. */
  lemma OtherListsIgnoreOrder(h: Hashes, a: seq<PublicKey>, b: seq<PublicKey>, m: Method)
    requires a != [] && multiset(a) == multiset(b) && !m.Lexicographic?
    ensures b != [] && PriorityList(h, a, m) == PriorityList(h, b, m)
  {
    SortedSignersAgree(a, b);
  }
}
