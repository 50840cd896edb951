/** Coordinator election, its proofs, and the order of backups.

    Two index spaces meet here. An election answers with a position in the SORTED list of
    signers; the lexicographic backup rule reads the index it is given as a position in the
    list AS PASSED IN. The lemmas keep the two apart. */
module Election {
  import opened Hex
  import opened Outcomes
  import opened Sorting

  /** A key is its byte buffer; `toString()` is the buffer in lower-case hex. */
  type PublicKey = seq<Byte>

  datatype Method = Lexicographic | HashBased | FirstSigner | LastSigner

  /** The two uses of SHA-256 on a text: its first four bytes as a number, and the digest in hex. */
  datatype Hashes = Hashes(firstWord: string -> nat, digest: string -> string)

  datatype Indexed = Indexed(originalIndex: nat, publicKey: PublicKey)

  datatype ElectionResult = ElectionResult(
    coordinatorIndex: nat,
    coordinatorPublicKey: PublicKey,
    sortedSigners: seq<PublicKey>,
    indexMapping: map<nat, nat>,
    electionProof: string)

  // ---------------------------------------------------------------- order of keys

  function ByteCode(b: Byte): int { b }

  function CharCode(c: char): int { c as int }

  /** `Buffer.compare(a, b) <= 0`. */
  predicate BytesAtMost(a: PublicKey, b: PublicKey) {
    DictionaryAtMost(a, b, ByteCode)
  }

  /** Text order by code unit, which on hex text is also what `localeCompare` gives. */
  predicate TextAtMost(a: string, b: string) {
    DictionaryAtMost(a, b, CharCode)
  }

  lemma BytesOrder()
    ensures IsTotalPreorder(BytesAtMost) && OnlyEqualsTie(BytesAtMost)
  {
    forall a: PublicKey, b: PublicKey
      ensures BytesAtMost(a, b) || BytesAtMost(b, a)
      ensures BytesAtMost(a, b) && BytesAtMost(b, a) ==> a == b
    {
      DictionaryTotal(a, b, ByteCode);
      if BytesAtMost(a, b) && BytesAtMost(b, a) {
        DictionaryAntisymmetric(a, b, ByteCode);
      }
    }
    forall a: PublicKey, b: PublicKey, c: PublicKey | BytesAtMost(a, b) && BytesAtMost(b, c)
      ensures BytesAtMost(a, c)
    {
      DictionaryTransitive(a, b, c, ByteCode);
    }
  }

  lemma HexDigitsInOrder(a: nat, b: nat)
    requires a < 16 && b < 16
    ensures HexDigit(a) < HexDigit(b) <==> a < b
    ensures HexDigit(a) == HexDigit(b) <==> a == b
  {
  }

  lemma TwoDigitsThenRest(c1: char, c2: char, s: string, d1: char, d2: char, t: string)
    ensures TextAtMost([c1, c2] + s, [d1, d2] + t)
            <==> c1 < d1 || (c1 == d1 && (c2 < d2 || (c2 == d2 && TextAtMost(s, t))))
  {
    var a, b := [c1, c2] + s, [d1, d2] + t;
    assert a[1..] == [c2] + s && b[1..] == [d2] + t;
    assert a[1..][1..] == s && b[1..][1..] == t;
    assert DictionaryAtMost(a[1..], b[1..], CharCode) <==> c2 < d2 || (c2 == d2 && TextAtMost(s, t));
  }

  /** Ranking by hex text and ranking by bytes agree, so backups rank as the election does. */
  lemma {:induction false} HexOrderIsByteOrder(a: PublicKey, b: PublicKey)
    ensures TextAtMost(ToHex(a), ToHex(b)) <==> BytesAtMost(a, b)
  {
    if a != [] && b != [] {
      HexOrderIsByteOrder(a[1..], b[1..]);
      var a1, a2, b1, b2 := a[0] / 16, a[0] % 16, b[0] / 16, b[0] % 16;
      HexDigitsInOrder(a1, b1);
      HexDigitsInOrder(a2, b2);
      TwoDigitsThenRest(HexDigit(a1), HexDigit(a2), ToHex(a[1..]), HexDigit(b1), HexDigit(b2), ToHex(b[1..]));
      assert a[0] == 16 * a1 + a2 && b[0] == 16 * b1 + b2;
      hide HexDigit, TextAtMost;
    }
  }

  function KeyOf(x: Indexed): PublicKey { x.publicKey }

  predicate ByKey(a: Indexed, b: Indexed) {
    BytesAtMost(a.publicKey, b.publicKey)
  }

  predicate ByHex(a: Indexed, b: Indexed) {
    TextAtMost(ToHex(a.publicKey), ToHex(b.publicKey))
  }

  // ---------------------------------------------------------------- the sorted signers

  function WithIndex(signers: seq<PublicKey>): seq<Indexed> {
    seq(|signers|, (i: nat) requires i < |signers| => Indexed(i, signers[i]))
  }

  function Ranked(signers: seq<PublicKey>): seq<Indexed> {
    Sort(WithIndex(signers), ByKey)
  }

  /** `ranked` lists every position of `signers` once, with its key, in key order. */
  ghost predicate IsRanking(ranked: seq<Indexed>, signers: seq<PublicKey>) {
    && |ranked| == |signers|
    && Sorted(ranked, ByKey)
    && (forall r | 0 <= r < |ranked| ::
          ranked[r].originalIndex < |signers| && ranked[r].publicKey == signers[ranked[r].originalIndex])
    && (forall r, t | 0 <= r < t < |ranked| :: ranked[r].originalIndex != ranked[t].originalIndex)
    && (forall i | 0 <= i < |signers| :: Indexed(i, signers[i]) in ranked)
  }

  lemma RankedIsRanking(signers: seq<PublicKey>)
    ensures IsRanking(Ranked(signers), signers)
  {
    BytesOrder();
    assert IsTotalPreorder(ByKey);
    var tagged, ranked := WithIndex(signers), Ranked(signers);
    SortSorts(tagged, ByKey);
    DistinctSurvives(tagged, ranked);
    forall r | 0 <= r < |ranked|
      ensures ranked[r].originalIndex < |signers| && ranked[r].publicKey == signers[ranked[r].originalIndex]
    {
      assert ranked[r] in multiset(tagged);
    }
    forall i | 0 <= i < |signers|
      ensures Indexed(i, signers[i]) in ranked
    {
      assert tagged[i] in multiset(ranked);
    }
  }

  function SortedSigners(signers: seq<PublicKey>): (sorted: seq<PublicKey>)
    ensures |sorted| == |signers|
  {
    RankedIsRanking(signers);
    Map(Ranked(signers), KeyOf)
  }

  /** Tagging the keys with their positions does not affect how the keys are sorted. */
  lemma SortedSignersAreSorted(signers: seq<PublicKey>)
    ensures SortedSigners(signers) == Sort(signers, BytesAtMost)
    ensures Sorted(SortedSigners(signers), BytesAtMost)
    ensures multiset(SortedSigners(signers)) == multiset(signers)
  {
    SortCommutes(WithIndex(signers), KeyOf, ByKey, BytesAtMost);
    assert Map(WithIndex(signers), KeyOf) == signers;
    BytesOrder();
    SortSorts(signers, BytesAtMost);
  }

  /** Any two orderings of the same signers are sorted into the same list. */
  lemma SortedSignersAgree(a: seq<PublicKey>, b: seq<PublicKey>)
    requires multiset(a) == multiset(b)
    ensures SortedSigners(a) == SortedSigners(b) && |a| == |b|
  {
    SortedSignersAreSorted(a);
    SortedSignersAreSorted(b);
    BytesOrder();
    SortedIsUnique(SortedSigners(a), SortedSigners(b), BytesAtMost);
  }

  // ---------------------------------------------------------------- election

  function Join(texts: seq<string>): string {
    if texts == [] then "" else texts[0] + Join(texts[1..])
  }

  function HexTexts(keys: seq<PublicKey>): seq<string> {
    Map(keys, ToHex)
  }

  function ElectionProof(h: Hashes, signers: seq<PublicKey>): string {
    h.digest(Join(Sort(HexTexts(signers), TextAtMost)))
  }

  function ElectedIndex(h: Hashes, sorted: seq<PublicKey>, m: Method): (index: nat)
    requires sorted != []
    ensures index < |sorted|
  {
    match m
    case Lexicographic => 0
    case HashBased => h.firstWord(Join(HexTexts(sorted))) % |sorted|
    case FirstSigner => 0
    case LastSigner => |sorted| - 1
  }

  /** `indexMapping` after the first `n` entries of the ranking have been set. */
  function IndexMapping(ranked: seq<Indexed>, n: nat): map<nat, nat>
    requires n <= |ranked|
  {
    if n == 0 then map[] else IndexMapping(ranked, n - 1)[ranked[n - 1].originalIndex := n - 1]
  }

  function Elect(h: Hashes, signers: seq<PublicKey>, m: Method): ElectionResult
    requires signers != []
  {
    var sorted := SortedSigners(signers);
    var index := ElectedIndex(h, sorted, m);
    ElectionResult(index, sorted[index], sorted, IndexMapping(Ranked(signers), |Ranked(signers)|), ElectionProof(h, signers))
  }

  lemma SingleSigner(signers: seq<PublicKey>)
    requires |signers| == 1
    ensures SortedSigners(signers) == signers
    ensures IndexMapping(Ranked(signers), |Ranked(signers)|) == map[0 := 0]
  {
    SortKeepsSorted(WithIndex(signers), ByKey);
    var ranked := Ranked(signers);
    assert ranked == [Indexed(0, signers[0])];
    assert |Map(ranked, KeyOf)| == 1 && Map(ranked, KeyOf)[0] == KeyOf(ranked[0]);
    assert IndexMapping(ranked, 0) == map[];
    assert IndexMapping(ranked, 1) == map[][0 := 0];
  }

  method ElectCoordinator(h: Hashes, signers: seq<PublicKey>, m: Method) returns (r: Result<ElectionResult>)
    ensures signers == [] <==> r.Error?
    ensures signers != [] ==> r == Ok(Elect(h, signers, m))
  {
    if |signers| == 0 {
      return Error("Cannot elect coordinator: no signers provided");
    }
    hide ElectionProof, Join, IsRanking, HexTexts;
    if |signers| == 1 {
      SingleSigner(signers);
      assert signers == [signers[0]];
      return Ok(ElectionResult(0, signers[0], [signers[0]], map[0 := 0], ElectionProof(h, signers)));
    }
    var indexed := Sort(WithIndex(signers), ByKey);
    var sortedSigners := Map(indexed, KeyOf);
    var index := match m
      case Lexicographic => 0
      case HashBased => h.firstWord(Join(HexTexts(sortedSigners))) % |sortedSigners|
      case FirstSigner => 0
      case LastSigner => |sortedSigners| - 1;
    var indexMapping: map<nat, nat> := map[];
    for sortedIndex := 0 to |indexed|
      invariant indexMapping == IndexMapping(indexed, sortedIndex)
    {
      indexMapping := indexMapping[indexed[sortedIndex].originalIndex := sortedIndex];
    }
    return Ok(ElectionResult(index, sortedSigners[index], sortedSigners, indexMapping, ElectionProof(h, signers)));
  }

  lemma {:induction false} IndexMappingIsInverse(ranked: seq<Indexed>, n: nat)
    requires n <= |ranked|
    ensures forall r | 0 <= r < n :: ranked[r].originalIndex in IndexMapping(ranked, n)
    ensures forall i | i in IndexMapping(ranked, n) ::
              IndexMapping(ranked, n)[i] < n && ranked[IndexMapping(ranked, n)[i]].originalIndex == i
  {
    if n > 0 {
      IndexMappingIsInverse(ranked, n - 1);
    }
  }

  lemma EverySignerIsMapped(ranked: seq<Indexed>, signers: seq<PublicKey>)
    requires IsRanking(ranked, signers)
    ensures var mapping := IndexMapping(ranked, |ranked|);
            && (forall i: nat :: i in mapping <==> i < |signers|)
            && (forall i: nat | i in mapping :: mapping[i] < |ranked| && ranked[mapping[i]] == Indexed(i, signers[i]))
  {
    IndexMappingIsInverse(ranked, |ranked|);
    var mapping := IndexMapping(ranked, |ranked|);
    forall i: nat
      ensures i in mapping <==> i < |signers|
    {
      if i < |signers| {
        var r :| 0 <= r < |ranked| && ranked[r] == Indexed(i, signers[i]);
        assert ranked[r].originalIndex in mapping;
      }
    }
  }

  /** `indexMapping` is a bijection that takes each signer to its own key in the sorted list. */
  lemma IndexMappingIsBijection(h: Hashes, signers: seq<PublicKey>, m: Method)
    requires signers != []
    ensures var e := Elect(h, signers, m);
            && (forall i: nat :: i in e.indexMapping <==> i < |signers|)
            && (forall i: nat | i < |signers| ::
                  e.indexMapping[i] < |signers| && e.sortedSigners[e.indexMapping[i]] == signers[i])
            && (forall i: nat, j: nat | i < j < |signers| :: e.indexMapping[i] != e.indexMapping[j])
  {
    hide IsRanking, IndexMapping, ElectionProof, ElectedIndex;
    var ranked, e := Ranked(signers), Elect(h, signers, m);
    RankedIsRanking(signers);
    EverySignerIsMapped(ranked, signers);
    assert e.indexMapping == IndexMapping(ranked, |ranked|);
    MappedKeys(ranked, e.indexMapping, signers);
  }

  lemma MappedKeys(ranked: seq<Indexed>, mapping: map<nat, nat>, signers: seq<PublicKey>)
    requires forall i: nat :: i in mapping <==> i < |signers|
    requires forall i: nat | i in mapping :: mapping[i] < |ranked| && ranked[mapping[i]] == Indexed(i, signers[i])
    ensures forall i: nat | i < |signers| :: Map(ranked, KeyOf)[mapping[i]] == signers[i]
    ensures forall i: nat, j: nat | i < j < |signers| :: mapping[i] != mapping[j]
  {
    forall i: nat | i < |signers|
      ensures Map(ranked, KeyOf)[mapping[i]] == signers[i]
    {
      assert Map(ranked, KeyOf)[mapping[i]] == KeyOf(ranked[mapping[i]]);
    }
    forall i: nat, j: nat | i < j < |signers|
      ensures mapping[i] != mapping[j]
    {
      assert ranked[mapping[i]] != ranked[mapping[j]];
    }
  }

  /** The proof hashes the keys in the order the election sorts them. */
  lemma ProofHashesSortedSigners(h: Hashes, signers: seq<PublicKey>)
    ensures ElectionProof(h, signers) == h.digest(Join(HexTexts(SortedSigners(signers))))
  {
    forall a: PublicKey, b: PublicKey
      ensures BytesAtMost(a, b) == TextAtMost(ToHex(a), ToHex(b))
    {
      HexOrderIsByteOrder(a, b);
    }
    SortCommutes(signers, ToHex, BytesAtMost, TextAtMost);
    SortedSignersAreSorted(signers);
  }

  /** Agreement: the outcome depends on the signers, not on the order a party lists them in. */
  lemma ElectionIgnoresOrder(h: Hashes, a: seq<PublicKey>, b: seq<PublicKey>, m: Method)
    requires a != [] && multiset(a) == multiset(b)
    ensures b != []
    ensures Elect(h, a, m).(indexMapping := map[]) == Elect(h, b, m).(indexMapping := map[])
  {
    SortedSignersAgree(a, b);
    ProofHashesSortedSigners(h, a);
    ProofHashesSortedSigners(h, b);
  }

  function VerifyElectionResult(h: Hashes, signers: seq<PublicKey>, result: ElectionResult, m: Method): Result<bool> {
    if signers == [] then Error("Cannot elect coordinator: no signers provided")
    else
      var expected := Elect(h, signers, m);
      Ok(expected.coordinatorIndex == result.coordinatorIndex && expected.electionProof == result.electionProof)
  }

  /** Whatever the hashes, a result elected among the same signers in any order is accepted. */
  lemma SameSignersVerify(h: Hashes, mine: seq<PublicKey>, theirs: seq<PublicKey>, m: Method)
    requires mine != [] && multiset(mine) == multiset(theirs)
    ensures theirs != [] && VerifyElectionResult(h, mine, Elect(h, theirs, m), m) == Ok(true)
  {
    ElectionIgnoresOrder(h, mine, theirs, m);
  }

  lemma JoinStarts(keys: seq<PublicKey>)
    requires keys != []
    ensures |ToHex(keys[0])| == 2 * |keys[0]|
    ensures Join(HexTexts(keys)) == ToHex(keys[0]) + Join(HexTexts(keys[1..]))
  {
    BytesSurviveHex(keys[0]);
    assert HexTexts(keys)[1..] == HexTexts(keys[1..]);
  }

  ghost predicate AllOfLength(keys: seq<PublicKey>, length: nat) {
    forall i | 0 <= i < |keys| :: |keys[i]| == length
  }

  /** Keys of one length can be read back from their joined hex. */
  lemma {:induction false} JoinSplits(a: seq<PublicKey>, b: seq<PublicKey>, length: nat)
    requires length > 0 && AllOfLength(a, length) && AllOfLength(b, length)
    requires Join(HexTexts(a)) == Join(HexTexts(b))
    ensures a == b
  {
    if a != [] {
      JoinStarts(a);
    }
    if b != [] {
      JoinStarts(b);
    }
    if a != [] && b != [] {
      var whole, ha, hb := Join(HexTexts(a)), ToHex(a[0]), ToHex(b[0]);
      var ra, rb := Join(HexTexts(a[1..])), Join(HexTexts(b[1..]));
      SplitAt(ha, ra, hb, rb);
      HexIsInjective(a[0], b[0]);
      JoinSplits(a[1..], b[1..], length);
      assert a == [a[0]] + a[1..] && b == [b[0]] + b[1..];
    }
  }

  lemma SplitAt(a: string, x: string, b: string, y: string)
    requires a + x == b + y && |a| == |b|
    ensures a == b && x == y
  {
    assert (a + x)[..|a|] == a && (b + y)[..|a|] == b;
    assert (a + x)[|a|..] == x && (b + y)[|a|..] == y;
  }

  lemma HexIsInjective(a: PublicKey, b: PublicKey)
    requires ToHex(a) == ToHex(b)
    ensures a == b
  {
    BytesSurviveHex(a);
    BytesSurviveHex(b);
  }

  /** With keys of one length and a hash without collisions, a party accepts another's result
      exactly when both elected among the same signers. */
  lemma VerificationComparesSigners(h: Hashes, mine: seq<PublicKey>, theirs: seq<PublicKey>, m: Method, length: nat)
    requires mine != [] && theirs != [] && length > 0 && AllOfLength(mine, length) && AllOfLength(theirs, length)
    requires Injective(h.digest)
    ensures VerifyElectionResult(h, mine, Elect(h, theirs, m), m) == Ok(multiset(mine) == multiset(theirs))
  {
    if multiset(mine) == multiset(theirs) {
      ElectionIgnoresOrder(h, mine, theirs, m);
    }
    if ElectionProof(h, mine) == ElectionProof(h, theirs) {
      ProofsCompareSigners(h, mine, theirs, length);
    }
  }

  lemma ProofsCompareSigners(h: Hashes, mine: seq<PublicKey>, theirs: seq<PublicKey>, length: nat)
    requires length > 0 && AllOfLength(mine, length) && AllOfLength(theirs, length) && Injective(h.digest)
    requires ElectionProof(h, mine) == ElectionProof(h, theirs)
    ensures multiset(mine) == multiset(theirs)
  {
    ProofHashesSortedSigners(h, mine);
    ProofHashesSortedSigners(h, theirs);
    SortedSignersAreSorted(mine);
    SortedSignersAreSorted(theirs);
    var a, b := SortedSigners(mine), SortedSigners(theirs);
    forall i | 0 <= i < |a|
      ensures |a[i]| == length
    {
      assert a[i] in multiset(mine);
    }
    forall i | 0 <= i < |b|
      ensures |b[i]| == length
    {
      assert b[i] in multiset(theirs);
    }
    JoinSplits(a, b, length);
  }

  /** Of all results there are, honest or forged, a party accepts exactly those with the index and the proof of
      an election among the same signers, listed in whatever order. */
  lemma AcceptedExactly(h: Hashes, mine: seq<PublicKey>, result: ElectionResult, m: Method)
    requires mine != []
    ensures VerifyElectionResult(h, mine, result, m) == Ok(true) <==>
              exists theirs: seq<PublicKey> :: multiset(theirs) == multiset(mine) && HasIndexAndProof(h, theirs, result, m)
    ensures VerifyElectionResult(h, mine, result, m) in {Ok(true), Ok(false)}
  {
    hide ElectionProof, ElectedIndex, SortedSigners, IndexMapping;
    forall theirs: seq<PublicKey> | multiset(theirs) == multiset(mine) && HasIndexAndProof(h, theirs, result, m)
      ensures VerifyElectionResult(h, mine, result, m) == Ok(true)
    {
      ElectionIgnoresOrder(h, mine, theirs, m);
    }
    if VerifyElectionResult(h, mine, result, m) == Ok(true) {
      assert HasIndexAndProof(h, mine, result, m);
    }
  }

  ghost predicate HasIndexAndProof(h: Hashes, signers: seq<PublicKey>, result: ElectionResult, m: Method) {
    signers != [] && result.coordinatorIndex == Elect(h, signers, m).coordinatorIndex
    && result.electionProof == Elect(h, signers, m).electionProof
  }

  /** With keys of one length and a hash without collisions the proof alone gives the signers away: whatever an
      accepted result was elected among, these were my signers; and no other index is accepted with it. */
  lemma AcceptedMeansMySigners(h: Hashes, mine: seq<PublicKey>, theirs: seq<PublicKey>, result: ElectionResult, m: Method,
                               m': Method, length: nat)
    requires mine != [] && theirs != [] && length > 0 && AllOfLength(mine, length) && AllOfLength(theirs, length)
    requires Injective(h.digest) && result.electionProof == Elect(h, theirs, m').electionProof
    ensures VerifyElectionResult(h, mine, result, m) == Ok(true) <==>
              multiset(mine) == multiset(theirs) && result.coordinatorIndex == Elect(h, mine, m).coordinatorIndex
  {
    hide ElectedIndex, ElectionProof, SortedSigners, IndexMapping;
    VerificationComparesSigners(h, mine, theirs, m, length);
    if multiset(mine) == multiset(theirs) {
      ElectionIgnoresOrder(h, mine, theirs, m);
    }
    SameProof(h, theirs, m, m');
    SameProof(h, mine, m, m');
    if Elect(h, mine, m).electionProof == result.electionProof && Elect(h, mine, m).coordinatorIndex == Elect(h, theirs, m).coordinatorIndex {
      assert VerifyElectionResult(h, mine, Elect(h, theirs, m), m) == Ok(true);
    }
    if Elect(h, mine, m).electionProof == result.electionProof {
      ProofsCompareSigners(h, mine, theirs, length);
    }
  }

  lemma SameProof(h: Hashes, signers: seq<PublicKey>, m: Method, m': Method)
    requires signers != []
    ensures Elect(h, signers, m).electionProof == Elect(h, signers, m').electionProof == ElectionProof(h, signers)
  {
  }

  // ---------------------------------------------------------------- who is elected

  /** The bytes of the keys, laid end to end. */
  function AllBytes(keys: seq<PublicKey>): seq<Byte> {
    if keys == [] then [] else keys[0] + AllBytes(keys[1..])
  }

  /** The text that is hashed is the hex of all keys' bytes. */
  lemma {:induction false} JoinedHexIsHexOfBytes(keys: seq<PublicKey>)
    ensures Join(HexTexts(keys)) == ToHex(AllBytes(keys))
  {
    if keys != [] {
      JoinStarts(keys);
      JoinedHexIsHexOfBytes(keys[1..]);
      HexOfConcat(keys[0], AllBytes(keys[1..]));
    }
  }

  /** The coordinator has the smallest key, or the largest for the last-signer method; for hash-based
      election the first word of the hash of all keys in order, modulo their number, is its index. */
  lemma WhoIsElected(h: Hashes, signers: seq<PublicKey>, m: Method)
    requires signers != []
    ensures var e := Elect(h, signers, m);
            && e.coordinatorIndex < |e.sortedSigners| == |signers| && e.coordinatorPublicKey == e.sortedSigners[e.coordinatorIndex]
            && e.electionProof == h.digest(ToHex(AllBytes(e.sortedSigners)))
            && (m == HashBased ==> e.coordinatorIndex == h.firstWord(ToHex(AllBytes(e.sortedSigners))) % |signers|)
            && (m == Lexicographic || m == FirstSigner ==>
                  e.coordinatorIndex == 0 && forall key | key in signers :: BytesAtMost(e.coordinatorPublicKey, key))
            && (m == LastSigner ==>
                  e.coordinatorIndex == |signers| - 1 && forall key | key in signers :: BytesAtMost(key, e.coordinatorPublicKey))
  {
    hide ToHex, Join, HexTexts, ElectionProof, BytesAtMost, IsRanking, Ranked, AllBytes;
    var sorted := SortedSigners(signers);
    ProofHashesSortedSigners(h, signers);
    JoinedHexIsHexOfBytes(sorted);
    FirstAndLast(signers);
  }

  lemma FirstAndLast(signers: seq<PublicKey>)
    requires signers != []
    ensures var sorted := SortedSigners(signers);
            forall key | key in signers :: BytesAtMost(sorted[0], key) && BytesAtMost(key, sorted[|sorted| - 1])
  {
    hide BytesAtMost, SortedSigners;
    var sorted := SortedSigners(signers);
    SortedSignersAreSorted(signers);
    BytesOrder();
    forall key | key in signers
      ensures BytesAtMost(sorted[0], key) && BytesAtMost(key, sorted[|sorted| - 1])
    {
      assert key in multiset(sorted);
      var i :| 0 <= i < |sorted| && sorted[i] == key;
      assert BytesAtMost(key, key);
    }
  }

  lemma BelowModulus(i: nat, n: nat)
    requires i < n
    ensures i % n == i
  {
  }

  /** The hash decides: of any signers, each can be the one elected. */
  lemma HashDecides(h: Hashes, signers: seq<PublicKey>, i: nat)
    requires i < |signers|
    ensures Elect(Hashes(_ => i, h.digest), signers, HashBased).coordinatorIndex == i
  {
    hide Elect, ToHex, AllBytes;
    WhoIsElected(Hashes(_ => i, h.digest), signers, HashBased);
    BelowModulus(i, |signers|);
  }

  // ---------------------------------------------------------------- backups

  datatype Backup = Next(index: nat) | NoBackup | NotFound

  function FindOriginal(ranked: seq<Indexed>, i: nat): (r: nat)
    ensures r <= |ranked| && (r < |ranked| ==> ranked[r].originalIndex == i)
    ensures forall j | 0 <= j < r :: ranked[j].originalIndex != i
  {
    FirstIndex(ranked, (item: Indexed) => item.originalIndex == i)
  }

  function BackupCoordinator(signers: seq<PublicKey>, current: nat, m: Method): Backup
    requires signers != []
  {
    if |signers| == 1 then NoBackup
    else
      match m
      case Lexicographic =>
        var ranked := Sort(WithIndex(signers), ByHex);
        var r := FindOriginal(ranked, current);
        if r >= |ranked| then NotFound else Next(ranked[(r + 1) % |ranked|].originalIndex)
      case HashBased => Next((current + 1) % |signers|)
      case FirstSigner => if current + 1 >= |signers| then NoBackup else Next(current + 1)
      case LastSigner => if current < 1 then NoBackup else Next(current - 1)
  }

  function Cyclic(start: nat, i: nat, n: nat): (r: nat)
    requires start < n && i < n
    ensures r < n
  {
    if start + i < n then start + i else start + i - n
  }

  /** The place of position 0 of the signers in the key order. */
  function RankOfFirst(signers: seq<PublicKey>): (r: nat)
    requires signers != []
    ensures r < |signers| && |Ranked(signers)| == |signers|
    ensures Ranked(signers)[r].originalIndex == 0
  {
    RankedIsRanking(signers);
    assert Indexed(0, signers[0]) in Ranked(signers);
    FindOriginal(Ranked(signers), 0)
  }

  /** Who is tried in turn `i`, in closed form. */
  function Turn(h: Hashes, signers: seq<PublicKey>, m: Method, i: nat): (index: nat)
    requires i < |signers|
  {
    match m
    case Lexicographic => Ranked(signers)[Cyclic(RankOfFirst(signers), i, |signers|)].originalIndex
    case HashBased => Cyclic(ElectedIndex(h, SortedSigners(signers), m), i, |signers|)
    case FirstSigner => i
    case LastSigner => |signers| - 1 - i
  }

  function PriorityList(h: Hashes, signers: seq<PublicKey>, m: Method): seq<nat> {
    seq(|signers|, (i: nat) requires i < |signers| => Turn(h, signers, m, i))
  }

  lemma RankedByHex(signers: seq<PublicKey>)
    ensures Sort(WithIndex(signers), ByHex) == Ranked(signers)
  {
    forall a: Indexed, b: Indexed
      ensures ByHex(a, b) == ByKey(a, b)
    {
      HexOrderIsByteOrder(a.publicKey, b.publicKey);
    }
    SortSameOrder(WithIndex(signers), ByHex, ByKey);
  }

  lemma FindOriginalAt(ranked: seq<Indexed>, signers: seq<PublicKey>, r: nat)
    requires IsRanking(ranked, signers) && r < |ranked|
    ensures FindOriginal(ranked, ranked[r].originalIndex) == r
  {
  }

  lemma NextModulo(k: nat, n: nat)
    requires k < n
    ensures (k + 1) % n == if k + 1 == n then 0 else k + 1
  {
  }

  /** The lexicographic backup is the next in key order, counted in positions of the list as passed in. */
  lemma LexicographicBackup(signers: seq<PublicKey>, r: nat)
    requires |signers| > 1 && r < |Ranked(signers)| == |signers|
    ensures BackupCoordinator(signers, Ranked(signers)[r].originalIndex, Lexicographic)
            == Next(Ranked(signers)[if r + 1 == |signers| then 0 else r + 1].originalIndex)
  {
    hide Sort, Ranked, FindOriginal, IsRanking, WithIndex;
    RankedByHex(signers);
    RankedIsRanking(signers);
    FindOriginalAt(Ranked(signers), signers, r);
    NextModulo(r, |signers|);
  }

  lemma TurnsFollowBackups(h: Hashes, signers: seq<PublicKey>, m: Method, i: nat)
    requires i < |signers|
    ensures i + 1 < |signers| ==> BackupCoordinator(signers, Turn(h, signers, m, i), m) == Next(Turn(h, signers, m, i + 1))
    ensures i + 1 == |signers| ==>
              BackupCoordinator(signers, Turn(h, signers, m, i), m) in {NoBackup, Next(Turn(h, signers, m, 0))}
  {
    hide Ranked, FindOriginal, Sort, WithIndex;
    if m.Lexicographic? && |signers| > 1 {
      hide BackupCoordinator;
      LexicographicBackup(signers, Cyclic(RankOfFirst(signers), i, |signers|));
    } else if m.HashBased? {
      var current := Turn(h, signers, m, i);
      NextModulo(current, |signers|);
    }
  }

  /** From the first `k` turns the backup rule leads to turn `k`, or, after all of them, back or nowhere. */
  lemma BackupAfterPrefix(h: Hashes, signers: seq<PublicKey>, m: Method, k: nat)
    requires 0 < k <= |signers|
    ensures var full := PriorityList(h, signers, m);
            && |full| == |signers|
            && var backup := BackupCoordinator(signers, full[k - 1], m);
            && (k < |signers| ==> backup == Next(full[k]) && full[k] !in full[..k])
            && (k == |signers| ==> backup == NoBackup || (backup.Next? && backup.index in full[..k]))
  {
    hide Turn, BackupCoordinator, Elect;
    TurnsFollowBackups(h, signers, m, k - 1);
    PriorityListIsPermutation(h, signers, m);
    var full := PriorityList(h, signers, m);
    TurnsInList(h, signers, m);
    hide PriorityList;
    assert full[..k][0] == full[0];
    assert k < |signers| ==> forall i | 0 <= i < k :: full[..k][i] == full[i] != full[k];
  }

  lemma TurnsInList(h: Hashes, signers: seq<PublicKey>, m: Method)
    ensures |PriorityList(h, signers, m)| == |signers|
    ensures forall i | 0 <= i < |signers| :: PriorityList(h, signers, m)[i] == Turn(h, signers, m, i)
  {
    hide Turn;
  }

  lemma ElectedTurnIsFirst(h: Hashes, signers: seq<PublicKey>, m: Method)
    requires signers != []
    ensures |PriorityList(h, signers, m)| == |signers|
    ensures PriorityList(h, signers, m)[..1] == [Elect(h, signers, m).coordinatorIndex]
  {
    PriorityListIsPermutation(h, signers, m);
  }

  /** `getCoordinatorPriorityList`: the open-ended loop ends, and yields the closed form. */
  method GetCoordinatorPriorityList(h: Hashes, signers: seq<PublicKey>, m: Method) returns (r: Result<seq<nat>>)
    ensures signers == [] <==> r.Error?
    ensures signers != [] ==> r == Ok(PriorityList(h, signers, m))
  {
    hide *;
    var election := ElectCoordinator(h, signers, m);
    if election.Error? {
      return Error(election.message);
    }
    ghost var full := PriorityList(h, signers, m);
    ElectedTurnIsFirst(h, signers, m);
    var priorityList := [election.value.coordinatorIndex];
    var currentIndex := election.value.coordinatorIndex;
    assert full[0] == full[..1][0];
    while true
      invariant 1 <= |priorityList| <= |signers|
      invariant priorityList == full[..|priorityList|]
      invariant currentIndex == full[|priorityList| - 1]
      decreases |signers| - |priorityList|
    {
      BackupAfterPrefix(h, signers, m, |priorityList|);
      var backup := BackupCoordinator(signers, currentIndex, m);
      if !backup.Next? || backup.index in priorityList {
        break;
      }
      assert full[..|priorityList| + 1] == full[..|priorityList|] + [full[|priorityList|]];
      priorityList := priorityList + [backup.index];
      currentIndex := backup.index;
    }
    assert full[..|signers|] == full;
    return Ok(priorityList);
  }

  /** Every signer has exactly one turn, and the elected one the first. */
  lemma PriorityListIsPermutation(h: Hashes, signers: seq<PublicKey>, m: Method)
    requires signers != []
    ensures var list := PriorityList(h, signers, m);
            && |list| == |signers| && Distinct(list)
            && (forall i: nat :: i in list <==> i < |signers|)
            && list[0] == Elect(h, signers, m).coordinatorIndex
  {
    var list, n := PriorityList(h, signers, m), |signers|;
    RankedIsRanking(signers);
    forall i, j | 0 <= i < j < n
      ensures list[i] != list[j]
    {
      if m.Lexicographic? {
        var a, b := Cyclic(RankOfFirst(signers), i, n), Cyclic(RankOfFirst(signers), j, n);
        assert a != b;
      }
    }
    AllBelow(list, n);
  }

  lemma AllBelow(list: seq<nat>, n: nat)
    requires Distinct(list) && |list| == n && forall i | 0 <= i < n :: list[i] < n
    ensures forall i: nat :: i in list <==> i < n
  {
    var s := set i | 0 <= i < |list| :: list[i];
    DistinctCount(list);
    assert forall x :: x in s <==> x in list;
    Pigeonhole(s, n);
  }

  lemma {:induction false} DistinctCount(list: seq<nat>)
    requires Distinct(list)
    ensures |set i | 0 <= i < |list| :: list[i]| == |list|
  {
    var s := set i | 0 <= i < |list| :: list[i];
    if list != [] {
      var rest := list[..|list| - 1];
      DistinctCount(rest);
      var t := set i | 0 <= i < |rest| :: rest[i];
      var last := list[|list| - 1];
      assert s == t + {last} by {
        forall x | x in s
          ensures x in t + {last}
        {
          var i :| 0 <= i < |list| && list[i] == x;
          assert i < |rest| ==> rest[i] == x;
        }
        forall x | x in t
          ensures x in s
        {
          var i :| 0 <= i < |rest| && rest[i] == x;
          assert list[i] == x;
        }
      }
      assert last !in t;
    }
  }
}
