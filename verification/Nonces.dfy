/** The nonce map `r1, r2, .., rn`: its encoder, its decoder and the validator between them.

    Keys are ranked by the number after the `r`, not as text: as text `r10` comes before `r2`. */
module Nonces {
  import opened Codecs
  import opened Hex
  import opened Outcomes
  import opened Sorting

  // ---------------------------------------------------------------- decimal numerals

  predicate IsDigit(c: char) {
    '0' <= c <= '9'
  }

  function Digit(d: nat): char
    requires d < 10
  {
    '0' + d as char
  }

  function DigitValueOf(c: char): nat
    requires IsDigit(c)
  {
    c as int - '0' as int
  }

  function Decimal(n: nat): string {
    if n < 10 then [Digit(n)] else Decimal(n / 10) + [Digit(n % 10)]
  }

  predicate IsNumeral(text: string) {
    text != "" && forall i | 0 <= i < |text| :: IsDigit(text[i])
  }

  /** `parseInt` of a text of digits. */
  function ParseInt(text: string): nat
    requires forall i | 0 <= i < |text| :: IsDigit(text[i])
  {
    if text == "" then 0
    else 10 * ParseInt(text[..|text| - 1]) + DigitValueOf(text[|text| - 1])
  }

  lemma {:induction false} NumeralReadBack(n: nat)
    ensures IsNumeral(Decimal(n)) && ParseInt(Decimal(n)) == n
  {
    if n >= 10 {
      NumeralReadBack(n / 10);
      assert Decimal(n)[..|Decimal(n)| - 1] == Decimal(n / 10);
    } else {
      assert Decimal(n)[..0] == "";
    }
  }

  lemma NumeralEnds(n: nat, d: nat)
    requires d < 10
    ensures Decimal(10 * n + d) == if n == 0 then [Digit(d)] else Decimal(n) + [Digit(d)]
  {
    assert (10 * n + d) / 10 == n && (10 * n + d) % 10 == d;
  }

  /** A text of digits is the numeral of its number exactly when it has no leading zero. */
  lemma {:induction false} NumeralExactly(text: string)
    requires IsNumeral(text)
    ensures Decimal(ParseInt(text)) == text <==> |text| == 1 || text[0] != '0'
    ensures text[0] != '0' ==> ParseInt(text) > 0
    ensures text == "0" ==> ParseInt(text) == 0
  {
    var front, last := text[..|text| - 1], text[|text| - 1];
    var n, d := ParseInt(front), DigitValueOf(last);
    assert text == front + [last] && Digit(d) == last;
    NumeralEnds(n, d);
    if front != "" {
      NumeralExactly(front);
      assert n > 0 ==> Decimal(10 * n + d)[..|Decimal(n)|] == Decimal(n);
    }
  }

  // ---------------------------------------------------------------- the map

  /** One property of the object; the sequence is the order in which the properties were set. */
  datatype Entry = Entry(key: string, value: string)

  ghost predicate IsObject(m: seq<Entry>) {
    forall i, j | 0 <= i < j < |m| :: m[i].key != m[j].key
  }

  predicate HasKey(m: seq<Entry>, key: string) {
    exists i | 0 <= i < |m| :: m[i].key == key
  }

  function Get(m: seq<Entry>, key: string): string {
    if m == [] then "" else if m[0].key == key then m[0].value else Get(m[1..], key)
  }

  function SetKey(m: seq<Entry>, key: string, value: string): seq<Entry> {
    if m == [] then [Entry(key, value)]
    else if m[0].key == key then [Entry(key, value)] + m[1..]
    else [m[0]] + SetKey(m[1..], key, value)
  }

  /** The pattern `^r\d+$`. */
  predicate IsNonceKey(key: string) {
    key != "" && key[0] == 'r' && IsNumeral(key[1..])
  }

  function NonceNumber(key: string): nat {
    if IsNonceKey(key) then ParseInt(key[1..]) else 0
  }

  predicate ByNumber(a: string, b: string) {
    NonceNumber(a) <= NonceNumber(b)
  }

  function NonceKey(i: nat): string {
    "r" + Decimal(i)
  }

  function NonceKeys(m: seq<Entry>): seq<string> {
    if m == [] then []
    else (if IsNonceKey(m[0].key) then [m[0].key] else []) + NonceKeys(m[1..])
  }

  function SortedNonceKeys(m: seq<Entry>): seq<string> {
    Sort(NonceKeys(m), ByNumber)
  }

  /** The keys r1, .., rn. */
  function SequentialKeys(n: nat): seq<string> {
    seq(n, (i: nat) => NonceKey(i + 1))
  }

  lemma NonceKeyReadBack(i: nat)
    ensures IsNonceKey(NonceKey(i)) && NonceNumber(NonceKey(i)) == i
  {
    NumeralReadBack(i);
    assert NonceKey(i)[1..] == Decimal(i);
  }

  // ---------------------------------------------------------------- encoder

  /** Property `ri` holds the i-th point. */
  function Encoded(points: seq<Point>): (m: seq<Entry>)
    ensures |m| == |points|
  {
    seq(|points|, (i: nat) requires i < |points| => Entry(NonceKey(i + 1), SerializePoint(points[i])))
  }

  lemma {:induction false} SetNewKey(m: seq<Entry>, key: string, value: string)
    requires !HasKey(m, key)
    ensures SetKey(m, key, value) == m + [Entry(key, value)]
  {
    if m != [] {
      assert m[0].key != key;
      assert forall i | 0 <= i < |m[1..]| :: m[1..][i] == m[i + 1];
      SetNewKey(m[1..], key, value);
    }
  }

  lemma EncodedGrows(points: seq<Point>, index: nat)
    requires index < |points|
    ensures Encoded(points)[..index + 1] == SetKey(Encoded(points)[..index], NonceKey(index + 1), SerializePoint(points[index]))
  {
    hide SetKey, SerializePoint, NonceKey;
    var front := Encoded(points)[..index];
    forall j | 0 <= j < index
      ensures front[j].key != NonceKey(index + 1)
    {
      NonceKeyReadBack(j + 1);
      NonceKeyReadBack(index + 1);
    }
    SetNewKey(front, NonceKey(index + 1), SerializePoint(points[index]));
  }

  method SerializePublicNonces(nonces: seq<Point>) returns (r: Result<seq<Entry>>)
    ensures |nonces| < 2 <==> r.Error?
    ensures |nonces| >= 2 ==> r == Ok(Encoded(nonces))
  {
    if |nonces| < 2 {
      return Error("MuSig2 requires at least 2 nonces");
    }
    hide SetKey, Encoded, SerializePoint, NonceKey;
    var nonceMap: seq<Entry> := [];
    for index := 0 to |nonces|
      invariant |Encoded(nonces)| == |nonces| && nonceMap == Encoded(nonces)[..index]
    {
      EncodedGrows(nonces, index);
      nonceMap := SetKey(nonceMap, NonceKey(index + 1), SerializePoint(nonces[index]));
    }
    assert Encoded(nonces)[..|nonces|] == Encoded(nonces);
    return Ok(nonceMap);
  }

  // ---------------------------------------------------------------- decoder

  /** The points under `keys`, in that order, unless one of them is missing or malformed. */
  function ReadPoints(curve: Curve, m: seq<Entry>, keys: seq<string>): Result<seq<Point>> {
    if keys == [] then Ok([])
    else
      var front := ReadPoints(curve, m, keys[..|keys| - 1]);
      if front.Error? then front
      else
        var last := DeserializePoint(curve, Get(m, keys[|keys| - 1]));
        if last.Error? then Error(last.message) else Ok(front.value + [last.value])
  }

  function Decoded(curve: Curve, m: seq<Entry>): Result<seq<Point>> {
    if |SortedNonceKeys(m)| < 2 then Error("MuSig2 requires at least 2 nonces")
    else ReadPoints(curve, m, SortedNonceKeys(m))
  }

  method DeserializePublicNonces(curve: Curve, nonceMap: seq<Entry>) returns (r: Result<seq<Point>>)
    ensures r.Ok? <==> Decoded(curve, nonceMap).Ok?
    ensures r.Ok? ==> r == Decoded(curve, nonceMap)
  {
    var nonceKeys := SortedNonceKeys(nonceMap);
    if |nonceKeys| < 2 {
      return Error("MuSig2 requires at least 2 nonces");
    }
    var nonces: seq<Point> := [];
    for i := 0 to |nonceKeys|
      invariant ReadPoints(curve, nonceMap, nonceKeys[..i]) == Ok(nonces)
    {
      assert nonceKeys[..i + 1][..i] == nonceKeys[..i];
      var point := DeserializePoint(curve, Get(nonceMap, nonceKeys[i]));
      if point.Error? {
        ReadStopsAtError(curve, nonceMap, nonceKeys, i + 1);
        return Error(point.message);
      }
      nonces := nonces + [point.value];
    }
    assert nonceKeys[..|nonceKeys|] == nonceKeys;
    return Ok(nonces);
  }

  lemma {:induction false} ReadStopsAtError(curve: Curve, m: seq<Entry>, keys: seq<string>, n: nat)
    requires n <= |keys| && ReadPoints(curve, m, keys[..n]).Error?
    ensures ReadPoints(curve, m, keys).Error?
  {
    if n == |keys| {
      assert keys[..n] == keys;
    } else {
      var front := keys[..|keys| - 1];
      assert front[..n] == keys[..n];
      ReadStopsAtError(curve, m, front, n);
    }
  }

  lemma {:induction false} ReadPointsAt(curve: Curve, m: seq<Entry>, keys: seq<string>, points: seq<Point>)
    requires |points| == |keys|
    requires forall i | 0 <= i < |keys| :: DeserializePoint(curve, Get(m, keys[i])) == Ok(points[i])
    ensures ReadPoints(curve, m, keys) == Ok(points)
  {
    if keys != [] {
      ReadPointsAt(curve, m, keys[..|keys| - 1], points[..|keys| - 1]);
      assert points == points[..|keys| - 1] + [points[|keys| - 1]];
    } else {
      assert points == [];
    }
  }

  lemma {:induction false} ReadPointsYields(curve: Curve, m: seq<Entry>, keys: seq<string>)
    requires ReadPoints(curve, m, keys).Ok?
    ensures |ReadPoints(curve, m, keys).value| == |keys|
    ensures forall i | 0 <= i < |keys| :: DeserializePoint(curve, Get(m, keys[i])) == Ok(ReadPoints(curve, m, keys).value[i])
  {
    if keys != [] {
      ReadPointsYields(curve, m, keys[..|keys| - 1]);
    }
  }

  // ---------------------------------------------------------------- validator

  method ValidatePublicNonces(nonceMap: seq<Entry>) returns (accepted: bool)
    ensures accepted <==> IsAccepted(nonceMap)
  {
    hide ValidHex, NonceKey, Get, NonceKeys, Sort;
    var nonceKeys := NonceKeys(nonceMap);
    if |nonceKeys| < 2 {
      return false;
    }
    for i := 0 to |nonceKeys|
      invariant forall j | 0 <= j < i :: ValidHex(Get(nonceMap, nonceKeys[j]), 33)
    {
      if !ValidHex(Get(nonceMap, nonceKeys[i]), 33) {
        return false;
      }
    }
    nonceKeys := Sort(nonceKeys, ByNumber);
    for i := 0 to |nonceKeys|
      invariant nonceKeys[..i] == SequentialKeys(i)
    {
      if nonceKeys[i] != NonceKey(i + 1) {
        assert SequentialKeys(|nonceKeys|)[i] == NonceKey(i + 1);
        return false;
      }
    }
    assert nonceKeys[..|nonceKeys|] == nonceKeys;
    return true;
  }

  ghost predicate IsAccepted(m: seq<Entry>) {
    && |NonceKeys(m)| >= 2
    && (forall j | 0 <= j < |NonceKeys(m)| :: ValidHex(Get(m, NonceKeys(m)[j]), 33))
    && SortedNonceKeys(m) == SequentialKeys(|SortedNonceKeys(m)|)
  }

  lemma {:induction false} NonceKeysAreTheMatches(m: seq<Entry>, key: string)
    ensures key in NonceKeys(m) <==> IsNonceKey(key) && HasKey(m, key)
  {
    if m != [] {
      NonceKeysAreTheMatches(m[1..], key);
      var rest := m[1..];
      assert HasKey(m, key) <==> m[0].key == key || HasKey(rest, key) by {
        if i :| 0 <= i < |m| && m[i].key == key {
          assert i > 0 ==> rest[i - 1].key == key;
        }
        if i :| 0 <= i < |rest| && rest[i].key == key {
          assert m[i + 1].key == key;
        }
        assert m[0] == m[0];
      }
    }
  }

  lemma SortedKeysAreTheMatches(m: seq<Entry>, key: string)
    ensures |SortedNonceKeys(m)| == |NonceKeys(m)|
    ensures key in SortedNonceKeys(m) <==> IsNonceKey(key) && HasKey(m, key)
  {
    SortSorts(NonceKeys(m), ByNumber);
    NonceKeysAreTheMatches(m, key);
    assert key in multiset(SortedNonceKeys(m)) <==> key in multiset(NonceKeys(m));
  }

  /** Of all keys of the form r-digits the object has exactly r1 to rn. */
  ghost predicate KeysAre(m: seq<Entry>, n: nat) {
    forall key :: IsNonceKey(key) && HasKey(m, key) <==> key in SequentialKeys(n)
  }

  /** The values of r1 to rn are 33 bytes of hex. */
  ghost predicate ValuesAreHex(m: seq<Entry>, n: nat) {
    forall i | 1 <= i <= n :: ValidHex(Get(m, NonceKey(i)), 33)
  }

  lemma AcceptedKeysAreSequential(m: seq<Entry>, n: nat)
    requires IsAccepted(m) && n == |NonceKeys(m)|
    ensures n >= 2 && KeysAre(m, n) && ValuesAreHex(m, n)
  {
    SortSorts(NonceKeys(m), ByNumber);
    forall key
      ensures IsNonceKey(key) && HasKey(m, key) <==> key in SequentialKeys(n)
    {
      SortedKeysAreTheMatches(m, key);
    }
    forall i | 1 <= i <= n
      ensures ValidHex(Get(m, NonceKey(i)), 33)
    {
      assert SequentialKeys(n)[i - 1] == NonceKey(i);
      assert NonceKey(i) in SequentialKeys(n);
      NonceKeysAreTheMatches(m, NonceKey(i));
      var j :| 0 <= j < |NonceKeys(m)| && NonceKeys(m)[j] == NonceKey(i);
    }
  }

  /** What an accepted map decodes to has the point of `ri` at position i - 1. */
  lemma AcceptedNoncesDecodeInOrder(curve: Curve, m: seq<Entry>)
    requires IsAccepted(m) && Decoded(curve, m).Ok?
    ensures |Decoded(curve, m).value| == |NonceKeys(m)|
    ensures forall i | 1 <= i <= |NonceKeys(m)| ::
              DeserializePoint(curve, Get(m, NonceKey(i))) == Ok(Decoded(curve, m).value[i - 1])
  {
    var keys := SortedNonceKeys(m);
    SortSorts(NonceKeys(m), ByNumber);
    ReadPointsYields(curve, m, keys);
    forall i | 1 <= i <= |keys|
      ensures DeserializePoint(curve, Get(m, NonceKey(i))) == Ok(Decoded(curve, m).value[i - 1])
    {
      assert keys[i - 1] == NonceKey(i);
    }
  }

  // ---------------------------------------------------------------- round trip

  /** `m` holds the encoding of the points, its properties in any order, other keys besides. */
  ghost predicate Carries(m: seq<Entry>, points: seq<Point>) {
    && IsObject(m)
    && (forall i | 0 <= i < |points| :: Entry(NonceKey(i + 1), SerializePoint(points[i])) in m)
    && (forall e | e in m && IsNonceKey(e.key) :: e.key in SequentialKeys(|points|))
  }

  lemma {:induction false} GetFinds(m: seq<Entry>, e: Entry)
    requires IsObject(m) && e in m
    ensures Get(m, e.key) == e.value && HasKey(m, e.key)
  {
    var i :| 0 <= i < |m| && m[i] == e;
    if m[0] != e {
      assert m[1..][i - 1] == e;
      GetFinds(m[1..], e);
    }
  }

  lemma {:induction false} NonceKeysDistinct(m: seq<Entry>)
    requires IsObject(m)
    ensures Distinct(NonceKeys(m))
  {
    if m != [] {
      NonceKeysDistinct(m[1..]);
      NonceKeysAreTheMatches(m[1..], m[0].key);
      assert forall i | 0 <= i < |m[1..]| :: m[1..][i] == m[i + 1];
    }
  }

  lemma SequentialKeysInOrder(n: nat)
    ensures Distinct(SequentialKeys(n)) && Sorted(SequentialKeys(n), ByNumber)
    ensures Map(SequentialKeys(n), NonceNumber) == seq(n, (i: nat) => i + 1)
  {
    forall i | 0 <= i < n
      ensures NonceNumber(SequentialKeys(n)[i]) == i + 1
    {
      NonceKeyReadBack(i + 1);
    }
  }

  /** The numeric sort brings exactly these keys into the order r1, .., rn, for any n. */
  lemma KeysSorted(m: seq<Entry>, n: nat)
    requires IsObject(m) && KeysAre(m, n)
    ensures SortedNonceKeys(m) == SequentialKeys(n) && |NonceKeys(m)| == n
  {
    var keys, wanted, sorted := NonceKeys(m), SequentialKeys(n), SortedNonceKeys(m);
    NonceKeysDistinct(m);
    SequentialKeysInOrder(n);
    forall key
      ensures key in keys <==> key in wanted
    {
      NonceKeysAreTheMatches(m, key);
    }
    SameElements(keys, wanted);
    SortSorts(keys, ByNumber);
    hide NonceKeys, SequentialKeys, NonceNumber, KeysAre;
    forall a, b | a in wanted && b in wanted && ByNumber(a, b) && ByNumber(b, a)
      ensures a == b
    {
      var i :| 0 <= i < n && wanted[i] == a;
      var j :| 0 <= j < n && wanted[j] == b;
      assert Map(wanted, NonceNumber)[i] == i + 1 && Map(wanted, NonceNumber)[j] == j + 1;
    }
    SortedIsUnique(sorted, wanted, ByNumber);
  }

  /** The validator accepts an object exactly when its r-digit keys are r1 to rn for some
      n >= 2 and each holds 33 bytes of hex. */
  lemma AcceptanceIsExact(m: seq<Entry>)
    requires IsObject(m)
    ensures IsAccepted(m) <==> exists n: nat :: n >= 2 && KeysAre(m, n) && ValuesAreHex(m, n)
  {
    if IsAccepted(m) {
      AcceptedKeysAreSequential(m, |NonceKeys(m)|);
    }
    forall n: nat | n >= 2 && KeysAre(m, n) && ValuesAreHex(m, n)
      ensures IsAccepted(m)
    {
      SequentialIsAccepted(m, n);
    }
  }

  lemma SequentialIsAccepted(m: seq<Entry>, n: nat)
    requires IsObject(m) && n >= 2 && KeysAre(m, n) && ValuesAreHex(m, n)
    ensures IsAccepted(m)
  {
    hide IsObject, KeysAre, ValidHex, NonceKey, Sort, NonceKeys, Sorted;
    KeysSorted(m, n);
    SortSorts(NonceKeys(m), ByNumber);
    forall j | 0 <= j < n
      ensures ValidHex(Get(m, NonceKeys(m)[j]), 33)
    {
      assert NonceKeys(m)[j] in multiset(SortedNonceKeys(m));
      var i :| 0 <= i < n && SequentialKeys(n)[i] == NonceKeys(m)[j];
      assert NonceKeys(m)[j] == NonceKey(i + 1);
    }
  }

  lemma SameElements(a: seq<string>, b: seq<string>)
    requires Distinct(a) && Distinct(b) && forall x :: x in a <==> x in b
    ensures multiset(a) == multiset(b)
  {
    forall x
      ensures multiset(a)[x] == multiset(b)[x]
    {
      OccursOnce(a, x);
      OccursOnce(b, x);
      assert x in a <==> x in multiset(a);
      assert x in b <==> x in multiset(b);
    }
  }

  lemma CarrierKeys(m: seq<Entry>, points: seq<Point>)
    requires Carries(m, points)
    ensures IsObject(m) && KeysAre(m, |points|)
  {
    forall key
      ensures IsNonceKey(key) && HasKey(m, key) <==> key in SequentialKeys(|points|)
    {
      if IsNonceKey(key) && HasKey(m, key) {
        var j :| 0 <= j < |m| && m[j].key == key;
        assert m[j] in m;
      }
      if key in SequentialKeys(|points|) {
        var i :| 0 <= i < |points| && SequentialKeys(|points|)[i] == key;
        NonceKeyReadBack(i + 1);
        GetFinds(m, Entry(NonceKey(i + 1), SerializePoint(points[i])));
      }
    }
  }

  lemma CarriedPoint(curve: Curve, m: seq<Entry>, points: seq<Point>, i: nat)
    requires Carries(m, points) && i < |points| && OnCurve(curve, points[i])
    ensures DeserializePoint(curve, Get(m, NonceKey(i + 1))) == Ok(points[i]) && ValidHex(Get(m, NonceKey(i + 1)), 33)
  {
    GetFinds(m, Entry(NonceKey(i + 1), SerializePoint(points[i])));
    PointSurvivesWire(curve, points[i]);
  }

  /** The encoder's output, with its properties in any order, is accepted and decodes to the
      points that went in; for ten nonces and more as for two. */
  lemma NoncesSurviveWire(curve: Curve, points: seq<Point>, m: seq<Entry>)
    requires |points| >= 2 && (forall p | p in points :: OnCurve(curve, p)) && Carries(m, points)
    ensures IsAccepted(m) && Decoded(curve, m) == Ok(points)
  {
    hide Carries, OnCurve, IsAccepted, KeysAre, DeserializePoint, SortedNonceKeys, ValidHex, Get, NonceKey, IsObject;
    var n := |points|;
    CarrierKeys(m, points);
    KeysSorted(m, n);
    var keys := SequentialKeys(n);
    forall i | 0 <= i < n
      ensures DeserializePoint(curve, Get(m, keys[i])) == Ok(points[i])
    {
      assert points[i] in points;
      CarriedPoint(curve, m, points, i);
    }
    ReadPointsAt(curve, m, keys, points);
    forall i | 1 <= i <= n
      ensures ValidHex(Get(m, NonceKey(i)), 33)
    {
      assert points[i - 1] in points;
      CarriedPoint(curve, m, points, i - 1);
    }
    SequentialIsAccepted(m, n);
  }

  lemma EncodedCarries(points: seq<Point>)
    ensures Carries(Encoded(points), points)
  {
    var m, keys := Encoded(points), SequentialKeys(|points|);
    SequentialKeysInOrder(|points|);
    hide SerializePoint, NonceKey, IsNonceKey;
    assert forall i | 0 <= i < |m| :: m[i].key == keys[i];
    forall i | 0 <= i < |points|
      ensures Entry(NonceKey(i + 1), SerializePoint(points[i])) in m
    {
      assert m[i] == Entry(NonceKey(i + 1), SerializePoint(points[i]));
    }
  }

  /** `deserializePublicNonces(serializePublicNonces(points))` gives the points back. */
  lemma EncoderOutputRoundTrips(curve: Curve, points: seq<Point>)
    requires |points| >= 2 && forall p | p in points :: OnCurve(curve, p)
    ensures IsAccepted(Encoded(points)) && Decoded(curve, Encoded(points)) == Ok(points)
  {
    EncodedCarries(points);
    NoncesSurviveWire(curve, points, Encoded(points));
  }
}
