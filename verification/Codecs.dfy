/** The network formats of scalars, signatures, points and keys, and the payload
    validator that decides which of them a peer may send. */
module Codecs {
  import opened Hex
  import opened Outcomes

  // ---------------------------------------------------------------- big-endian numbers

  function Power256(n: nat): nat {
    if n == 0 then 1 else 256 * Power256(n - 1)
  }

  /** The low `n` bytes of `x`, most significant first. */
  function ToBigEndian(x: nat, n: nat): (bytes: seq<Byte>)
    ensures |bytes| == n
  {
    if n == 0 then [] else ToBigEndian(x / 256, n - 1) + [x % 256]
  }

  function FromBigEndian(bytes: seq<Byte>): nat {
    if bytes == [] then 0 else 256 * FromBigEndian(bytes[..|bytes| - 1]) + bytes[|bytes| - 1]
  }

  lemma {:induction false} NumberSurvivesBytes(x: nat, n: nat)
    requires x < Power256(n)
    ensures FromBigEndian(ToBigEndian(x, n)) == x
  {
    if n > 0 {
      NumberSurvivesBytes(x / 256, n - 1);
      assert ToBigEndian(x, n)[..n - 1] == ToBigEndian(x / 256, n - 1);
    }
  }

  lemma DivideStep(q: nat, r: nat)
    requires r < 256
    ensures (256 * q + r) / 256 == q && (256 * q + r) % 256 == r
  {
  }

  lemma {:induction false} BytesSurviveNumber(bytes: seq<Byte>)
    ensures FromBigEndian(bytes) < Power256(|bytes|)
    ensures ToBigEndian(FromBigEndian(bytes), |bytes|) == bytes
  {
    if bytes != [] {
      var front, last := bytes[..|bytes| - 1], bytes[|bytes| - 1];
      BytesSurviveNumber(front);
      DivideStep(FromBigEndian(front), last);
      assert bytes == front + [last];
    }
  }

  // ---------------------------------------------------------------- the validator's hex check

  /** `validateHexString(value, field, length)`: nonempty hex text of `length` bytes. */
  predicate ValidHex(text: string, length: nat) {
    text != "" && IsHexText(text) && |FromHex(text)| == length
  }

  /** The byte count ignores an unpaired last digit, so one length more is let through. */
  lemma ValidHexLengths(text: string, length: nat)
    requires length > 0
    ensures ValidHex(text, length) <==> IsHexText(text) && |text| in {2 * length, 2 * length + 1}
  {
    if IsHexText(text) {
      HexSurvivesBytes(text);
    }
  }

  /** What decoding and encoding again makes of an accepted text. */
  lemma ValidHexReadBack(text: string, length: nat)
    requires length > 0 && ValidHex(text, length)
    ensures ToHex(FromHex(text)) == ToLower(WholePairs(text)) && |WholePairs(text)| == 2 * length
  {
    ValidHexLengths(text, length);
    HexSurvivesBytes(text);
  }

  // ---------------------------------------------------------------- scalars

  const SCALAR_BYTES := 32

  function SerializeBN(x: nat): string
    requires x < Power256(SCALAR_BYTES)
  {
    ToHex(ToBigEndian(x, SCALAR_BYTES))
  }

  function DeserializeBN(text: string): Result<nat> {
    if text == "" || !IsHexText(text) then Error("Invalid hex string format")
    else Ok(FromBigEndian(FromHex(text)))
  }

  /** Every 256-bit scalar survives the wire, as exactly 64 lower-case digits that the
      partial signature check accepts. */
  lemma ScalarSurvivesWire(x: nat)
    requires x < Power256(SCALAR_BYTES)
    ensures DeserializeBN(SerializeBN(x)) == Ok(x)
    ensures |SerializeBN(x)| == 64 && ToLower(SerializeBN(x)) == SerializeBN(x) && ValidHex(SerializeBN(x), SCALAR_BYTES)
  {
    var bytes := ToBigEndian(x, SCALAR_BYTES);
    BytesSurviveHex(bytes);
    NumberSurvivesBytes(x, SCALAR_BYTES);
    hide ToBigEndian, FromBigEndian, Power256, ToHex, FromHex, ToLower;
  }

  /** An accepted partial signature decodes to a 256-bit scalar, and is what the scalar
      encodes to exactly when it is 64 lower-case digits. */
  lemma AcceptedScalarReadBack(text: string)
    requires ValidHex(text, SCALAR_BYTES)
    ensures DeserializeBN(text).Ok? && DeserializeBN(text).value < Power256(SCALAR_BYTES)
    ensures SerializeBN(DeserializeBN(text).value) == ToLower(WholePairs(text))
    ensures SerializeBN(DeserializeBN(text).value) == text <==> |text| == 64 && ToLower(text) == text
  {
    ValidHexLengths(text, SCALAR_BYTES);
    ValidHexReadBack(text, SCALAR_BYTES);
    BytesSurviveNumber(FromHex(text));
    hide ToBigEndian, FromBigEndian, Power256, ToHex, FromHex;
    if |text| == 64 {
      assert WholePairs(text) == text;
    } else {
      assert |ToLower(WholePairs(text))| == 64;
    }
  }

  // ---------------------------------------------------------------- signatures

  datatype Signature = Signature(r: string, s: string)

  function SerializeSignature(bytes: seq<Byte>): Result<Signature> {
    if |bytes| != 64 then Error("Expected 64-byte signature")
    else Ok(Signature(ToHex(bytes[..32]), ToHex(bytes[32..])))
  }

  function DeserializeSignature(sig: Signature): Result<seq<Byte>> {
    if sig.r == "" || sig.s == "" || !IsHexText(sig.r) || !IsHexText(sig.s) then Error("Invalid hex string format in signature")
    else if |FromHex(sig.r)| != 32 || |FromHex(sig.s)| != 32 then Error("Invalid signature component length")
    else Ok(FromHex(sig.r) + FromHex(sig.s))
  }

  /** `validateFinalSignature`. */
  predicate ValidSignature(sig: Signature) {
    ValidHex(sig.r, 32) && ValidHex(sig.s, 32)
  }

  lemma SignatureSurvivesWire(bytes: seq<Byte>)
    ensures |bytes| == 64 <==> SerializeSignature(bytes).Ok?
    ensures |bytes| == 64 ==> ValidSignature(SerializeSignature(bytes).value)
    ensures |bytes| == 64 ==> DeserializeSignature(SerializeSignature(bytes).value) == Ok(bytes)
  {
    if |bytes| == 64 {
      BytesSurviveHex(bytes[..32]);
      BytesSurviveHex(bytes[32..]);
      assert bytes[..32] + bytes[32..] == bytes;
      hide ToHex, FromHex, ToLower;
    }
  }

  /** The validator accepts exactly the signatures that can be decoded, and decoding then
      encoding gives the lower-case spelling of their digits, without an unpaired last one. */
  lemma ValidatorAgreesWithDecoder(sig: Signature)
    ensures ValidSignature(sig) <==> DeserializeSignature(sig).Ok?
    ensures ValidSignature(sig) ==> SerializeSignature(DeserializeSignature(sig).value)
                                    == Ok(Signature(ToLower(WholePairs(sig.r)), ToLower(WholePairs(sig.s))))
  {
    if ValidSignature(sig) {
      ValidHexLengths(sig.r, 32);
      ValidHexLengths(sig.s, 32);
      ValidHexReadBack(sig.r, 32);
      ValidHexReadBack(sig.s, 32);
      var r, s := FromHex(sig.r), FromHex(sig.s);
      assert (r + s)[..32] == r && (r + s)[32..] == s;
      hide ToHex, FromHex, ToLower;
    }
  }

  // ---------------------------------------------------------------- points

  datatype Point = Point(x: nat, y: nat)

  /** `Point.fromX(odd, x)`: the point with this x coordinate and parity of y, if any. */
  type Curve = (bool, nat) -> Option<Point>

  ghost predicate OnCurve(curve: Curve, p: Point) {
    p.x < Power256(SCALAR_BYTES) && curve(p.y % 2 == 1, p.x) == Some(p)
  }

  /** What `fromX` finds has the coordinate and parity asked for. */
  ghost predicate FindsWhatIsAsked(curve: Curve) {
    forall odd, x :: curve(odd, x).Some? ==> curve(odd, x).value.x == x && (curve(odd, x).value.y % 2 == 1) == odd
  }

  /** Compressed form, sections 2.3.3 and 2.3.4 of SEC 1: a prefix for the parity of y, then x. */
  function Compressed(p: Point): seq<Byte> {
    [if p.y % 2 == 1 then 3 else 2] + ToBigEndian(p.x, SCALAR_BYTES)
  }

  function SerializePoint(p: Point): string {
    ToHex(Compressed(p))
  }

  function DeserializePoint(curve: Curve, text: string): Result<Point> {
    if text == "" || !IsHexText(text) then Error("Invalid hex string format")
    else
      var bytes := FromHex(text);
      if |bytes| != 33 then Error("Expected 33 bytes")
      else if bytes[0] != 2 && bytes[0] != 3 then Error("Invalid prefix")
      else
        match curve(bytes[0] == 3, FromBigEndian(bytes[1..]))
        case Some(p) => Ok(p)
        case None => Error("Invalid X")
  }

  lemma PointSurvivesWire(curve: Curve, p: Point)
    requires OnCurve(curve, p)
    ensures DeserializePoint(curve, SerializePoint(p)) == Ok(p)
    ensures ValidHex(SerializePoint(p), 33)
  {
    var bytes := Compressed(p);
    BytesSurviveHex(bytes);
    NumberSurvivesBytes(p.x, SCALAR_BYTES);
    assert bytes[1..] == ToBigEndian(p.x, SCALAR_BYTES);
    hide ToBigEndian, FromBigEndian, Power256, ToHex, FromHex, ToLower;
  }

  /** A text that decodes to a point is that point's own encoding, up to case and an unpaired digit. */
  lemma DecodedPointReadBack(curve: Curve, text: string)
    requires FindsWhatIsAsked(curve) && DeserializePoint(curve, text).Ok?
    ensures ValidHex(text, 33) && OnCurve(curve, DeserializePoint(curve, text).value)
    ensures SerializePoint(DeserializePoint(curve, text).value) == ToLower(WholePairs(text))
  {
    var bytes, p := FromHex(text), DeserializePoint(curve, text).value;
    ValidHexLengths(text, 33);
    ValidHexReadBack(text, 33);
    BytesSurviveNumber(bytes[1..]);
    assert bytes == [bytes[0]] + bytes[1..];
    assert curve(bytes[0] == 3, FromBigEndian(bytes[1..])) == Some(p);
    assert Compressed(p) == bytes;
  }

  // ---------------------------------------------------------------- public keys and messages

  /** `isKey` is the acceptance of the key constructor; a key is the buffer it was made from. */
  function DeserializePublicKey(isKey: seq<Byte> -> bool, text: string): Result<seq<Byte>> {
    if text == "" || !IsHexText(text) then Error("Invalid hex string format")
    else if |FromHex(text)| != 33 && |FromHex(text)| != 65 then Error("Invalid public key length")
    else if !isKey(FromHex(text)) then Error("Invalid public key")
    else Ok(FromHex(text))
  }

  lemma PublicKeySurvivesWire(isKey: seq<Byte> -> bool, key: seq<Byte>)
    ensures DeserializePublicKey(isKey, ToHex(key)) == Ok(key) <==> isKey(key) && |key| in {33, 65}
  {
    BytesSurviveHex(key);
    hide ToHex, FromHex, ToLower;
  }

  function DeserializeMessage(text: string): Result<seq<Byte>> {
    if !IsHexText(text) then Error("Invalid hex string format") else Ok(FromHex(text))
  }

  lemma MessageSurvivesWire(message: seq<Byte>)
    ensures DeserializeMessage(ToHex(message)) == Ok(message)
  {
    BytesSurviveHex(message);
  }

  // ---------------------------------------------------------------- what can be decoded

  predicate AllDigits(text: string) {
    forall i | 0 <= i < |text| :: text[i] in "0123456789abcdefABCDEF"
  }

  lemma HexTextsExactly(text: string)
    ensures IsHexText(text) <==> AllDigits(text)
    ensures IsHexText(text) ==> |FromHex(text)| == |text| / 2
  {
    forall i | 0 <= i < |text|
      ensures IsHexDigit(text[i]) <==> text[i] in "0123456789abcdefABCDEF"
    {
      DigitsExactly(text[i]);
    }
    if IsHexText(text) {
      HexSurvivesBytes(text);
    }
  }

  /** Numbers are read from every nonempty text of hex digits, messages also from the empty one. */
  lemma NumbersAndMessagesExactly(text: string)
    ensures DeserializeBN(text).Ok? <==> text != "" && AllDigits(text)
    ensures DeserializeMessage(text).Ok? <==> AllDigits(text)
    ensures DeserializeMessage(text).Ok? && text != "" ==> DeserializeBN(text).value == FromBigEndian(DeserializeMessage(text).value)
  {
    HexTextsExactly(text);
  }

  /** Keys are read from 66 or 130 hex digits, and one more that is ignored, if the key constructor takes the bytes. */
  lemma KeysExactly(isKey: seq<Byte> -> bool, text: string)
    ensures DeserializePublicKey(isKey, text).Ok? <==>
              AllDigits(text) && (|text| == 66 || |text| == 67 || |text| == 130 || |text| == 131) && isKey(FromHex(text))
  {
    hide FromHex, AllDigits, IsHexText;
    HexTextsExactly(text);
    Halves(|text|, 33);
    Halves(|text|, 65);
  }

  lemma Halves(n: nat, half: nat)
    ensures n / 2 == half <==> n == 2 * half || n == 2 * half + 1
  {
  }

  /** Points are read from 66 hex digits, and one more that is ignored, that begin with 02 or 03, for even or odd,
      and go on with the coordinate of a point. */
  lemma PointsExactly(curve: Curve, text: string)
    ensures DeserializePoint(curve, text).Ok? <==>
              && AllDigits(text) && (|text| == 66 || |text| == 67) && text[0] == '0'
              && ((text[1] == '2' && curve(false, FromBigEndian(FromHex(text[2..]))).Some?)
                  || (text[1] == '3' && curve(true, FromBigEndian(FromHex(text[2..]))).Some?))
  {
    HexTextsExactly(text);
    if IsHexText(text) && |text| >= 2 {
      var bytes := FromHex(text);
      assert bytes[1..] == FromHex(text[2..]);
      assert bytes[0] == 2 <==> text[0] == '0' && text[1] == '2';
      assert bytes[0] == 3 <==> text[0] == '0' && text[1] == '3';
      hide FromHex, FromBigEndian;
    }
  }
}
