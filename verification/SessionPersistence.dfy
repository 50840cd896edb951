/** Session snapshots: what is written of a live session, what comes back, and which
    snapshots a cleanup removes. */
module SessionPersistence {
  import opened Codecs
  import opened Hex
  import opened IndexNames
  import opened Outcomes

  /** The fields that are copied as they are. */
  datatype Header = Header(
    sessionId: string, phase: string, myIndex: nat, metadata: Option<string>,
    coordinatorPeerId: string, isCoordinator: bool, createdAt: int, lastActivity: int,
    coordinatorIndex: Option<nat>, electionMethod: Option<string>, electionProof: Option<string>,
    backupCoordinators: Option<seq<nat>>)

  datatype Participant = Participant(
    peerId: string, signerIndex: nat, publicKey: seq<Byte>, hasNonce: bool, hasPartialSig: bool, lastSeen: int)

  datatype LiveSession = LiveSession(
    header: Header, signers: seq<seq<Byte>>, message: seq<Byte>,
    receivedPublicNonces: map<Index, seq<Point>>, receivedPartialSigs: map<Index, nat>,
    participants: map<string, Participant>)

  datatype NoncePair = NoncePair(r1: string, r2: string)

  datatype SerializedParticipant = SerializedParticipant(
    peerId: string, signerIndex: nat, publicKey: string, hasNonce: bool, hasPartialSig: bool, lastSeen: int)

  /** The two records by their property names. */
  datatype SerializedSession = SerializedSession(
    header: Header, signers: seq<string>, message: string,
    receivedNonces: map<string, NoncePair>, receivedPartialSigs: map<string, string>,
    participants: seq<SerializedParticipant>)

  type Snapshots = map<string, SerializedSession>

  // ---------------------------------------------------------------- writing

  function WrittenNonce(nonce: seq<Point>): NoncePair
    requires |nonce| >= 2
  {
    NoncePair(SerializePoint(nonce[0]), SerializePoint(nonce[1]))
  }

  function WrittenParticipant(peerId: string, p: Participant): SerializedParticipant {
    SerializedParticipant(peerId, p.signerIndex, ToHex(p.publicKey), p.hasNonce, p.hasPartialSig, p.lastSeen)
  }

  function WrittenKeys(keys: seq<seq<Byte>>): seq<string> {
    seq(|keys|, (i: nat) requires i < |keys| => ToHex(keys[i]))
  }

  /** Every nonce has its two parts and every partial signature is a scalar. */
  ghost predicate Writable(s: LiveSession) {
    && (forall i | i in s.receivedPublicNonces :: |s.receivedPublicNonces[i]| >= 2)
    && (forall i | i in s.receivedPartialSigs :: s.receivedPartialSigs[i] < Power256(SCALAR_BYTES))
  }

  /** `d` is a snapshot of `s`; the participants may be listed in any order. */
  ghost predicate IsSnapshot(s: LiveSession, d: SerializedSession)
    requires Writable(s)
  {
    && d.header == s.header && d.signers == WrittenKeys(s.signers) && d.message == ToHex(s.message)
    && NoncesWritten(s.receivedPublicNonces, d.receivedNonces)
    && SigsWritten(s.receivedPartialSigs, d.receivedPartialSigs)
    && ParticipantsWritten(s.participants, d.participants)
  }

  ghost predicate NoncesWritten(nonces: map<Index, seq<Point>>, record: map<string, NoncePair>)
    requires forall i | i in nonces :: |nonces[i]| >= 2
  {
    && (forall i | i in nonces :: Name(i) in record && record[Name(i)] == WrittenNonce(nonces[i]))
    && (forall k | k in record :: IsIndexName(k) && ParseIndex(k) in nonces)
  }

  ghost predicate SigsWritten(sigs: map<Index, nat>, record: map<string, string>)
    requires forall i | i in sigs :: sigs[i] < Power256(SCALAR_BYTES)
  {
    && (forall i | i in sigs :: Name(i) in record && record[Name(i)] == SerializeBN(sigs[i]))
    && (forall k | k in record :: IsIndexName(k) && ParseIndex(k) in sigs)
  }

  ghost predicate ParticipantsWritten(participants: map<string, Participant>, list: seq<SerializedParticipant>) {
    && (forall j | 0 <= j < |list| :: IsWritten(participants, list[j]))
    && (forall peer | peer in participants :: Listed(list, peer))
  }

  predicate IsWritten(participants: map<string, Participant>, p: SerializedParticipant) {
    p.peerId in participants && p == WrittenParticipant(p.peerId, participants[p.peerId])
  }

  ghost predicate Listed(list: seq<SerializedParticipant>, peer: string) {
    exists j | 0 <= j < |list| :: list[j].peerId == peer
  }

  lemma ListedAfter(list: seq<SerializedParticipant>, p: SerializedParticipant, peer: string)
    ensures Listed(list + [p], peer) <==> Listed(list, peer) || peer == p.peerId
  {
    var longer := list + [p];
    if Listed(list, peer) {
      var j :| 0 <= j < |list| && list[j].peerId == peer;
      assert longer[j].peerId == peer;
    }
    assert longer[|list|] == p;
  }

  /** A text that is the name of an index. */
  predicate IsIndexName(k: string) {
    Name(ParseIndex(k)) == k
  }

  method Serialize(s: LiveSession) returns (d: SerializedSession)
    requires Writable(s)
    ensures IsSnapshot(s, d)
  {
    var receivedNonces := SerializeNonces(s.receivedPublicNonces);
    var receivedPartialSigs := SerializeSigs(s.receivedPartialSigs);
    var participants := SerializeParticipants(s.participants);
    d := SerializedSession(s.header, WrittenKeys(s.signers), ToHex(s.message), receivedNonces, receivedPartialSigs, participants);
  }

  method SerializeNonces(nonces: map<Index, seq<Point>>) returns (record: map<string, NoncePair>)
    requires forall i | i in nonces :: |nonces[i]| >= 2
    ensures NoncesWritten(nonces, record)
  {
    hide WrittenNonce, ParseIndex, Name;
    record := map[];
    var todo := nonces.Keys;
    while todo != {}
      invariant todo <= nonces.Keys
      invariant forall i | i in nonces.Keys - todo :: Name(i) in record && record[Name(i)] == WrittenNonce(nonces[i])
      invariant forall k | k in record :: IsIndexName(k) && ParseIndex(k) in nonces.Keys - todo
    {
      var i :| i in todo;
      NameReadBack(i);
      todo := todo - {i};
      record := record[Name(i) := WrittenNonce(nonces[i])];
    }
  }

  method SerializeSigs(sigs: map<Index, nat>) returns (record: map<string, string>)
    requires forall i | i in sigs :: sigs[i] < Power256(SCALAR_BYTES)
    ensures SigsWritten(sigs, record)
  {
    hide SerializeBN, ParseIndex, Name, Power256;
    record := map[];
    var todo := sigs.Keys;
    while todo != {}
      invariant todo <= sigs.Keys
      invariant forall i | i in sigs.Keys - todo :: Name(i) in record && record[Name(i)] == SerializeBN(sigs[i])
      invariant forall k | k in record :: IsIndexName(k) && ParseIndex(k) in sigs.Keys - todo
    {
      var i :| i in todo;
      NameReadBack(i);
      todo := todo - {i};
      record := record[Name(i) := SerializeBN(sigs[i])];
    }
  }

  method SerializeParticipants(participants: map<string, Participant>) returns (list: seq<SerializedParticipant>)
    ensures ParticipantsWritten(participants, list)
  {
    hide WrittenParticipant, Listed;
    list := [];
    var todo := participants.Keys;
    while todo != {}
      invariant todo <= participants.Keys
      invariant forall j | 0 <= j < |list| :: IsWritten(participants, list[j])
      invariant forall peer | peer in participants.Keys - todo :: Listed(list, peer)
    {
      var peer :| peer in todo;
      todo := todo - {peer};
      var p := WrittenParticipant(peer, participants[peer]);
      WrittenUnderPeer(peer, participants[peer]);
      forall other
        ensures Listed(list + [p], other) <==> Listed(list, other) || other == peer
      {
        ListedAfter(list, p, other);
      }
      list := list + [p];
    }
  }

  lemma WrittenUnderPeer(peer: string, p: Participant)
    ensures WrittenParticipant(peer, p).peerId == peer
  {
  }

  // ---------------------------------------------------------------- reading

  /** The curve, the keys that are accepted, and the order in which `Object.entries` lists the two records. */
  datatype Rules = Rules(curve: Curve, isKey: seq<Byte> -> bool,
                         nonceNames: SerializedSession -> seq<string>, sigNames: SerializedSession -> seq<string>)

  ghost predicate ListsNames<V>(names: seq<string>, record: map<string, V>) {
    forall k :: k in names <==> k in record
  }

  /** Each record is listed by its names, in whatever order. */
  ghost predicate IsRuntime(rules: Rules) {
    forall d :: ListsNames(rules.nonceNames(d), d.receivedNonces) && ListsNames(rules.sigNames(d), d.receivedPartialSigs)
  }

  function ReadNonce(rules: Rules, pair: NoncePair): Result<seq<Point>> {
    match (DeserializePoint(rules.curve, pair.r1), DeserializePoint(rules.curve, pair.r2))
    case (Ok(a), Ok(b)) => Ok([a, b])
    case _ => Error("Malformed nonce")
  }

  function ReadParticipant(rules: Rules, p: SerializedParticipant): Result<Participant> {
    match DeserializePublicKey(rules.isKey, p.publicKey)
    case Ok(key) => Ok(Participant(p.peerId, p.signerIndex, key, p.hasNonce, p.hasPartialSig, p.lastSeen))
    case Error(e) => Error(e)
  }

  function ReadKeys(rules: Rules, keys: seq<string>): Result<seq<seq<Byte>>> {
    if keys == [] then Ok([])
    else
      match (ReadKeys(rules, keys[..|keys| - 1]), DeserializePublicKey(rules.isKey, keys[|keys| - 1]))
      case (Ok(front), Ok(last)) => Ok(front + [last])
      case _ => Error("Malformed public key")
  }

  /** Later entries of the list replace earlier ones of the same peer. */
  function ReadParticipants(rules: Rules, list: seq<SerializedParticipant>): Result<map<string, Participant>> {
    if list == [] then Ok(map[])
    else
      match (ReadParticipants(rules, list[..|list| - 1]), ReadParticipant(rules, list[|list| - 1]))
      case (Ok(front), Ok(last)) => Ok(front[last.peerId := last])
      case _ => Error("Malformed participant")
  }

  ghost predicate IsReadable(rules: Rules, d: SerializedSession) {
    && ReadKeys(rules, d.signers).Ok? && ReadParticipants(rules, d.participants).Ok?
    && (forall k | k in d.receivedNonces :: ReadNonce(rules, d.receivedNonces[k]).Ok?)
    && (forall k | k in d.receivedPartialSigs :: DeserializeBN(d.receivedPartialSigs[k]).Ok?)
  }

  /** `read` holds under each index what is read from the record under the last name of that index. */
  ghost predicate ReadInto<V, W>(names: seq<string>, record: map<string, V>, readOne: V -> Result<W>, read: map<Index, W>)
    requires ListsNames(names, record)
  {
    && (forall x :: x in read <==> Chosen(names, x).Some?)
    && (forall x | x in read :: Ok(read[x]) == readOne(record[Chosen(names, x).value]))
  }

  /** `s` is what the snapshot says, entry by entry. */
  ghost predicate IsRestored(rules: Rules, d: SerializedSession, s: LiveSession)
    requires IsRuntime(rules) && IsReadable(rules, d)
  {
    && s.header == d.header && s.signers == ReadKeys(rules, d.signers).value && s.message == FromHex(d.message)
    && ReadInto(rules.nonceNames(d), d.receivedNonces, pair => ReadNonce(rules, pair), s.receivedPublicNonces)
    && ReadInto(rules.sigNames(d), d.receivedPartialSigs, DeserializeBN, s.receivedPartialSigs)
    && s.participants == ReadParticipants(rules, d.participants).value
  }

  method Deserialize(rules: Rules, d: SerializedSession) returns (r: Result<LiveSession>)
    requires IsRuntime(rules)
    ensures r.Ok? <==> IsReadable(rules, d)
    ensures r.Ok? ==> IsRestored(rules, d, r.value)
  {
    var signers := ReadKeys(rules, d.signers);
    if signers.Error? {
      return Error(signers.message);
    }
    var nonces := DeserializeRecord(rules.nonceNames(d), d.receivedNonces, pair => ReadNonce(rules, pair));
    if nonces.Error? {
      return Error(nonces.message);
    }
    var sigs := DeserializeRecord(rules.sigNames(d), d.receivedPartialSigs, DeserializeBN);
    if sigs.Error? {
      return Error(sigs.message);
    }
    var participants := ReadParticipants(rules, d.participants);
    if participants.Error? {
      return Error(participants.message);
    }
    return Ok(LiveSession(d.header, signers.value, FromHex(d.message), nonces.value, sigs.value, participants.value));
  }

  /** The loop over one record: names are parsed whatever they are, and of two that give the same
      index the later one counts. */
  method DeserializeRecord<V, W>(names: seq<string>, record: map<string, V>, readOne: V -> Result<W>)
    returns (r: Result<map<Index, W>>)
    requires ListsNames(names, record)
    ensures r.Ok? <==> forall k | k in record :: readOne(record[k]).Ok?
    ensures r.Ok? ==> ReadInto(names, record, readOne, r.value)
  {
    hide ParseIndex;
    var read: map<Index, W> := map[];
    for i := 0 to |names|
      invariant forall k | k in names[..i] :: readOne(record[k]).Ok?
      invariant forall x :: x in read <==> Chosen(names[..i], x).Some?
      invariant forall x | x in read :: Ok(read[x]) == readOne(record[Chosen(names[..i], x).value])
    {
      assert names[..i + 1][..i] == names[..i] && names[..i + 1] == names[..i] + [names[i]];
      var one := readOne(record[names[i]]);
      if one.Error? {
        return Error(one.message);
      }
      read := read[ParseIndex(names[i]) := one.value];
    }
    assert names[..|names|] == names;
    return Ok(read);
  }

  // ---------------------------------------------------------------- round trip

  ghost predicate IsKey(rules: Rules, key: seq<Byte>) {
    rules.isKey(key) && |key| in {33, 65}
  }

  /** The values a session holds are ones its codecs can carry. */
  ghost predicate WellFormed(rules: Rules, s: LiveSession) {
    && Writable(s)
    && (forall i | 0 <= i < |s.signers| :: IsKey(rules, s.signers[i]))
    && (forall i | i in s.receivedPublicNonces ::
          OnCurve(rules.curve, s.receivedPublicNonces[i][0]) && OnCurve(rules.curve, s.receivedPublicNonces[i][1]))
    && (forall peer | peer in s.participants :: IsKey(rules, s.participants[peer].publicKey))
  }

  /** What survives: nonces are cut to two parts, participants take the peer they are stored under. */
  function Carried(s: LiveSession): LiveSession
    requires Writable(s)
  {
    s.(receivedPublicNonces := map i | i in s.receivedPublicNonces :: s.receivedPublicNonces[i][..2],
       participants := map peer | peer in s.participants :: s.participants[peer].(peerId := peer))
  }

  lemma {:induction false} KeysReadBack(rules: Rules, keys: seq<seq<Byte>>)
    requires forall i | 0 <= i < |keys| :: IsKey(rules, keys[i])
    ensures ReadKeys(rules, WrittenKeys(keys)) == Ok(keys)
  {
    hide ToHex, DeserializePublicKey;
    if keys != [] {
      var front, last := keys[..|keys| - 1], keys[|keys| - 1];
      KeysReadBack(rules, front);
      PublicKeySurvivesWire(rules.isKey, last);
      assert WrittenKeys(keys)[..|keys| - 1] == WrittenKeys(front);
      assert keys == front + [last];
    }
  }

  lemma NonceReadBack(rules: Rules, nonce: seq<Point>)
    requires |nonce| >= 2 && OnCurve(rules.curve, nonce[0]) && OnCurve(rules.curve, nonce[1])
    ensures ReadNonce(rules, WrittenNonce(nonce)) == Ok(nonce[..2])
  {
    PointSurvivesWire(rules.curve, nonce[0]);
    PointSurvivesWire(rules.curve, nonce[1]);
    assert nonce[..2] == [nonce[0], nonce[1]];
  }

  lemma ParticipantReadBack(rules: Rules, peer: string, p: Participant)
    requires IsKey(rules, p.publicKey)
    ensures ReadParticipant(rules, WrittenParticipant(peer, p)) == Ok(p.(peerId := peer))
  {
    PublicKeySurvivesWire(rules.isKey, p.publicKey);
  }

  /** Whoever is listed is read back, with the data written of them. */
  ghost predicate ReadBack(participants: map<string, Participant>, list: seq<SerializedParticipant>,
                           peers: map<string, Participant>) {
    && (forall peer :: peer in peers <==> Listed(list, peer))
    && (forall peer | peer in peers :: peer in participants && peers[peer] == participants[peer].(peerId := peer))
  }

  lemma {:induction false} ParticipantsReadBack(rules: Rules, participants: map<string, Participant>,
                                                list: seq<SerializedParticipant>)
    requires forall peer | peer in participants :: IsKey(rules, participants[peer].publicKey)
    requires forall j | 0 <= j < |list| :: IsWritten(participants, list[j])
    ensures ReadParticipants(rules, list).Ok?
    ensures ReadBack(participants, list, ReadParticipants(rules, list).value)
  {
    hide IsKey, WrittenParticipant, ReadParticipant, Listed;
    if list == [] {
      forall peer
        ensures !Listed(list, peer)
      {
        NobodyListed(peer);
      }
    } else {
      var front, last := list[..|list| - 1], list[|list| - 1];
      ParticipantsReadBack(rules, participants, front);
      assert IsWritten(participants, last);
      ParticipantReadBack(rules, last.peerId, participants[last.peerId]);
      assert list == front + [last];
      forall peer
        ensures Listed(list, peer) <==> Listed(front, peer) || peer == last.peerId
      {
        ListedAfter(front, last, peer);
      }
    }
  }

  lemma NobodyListed(peer: string)
    ensures !Listed([], peer)
  {
  }

  lemma NoncesAreReadable(rules: Rules, nonces: map<Index, seq<Point>>, record: map<string, NoncePair>)
    requires (forall j | j in nonces :: |nonces[j]| >= 2) && NoncesWritten(nonces, record)
    requires forall j | j in nonces :: OnCurve(rules.curve, nonces[j][0]) && OnCurve(rules.curve, nonces[j][1])
    ensures forall k | k in record :: ReadNonce(rules, record[k]).Ok?
  {
    hide Name, ParseIndex, ReadNonce, WrittenNonce, OnCurve;
    forall k | k in record
      ensures ReadNonce(rules, record[k]).Ok?
    {
      NonceReadBack(rules, nonces[ParseIndex(k)]);
    }
  }

  lemma SigsAreReadable(sigs: map<Index, nat>, record: map<string, string>)
    requires (forall j | j in sigs :: sigs[j] < Power256(SCALAR_BYTES)) && SigsWritten(sigs, record)
    ensures forall k | k in record :: DeserializeBN(record[k]).Ok?
  {
    hide Name, ParseIndex, DeserializeBN, SerializeBN, Power256;
    forall k | k in record
      ensures DeserializeBN(record[k]).Ok?
    {
      ScalarSurvivesWire(sigs[ParseIndex(k)]);
    }
  }

  /** Reading a snapshot of a session succeeds and gives what the snapshot carries of it. */
  lemma SnapshotIsReadable(rules: Rules, s: LiveSession, d: SerializedSession)
    requires WellFormed(rules, s) && IsSnapshot(s, d)
    ensures IsReadable(rules, d)
  {
    hide ReadKeys, ReadParticipants, ReadNonce, DeserializeBN, WrittenKeys, NoncesWritten, SigsWritten, OnCurve, IsKey, Power256;
    KeysReadBack(rules, s.signers);
    ParticipantsReadBack(rules, s.participants, d.participants);
    NoncesAreReadable(rules, s.receivedPublicNonces, d.receivedNonces);
    SigsAreReadable(s.receivedPartialSigs, d.receivedPartialSigs);
  }

  /** A record whose names are those of indices is read entry by entry, in whatever order it is listed. */
  lemma ReadByName<V, W>(names: seq<string>, record: map<string, V>, readOne: V -> Result<W>, read: map<Index, W>)
    requires ListsNames(names, record) && ReadInto(names, record, readOne, read)
    requires forall k | k in record :: IsIndexName(k)
    ensures forall x :: x in read <==> Name(x) in record
    ensures forall x | x in read :: Ok(read[x]) == readOne(record[Name(x)])
  {
    hide Name, ParseIndex, Chosen;
    forall x
      ensures Chosen(names, x) == if Name(x) in record then Some(Name(x)) else None
    {
      ChosenIsName(names, x);
    }
  }

  lemma NoncesRestored(rules: Rules, nonces: map<Index, seq<Point>>, record: map<string, NoncePair>, i: Index)
    requires (forall j | j in nonces :: |nonces[j]| >= 2) && NoncesWritten(nonces, record)
    requires forall j | j in nonces :: OnCurve(rules.curve, nonces[j][0]) && OnCurve(rules.curve, nonces[j][1])
    ensures Name(i) in record <==> i in nonces
    ensures i in nonces ==> ReadNonce(rules, record[Name(i)]) == Ok(nonces[i][..2])
  {
    NameReadBack(i);
    hide Name, ParseIndex, ReadNonce, WrittenNonce;
    if i in nonces {
      NonceReadBack(rules, nonces[i]);
    }
  }

  lemma SigsRestored(sigs: map<Index, nat>, record: map<string, string>, i: Index)
    requires (forall j | j in sigs :: sigs[j] < Power256(SCALAR_BYTES)) && SigsWritten(sigs, record)
    ensures Name(i) in record <==> i in sigs
    ensures i in sigs ==> DeserializeBN(record[Name(i)]) == Ok(sigs[i])
  {
    NameReadBack(i);
    hide Name, ParseIndex, DeserializeBN, SerializeBN, Power256;
    if i in sigs {
      ScalarSurvivesWire(sigs[i]);
    }
  }

  lemma NamesOfIndices(s: LiveSession, d: SerializedSession)
    requires Writable(s) && IsSnapshot(s, d)
    ensures forall k | k in d.receivedNonces :: IsIndexName(k)
    ensures forall k | k in d.receivedPartialSigs :: IsIndexName(k)
  {
  }

  lemma AllNoncesRestored(rules: Rules, s: LiveSession, d: SerializedSession, s': LiveSession)
    requires IsRuntime(rules) && WellFormed(rules, s) && IsSnapshot(s, d) && IsReadable(rules, d) && IsRestored(rules, d, s')
    ensures s'.receivedPublicNonces == Carried(s).receivedPublicNonces
    ensures s'.receivedPartialSigs == s.receivedPartialSigs
  {
    hide ReadParticipants, ReadKeys, ToHex, FromHex, ReadNonce, DeserializeBN, Name, WrittenKeys, IsKey, OnCurve;
    hide ParticipantsWritten, SerializeBN, WrittenNonce, Power256, ReadInto, ParseIndex;
    NamesOfIndices(s, d);
    ReadByName(rules.nonceNames(d), d.receivedNonces, pair => ReadNonce(rules, pair), s'.receivedPublicNonces);
    ReadByName(rules.sigNames(d), d.receivedPartialSigs, DeserializeBN, s'.receivedPartialSigs);
    hide NoncesWritten, SigsWritten;
    forall i: Index
      ensures i in s'.receivedPublicNonces <==> i in s.receivedPublicNonces
      ensures i in s'.receivedPublicNonces ==> s'.receivedPublicNonces[i] == s.receivedPublicNonces[i][..2]
    {
      NoncesRestored(rules, s.receivedPublicNonces, d.receivedNonces, i);
    }
    forall i: Index
      ensures i in s'.receivedPartialSigs <==> i in s.receivedPartialSigs
      ensures i in s'.receivedPartialSigs ==> s'.receivedPartialSigs[i] == s.receivedPartialSigs[i]
    {
      SigsRestored(s.receivedPartialSigs, d.receivedPartialSigs, i);
    }
  }

  lemma AllParticipantsRestored(participants: map<string, Participant>, list: seq<SerializedParticipant>,
                                peers: map<string, Participant>)
    requires ParticipantsWritten(participants, list) && ReadBack(participants, list, peers)
    ensures peers == map peer | peer in participants :: participants[peer].(peerId := peer)
  {
    hide WrittenParticipant;
    forall peer
      ensures peer in peers <==> peer in participants
    {
      if Listed(list, peer) {
        var j :| 0 <= j < |list| && list[j].peerId == peer;
        assert IsWritten(participants, list[j]);
      }
    }
  }

  /** `deserialize` after `serialize` gives the session back, with nonces cut to two parts and
      participants under the peer they were stored under. */
  lemma SnapshotRestores(rules: Rules, s: LiveSession, d: SerializedSession, s': LiveSession)
    requires IsRuntime(rules) && WellFormed(rules, s) && IsSnapshot(s, d) && IsReadable(rules, d) && IsRestored(rules, d, s')
    ensures s' == Carried(s)
  {
    KeysReadBack(rules, s.signers);
    BytesSurviveHex(s.message);
    AllNoncesRestored(rules, s, d, s');
    ParticipantsReadBack(rules, s.participants, d.participants);
    AllParticipantsRestored(s.participants, d.participants, s'.participants);
    hide ReadParticipants, ReadKeys, ToHex, FromHex, ReadNonce, DeserializeBN, Name, WrittenKeys, IsKey, OnCurve;
    hide Power256, NoncesWritten, SigsWritten, ParticipantsWritten, ReadBack, ReadInto;
  }

  /** Everything persisted comes back exactly when each participant is stored under its own
      peer id and each nonce has exactly two parts. */
  lemma RoundTripIsExact(s: LiveSession)
    requires Writable(s)
    ensures Carried(s) == s <==>
            (forall peer | peer in s.participants :: s.participants[peer].peerId == peer)
            && (forall i | i in s.receivedPublicNonces :: |s.receivedPublicNonces[i]| == 2)
  {
    var t := Carried(s);
    if t == s {
      forall peer | peer in s.participants
        ensures s.participants[peer].peerId == peer
      {
        assert t.participants[peer].peerId == peer;
      }
      forall i | i in s.receivedPublicNonces
        ensures |s.receivedPublicNonces[i]| == 2
      {
        assert |t.receivedPublicNonces[i]| == 2;
      }
    }
    if (forall peer | peer in s.participants :: s.participants[peer].peerId == peer)
       && (forall i | i in s.receivedPublicNonces :: |s.receivedPublicNonces[i]| == 2) {
      assert t.participants == s.participants;
      forall i | i in s.receivedPublicNonces
        ensures t.receivedPublicNonces[i] == s.receivedPublicNonces[i]
      {
        assert s.receivedPublicNonces[i][..2] == s.receivedPublicNonces[i];
      }
      assert t.receivedPublicNonces == s.receivedPublicNonces;
    }
  }

  // ---------------------------------------------------------------- storage

  predicate IsExpired(lastActivity: int, expiry: int, now: int) {
    now - lastActivity >= expiry
  }

  /** The stored snapshots that have not expired at `now`. */
  function ActiveAt(sessions: Snapshots, expiry: int, now: int): Snapshots {
    map id | id in sessions && !IsExpired(sessions[id].header.lastActivity, expiry, now) :: sessions[id]
  }

  /** Every snapshot is stored under the id it carries. */
  ghost predicate Filed(sessions: Snapshots) {
    forall id | id in sessions :: sessions[id].header.sessionId == id
  }

  ghost predicate Nondecreasing(readings: seq<int>) {
    forall i, j | 0 <= i <= j < |readings| :: readings[i] <= readings[j]
  }

  lemma NoEarlierThanFirst(readings: seq<int>)
    requires Nondecreasing(readings)
    ensures forall i | 0 <= i < |readings| :: readings[0] <= readings[i] <= readings[|readings| - 1]
  {
  }

  ghost predicate Within(a: Snapshots, b: Snapshots) {
    forall id | id in a :: id in b && a[id] == b[id]
  }

  /** Part of a cleanup: of those no longer `todo`, the ones left had not expired at the first
      reading, and the ones gone have at the last. */
  ghost predicate Swept(before: Snapshots, now: Snapshots, todo: set<string>, expiry: int, readings: seq<int>) {
    && Within(now, before) && todo <= now.Keys
    && (forall id | id in now && id !in todo ::
          |readings| > 0 && !IsExpired(before[id].header.lastActivity, expiry, readings[0]))
    && (forall id | id in before && id !in now ::
          |readings| > 0 && IsExpired(before[id].header.lastActivity, expiry, readings[|readings| - 1]))
  }

  lemma NothingSwept(before: Snapshots, expiry: int, readings: seq<int>)
    ensures Swept(before, before, before.Keys, expiry, readings)
  {
  }

  lemma SweptIsWithin(before: Snapshots, now: Snapshots, todo: set<string>, expiry: int, readings: seq<int>)
    requires Swept(before, now, todo, expiry, readings)
    ensures Within(now, before)
    ensures forall id | id in now :: id in before && now[id] == before[id]
  {
  }

  lemma SweepOne(before: Snapshots, now: Snapshots, todo: set<string>, expiry: int,
                 readings: seq<int>, id: string, n: nat)
    requires Swept(before, now, todo, expiry, readings) && id in todo && id in before && n < |readings|
    requires readings[0] <= readings[n] <= readings[|readings| - 1]
    ensures IsExpired(before[id].header.lastActivity, expiry, readings[n]) ==>
              Swept(before, now - {id}, todo - {id}, expiry, readings)
    ensures !IsExpired(before[id].header.lastActivity, expiry, readings[n]) ==> Swept(before, now, todo - {id}, expiry, readings)
  {
  }

  lemma SweptAll(before: Snapshots, after: Snapshots, expiry: int, readings: seq<int>)
    requires Swept(before, after, {}, expiry, readings) && |readings| == |before|
    ensures |readings| > 0 ==> Within(after, ActiveAt(before, expiry, readings[0]))
    ensures |readings| > 0 ==> Within(ActiveAt(before, expiry, readings[|readings| - 1]), after)
    ensures |readings| == 0 ==> after == before
    ensures forall now | (forall i | 0 <= i < |readings| :: readings[i] == now) :: after == ActiveAt(before, expiry, now)
  {
    forall now | forall i | 0 <= i < |readings| :: readings[i] == now
      ensures after == ActiveAt(before, expiry, now)
    {
      if |readings| > 0 {
        assert readings[0] == now && readings[|readings| - 1] == now;
      }
    }
  }

  class SessionPersistenceManager {
    var sessions: Snapshots
    const sessionExpiry: int

    ghost predicate Valid()
      reads this
    {
      Filed(sessions)
    }

    constructor (sessionExpiry: int)
      ensures Valid() && sessions == map[] && this.sessionExpiry == sessionExpiry
    {
      this.sessionExpiry := sessionExpiry;
      sessions := map[];
    }

    method Save(s: LiveSession)
      requires Valid() && Writable(s)
      modifies this
      ensures Valid()
      ensures sessions.Keys == old(sessions).Keys + {s.header.sessionId}
      ensures IsSnapshot(s, sessions[s.header.sessionId])
      ensures forall id | id in sessions && id != s.header.sessionId :: sessions[id] == old(sessions)[id]
    {
      var d := Serialize(s);
      sessions := sessions[s.header.sessionId := d];
    }

    method Load(rules: Rules, sessionId: string) returns (r: Option<Result<LiveSession>>)
      requires Valid() && IsRuntime(rules)
      ensures r.Some? <==> sessionId in sessions
      ensures r.Some? ==> (r.value.Ok? <==> IsReadable(rules, sessions[sessionId]))
      ensures r.Some? && r.value.Ok? ==> IsRestored(rules, sessions[sessionId], r.value.value)
    {
      if sessionId !in sessions {
        return None;
      }
      var s := Deserialize(rules, sessions[sessionId]);
      return Some(s);
    }

    /** One snapshot that cannot be read makes the whole call fail. */
    method LoadActive(rules: Rules, now: int) returns (r: Result<map<string, LiveSession>>)
      requires Valid() && IsRuntime(rules)
      ensures r.Ok? <==> forall id | id in ActiveAt(sessions, sessionExpiry, now) :: IsReadable(rules, sessions[id])
      ensures r.Ok? ==> r.value.Keys == ActiveAt(sessions, sessionExpiry, now).Keys
      ensures r.Ok? ==> forall id | id in r.value :: IsRestored(rules, sessions[id], r.value[id])
    {
      hide IsReadable, IsRestored, IsRuntime;
      var active := ActiveAt(sessions, sessionExpiry, now);
      var loaded: map<string, LiveSession> := map[];
      var todo := active.Keys;
      while todo != {}
        invariant todo <= active.Keys && loaded.Keys == active.Keys - todo
        invariant forall id | id in loaded :: IsReadable(rules, sessions[id]) && IsRestored(rules, sessions[id], loaded[id])
      {
        var id :| id in todo;
        var s := Deserialize(rules, sessions[id]);
        if s.Error? {
          return Error(s.message);
        }
        todo := todo - {id};
        loaded := loaded[id := s.value];
      }
      return Ok(loaded);
    }

    /** The snapshots are listed once; each is then judged by a clock reading of its own, and deleted
        under the id it carries. */
    method CleanupExpired(readings: seq<int>) returns (cleaned: nat)
      requires Valid() && |readings| == |sessions| && Nondecreasing(readings)
      modifies this
      ensures Valid() && cleaned == |old(sessions)| - |sessions|
      ensures |readings| == 0 ==> sessions == old(sessions)
      ensures |readings| > 0 ==> Within(sessions, ActiveAt(old(sessions), sessionExpiry, readings[0]))
      ensures |readings| > 0 ==> Within(ActiveAt(old(sessions), sessionExpiry, readings[|readings| - 1]), sessions)
      ensures forall now | (forall i | 0 <= i < |readings| :: readings[i] == now) ::
                sessions == ActiveAt(old(sessions), sessionExpiry, now)
    {
      hide Nondecreasing, ActiveAt, Within, Swept, IsExpired;
      ghost var before := sessions;
      NoEarlierThanFirst(readings);
      NothingSwept(before, sessionExpiry, readings);
      var allData := sessions;
      var todo := sessions.Keys;
      var n := 0;
      cleaned := 0;
      while todo != {}
        invariant todo <= sessions.Keys && n == |before| - |todo| && allData == before
        invariant cleaned == |before| - |sessions| && Filed(sessions)
        invariant Swept(before, sessions, todo, sessionExpiry, readings)
      {
        var id :| id in todo;
        SweptIsWithin(before, sessions, todo, sessionExpiry, readings);
        var data := allData[id];
        assert |todo| > 0;
        SweepOne(before, sessions, todo, sessionExpiry, readings, id, n);
        if IsExpired(data.header.lastActivity, sessionExpiry, readings[n]) {
          OneFewer(sessions, id);
          sessions := sessions - {data.header.sessionId};
          cleaned := cleaned + 1;
        }
        todo := todo - {id};
        n := n + 1;
      }
      SweptAll(before, sessions, sessionExpiry, readings);
    }
  }

  lemma OneFewer<T>(m: map<string, T>, key: string)
    requires key in m
    ensures |m - {key}| == |m| - 1
  {
    assert (m - {key}).Keys == m.Keys - {key};
  }

  /** What was saved can be loaded until it expires, and is what the snapshot carries. */
  lemma SavedIsLoadedUntilExpiry(rules: Rules, sessions: Snapshots, expiry: int, now: int, s: LiveSession)
    requires s.header.sessionId in sessions && IsRuntime(rules) && WellFormed(rules, s)
    requires IsSnapshot(s, sessions[s.header.sessionId])
    ensures s.header.sessionId in ActiveAt(sessions, expiry, now) <==> now < s.header.lastActivity + expiry
    ensures IsReadable(rules, sessions[s.header.sessionId])
    ensures forall s' | IsRestored(rules, sessions[s.header.sessionId], s') :: s' == Carried(s)
  {
    SnapshotIsReadable(rules, s, sessions[s.header.sessionId]);
    hide WellFormed, IsReadable, IsRestored, Carried;
    forall s' | IsRestored(rules, sessions[s.header.sessionId], s')
      ensures s' == Carried(s)
    {
      SnapshotRestores(rules, s, sessions[s.header.sessionId], s');
    }
  }
}
