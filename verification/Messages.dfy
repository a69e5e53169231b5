/** The messages and structs of the crypto layer, as typed records and as field lists. */
module Messages {
  import opened Bytes
  import opened Codec

  const REQUEST_HANDSHAKE_BEGIN: Byte := 0x00
  const REPLY_HANDSHAKE_BEGIN: Byte := 0x01
  const REPLY_HANDSHAKE_ERROR: Byte := 0x02
  const SESSION_DATA: Byte := 0x03

  const U16_LIMIT: nat := 0x1_0000

  const VERSION: FieldType := Struct([UInt(2), UInt(2)])
  const CRYPTO_SPEC: FieldType :=
    Struct([Enum({0x00, 0x01, 0x02}), Enum({0x00}), Enum({0x00}), Enum({0x00, 0x01}), Enum({0x00, 0x01})])
  const CONSTRAINTS: FieldType := Struct([UInt(2), UInt(4)])
  const HANDSHAKE_MODE: FieldType := Enum({0x00, 0x01, 0x02, 0x03})
  const AUTH_METADATA: FieldType := Struct([UInt(2), UInt(4)])

  const REQUEST_FIELDS: seq<FieldType> := [VERSION, CRYPTO_SPEC, CONSTRAINTS, HANDSHAKE_MODE, Octets, Octets]
  const REPLY_FIELDS: seq<FieldType> := [VERSION, Octets, Octets]
  const SESSION_DATA_FIELDS: seq<FieldType> := [AUTH_METADATA, Octets, Octets]

  const HANDSHAKE_ERRORS: set<Byte> := {0x0, 0x1, 0x2, 0x3, 0x4, 0x5, 0x6, 0x7, 0x8, 0x9, 0xA, 0xB, 0xC, 0xD, 0xFD, 0xFF}
  const ERROR_FIELDS: seq<FieldType> := [VERSION, Enum(HANDSHAKE_ERRORS)]

  datatype Version = Version(major: nat, minor: nat)

  datatype CryptoSpec = CryptoSpec(ephemeral: Byte, hash: Byte, kdf: Byte, nonceMode: Byte, cryptoMode: Byte)

  datatype Constraints = Constraints(maxNonce: nat, maxSessionDuration: nat)

  datatype Request = Request(
    version: Version, spec: CryptoSpec, constraints: Constraints, mode: Byte, modeEphemeral: seq<Byte>, modeData: seq<Byte>)

  datatype Reply = Reply(version: Version, modeEphemeral: seq<Byte>, modeData: seq<Byte>)

  datatype AuthMetadata = AuthMetadata(nonce: nat, validUntilMs: nat)

  datatype SessionData = SessionData(metadata: AuthMetadata, userData: seq<Byte>, authTag: seq<Byte>)

  function RequestValues(m: Request): seq<Value> {
    [Record([Num(m.version.major), Num(m.version.minor)]),
     Record([Code(m.spec.ephemeral), Code(m.spec.hash), Code(m.spec.kdf), Code(m.spec.nonceMode), Code(m.spec.cryptoMode)]),
     Record([Num(m.constraints.maxNonce), Num(m.constraints.maxSessionDuration)]),
     Code(m.mode), Data(m.modeEphemeral), Data(m.modeData)]
  }

  function ReplyValues(m: Reply): seq<Value> {
    [Record([Num(m.version.major), Num(m.version.minor)]), Data(m.modeEphemeral), Data(m.modeData)]
  }

  function MetadataValue(m: AuthMetadata): Value {
    Record([Num(m.nonce), Num(m.validUntilMs)])
  }

  function SessionDataValues(m: SessionData): seq<Value> {
    [MetadataValue(m.metadata), Data(m.userData), Data(m.authTag)]
  }

  /** Every enumeration is defined and every field fits its width. */
  predicate ValidRequest(m: Request) { HaveTypes(REQUEST_FIELDS, RequestValues(m)) }

  predicate ValidReply(m: Reply) { HaveTypes(REPLY_FIELDS, ReplyValues(m)) }

  predicate ValidSessionData(m: SessionData) { HaveTypes(SESSION_DATA_FIELDS, SessionDataValues(m)) }

  function EncodeRequest(m: Request): seq<Byte>
    requires ValidRequest(m)
  {
    EncodeMessage(REQUEST_HANDSHAKE_BEGIN, REQUEST_FIELDS, RequestValues(m))
  }

  function EncodeReply(m: Reply): seq<Byte>
    requires ValidReply(m)
  {
    EncodeMessage(REPLY_HANDSHAKE_BEGIN, REPLY_FIELDS, ReplyValues(m))
  }

  function EncodeSessionData(m: SessionData): seq<Byte>
    requires ValidSessionData(m)
  {
    EncodeMessage(SESSION_DATA, SESSION_DATA_FIELDS, SessionDataValues(m))
  }

  /** Different requests have different octets, so a request can be read back from its octets. */
  lemma EncodeRequestInjective(m: Request, n: Request)
    requires ValidRequest(m) && ValidRequest(n) && EncodeRequest(m) == EncodeRequest(n)
    ensures m == n
  {
    hide HaveTypes, EncodeMessage, ReadMessage;
    MessageBijection(REQUEST_HANDSHAKE_BEGIN, REQUEST_FIELDS, RequestValues(m), EncodeRequest(m));
    MessageBijection(REQUEST_HANDSHAKE_BEGIN, REQUEST_FIELDS, RequestValues(n), EncodeRequest(n));
    var vs, ws := RequestValues(m), RequestValues(n);
    assert vs[0].values[0] == ws[0].values[0] && vs[0].values[1] == ws[0].values[1];
    assert forall i :: 0 <= i < 5 ==> vs[1].values[i] == ws[1].values[i];
    assert vs[1].values[0] == ws[1].values[0] && vs[1].values[1] == ws[1].values[1] && vs[1].values[2] == ws[1].values[2];
    assert vs[1].values[3] == ws[1].values[3] && vs[1].values[4] == ws[1].values[4];
    assert vs[2].values[0] == ws[2].values[0] && vs[2].values[1] == ws[2].values[1];
    assert vs[3] == ws[3] && vs[4] == ws[4] && vs[5] == ws[5];
  }

  /** When a session message can be encoded, and how many octets it then takes. */
  lemma SessionDataSize(m: SessionData)
    ensures ValidSessionData(m) <==>
            && m.metadata.nonce < U16_LIMIT && m.metadata.validUntilMs < U32_LIMIT
            && |m.userData| < U32_LIMIT && |m.authTag| < U32_LIMIT
    ensures ValidSessionData(m) ==>
            |EncodeSessionData(m)| == 9 + NumValueBytes(|m.userData|) + |m.userData| + NumValueBytes(|m.authTag|) + |m.authTag|
  {
    hide EncodeVLength, NumValueBytes, BigEndian, Pow256;
    Powers();
    var vs := SessionDataValues(m);
    var ts := SESSION_DATA_FIELDS;
    assert HasType(ts[0], vs[0]) <==> m.metadata.nonce < U16_LIMIT && m.metadata.validUntilMs < U32_LIMIT by {
      var fs, ws := ts[0].fields, vs[0].values;
      assert fs[1..] == [UInt(4)] && ws[1..] == [Num(m.metadata.validUntilMs)];
    }
    assert ts[1..] == [Octets, Octets] && ts[1..][1..] == [Octets];
    assert vs[1..] == [Data(m.userData), Data(m.authTag)] && vs[1..][1..] == [Data(m.authTag)];
    assert HaveTypes([Octets], [Data(m.authTag)]) <==> HasType(Octets, Data(m.authTag));
    assert HaveTypes(ts[1..], vs[1..]) <==> HasType(Octets, Data(m.userData)) && HasType(Octets, Data(m.authTag));
    if ValidSessionData(m) {
      SessionDataLayout(m);
    }
  }

  function MetadataOctets(m: AuthMetadata): (s: seq<Byte>)
    ensures |s| == 6
  {
    BigEndian(m.nonce, 2) + BigEndian(m.validUntilMs, 4)
  }

  lemma SessionDataLayout(m: SessionData)
    requires ValidSessionData(m) && |m.userData| < U32_LIMIT && |m.authTag| < U32_LIMIT
    ensures EncodeSessionData(m) ==
            [SESSION_DATA] + MetadataOctets(m.metadata) + (EncodeVLength(|m.userData|) + m.userData) + (EncodeVLength(|m.authTag|) + m.authTag)
  {
    hide EncodeVLength, BigEndian, HaveTypes, HasType, Pow256;
    var ts, vs := SESSION_DATA_FIELDS, SessionDataValues(m);
    assert HaveTypes(ts, vs);
    HeadAndTail(ts, vs);
    assert ts[1..] == [Octets, Octets] && vs[1..] == [Data(m.userData), Data(m.authTag)];
    HeadAndTail(ts[1..], vs[1..]);
    assert ts[1..][1..] == [Octets] && vs[1..][1..] == [Data(m.authTag)];
    HeadAndTail([Octets], [Data(m.authTag)]);
    var fs, ws := ts[0].fields, vs[0].values;
    StructFields(fs, ws);
    HeadAndTail(fs, ws);
    assert fs[1..] == [UInt(4)] && ws[1..] == [Num(m.metadata.validUntilMs)];
    HeadAndTail(fs[1..], ws[1..]);
  }

  lemma HeadAndTail(ts: seq<FieldType>, vs: seq<Value>)
    requires HaveTypes(ts, vs) && ts != []
    ensures vs != [] && HasType(ts[0], vs[0]) && HaveTypes(ts[1..], vs[1..])
    ensures EncodeFields(ts, vs) == Encode(ts[0], vs[0]) + EncodeFields(ts[1..], vs[1..])
  {}

  lemma StructFields(ts: seq<FieldType>, vs: seq<Value>)
    requires HasType(Struct(ts), Record(vs))
    ensures HaveTypes(ts, vs) && Encode(Struct(ts), Record(vs)) == EncodeFields(ts, vs)
  {}

  function Prefixed(data: seq<Byte>): seq<Byte>
    requires |data| < U32_LIMIT
  {
    EncodeVLength(|data|) + data
  }

  lemma OneField(t: FieldType, v: Value)
    ensures HaveTypes([t], [v]) <==> HasType(t, v)
    ensures HasType(t, v) ==> EncodeFields([t], [v]) == Encode(t, v)
  {
    assert [t][1..] == [] && [v][1..] == [];
    if HasType(t, v) {
      assert EncodeFields([t], [v]) == Encode(t, v) + EncodeFields([], []);
      assert Encode(t, v) + [] == Encode(t, v);
    }
  }

  lemma MoreFields(t: FieldType, v: Value, ts: seq<FieldType>, vs: seq<Value>)
    ensures HaveTypes([t] + ts, [v] + vs) <==> HasType(t, v) && HaveTypes(ts, vs)
    ensures HaveTypes([t] + ts, [v] + vs) ==> EncodeFields([t] + ts, [v] + vs) == Encode(t, v) + EncodeFields(ts, vs)
  {
    assert ([t] + ts)[1..] == ts && ([v] + vs)[1..] == vs;
  }

  lemma TwoNumbers(w: nat, n: nat, w': nat, n': nat)
    ensures HasType(Struct([UInt(w), UInt(w')]), Record([Num(n), Num(n')])) <==> n < Pow256(w) && n' < Pow256(w')
    ensures n < Pow256(w) && n' < Pow256(w') ==>
            Encode(Struct([UInt(w), UInt(w')]), Record([Num(n), Num(n')])) == BigEndian(n, w) + BigEndian(n', w')
  {
    hide BigEndian, Pow256;
    OneField(UInt(w'), Num(n'));
    MoreFields(UInt(w), Num(n), [UInt(w')], [Num(n')]);
    assert [UInt(w)] + [UInt(w')] == [UInt(w), UInt(w')] && [Num(n)] + [Num(n')] == [Num(n), Num(n')];
  }

  lemma SpecOctets(s: CryptoSpec)
    ensures var v := Record([Code(s.ephemeral), Code(s.hash), Code(s.kdf), Code(s.nonceMode), Code(s.cryptoMode)]);
            && (HasType(CRYPTO_SPEC, v) <==> s.ephemeral <= 2 && s.hash == 0 && s.kdf == 0 && s.nonceMode <= 1 && s.cryptoMode <= 1)
            && (HasType(CRYPTO_SPEC, v) ==> Encode(CRYPTO_SPEC, v) == [s.ephemeral, s.hash, s.kdf, s.nonceMode, s.cryptoMode])
  {
    hide HaveTypes, EncodeFields;
    var vs := [Code(s.ephemeral), Code(s.hash), Code(s.kdf), Code(s.nonceMode), Code(s.cryptoMode)];
    FiveFields(CRYPTO_SPEC.fields, vs);
  }

  lemma FiveFields(ts: seq<FieldType>, vs: seq<Value>)
    requires |ts| == |vs| == 5
    ensures HaveTypes(ts, vs) <==>
            HasType(ts[0], vs[0]) && HasType(ts[1], vs[1]) && HasType(ts[2], vs[2]) && HasType(ts[3], vs[3]) && HasType(ts[4], vs[4])
    ensures HaveTypes(ts, vs) ==>
            EncodeFields(ts, vs) == Encode(ts[0], vs[0]) + Encode(ts[1], vs[1]) + Encode(ts[2], vs[2]) + Encode(ts[3], vs[3]) + Encode(ts[4], vs[4])
  {
    hide HasType, Encode, HaveTypes, EncodeFields;
    OneField(ts[4], vs[4]);
    MoreFields(ts[3], vs[3], [ts[4]], [vs[4]]);
    MoreFields(ts[2], vs[2], [ts[3]] + [ts[4]], [vs[3]] + [vs[4]]);
    MoreFields(ts[1], vs[1], [ts[2]] + ([ts[3]] + [ts[4]]), [vs[2]] + ([vs[3]] + [vs[4]]));
    MoreFields(ts[0], vs[0], [ts[1]] + ([ts[2]] + ([ts[3]] + [ts[4]])), [vs[1]] + ([vs[2]] + ([vs[3]] + [vs[4]])));
    assert ts == [ts[0]] + ([ts[1]] + ([ts[2]] + ([ts[3]] + [ts[4]])));
    assert vs == [vs[0]] + ([vs[1]] + ([vs[2]] + ([vs[3]] + [vs[4]])));
  }

  /** When a request can be encoded, and its octets, field by field. */
  lemma RequestLayout(m: Request)
    ensures ValidRequest(m) <==>
            && m.version.major < U16_LIMIT && m.version.minor < U16_LIMIT
            && m.spec.ephemeral <= 2 && m.spec.hash == 0 && m.spec.kdf == 0 && m.spec.nonceMode <= 1 && m.spec.cryptoMode <= 1
            && m.constraints.maxNonce < U16_LIMIT && m.constraints.maxSessionDuration < U32_LIMIT && m.mode <= 3
            && |m.modeEphemeral| < U32_LIMIT && |m.modeData| < U32_LIMIT
    ensures ValidRequest(m) ==>
            EncodeRequest(m) ==
              [0x00] + (BigEndian(m.version.major, 2) + BigEndian(m.version.minor, 2))
              + [m.spec.ephemeral, m.spec.hash, m.spec.kdf, m.spec.nonceMode, m.spec.cryptoMode]
              + (BigEndian(m.constraints.maxNonce, 2) + BigEndian(m.constraints.maxSessionDuration, 4))
              + [m.mode] + Prefixed(m.modeEphemeral) + Prefixed(m.modeData)
  {
    hide BigEndian, Pow256, EncodeVLength, HaveTypes, EncodeFields;
    Powers();
    var ts, vs := REQUEST_FIELDS, RequestValues(m);
    TwoNumbers(2, m.version.major, 2, m.version.minor);
    TwoNumbers(2, m.constraints.maxNonce, 4, m.constraints.maxSessionDuration);
    SpecOctets(m.spec);
    SixFields(ts, vs);
  }

  lemma SixFields(ts: seq<FieldType>, vs: seq<Value>)
    requires |ts| == |vs| == 6
    ensures HaveTypes(ts, vs) <==>
            HasType(ts[0], vs[0]) && HasType(ts[1], vs[1]) && HasType(ts[2], vs[2]) && HasType(ts[3], vs[3]) && HasType(ts[4], vs[4]) && HasType(ts[5], vs[5])
    ensures HaveTypes(ts, vs) ==>
            EncodeFields(ts, vs) == Encode(ts[0], vs[0]) + Encode(ts[1], vs[1]) + Encode(ts[2], vs[2]) + Encode(ts[3], vs[3]) + Encode(ts[4], vs[4]) + Encode(ts[5], vs[5])
  {
    hide HasType, Encode, HaveTypes, EncodeFields;
    FiveFields(ts[1..], vs[1..]);
    MoreFields(ts[0], vs[0], ts[1..], vs[1..]);
    assert ts == [ts[0]] + ts[1..] && vs == [vs[0]] + vs[1..];
  }

  /** When a reply can be encoded, and its octets, field by field. */
  lemma ReplyLayout(m: Reply)
    ensures ValidReply(m) <==>
            m.version.major < U16_LIMIT && m.version.minor < U16_LIMIT && |m.modeEphemeral| < U32_LIMIT && |m.modeData| < U32_LIMIT
    ensures ValidReply(m) ==>
            EncodeReply(m) ==
              [0x01] + (BigEndian(m.version.major, 2) + BigEndian(m.version.minor, 2)) + Prefixed(m.modeEphemeral) + Prefixed(m.modeData)
  {
    hide BigEndian, Pow256, EncodeVLength, HaveTypes, EncodeFields;
    Powers();
    var ts, vs := REPLY_FIELDS, ReplyValues(m);
    TwoNumbers(2, m.version.major, 2, m.version.minor);
    OneField(ts[2], vs[2]);
    MoreFields(ts[1], vs[1], [ts[2]], [vs[2]]);
    MoreFields(ts[0], vs[0], [ts[1]] + [ts[2]], [vs[1]] + [vs[2]]);
    assert ts == [ts[0]] + ([ts[1]] + [ts[2]]) && vs == [vs[0]] + ([vs[1]] + [vs[2]]);
  }

  function EncodeError(version: Version, code: Byte): seq<Byte>
    requires HaveTypes(ERROR_FIELDS, [Record([Num(version.major), Num(version.minor)]), Code(code)])
  {
    EncodeMessage(REPLY_HANDSHAKE_ERROR, ERROR_FIELDS, [Record([Num(version.major), Num(version.minor)]), Code(code)])
  }

  /** An error message takes six octets. */
  lemma ErrorLayout(version: Version, code: Byte)
    requires version.major < U16_LIMIT && version.minor < U16_LIMIT && code in HANDSHAKE_ERRORS
    ensures HaveTypes(ERROR_FIELDS, [Record([Num(version.major), Num(version.minor)]), Code(code)])
    ensures EncodeError(version, code) == [0x02] + (BigEndian(version.major, 2) + BigEndian(version.minor, 2)) + [code]
    ensures |EncodeError(version, code)| == 6
  {
    hide BigEndian, Pow256, HaveTypes, EncodeFields;
    Powers();
    var ts, vs := ERROR_FIELDS, [Record([Num(version.major), Num(version.minor)]), Code(code)];
    TwoNumbers(2, version.major, 2, version.minor);
    OneField(ts[1], vs[1]);
    MoreFields(ts[0], vs[0], [ts[1]], [vs[1]]);
    assert ts == [ts[0]] + [ts[1]] && vs == [vs[0]] + [vs[1]];
  }

  /** The authenticated octets determine the metadata. */
  lemma MetadataOctetsInjective(m: AuthMetadata, n: AuthMetadata)
    requires m.nonce < U16_LIMIT && n.nonce < U16_LIMIT && m.validUntilMs < U32_LIMIT && n.validUntilMs < U32_LIMIT
    requires MetadataOctets(m) == MetadataOctets(n)
    ensures m == n
  {
    hide BigEndian, FromBigEndian, Pow256;
    Powers();
    assert BigEndian(m.nonce, 2) == MetadataOctets(m)[..2] == BigEndian(n.nonce, 2);
    assert BigEndian(m.validUntilMs, 4) == MetadataOctets(m)[2..] == BigEndian(n.validUntilMs, 4);
    BigEndianRoundTrip(m.nonce, 2);
    BigEndianRoundTrip(n.nonce, 2);
    BigEndianRoundTrip(m.validUntilMs, 4);
    BigEndianRoundTrip(n.validUntilMs, 4);
  }

  lemma {:induction false} TypesByIndex(ts: seq<FieldType>, vs: seq<Value>)
    requires HaveTypes(ts, vs)
    ensures |vs| == |ts| && forall i :: 0 <= i < |ts| ==> HasType(ts[i], vs[i])
  {
    hide HasType;
    if ts != [] {
      TypesByIndex(ts[1..], vs[1..]);
      assert forall i :: 1 <= i < |ts| ==> ts[i] == ts[1..][i - 1] && vs[i] == vs[1..][i - 1];
    }
  }

  /** The session message whose octets these are, if any. */
  function ReadSessionData(s: seq<Byte>): (r: Option<SessionData>)
    ensures r.Some? <==> ReadMessage(SESSION_DATA, SESSION_DATA_FIELDS, s).Ok?
    ensures r.Some? ==> ReadMessage(SESSION_DATA, SESSION_DATA_FIELDS, s) == Codec.Ok(SessionDataValues(r.value), [])
  {
    match ReadMessage(SESSION_DATA, SESSION_DATA_FIELDS, s)
    case Err(_) => None
    case Ok(vs, rest) =>
      MessageBijection(SESSION_DATA, SESSION_DATA_FIELDS, vs, s);
      TypesByIndex(SESSION_DATA_FIELDS, vs);
      var ws := vs[0].values;
      TypesByIndex([UInt(2), UInt(4)], ws);
      var m := SessionData(AuthMetadata(ws[0].n, ws[1].n), vs[1].data, vs[2].data);
      assert ws == MetadataValue(m.metadata).values;
      assert vs == SessionDataValues(m);
      Some(m)
  }

  /** A session message is accepted exactly when its octets are its encoding. */
  lemma SessionDataBijection(m: SessionData, s: seq<Byte>)
    ensures ReadSessionData(s) == Some(m) <==> ValidSessionData(m) && s == EncodeSessionData(m)
  {
    hide HaveTypes, EncodeMessage, ReadMessage;
    MessageBijection(SESSION_DATA, SESSION_DATA_FIELDS, SessionDataValues(m), s);
    if ReadSessionData(s).Some? {
      var vs, ws := SessionDataValues(ReadSessionData(s).value), SessionDataValues(m);
      if vs == ws {
        assert vs[0] == ws[0] && vs[1] == ws[1] && vs[2] == ws[2];
        assert vs[0].values[0] == ws[0].values[0] && vs[0].values[1] == ws[0].values[1];
      }
    }
  }

  function ToVersion(v: Value): (r: Version)
    requires HasType(VERSION, v)
    ensures v == Record([Num(r.major), Num(r.minor)])
  {
    TypesByIndex(VERSION.fields, v.values);
    Version(v.values[0].n, v.values[1].n)
  }

  function ToSpec(v: Value): (r: CryptoSpec)
    requires HasType(CRYPTO_SPEC, v)
    ensures v == Record([Code(r.ephemeral), Code(r.hash), Code(r.kdf), Code(r.nonceMode), Code(r.cryptoMode)])
  {
    TypesByIndex(CRYPTO_SPEC.fields, v.values);
    var p := v.values;
    CryptoSpec(p[0].code, p[1].code, p[2].code, p[3].code, p[4].code)
  }

  function ToConstraints(v: Value): (r: Constraints)
    requires HasType(CONSTRAINTS, v)
    ensures v == Record([Num(r.maxNonce), Num(r.maxSessionDuration)]) && r.maxNonce < U16_LIMIT
  {
    TypesByIndex(CONSTRAINTS.fields, v.values);
    Powers();
    Constraints(v.values[0].n, v.values[1].n)
  }

  function ToRequest(vs: seq<Value>): (r: Request)
    requires HaveTypes(REQUEST_FIELDS, vs)
    ensures vs == RequestValues(r)
  {
    TypesByIndex(REQUEST_FIELDS, vs);
    assert vs == [vs[0], vs[1], vs[2], vs[3], vs[4], vs[5]];
    Request(ToVersion(vs[0]), ToSpec(vs[1]), ToConstraints(vs[2]), vs[3].code, vs[4].data, vs[5].data)
  }

  /** The handshake request whose octets these are, if any. */
  function ReadRequest(s: seq<Byte>): (r: Option<Request>)
    ensures r.Some? <==> ReadMessage(REQUEST_HANDSHAKE_BEGIN, REQUEST_FIELDS, s).Ok?
    ensures r.Some? ==> ReadMessage(REQUEST_HANDSHAKE_BEGIN, REQUEST_FIELDS, s) == Codec.Ok(RequestValues(r.value), [])
  {
    match ReadMessage(REQUEST_HANDSHAKE_BEGIN, REQUEST_FIELDS, s)
    case Err(_) => None
    case Ok(vs, rest) =>
      MessageBijection(REQUEST_HANDSHAKE_BEGIN, REQUEST_FIELDS, vs, s);
      Some(ToRequest(vs))
  }

  lemma RequestReadsBack(m: Request)
    requires ValidRequest(m)
    ensures ReadRequest(EncodeRequest(m)) == Some(m)
  {
    hide HaveTypes, EncodeMessage, ReadMessage, RequestValues;
    var s := EncodeRequest(m);
    MessageBijection(REQUEST_HANDSHAKE_BEGIN, REQUEST_FIELDS, RequestValues(m), s);
    var n := ReadRequest(s).value;
    MessageBijection(REQUEST_HANDSHAKE_BEGIN, REQUEST_FIELDS, RequestValues(n), s);
    EncodeRequestInjective(m, n);
  }

  /** The handshake reply whose octets these are, if any. */
  function ReadReply(s: seq<Byte>): (r: Option<Reply>)
    ensures r.Some? <==> ReadMessage(REPLY_HANDSHAKE_BEGIN, REPLY_FIELDS, s).Ok?
    ensures r.Some? ==> ReadMessage(REPLY_HANDSHAKE_BEGIN, REPLY_FIELDS, s) == Codec.Ok(ReplyValues(r.value), [])
  {
    match ReadMessage(REPLY_HANDSHAKE_BEGIN, REPLY_FIELDS, s)
    case Err(_) => None
    case Ok(vs, rest) =>
      MessageBijection(REPLY_HANDSHAKE_BEGIN, REPLY_FIELDS, vs, s);
      TypesByIndex(REPLY_FIELDS, vs);
      var m := Reply(ToVersion(vs[0]), vs[1].data, vs[2].data);
      assert vs == ReplyValues(m);
      Some(m)
  }

  lemma ReplyReadsBack(m: Reply)
    requires ValidReply(m)
    ensures ReadReply(EncodeReply(m)) == Some(m)
  {
    hide HaveTypes, EncodeMessage, ReadMessage;
    var s := EncodeReply(m);
    MessageBijection(REPLY_HANDSHAKE_BEGIN, REPLY_FIELDS, ReplyValues(m), s);
    var vs, ws := ReplyValues(m), ReplyValues(ReadReply(s).value);
    assert vs[0] == ws[0] && vs[1] == ws[1] && vs[2] == ws[2];
    assert vs[0].values[0] == ws[0].values[0] && vs[0].values[1] == ws[0].values[1];
  }

  // ---- Certificates ----

  const ED25519: Byte := 0x00
  const X25519: Byte := 0x01

  const EXTENSION: FieldType := Struct([UInt(4), Octets])
  const CERTIFICATE_FIELDS: seq<FieldType> :=
    [UInt(8), UInt(8), UInt(1), Enum({0x00, 0x01}), Octets, StructSeq(EXTENSION, 5)]

  datatype CertificateBody = CertificateBody(
    validAfter: nat, validBefore: nat, signingLevel: nat, keyType: Byte, publicKey: seq<Byte>, extensions: seq<Value>)

  datatype CertificateEnvelope = CertificateEnvelope(signature: seq<Byte>, certificateBody: seq<Byte>)

  function CertificateValues(b: CertificateBody): seq<Value> {
    [Num(b.validAfter), Num(b.validBefore), Num(b.signingLevel), Code(b.keyType), Data(b.publicKey), Items(b.extensions)]
  }

  /** Parse a certificate body that must fill its octets. */
  function ReadCertificate(s: seq<Byte>): (r: Option<CertificateBody>)
    ensures r.Some? <==> ReadAll(CERTIFICATE_FIELDS, s).Ok?
    ensures r.Some? ==> ReadAll(CERTIFICATE_FIELDS, s) == Codec.Ok(CertificateValues(r.value), [])
  {
    match ReadAll(CERTIFICATE_FIELDS, s)
    case Err(_) => None
    case Ok(vs, rest) =>
      StructBijection(CERTIFICATE_FIELDS, vs, s);
      TypesByIndex(CERTIFICATE_FIELDS, vs);
      var b := CertificateBody(vs[0].n, vs[1].n, vs[2].n, vs[3].code, vs[4].data, vs[5].items);
      assert vs == CertificateValues(b);
      Some(b)
  }

  /** A certificate is accepted exactly when its octets are the encoding of a well-typed body. */
  lemma CertificateBijection(b: CertificateBody, s: seq<Byte>)
    ensures ReadCertificate(s) == Some(b) <==>
            HaveTypes(CERTIFICATE_FIELDS, CertificateValues(b)) && s == EncodeFields(CERTIFICATE_FIELDS, CertificateValues(b))
  {
    hide HaveTypes, EncodeFields, ReadAll;
    StructBijection(CERTIFICATE_FIELDS, CertificateValues(b), s);
    if ReadCertificate(s).Some? {
      var vs, ws := CertificateValues(ReadCertificate(s).value), CertificateValues(b);
      if vs == ws {
        assert forall i :: 0 <= i < 6 ==> vs[i] == ws[i];
        assert vs[0] == ws[0] && vs[1] == ws[1] && vs[2] == ws[2] && vs[3] == ws[3] && vs[4] == ws[4] && vs[5] == ws[5];
      }
    }
  }

  /** The octets of a certificate body, field by field. */
  lemma CertificateLayout(b: CertificateBody)
    ensures HaveTypes(CERTIFICATE_FIELDS, CertificateValues(b)) <==>
            && b.validAfter < Pow256(8) && b.validBefore < Pow256(8) && b.signingLevel < 256 && b.keyType <= 1
            && |b.publicKey| < U32_LIMIT && |b.extensions| <= 5 && AllHaveType(EXTENSION, b.extensions)
    ensures HaveTypes(CERTIFICATE_FIELDS, CertificateValues(b)) ==>
            EncodeFields(CERTIFICATE_FIELDS, CertificateValues(b)) ==
              BigEndian(b.validAfter, 8) + BigEndian(b.validBefore, 8) + BigEndian(b.signingLevel, 1) + [b.keyType]
              + Prefixed(b.publicKey) + (EncodeVLength(|b.extensions|) + EncodeItems(EXTENSION, b.extensions))
  {
    hide BigEndian, Pow256, EncodeVLength, HaveTypes, EncodeFields, AllHaveType, EncodeItems;
    Powers();
    SixFields(CERTIFICATE_FIELDS, CertificateValues(b));
  }
}
