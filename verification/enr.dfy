/**
 * Ethereum Node Records: section "RLP Encoding" of EIP-778. A record is a signature, a sequence number
 * and key-value pairs. Base64 and the signature scheme are parameters.
 */
module EnrRecords {
  import opened Types
  import opened Rlp
  import opened RlpCodec

  datatype Enr = Enr(
    signature: Bytes,
    sequence: nat,
    publicKey: Bytes,
    ip: Option<Bytes>,
    port: Option<nat>,
    isAggregator: Option<bool>)

  datatype EnrError =
    | RlpFailure(error: Rlp.Error)
    | InvalidPrefix
    | InvalidId
    | VerifierFailure
    | SignatureVerificationFailed

  /** `Thrown` is an exception: bad base64 text. */
  datatype EnrResult = Decoded(enr: Enr) | Failed(failure: EnrError) | Thrown

  datatype KeyType = Secp256k1 | OtherType

  datatype KeyPair = KeyPair(privateType: KeyType, privateKey: Bytes, publicType: KeyType, publicKey: Bytes)

  /** `SigningThrew` is the exception of a failed signature. */
  datatype EncodeResult = Encoded(text: string) | ExpectedSecp256k1 | WrongKeySize | SigningThrew

  const ENR_PREFIX := "enr:"

  // ASCII spellings of the keys and of the identity scheme.
  const ID: Bytes := [105, 100]
  const V4: Bytes := [118, 52]
  const IP: Bytes := [105, 112]
  const IS_AGGREGATOR: Bytes := [105, 115, 95, 97, 103, 103, 114, 101, 103, 97, 116, 111, 114]
  const QUIC: Bytes := [113, 117, 105, 99]
  const SECP256K1: Bytes := [115, 101, 99, 112, 50, 53, 54, 107, 49]

  /** The fixed-width fields of the record type. */
  ghost predicate Typed(enr: Enr) {
    && |enr.signature| == 64 && |enr.publicKey| == 33
    && enr.sequence < 0x1_0000_0000_0000_0000
    && (enr.ip.Some? ==> |enr.ip.value| == 4)
    && (enr.port.Some? ==> enr.port.value < 0x1_0000)
  }

  /** What `encodeContent` needs: an address and a port. */
  ghost predicate Complete(enr: Enr) {
    Typed(enr) && enr.ip.Some? && enr.port.Some?
  }

  function NumberItem(v: nat): Item {
    Text(ToBigEndian(v))
  }

  /** The pairs of a record, in key order. */
  ghost function Fields(enr: Enr): (pairs: seq<Pair>)
    requires Complete(enr)
    ensures PairsSized(pairs)
  {
    Uint64Size(enr.port.value);
    [Pair(ID, Text(V4)), Pair(IP, Text(enr.ip.value))]
    + AggregatorField(enr.isAggregator)
    + [Pair(QUIC, NumberItem(enr.port.value)), Pair(SECP256K1, Text(enr.publicKey))]
  }

  ghost function AggregatorField(isAggregator: Option<bool>): (pairs: seq<Pair>)
    ensures PairsSized(pairs)
  {
    match isAggregator
    case None => []
    case Some(v) =>
      Uint64Size(if v then 1 else 0);
      [Pair(IS_AGGREGATOR, NumberItem(if v then 1 else 0))]
  }

  ghost function Content(enr: Enr): Bytes
    requires Complete(enr)
  {
    EncodeUint(enr.sequence) + EncodePairs(Fields(enr))
  }

  // ----- sizes

  lemma EncodedSize(b: Bytes)
    requires Sized(b)
    ensures |EncodeBytes(b)| <= |b| + 9
  {
    Uint64Size(|b|);
  }

  ghost predicate SmallPair(p: Pair) {
    p.item.Text? && |p.key| < 100 && |p.item.bytes| < 100
  }

  lemma {:induction false} PairsSize(pairs: seq<Pair>)
    requires forall i | 0 <= i < |pairs| :: SmallPair(pairs[i])
    ensures PairsSized(pairs) && |EncodePairs(pairs)| <= 218 * |pairs|
  {
    if pairs != [] {
      EncodedSize(pairs[0].key);
      EncodedSize(pairs[0].item.bytes);
      PairsSize(pairs[1..]);
    }
  }

  lemma {:induction false} AppendPair(pairs: seq<Pair>, p: Pair)
    requires PairsSized(pairs) && Sized(p.key) && ItemSized(p.item)
    ensures PairsSized(pairs + [p])
    ensures EncodePairs(pairs + [p]) == EncodePairs(pairs) + (EncodeBytes(p.key) + EncodeItem(p.item))
  {
    var tail := EncodeBytes(p.key) + EncodeItem(p.item);
    if pairs == [] {
      assert [] + [p] == [p] && [p][1..] == [];
      assert EncodePairs([p]) == tail + EncodePairs([]);
    } else {
      var head := EncodeBytes(pairs[0].key) + EncodeItem(pairs[0].item);
      var rest := pairs[1..];
      AppendPair(rest, p);
      assert (pairs + [p])[1..] == rest + [p] && (pairs + [p])[0] == pairs[0];
      Associate(head, EncodePairs(rest), tail);
    }
  }

  /** A record is small. */
  lemma ContentSize(enr: Enr)
    requires Complete(enr)
    ensures |Content(enr)| < 2000
  {
    Uint64Size(enr.sequence);
    Uint64Size(enr.port.value);
    Uint64Size(0);
    Uint64Size(1);
    PairsSize(Fields(enr));
  }

  // ----- encoding

  /** What the signature covers. */
  ghost function Signable(enr: Enr): Bytes
    requires Complete(enr)
  {
    ContentSize(enr);
    EncodeList(Content(enr))
  }

  ghost function EncodeRecord(enr: Enr): Bytes
    requires Complete(enr)
  {
    ContentSize(enr);
    EncodedSize(enr.signature);
    EncodeList(EncodeBytes(enr.signature) + Content(enr))
  }

  lemma Regroup(a: Bytes, b: Bytes, c: Bytes, d: Bytes)
    ensures a + b + c + d == a + (b + (c + d))
  {
  }

  /** Writes a key and a byte string after the pairs written so far. */
  method PutField(rlp: Encoder, ghost start: Bytes, ghost written: seq<Pair>, key: Bytes, value: Bytes)
    requires PairsSized(written) && Sized(key) && Sized(value) && rlp.output == start + EncodePairs(written)
    modifies rlp
    ensures PairsSized(written + [Pair(key, Text(value))])
    ensures rlp.output == start + EncodePairs(written + [Pair(key, Text(value))])
  {
    rlp.PutBytes(key);
    rlp.PutBytes(value);
    AppendPair(written, Pair(key, Text(value)));
    Regroup(start, EncodePairs(written), EncodeBytes(key), EncodeBytes(value));
  }

  /** Writes a key and a number after the pairs written so far. */
  method PutNumber(rlp: Encoder, ghost start: Bytes, ghost written: seq<Pair>, key: Bytes, v: nat)
    requires PairsSized(written) && Sized(key) && v < 0x1_0000_0000_0000_0000
    requires rlp.output == start + EncodePairs(written)
    modifies rlp
    ensures PairsSized(written + [Pair(key, NumberItem(v))])
    ensures rlp.output == start + EncodePairs(written + [Pair(key, NumberItem(v))])
  {
    rlp.PutBytes(key);
    rlp.Uint(v);
    EncodeUintIsBytes(v);
    AppendPair(written, Pair(key, NumberItem(v)));
    Regroup(start, EncodePairs(written), EncodeBytes(key), EncodeUint(v));
  }

  /** Writes the aggregator flag after the pairs written so far. */
  method PutFlag(rlp: Encoder, ghost start: Bytes, ghost written: seq<Pair>, v: bool)
    requires PairsSized(written) && rlp.output == start + EncodePairs(written)
    modifies rlp
    ensures PairsSized(written + AggregatorField(Some(v)))
    ensures rlp.output == start + EncodePairs(written + AggregatorField(Some(v)))
  {
    rlp.PutBytes(IS_AGGREGATOR);
    rlp.WriteBool(v);
    ghost var n := if v then 1 else 0;
    EncodeUintIsBytes(n);
    AppendPair(written, Pair(IS_AGGREGATOR, NumberItem(n)));
    Regroup(start, EncodePairs(written), EncodeBytes(IS_AGGREGATOR), EncodeUint(n));
  }

  /** The pairs up to the aggregator flag. */
  ghost function FrontFields(enr: Enr): (pairs: seq<Pair>)
    requires Typed(enr) && enr.ip.Some?
    ensures PairsSized(pairs)
  {
    [Pair(ID, Text(V4)), Pair(IP, Text(enr.ip.value))] + AggregatorField(enr.isAggregator)
  }

  lemma FieldsSplit(enr: Enr)
    requires Complete(enr)
    ensures FrontFields(enr) + [Pair(QUIC, NumberItem(enr.port.value))] + [Pair(SECP256K1, Text(enr.publicKey))]
         == Fields(enr)
  {
  }

  method EncodeFront(rlp: Encoder, enr: Enr) returns (ok: bool)
    requires Typed(enr)
    modifies rlp
    ensures ok <==> enr.ip.Some?
    ensures ok ==> rlp.output == old(rlp.output) + EncodePairs(FrontFields(enr))
  {
    ghost var start := rlp.output;
    assert rlp.output == start + EncodePairs([]);
    PutField(rlp, start, [], ID, V4);
    ghost var written := [] + [Pair(ID, Text(V4))];
    if enr.ip.None? {
      return false;
    }
    PutField(rlp, start, written, IP, enr.ip.value);
    written := written + [Pair(IP, Text(enr.ip.value))];
    if enr.isAggregator.Some? {
      PutFlag(rlp, start, written, enr.isAggregator.value);
      written := written + AggregatorField(enr.isAggregator);
    }
    assert written == FrontFields(enr);
    return true;
  }

  /** `encodeContent`; false is the exception for a record without address or port. */
  method EncodeContent(rlp: Encoder, enr: Enr) returns (ok: bool)
    requires Typed(enr)
    modifies rlp
    ensures ok <==> Complete(enr)
    ensures ok ==> rlp.output == old(rlp.output) + Content(enr)
  {
    rlp.Uint(enr.sequence);
    ghost var start := rlp.output;
    ok := EncodeFront(rlp, enr);
    if !ok || enr.port.None? {
      return false;
    }
    ghost var front := FrontFields(enr);
    PutNumber(rlp, start, front, QUIC, enr.port.value);
    ghost var more := front + [Pair(QUIC, NumberItem(enr.port.value))];
    PutField(rlp, start, more, SECP256K1, enr.publicKey);
    FieldsSplit(enr);
    Associate(old(rlp.output), EncodeUint(enr.sequence), EncodePairs(Fields(enr)));
  }

  /** `signable`; None is the exception for a record without address or port. */
  method GetSignable(enr: Enr) returns (r: Option<Bytes>)
    requires Typed(enr)
    ensures r.Some? <==> Complete(enr)
    ensures r.Some? ==> r.value == Signable(enr)
  {
    var rlp := new Encoder();
    var ok := EncodeContent(rlp, enr);
    if !ok {
      return None;
    }
    assert rlp.output == Content(enr);
    ContentSize(enr);
    var list := rlp.List();
    return Some(list);
  }

  method EncodeSigned(enr: Enr) returns (r: Bytes)
    requires Complete(enr)
    ensures r == EncodeRecord(enr)
  {
    var rlp := new Encoder();
    rlp.PutBytes(enr.signature);
    var ok := EncodeContent(rlp, enr);
    assert rlp.output == EncodeBytes(enr.signature) + Content(enr);
    ContentSize(enr);
    EncodedSize(enr.signature);
    r := rlp.List();
  }

  /** A first record, with sequence number 1 and a blank signature. */
  function Draft(publicKey: Bytes, ip: Bytes, port: nat, isAggregator: Option<bool>): Enr {
    Enr(seq(64, _ => 0), 1, publicKey, Some(ip), Some(port), isAggregator)
  }

  /** A signature scheme: payload and private key to a signature, or a failure. */
  type Sign = (Bytes, Bytes) -> Option<Bytes>

  ghost predicate SignOk(sign: Sign) {
    forall m, k :: sign(m, k).Some? ==> |sign(m, k).value| == 64
  }

  /** What `encode` publishes: the first record, signed over its own payload. */
  ghost function Published(sign: Sign, base64: Bytes -> string, keys: KeyPair, ip: Bytes, port: nat,
                           isAggregator: Option<bool>): EncodeResult
    requires |ip| == 4 && port < 0x1_0000 && SignOk(sign)
  {
    if keys.privateType != Secp256k1 || keys.publicType != Secp256k1 then ExpectedSecp256k1
    else if |keys.privateKey| != 32 || |keys.publicKey| != 33 then WrongKeySize
    else
      var draft := Draft(keys.publicKey, ip, port, isAggregator);
      match sign(Signable(draft), keys.privateKey)
      case None => SigningThrew
      case Some(signature) => Encoded(ENR_PREFIX + base64(EncodeRecord(draft.(signature := signature))))
  }

  method Encode(sign: Sign, base64: Bytes -> string, keys: KeyPair, ip: Bytes, port: nat, isAggregator: Option<bool>)
    returns (r: EncodeResult)
    requires |ip| == 4 && port < 0x1_0000 && SignOk(sign)
    ensures r == Published(sign, base64, keys, ip, port, isAggregator)
  {
    if keys.privateType != Secp256k1 {
      return ExpectedSecp256k1;
    }
    if keys.publicType != Secp256k1 {
      return ExpectedSecp256k1;
    }
    if |keys.privateKey| != 32 {
      return WrongKeySize;
    }
    if |keys.publicKey| != 33 {
      return WrongKeySize;
    }
    var enr := Draft(keys.publicKey, ip, port, isAggregator);
    var signable := GetSignable(enr);
    var signature := sign(signable.value, keys.privateKey);
    if signature.None? {
      return SigningThrew;
    }
    enr := enr.(signature := signature.value);
    var record := EncodeSigned(enr);
    return Encoded(ENR_PREFIX + base64(record));
  }

  // ----- decoding

  /** An optional field: absent, or read by `read`. */
  function OptionalFrom<T>(kv: map<Bytes, Bytes>, key: Bytes, read: Bytes -> Read<T>): Result<Option<T>> {
    if key !in kv then Ok(None)
    else
      match read(kv[key]).result
      case Ok(v) => Ok(Some(v))
      case Err(e) => Err(e)
  }

  /** The fields of the key-value list, checked in the order of the source. */
  function FieldsFrom(signature: Bytes, sequence: nat, kv: map<Bytes, Bytes>): EnrResult {
    if ID !in kv then Failed(RlpFailure(KeyNotFound))
    else
      var id := BytesFrom(kv[ID]).result;
      if id.Err? then Failed(RlpFailure(id.error))
      else if id.value != V4 then Failed(InvalidId)
      else
        var ip := OptionalFrom(kv, IP, b => BytesNFrom(b, 4));
        if ip.Err? then Failed(RlpFailure(ip.error))
        else if SECP256K1 !in kv then Failed(RlpFailure(KeyNotFound))
        else
          var publicKey := BytesNFrom(kv[SECP256K1], 33).result;
          if publicKey.Err? then Failed(RlpFailure(publicKey.error))
          else
            var port := OptionalFrom(kv, QUIC, b => NumberFrom(b, 16));
            if port.Err? then Failed(RlpFailure(port.error))
            else
              var isAggregator := OptionalFrom(kv, IS_AGGREGATOR, b => BoolFrom(b));
              if isAggregator.Err? then Failed(RlpFailure(isAggregator.error))
              else Decoded(Enr(signature, sequence, publicKey.value, ip.value, port.value, isAggregator.value))
  }

  lemma ReadsShrink(input: Bytes, n: nat)
    ensures ListFrom(input).result.Ok? ==> |ListFrom(input).result.value| <= |input|
    ensures |BytesNFrom(input, n).rest| <= |input|
  {
    RestIsSuffix(input);
  }

  type Verify = (Bytes, Bytes, Bytes) -> Option<bool>

  /** The verdict of the signature scheme, which can fail by itself. */
  function Checked(enr: Enr, valid: Option<bool>): EnrResult {
    match valid
    case None => Failed(VerifierFailure)
    case Some(ok) => if ok then Decoded(enr) else Failed(SignatureVerificationFailed)
  }

  /** A record: list, signature, then the rest, which is also rebuilt as the signed payload. */
  function RecordFrom(record: Bytes, verify: Verify): EnrResult
    requires |record| < 0x1_0000_0000_0000_0000
  {
    var list := ListFrom(record).result;
    if list.Err? then Failed(RlpFailure(list.error))
    else
      var signature := BytesNFrom(list.value, 64);
      if signature.result.Err? then Failed(RlpFailure(signature.result.error))
      else
        ReadsShrink(record, 64);
        ReadsShrink(list.value, 64);
        var signable := EncodeList(signature.rest);
        var sequence := NumberFrom(signature.rest, 64);
        if sequence.result.Err? then Failed(RlpFailure(sequence.result.error))
        else
          var kv := KeyValuesFrom(sequence.rest, map[]).result;
          if kv.Err? then Failed(RlpFailure(kv.error))
          else
            var r := FieldsFrom(signature.result.value, sequence.result.value, kv.value);
            if r.Decoded? then Checked(r.enr, verify(signable, r.enr.signature, r.enr.publicKey)) else r
  }

  function TextFrom(text: string, unbase64: string -> Option<Bytes>, verify: Verify): EnrResult
    requires forall t :: unbase64(t).Some? ==> |unbase64(t).value| < 0x1_0000_0000_0000_0000
  {
    if !(ENR_PREFIX <= text) then Failed(InvalidPrefix)
    else
      match unbase64(text[|ENR_PREFIX|..])
      case None => Thrown
      case Some(record) => RecordFrom(record, verify)
  }

  method DecodeFields(signature: Bytes, sequence: nat, kv: map<Bytes, Bytes>) returns (r: EnrResult)
    ensures r == FieldsFrom(signature, sequence, kv)
  {
    var enr := Enr(signature, sequence, [], None, None, None);
    if ID !in kv {
      return Failed(RlpFailure(KeyNotFound));
    }
    var field := new Decoder(kv[ID]);
    var id := field.GetBytes();
    if id.Err? {
      return Failed(RlpFailure(id.error));
    }
    if id.value != V4 {
      return Failed(InvalidId);
    }
    if IP in kv {
      field := new Decoder(kv[IP]);
      var ip := field.GetBytesN(4);
      if ip.Err? {
        return Failed(RlpFailure(ip.error));
      }
      enr := enr.(ip := Some(ip.value));
    }
    if SECP256K1 !in kv {
      return Failed(RlpFailure(KeyNotFound));
    }
    field := new Decoder(kv[SECP256K1]);
    var publicKey := field.GetBytesN(33);
    if publicKey.Err? {
      return Failed(RlpFailure(publicKey.error));
    }
    enr := enr.(publicKey := publicKey.value);
    if QUIC in kv {
      field := new Decoder(kv[QUIC]);
      var port := field.GetUint(16);
      if port.Err? {
        return Failed(RlpFailure(port.error));
      }
      enr := enr.(port := Some(port.value));
    }
    if IS_AGGREGATOR in kv {
      field := new Decoder(kv[IS_AGGREGATOR]);
      var isAggregator := field.GetBool();
      if isAggregator.Err? {
        return Failed(RlpFailure(isAggregator.error));
      }
      enr := enr.(isAggregator := Some(isAggregator.value));
    }
    return Decoded(enr);
  }

  method DecodeRecord(record: Bytes, verify: Verify) returns (r: EnrResult)
    requires |record| < 0x1_0000_0000_0000_0000
    ensures r == RecordFrom(record, verify)
  {
    var outer := new Decoder(record);
    var list := outer.List();
    if list.Err? {
      return Failed(RlpFailure(list.error));
    }
    ReadsShrink(record, 64);
    var rlp := new Decoder(list.value);
    ReadsShrink(list.value, 64);
    var signature := rlp.GetBytesN(64);
    if signature.Err? {
      return Failed(RlpFailure(signature.error));
    }
    var prefix := new EncodeBuffer();
    prefix.LengthOf(LIST_PREFIX_1, |rlp.input|);
    var signable := prefix.buffer[..prefix.size] + rlp.input;
    var sequence := rlp.GetUint(64);
    if sequence.Err? {
      return Failed(RlpFailure(sequence.error));
    }
    var kv := rlp.KeyValues();
    if kv.Err? {
      return Failed(RlpFailure(kv.error));
    }
    r := DecodeFields(signature.value, sequence.value, kv.value);
    if r.Decoded? {
      var valid := verify(signable, r.enr.signature, r.enr.publicKey);
      if valid.None? {
        return Failed(VerifierFailure);
      }
      if !valid.value {
        return Failed(SignatureVerificationFailed);
      }
    }
  }

  method DecodeText(text: string, unbase64: string -> Option<Bytes>, verify: Verify) returns (r: EnrResult)
    requires forall t :: unbase64(t).Some? ==> |unbase64(t).value| < 0x1_0000_0000_0000_0000
    ensures r == TextFrom(text, unbase64, verify)
  {
    if !(ENR_PREFIX <= text) {
      return Failed(InvalidPrefix);
    }
    var record := unbase64(text[|ENR_PREFIX|..]);
    if record.None? {
      return Thrown;
    }
    r := DecodeRecord(record.value, verify);
  }

  // ----- round trip

  ghost function KeysOf(pairs: seq<Pair>): set<Bytes> {
    set i | 0 <= i < |pairs| :: pairs[i].key
  }

  lemma {:induction false} FirstWinsKeys(pairs: seq<Pair>, kv: map<Bytes, Bytes>)
    requires PairsSized(pairs)
    ensures FirstWins(pairs, kv).Keys == kv.Keys + KeysOf(pairs)
    decreases |pairs|
  {
    if pairs != [] {
      var rest := pairs[1..];
      FirstWinsKeys(rest, Emplace(kv, pairs[0].key, EncodeItem(pairs[0].item)));
      assert KeysOf(pairs) == {pairs[0].key} + KeysOf(rest) by {
        forall k | k in KeysOf(rest) ensures k in KeysOf(pairs) {
          var i :| 0 <= i < |rest| && rest[i].key == k;
          assert pairs[i + 1].key == k;
        }
        forall k | k in KeysOf(pairs) && k != pairs[0].key ensures k in KeysOf(rest) {
          var i :| 0 <= i < |pairs| && pairs[i].key == k;
          assert rest[i - 1].key == k;
        }
        assert pairs[0].key in KeysOf(pairs);
      }
    }
  }

  lemma {:induction false} FirstWinsKeeps(pairs: seq<Pair>, kv: map<Bytes, Bytes>, key: Bytes)
    requires PairsSized(pairs) && key in kv
    ensures key in FirstWins(pairs, kv) && FirstWins(pairs, kv)[key] == kv[key]
    decreases |pairs|
  {
    if pairs != [] {
      FirstWinsKeeps(pairs[1..], Emplace(kv, pairs[0].key, EncodeItem(pairs[0].item)), key);
    }
  }

  /** The value under a key is that of its first pair. */
  lemma {:induction false} FirstWinsLookup(pairs: seq<Pair>, kv: map<Bytes, Bytes>, i: nat)
    requires PairsSized(pairs) && i < |pairs| && pairs[i].key !in kv
    requires forall j | 0 <= j < i :: pairs[j].key != pairs[i].key
    ensures pairs[i].key in FirstWins(pairs, kv)
    ensures FirstWins(pairs, kv)[pairs[i].key] == EncodeItem(pairs[i].item)
    decreases |pairs|
  {
    var more := Emplace(kv, pairs[0].key, EncodeItem(pairs[0].item));
    if i == 0 {
      FirstWinsKeeps(pairs[1..], more, pairs[0].key);
    } else {
      assert pairs[1..][i - 1] == pairs[i];
      FirstWinsLookup(pairs[1..], more, i - 1);
    }
  }

  /** Decoding one encoded byte string. */
  lemma FieldRoundTrip(b: Bytes)
    requires Sized(b)
    ensures BytesFrom(EncodeItem(Text(b))) == Read(Ok(b), [])
  {
    BytesRoundTrip(b, []);
    assert EncodeBytes(b) + [] == EncodeBytes(b);
  }

  lemma PortRoundTrip(port: nat)
    requires port < 0x1_0000
    ensures Sized(ToBigEndian(port)) && NumberFrom(EncodeItem(NumberItem(port)), 16) == Read(Ok(port), [])
  {
    assert Pow256(2) == 0x1_0000;
    BigEndianSize(port, 2);
    FieldRoundTrip(ToBigEndian(port));
    BigEndianRoundTrip(port);
  }

  lemma FlagRoundTrip(v: bool)
    ensures var b := ToBigEndian(if v then 1 else 0);
            Sized(b) && BoolFrom(EncodeItem(Text(b))) == Read(Ok(v), [])
  {
    var n := if v then 1 else 0;
    EncodeUintIsBytes(n);
    BoolRoundTrip(v, []);
    assert EncodeUint(n) + [] == EncodeUint(n);
  }

  /** Every pair of a record is found under its key. */
  lemma FieldLookups(enr: Enr)
    requires Complete(enr)
    ensures var kv := FirstWins(Fields(enr), map[]);
            && ID in kv && kv[ID] == EncodeItem(Text(V4))
            && IP in kv && kv[IP] == EncodeItem(Text(enr.ip.value))
            && Sized(ToBigEndian(enr.port.value))
            && QUIC in kv && kv[QUIC] == EncodeItem(NumberItem(enr.port.value))
            && SECP256K1 in kv && kv[SECP256K1] == EncodeItem(Text(enr.publicKey))
  {
    var pairs := Fields(enr);
    var k := |pairs|;
    Uint64Size(enr.port.value);
    FirstWinsLookup(pairs, map[], 0);
    FirstWinsLookup(pairs, map[], 1);
    FirstWinsLookup(pairs, map[], k - 2);
    FirstWinsLookup(pairs, map[], k - 1);
  }

  lemma FlagLookup(enr: Enr)
    requires Complete(enr)
    ensures var kv := FirstWins(Fields(enr), map[]);
            if enr.isAggregator.None? then IS_AGGREGATOR !in kv
            else
              var b := ToBigEndian(if enr.isAggregator.value then 1 else 0);
              Sized(b) && IS_AGGREGATOR in kv && kv[IS_AGGREGATOR] == EncodeItem(Text(b))
  {
    var pairs := Fields(enr);
    if enr.isAggregator.None? {
      FirstWinsKeys(pairs, map[]);
    } else {
      Uint64Size(if enr.isAggregator.value then 1 else 0);
      FirstWinsLookup(pairs, map[], 2);
    }
  }

  lemma FieldsRoundTrip(enr: Enr)
    requires Complete(enr)
    ensures FieldsFrom(enr.signature, enr.sequence, FirstWins(Fields(enr), map[])) == Decoded(enr)
  {
    FieldLookups(enr);
    FlagLookup(enr);
    FieldRoundTrip(V4);
    FieldRoundTrip(enr.ip.value);
    FieldRoundTrip(enr.publicKey);
    PortRoundTrip(enr.port.value);
    if enr.isAggregator.Some? { FlagRoundTrip(enr.isAggregator.value); }
  }

  /** The payload that the decoder checks is the one that was signed. */
  lemma SignedPayloadIsRebuilt(enr: Enr)
    requires Complete(enr)
    ensures var list := ListFrom(EncodeRecord(enr)).result;
            && list.Ok?
            && BytesNFrom(list.value, 64) == Read(Ok(enr.signature), Content(enr))
            && Sized(Content(enr)) && EncodeList(Content(enr)) == Signable(enr)
  {
    ContentSize(enr);
    EncodedSize(enr.signature);
    var inner := EncodeBytes(enr.signature) + Content(enr);
    ListRoundTrip(inner, []);
    assert EncodeList(inner) + [] == EncodeList(inner);
    BytesRoundTrip(enr.signature, Content(enr));
  }

  /** Every record comes back with all its fields. */
  lemma RecordRoundTrip(enr: Enr, verify: Verify)
    requires Complete(enr) && verify(Signable(enr), enr.signature, enr.publicKey) == Some(true)
    ensures |EncodeRecord(enr)| < 3000 && RecordFrom(EncodeRecord(enr), verify) == Decoded(enr)
  {
    RecordSize(enr);
    SignedPayloadIsRebuilt(enr);
    Uint64Size(enr.sequence);
    UintRoundTrip(enr.sequence, 64, EncodePairs(Fields(enr)));
    KeyValuesRoundTrip(Fields(enr), map[]);
    FieldsRoundTrip(enr);
  }

  lemma RecordSize(enr: Enr)
    requires Complete(enr)
    ensures |EncodeRecord(enr)| < 3000
  {
    ContentSize(enr);
    EncodedSize(enr.signature);
    Uint64Size(|EncodeBytes(enr.signature) + Content(enr)|);
  }

  /** `decode` undoes `encode`, for every address, port, flag and key, given the two outer inverses. */
  lemma TextRoundTrip(enr: Enr, base64: Bytes -> string, unbase64: string -> Option<Bytes>, verify: Verify)
    requires Complete(enr) && verify(Signable(enr), enr.signature, enr.publicKey) == Some(true)
    requires forall b | |b| < 3000 :: unbase64(base64(b)) == Some(b)
    requires forall t :: unbase64(t).Some? ==> |unbase64(t).value| < 0x1_0000_0000_0000_0000
    ensures TextFrom(ENR_PREFIX + base64(EncodeRecord(enr)), unbase64, verify) == Decoded(enr)
  {
    RecordRoundTrip(enr, verify);
    var text := ENR_PREFIX + base64(EncodeRecord(enr));
    assert text[|ENR_PREFIX|..] == base64(EncodeRecord(enr));
  }

  /** What `encode` publishes is read back with the key, address, port and flag it was given. */
  lemma PublishedIsRead(sign: Sign, base64: Bytes -> string, unbase64: string -> Option<Bytes>, verify: Verify,
                        keys: KeyPair, ip: Bytes, port: nat, isAggregator: Option<bool>)
    requires |ip| == 4 && port < 0x1_0000 && SignOk(sign)
    requires forall b | |b| < 3000 :: unbase64(base64(b)) == Some(b)
    requires forall t :: unbase64(t).Some? ==> |unbase64(t).value| < 0x1_0000_0000_0000_0000
    requires forall m | sign(m, keys.privateKey).Some? ::
               verify(m, sign(m, keys.privateKey).value, keys.publicKey) == Some(true)
    ensures var r := Published(sign, base64, keys, ip, port, isAggregator);
            r.Encoded? ==>
              var d := TextFrom(r.text, unbase64, verify);
              && d.Decoded? && d.enr.sequence == 1 && d.enr.publicKey == keys.publicKey
              && d.enr.ip == Some(ip) && d.enr.port == Some(port) && d.enr.isAggregator == isAggregator
  {
    var r := Published(sign, base64, keys, ip, port, isAggregator);
    if r.Encoded? {
      var draft := Draft(keys.publicKey, ip, port, isAggregator);
      var enr := draft.(signature := sign(Signable(draft), keys.privateKey).value);
      assert Signable(enr) == Signable(draft);
      TextRoundTrip(enr, base64, unbase64, verify);
    }
  }
}
