/**
 * Recursive Length Prefix, as used for Ethereum Node Records: Appendix B of the Ethereum Yellow Paper.
 * The decoder consumes its input, the encoder appends to its output; both are specified by functions
 * on byte strings, and the decoder is shown to undo the encoder on every input.
 */
module Rlp {
  import opened Types

  const MAX_PREFIX_1 := 55
  const BYTES_PREFIX_1 := 0x80
  const LIST_PREFIX_1 := 0xc0

  datatype Error = InvalidRlp | IntOverflow | InvalidKeyValue | KeyNotFound

  datatype Result<+T> = Ok(value: T) | Err(error: Error)

  /** The outcome of a decoder call and the input it leaves. */
  datatype Read<+T> = Read(result: Result<T>, rest: Bytes)

  // ----- big-endian numbers

  function Pow256(k: nat): nat {
    if k == 0 then 1 else 256 * Pow256(k - 1)
  }

  function FromBigEndian(b: Bytes): nat {
    if b == [] then 0 else 256 * FromBigEndian(b[..|b| - 1]) + b[|b| - 1]
  }

  /** No leading zero; zero is the empty string. */
  function ToBigEndian(v: nat): Bytes {
    if v == 0 then [] else ToBigEndian(v / 256) + [v % 256]
  }

  lemma {:induction false} BigEndianRoundTrip(v: nat)
    ensures FromBigEndian(ToBigEndian(v)) == v
  {
    if v > 0 {
      BigEndianRoundTrip(v / 256);
      var b := ToBigEndian(v);
      assert b[..|b| - 1] == ToBigEndian(v / 256);
    }
  }

  lemma {:induction false} BigEndianSize(v: nat, k: nat)
    requires v < Pow256(k)
    ensures |ToBigEndian(v)| <= k
  {
    if v > 0 {
      BigEndianSize(v / 256, k - 1);
    }
  }

  lemma Uint64Size(v: nat)
    requires v < 0x1_0000_0000_0000_0000
    ensures |ToBigEndian(v)| <= 8
  {
    assert Pow256(4) == 0x1_0000_0000;
    assert Pow256(8) == 256 * (256 * (256 * (256 * Pow256(4))));
    BigEndianSize(v, 8);
  }

  // ----- encoding

  lemma Associate(a: Bytes, b: Bytes, c: Bytes)
    ensures a + (b + c) == (a + b) + c
  {
  }

  function LengthPrefix(base: nat, n: nat): Bytes
    requires base <= LIST_PREFIX_1 && n < 0x1_0000_0000_0000_0000
  {
    if n <= MAX_PREFIX_1 then [base + n]
    else
      var be := ToBigEndian(n);
      Uint64Size(n);
      [base + MAX_PREFIX_1 + |be|] + be
  }

  function EncodeUint(v: nat): Bytes
    requires v < 0x1_0000_0000_0000_0000
  {
    if 0 < v < BYTES_PREFIX_1 then [v]
    else
      Uint64Size(v);
      [BYTES_PREFIX_1 + |ToBigEndian(v)|] + ToBigEndian(v)
  }

  /** Lengths are 64-bit numbers. */
  ghost predicate Sized(b: Bytes) {
    |b| < 0x1_0000_0000_0000_0000
  }

  function EncodeBytes(b: Bytes): Bytes
    requires Sized(b)
  {
    if |b| == 1 && b[0] < BYTES_PREFIX_1 then b else LengthPrefix(BYTES_PREFIX_1, |b|) + b
  }

  function EncodeList(content: Bytes): Bytes
    requires Sized(content)
  {
    LengthPrefix(LIST_PREFIX_1, |content|) + content
  }

  // ----- decoding

  function TakeFrom(input: Bytes, n: nat): Read<Bytes> {
    if n > |input| then Read(Err(InvalidRlp), input) else Read(Ok(input[..n]), input[n..])
  }

  function UintFrom(be: Bytes, digits: nat): Result<nat> {
    if |be| * 8 > digits then Err(IntOverflow) else Ok(FromBigEndian(be))
  }

  function PayloadFrom(base: nat, input: Bytes): Read<Bytes>
    requires input != []
  {
    if base > input[0] then Read(Err(InvalidRlp), input)
    else if input[0] <= base + MAX_PREFIX_1 then TakeFrom(input[1..], input[0] - base)
    else
      var raw := TakeFrom(input[1..], input[0] - base - MAX_PREFIX_1);
      if raw.result.Err? then raw
      else
        var n := UintFrom(raw.result.value, 64);
        if n.Err? then Read(Err(n.error), raw.rest) else TakeFrom(raw.rest, n.value)
  }

  function BytesFrom(input: Bytes): Read<Bytes> {
    if input == [] then Read(Err(InvalidRlp), input)
    else if input[0] >= LIST_PREFIX_1 then Read(Err(InvalidRlp), input)
    else if input[0] < BYTES_PREFIX_1 then TakeFrom(input, 1)
    else PayloadFrom(BYTES_PREFIX_1, input)
  }

  function ListFrom(input: Bytes): Read<Bytes> {
    if input == [] then Read(Err(InvalidRlp), input) else PayloadFrom(LIST_PREFIX_1, input)
  }

  predicate IsList(input: Bytes) {
    input != [] && LIST_PREFIX_1 <= input[0]
  }

  function SkipFrom(input: Bytes): Read<Bytes> {
    if IsList(input) then ListFrom(input) else BytesFrom(input)
  }

  function BytesNFrom(input: Bytes, n: nat): Read<Bytes> {
    var raw := BytesFrom(input);
    if raw.result.Ok? && |raw.result.value| != n then Read(Err(InvalidRlp), raw.rest) else raw
  }

  function NumberFrom(input: Bytes, digits: nat): Read<nat> {
    var raw := BytesFrom(input);
    if raw.result.Err? then Read(Err(raw.result.error), raw.rest)
    else Read(UintFrom(raw.result.value, digits), raw.rest)
  }

  function BoolFrom(input: Bytes): Read<bool> {
    var raw := NumberFrom(input, 8);
    if raw.result.Err? then Read(Err(raw.result.error), raw.rest)
    else if raw.result.value == 0 then Read(Ok(false), raw.rest)
    else if raw.result.value == 1 then Read(Ok(true), raw.rest)
    else Read(Err(IntOverflow), raw.rest)
  }

  ghost predicate IsSuffix(rest: Bytes, input: Bytes) {
    |rest| <= |input| && rest == input[|input| - |rest|..]
  }

  lemma SuffixTrans(a: Bytes, b: Bytes, c: Bytes)
    requires IsSuffix(a, b) && IsSuffix(b, c)
    ensures IsSuffix(a, c)
  {
  }

  lemma PayloadSuffix(base: nat, input: Bytes)
    requires input != []
    ensures IsSuffix(PayloadFrom(base, input).rest, input)
    ensures PayloadFrom(base, input).result.Ok? ==> |PayloadFrom(base, input).rest| < |input|
  {
    var tail := input[1..];
    assert IsSuffix(tail, input);
    if base <= input[0] {
      if input[0] <= base + MAX_PREFIX_1 {
        SuffixTrans(TakeFrom(tail, input[0] - base).rest, tail, input);
      } else {
        var raw := TakeFrom(tail, input[0] - base - MAX_PREFIX_1);
        SuffixTrans(raw.rest, tail, input);
        if raw.result.Ok? && UintFrom(raw.result.value, 64).Ok? {
          SuffixTrans(TakeFrom(raw.rest, UintFrom(raw.result.value, 64).value).rest, raw.rest, input);
        }
      }
    }
  }

  /** What a read leaves is a suffix of the input, and a successful read consumes something. */
  lemma RestIsSuffix(input: Bytes)
    ensures IsSuffix(SkipFrom(input).rest, input) && IsSuffix(BytesFrom(input).rest, input)
    ensures SkipFrom(input).result.Ok? ==> |SkipFrom(input).rest| < |input|
    ensures BytesFrom(input).result.Ok? ==> |BytesFrom(input).rest| < |input|
  {
    if input != [] {
      PayloadSuffix(BYTES_PREFIX_1, input);
      PayloadSuffix(LIST_PREFIX_1, input);
    }
  }

  /** The raw encoding of the next item. */
  function RawFrom(input: Bytes): Read<Bytes> {
    if input == [] then Read(Err(InvalidKeyValue), input)
    else
      var value := SkipFrom(input);
      RestIsSuffix(input);
      if value.result.Err? then value else Read(Ok(input[..|input| - |value.rest|]), value.rest)
  }

  /** A key and the raw encoding of its value. */
  function PairFrom(input: Bytes): Read<(Bytes, Bytes)> {
    var key := BytesFrom(input);
    if key.result.Err? then Read(Err(key.result.error), key.rest)
    else
      var value := RawFrom(key.rest);
      if value.result.Err? then Read(Err(value.result.error), value.rest)
      else Read(Ok((key.result.value, value.result.value)), value.rest)
  }

  lemma PairConsumes(input: Bytes)
    ensures PairFrom(input).result.Ok? ==> |PairFrom(input).rest| < |input|
  {
    RestIsSuffix(input);
    RestIsSuffix(BytesFrom(input).rest);
  }

  /** The first value of a repeated key is kept. */
  function Emplace(kv: map<Bytes, Bytes>, key: Bytes, value: Bytes): map<Bytes, Bytes> {
    if key in kv then kv else kv[key := value]
  }

  function KeyValuesFrom(input: Bytes, kv: map<Bytes, Bytes>): Read<map<Bytes, Bytes>>
    decreases |input|
  {
    if input == [] then Read(Ok(kv), input)
    else
      var pair := PairFrom(input);
      PairConsumes(input);
      if pair.result.Err? then Read(Err(pair.result.error), pair.rest)
      else KeyValuesFrom(pair.rest, Emplace(kv, pair.result.value.0, pair.result.value.1))
  }

  // ----- the decoder undoes the encoder

  lemma TakeConcat(a: Bytes, b: Bytes)
    ensures TakeFrom(a + b, |a|) == Read(Ok(a), b)
  {
  }

  lemma ShortPrefixRoundTrip(base: nat, b: Bytes, suffix: Bytes)
    requires base <= LIST_PREFIX_1 && |b| <= MAX_PREFIX_1
    ensures PayloadFrom(base, LengthPrefix(base, |b|) + b + suffix) == Read(Ok(b), suffix)
  {
    var input := LengthPrefix(base, |b|) + b + suffix;
    assert input[1..] == b + suffix;
    TakeConcat(b, suffix);
  }

  /** The long form of a length prefix: a length byte, then the length, then the payload. */
  lemma LongPayload(base: nat, be: Bytes, n: nat, rest: Bytes)
    requires base <= LIST_PREFIX_1 && 0 < |be| <= 8 && UintFrom(be, 64) == Ok(n)
    ensures PayloadFrom(base, [base + MAX_PREFIX_1 + |be|] + (be + rest)) == TakeFrom(rest, n)
  {
    var input := [base + MAX_PREFIX_1 + |be|] + (be + rest);
    assert input[1..] == be + rest;
    TakeConcat(be, rest);
  }

  lemma LengthRoundTrip(n: nat)
    requires 0 < n < 0x1_0000_0000_0000_0000
    ensures 0 < |ToBigEndian(n)| <= 8 && UintFrom(ToBigEndian(n), 64) == Ok(n)
  {
    Uint64Size(n);
    BigEndianRoundTrip(n);
  }

  lemma Regroup(head: Bytes, be: Bytes, b: Bytes, suffix: Bytes)
    ensures head + be + b + suffix == head + (be + (b + suffix))
  {
  }

  lemma LongPrefixRoundTrip(base: nat, b: Bytes, suffix: Bytes)
    requires base <= LIST_PREFIX_1 && Sized(b) && |b| > MAX_PREFIX_1
    ensures PayloadFrom(base, LengthPrefix(base, |b|) + b + suffix) == Read(Ok(b), suffix)
  {
    var be := ToBigEndian(|b|);
    LengthRoundTrip(|b|);
    Regroup([base + MAX_PREFIX_1 + |be|], be, b, suffix);
    LongPayload(base, be, |b|, b + suffix);
    TakeConcat(b, suffix);
  }

  lemma PrefixRoundTrip(base: nat, b: Bytes, suffix: Bytes)
    requires base <= LIST_PREFIX_1 && Sized(b)
    ensures PayloadFrom(base, LengthPrefix(base, |b|) + b + suffix) == Read(Ok(b), suffix)
  {
    if |b| <= MAX_PREFIX_1 {
      ShortPrefixRoundTrip(base, b, suffix);
    } else {
      LongPrefixRoundTrip(base, b, suffix);
    }
  }

  /** For every byte string; the unread suffix is left. */
  lemma BytesRoundTrip(b: Bytes, suffix: Bytes)
    requires Sized(b)
    ensures BytesFrom(EncodeBytes(b) + suffix) == Read(Ok(b), suffix)
    ensures !IsList(EncodeBytes(b) + suffix) && EncodeBytes(b) != []
  {
    var input := EncodeBytes(b) + suffix;
    if |b| == 1 && b[0] < BYTES_PREFIX_1 {
      assert input[..1] == b && input[1..] == suffix;
    } else {
      PrefixRoundTrip(BYTES_PREFIX_1, b, suffix);
      Uint64Size(|b|);
    }
  }

  lemma ListRoundTrip(content: Bytes, suffix: Bytes)
    requires Sized(content)
    ensures ListFrom(EncodeList(content) + suffix) == Read(Ok(content), suffix)
    ensures IsList(EncodeList(content) + suffix) && EncodeList(content) != []
  {
    PrefixRoundTrip(LIST_PREFIX_1, content, suffix);
    Uint64Size(|content|);
  }

  /** For every 64-bit number, read back with any width that fits it. */
  lemma UintRoundTrip(v: nat, digits: nat, suffix: Bytes)
    requires v < 0x1_0000_0000_0000_0000 && |ToBigEndian(v)| * 8 <= digits
    ensures NumberFrom(EncodeUint(v) + suffix, digits) == Read(Ok(v), suffix)
    ensures !IsList(EncodeUint(v) + suffix) && EncodeUint(v) != []
  {
    var be := ToBigEndian(v);
    BigEndianRoundTrip(v);
    Uint64Size(v);
    EncodeUintIsBytes(v);
    BytesRoundTrip(be, suffix);
  }

  /** A number is encoded as its big-endian digits. */
  lemma EncodeUintIsBytes(v: nat)
    requires v < 0x1_0000_0000_0000_0000
    ensures Sized(ToBigEndian(v)) && EncodeUint(v) == EncodeBytes(ToBigEndian(v))
  {
    Uint64Size(v);
    if 0 < v < 256 {
      assert ToBigEndian(v / 256) == [];
      assert ToBigEndian(v) == [v];
    } else if v >= 256 {
      assert |ToBigEndian(v)| >= 2 by { assert v / 256 > 0; }
    }
  }

  lemma BoolRoundTrip(v: bool, suffix: Bytes)
    ensures BoolFrom(EncodeUint(if v then 1 else 0) + suffix) == Read(Ok(v), suffix)
    ensures !IsList(EncodeUint(if v then 1 else 0) + suffix) && EncodeUint(if v then 1 else 0) != []
  {
    assert ToBigEndian(1) == [1] by { assert ToBigEndian(0) == []; }
    UintRoundTrip(if v then 1 else 0, 8, suffix);
  }

  // ----- key-value lists of any length

  datatype Item = Text(bytes: Bytes) | Nested(content: Bytes)

  ghost predicate ItemSized(item: Item) {
    match item
    case Text(b) => Sized(b)
    case Nested(c) => Sized(c)
  }

  ghost function EncodeItem(item: Item): Bytes
    requires ItemSized(item)
  {
    match item
    case Text(b) => EncodeBytes(b)
    case Nested(c) => EncodeList(c)
  }

  lemma SkipItem(item: Item, suffix: Bytes)
    requires ItemSized(item)
    ensures SkipFrom(EncodeItem(item) + suffix).result.Ok? && SkipFrom(EncodeItem(item) + suffix).rest == suffix
    ensures EncodeItem(item) != []
  {
    match item {
      case Text(b) => BytesRoundTrip(b, suffix);
      case Nested(c) => ListRoundTrip(c, suffix);
    }
  }

  datatype Pair = Pair(key: Bytes, item: Item)

  ghost predicate PairsSized(pairs: seq<Pair>) {
    forall i | 0 <= i < |pairs| :: Sized(pairs[i].key) && ItemSized(pairs[i].item)
  }

  ghost function EncodePairs(pairs: seq<Pair>): Bytes
    requires PairsSized(pairs)
  {
    if pairs == [] then []
    else EncodeBytes(pairs[0].key) + EncodeItem(pairs[0].item) + EncodePairs(pairs[1..])
  }

  /** The map that the pairs stand for; the first one of a key wins. */
  ghost function FirstWins(pairs: seq<Pair>, kv: map<Bytes, Bytes>): map<Bytes, Bytes>
    requires PairsSized(pairs)
  {
    if pairs == [] then kv
    else
      var p := pairs[0];
      FirstWins(pairs[1..], Emplace(kv, p.key, EncodeItem(p.item)))
  }

  lemma PairRoundTrip(p: Pair, tail: Bytes)
    requires Sized(p.key) && ItemSized(p.item)
    ensures EncodeBytes(p.key) + EncodeItem(p.item) + tail != []
    ensures PairFrom(EncodeBytes(p.key) + EncodeItem(p.item) + tail) == Read(Ok((p.key, EncodeItem(p.item))), tail)
  {
    var value := EncodeItem(p.item);
    assert EncodeBytes(p.key) + value + tail == EncodeBytes(p.key) + (value + tail);
    BytesRoundTrip(p.key, value + tail);
    SkipItem(p.item, tail);
    assert (value + tail)[..|value + tail| - |tail|] == value;
  }

  /** The key-value loop recovers every pair, however many there are. */
  lemma {:induction false} KeyValuesRoundTrip(pairs: seq<Pair>, kv: map<Bytes, Bytes>)
    requires PairsSized(pairs)
    ensures KeyValuesFrom(EncodePairs(pairs), kv) == Read(Ok(FirstWins(pairs, kv)), [])
    decreases |pairs|
  {
    if pairs != [] {
      var p := pairs[0];
      PairRoundTrip(p, EncodePairs(pairs[1..]));
      KeyValuesRoundTrip(pairs[1..], Emplace(kv, p.key, EncodeItem(p.item)));
    }
  }
}
