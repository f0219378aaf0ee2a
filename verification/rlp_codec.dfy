/** The RLP encoder and decoder as the source runs them: objects that append to or consume a buffer. */
module RlpCodec {
  import opened Types
  import opened Rlp

  // ----- digits of a number in a fixed buffer

  /** The number of bits without leading zeros, so that `countl_zero` is 64 minus it. */
  function BitLength(v: nat): nat {
    if v == 0 then 0 else 1 + BitLength(v / 2)
  }

  lemma FourBits(v: nat)
    requires v >= 16
    ensures BitLength(v) == 4 + BitLength(v / 16)
  {
    var a, b, c := v / 2, v / 4, v / 8;
    assert a / 2 == b && b / 2 == c && c / 2 == v / 16;
    assert BitLength(v) == 1 + BitLength(a);
    assert BitLength(a) == 1 + BitLength(b);
    assert BitLength(b) == 1 + BitLength(c);
  }

  lemma EightBits(v: nat)
    requires v >= 256
    ensures BitLength(v) == 8 + BitLength(v / 256)
  {
    FourBits(v);
    FourBits(v / 16);
  }

  lemma Nibble(v: nat)
    requires 0 < v < 16
    ensures 1 <= BitLength(v) <= 4
  {
    assert BitLength(v / 4) <= 2;
  }

  lemma SmallBits(v: nat)
    requires 0 < v < 256
    ensures 1 <= BitLength(v) <= 8
  {
    if v < 16 {
      Nibble(v);
    } else {
      FourBits(v);
      Nibble(v / 16);
    }
  }

  /** The digit count that the source computes is the length of the big-endian form. */
  lemma {:induction false} DigitCount(v: nat)
    ensures 8 * |ToBigEndian(v)| - 7 <= BitLength(v) <= 8 * |ToBigEndian(v)| || v == 0
    ensures (BitLength(v) + 7) / 8 == |ToBigEndian(v)|
  {
    if 0 < v < 256 {
      SmallBits(v);
      assert ToBigEndian(v / 256) == [];
    } else if v >= 256 {
      EightBits(v);
      DigitCount(v / 256);
    }
  }

  lemma MulStep(d: nat, a: nat, b: nat)
    requires a < b
    ensures d * a + d <= d * b
  {
    var k := b - a - 1;
    assert d * b == d * (a + 1 + k) == d * a + d + d * k;
  }

  lemma DivUnique(x: nat, d: nat, q: nat, r: nat)
    requires d > 0 && x == d * q + r && r < d
    ensures x / d == q
  {
    var q' := x / d;
    assert x == d * q' + x % d;
    if q < q' { MulStep(d, q, q'); } else if q' < q { MulStep(d, q', q); }
  }

  lemma PowPositive(k: nat)
    ensures Pow256(k) > 0
  {
  }

  lemma DivByProduct(v: nat, p: nat)
    requires p > 0
    ensures v / (256 * p) == v / 256 / p
  {
    var q, r := v / 256, v % 256;
    var a, b := q / p, q % p;
    assert q == p * a + b;
    assert v == 256 * q + r;
    assert v == 256 * p * a + (256 * b + r) by {
      assert 256 * (p * a + b) == 256 * p * a + 256 * b;
    }
    assert 256 * b + r < 256 * p;
    DivUnique(v, 256 * p, a, 256 * b + r);
  }

  /** The low byte of `v >> 8 * k`. */
  function Digit(v: nat, k: nat): Byte {
    PowPositive(k);
    v / Pow256(k) % 256
  }

  /** `sizeof(uint64_t) - countl_zero(v) / 8`. */
  method CountDigits(v: nat) returns (n: nat)
    requires v < 0x1_0000_0000_0000_0000
    ensures n == |ToBigEndian(v)|
  {
    Uint64Size(v);
    DigitCount(v);
    n := 8 - (64 - BitLength(v)) / 8;
  }

  /** The digit that the shift `v >> 8 * k` leaves in the low byte. */
  lemma {:induction false} DigitAt(v: nat, i: nat)
    requires i < |ToBigEndian(v)|
    ensures ToBigEndian(v)[i] == Digit(v, |ToBigEndian(v)| - 1 - i)
  {
    var n := |ToBigEndian(v)|;
    PowPositive(n - 1 - i);
    if i < n - 1 {
      DigitAt(v / 256, i);
      DivByProduct(v, Pow256(n - 2 - i));
    }
  }

  class EncodeBuffer {
    const buffer: array<Byte>
    var size: nat

    ghost predicate Valid()
      reads this
    {
      buffer.Length == 9 && size <= 9
    }

    ghost function Content(): Bytes
      requires Valid()
      reads this, buffer
    {
      buffer[..size]
    }

    constructor ()
      ensures Valid() && fresh(buffer) && size == 0
    {
      buffer := new Byte[9](_ => 0);
      size := 0;
    }

    /** A prefix byte that counts the digits, then the digits, most significant first. */
    method Uint(base: nat, v: nat)
      requires Valid() && base < 248 && v < 0x1_0000_0000_0000_0000
      modifies this`size, buffer
      ensures Valid() && Content() == [base + |ToBigEndian(v)|] + ToBigEndian(v)
      ensures buffer[0] == base + |ToBigEndian(v)|
    {
      Uint64Size(v);
      var n := CountDigits(v);
      size := 1 + n;
      buffer[0] := base + n;
      for i := 1 to size
        invariant size == 1 + n && buffer[0] == base + n
        invariant forall j | 1 <= j < i :: buffer[j] == ToBigEndian(v)[j - 1]
      {
        DigitAt(v, i - 1);
        buffer[i] := Digit(v, n - i);
      }
      assert buffer[..size] == [base + n] + ToBigEndian(v);
    }

    method LengthOf(base: nat, bytes: nat)
      requires Valid() && base <= LIST_PREFIX_1 && bytes < 0x1_0000_0000_0000_0000
      modifies this`size, buffer
      ensures Valid() && Content() == LengthPrefix(base, bytes) && buffer[0] >= base
    {
      if bytes <= MAX_PREFIX_1 {
        size := 1;
        buffer[0] := base + bytes;
      } else {
        Uint(base + MAX_PREFIX_1, bytes);
      }
    }

    method Single(b: Byte)
      requires Valid()
      modifies this`size, buffer
      ensures Valid() && Content() == [b] && buffer[0] == b
    {
      size := 1;
      buffer[0] := b;
    }
  }

  class Encoder {
    var output: Bytes

    constructor ()
      ensures output == []
    {
      output := [];
    }

    method Uint(v: nat)
      requires v < 0x1_0000_0000_0000_0000
      modifies this
      ensures output == old(output) + EncodeUint(v)
    {
      var prefix := new EncodeBuffer();
      if 0 < v < BYTES_PREFIX_1 {
        prefix.Single(v);
      } else {
        prefix.Uint(BYTES_PREFIX_1, v);
      }
      output := output + prefix.buffer[..prefix.size];
    }

    method WriteBool(v: bool)
      modifies this
      ensures output == old(output) + EncodeUint(if v then 1 else 0)
    {
      Uint(if v then 1 else 0);
    }

    /** A single small byte is its own prefix. */
    method PutBytes(b: Bytes)
      requires Sized(b)
      modifies this
      ensures output == old(output) + EncodeBytes(b)
    {
      var prefix := new EncodeBuffer();
      if |b| == 1 && b[0] < BYTES_PREFIX_1 {
        prefix.Single(b[0]);
        assert prefix.Content() == b;
      } else {
        prefix.LengthOf(BYTES_PREFIX_1, |b|);
        Associate(output, LengthPrefix(BYTES_PREFIX_1, |b|), b);
      }
      output := output + prefix.buffer[..prefix.size];
      if prefix.buffer[0] >= BYTES_PREFIX_1 {
        output := output + b;
      }
    }

    method List() returns (r: Bytes)
      requires Sized(output)
      ensures r == EncodeList(output)
    {
      var prefix := new EncodeBuffer();
      prefix.LengthOf(LIST_PREFIX_1, |output|);
      r := prefix.buffer[..prefix.size] + output;
    }
  }

  class Decoder {
    var input: Bytes

    constructor (input: Bytes)
      ensures this.input == input
    {
      this.input := input;
    }

    method Take(n: nat) returns (r: Result<Bytes>)
      modifies this
      ensures Read(r, input) == TakeFrom(old(input), n)
    {
      if n > |input| {
        return Err(InvalidRlp);
      }
      r := Ok(input[..n]);
      input := input[n..];
    }

    method Payload(base: nat) returns (r: Result<Bytes>)
      requires input != []
      modifies this
      ensures Read(r, input) == PayloadFrom(base, old(input))
    {
      if base > input[0] {
        return Err(InvalidRlp);
      }
      var first := input[0];
      var prefix := Take(1);
      if first <= base + MAX_PREFIX_1 {
        r := Take(first - base);
        return;
      }
      var raw := Take(first - base - MAX_PREFIX_1);
      if raw.Err? {
        return raw;
      }
      var n := ReadUint(raw.value, 64);
      if n.Err? {
        return Err(n.error);
      }
      r := Take(n.value);
    }

    method List() returns (r: Result<Bytes>)
      modifies this
      ensures Read(r, input) == ListFrom(old(input))
    {
      if input == [] {
        return Err(InvalidRlp);
      }
      r := Payload(LIST_PREFIX_1);
    }

    method GetBytes() returns (r: Result<Bytes>)
      modifies this
      ensures Read(r, input) == BytesFrom(old(input))
    {
      if input == [] {
        return Err(InvalidRlp);
      }
      if input[0] >= LIST_PREFIX_1 {
        return Err(InvalidRlp);
      }
      if input[0] < BYTES_PREFIX_1 {
        r := Take(1);
        return;
      }
      r := Payload(BYTES_PREFIX_1);
    }

    method GetBytesN(n: nat) returns (r: Result<Bytes>)
      modifies this
      ensures Read(r, input) == BytesNFrom(old(input), n)
    {
      r := GetBytes();
      if r.Ok? && |r.value| != n {
        return Err(InvalidRlp);
      }
    }

    method GetUint(digits: nat) returns (r: Result<nat>)
      modifies this
      ensures Read(r, input) == NumberFrom(old(input), digits)
    {
      var raw := GetBytes();
      if raw.Err? {
        return Err(raw.error);
      }
      r := ReadUint(raw.value, digits);
    }

    method GetBool() returns (r: Result<bool>)
      modifies this
      ensures Read(r, input) == BoolFrom(old(input))
    {
      var raw := GetUint(8);
      if raw.Err? {
        return Err(raw.error);
      }
      if raw.value == 0 {
        return Ok(false);
      }
      if raw.value == 1 {
        return Ok(true);
      }
      return Err(IntOverflow);
    }

    method Skip() returns (r: Result<Bytes>)
      modifies this
      ensures Read(r, input) == SkipFrom(old(input))
    {
      if IsList(input) {
        r := List();
      } else {
        r := GetBytes();
      }
    }

    /** The raw encoding of the value of a key. */
    method GetRaw() returns (r: Result<Bytes>)
      modifies this
      ensures Read(r, input) == RawFrom(old(input))
    {
      if input == [] {
        return Err(InvalidKeyValue);
      }
      var value := input;
      RestIsSuffix(input);
      var skipped := Skip();
      if skipped.Err? {
        return skipped;
      }
      return Ok(value[..|value| - |input|]);
    }

    method GetPair() returns (r: Result<(Bytes, Bytes)>)
      modifies this
      ensures Read(r, input) == PairFrom(old(input))
    {
      var key := GetBytes();
      if key.Err? {
        return Err(key.error);
      }
      var value := GetRaw();
      if value.Err? {
        return Err(value.error);
      }
      return Ok((key.value, value.value));
    }

    /** Reads keys and raw values until the input is empty. */
    method KeyValues() returns (r: Result<map<Bytes, Bytes>>)
      modifies this
      ensures Read(r, input) == KeyValuesFrom(old(input), map[])
    {
      var kv: map<Bytes, Bytes> := map[];
      while input != []
        invariant KeyValuesFrom(input, kv) == KeyValuesFrom(old(input), map[])
        decreases |input|
      {
        PairConsumes(input);
        var pair := GetPair();
        if pair.Err? {
          return Err(pair.error);
        }
        kv := Emplace(kv, pair.value.0, pair.value.1);
      }
      return Ok(kv);
    }
  }

  /** Folds the digits, most significant first. */
  method ReadUint(be: Bytes, digits: nat) returns (r: Result<nat>)
    ensures r == UintFrom(be, digits)
  {
    if |be| * 8 > digits {
      return Err(IntOverflow);
    }
    var v: nat := 0;
    for i := 0 to |be|
      invariant v == FromBigEndian(be[..i])
    {
      assert be[..i + 1][..i] == be[..i];
      v := 256 * v + be[i];
    }
    assert be[..|be|] == be;
    return Ok(v);
  }
}
