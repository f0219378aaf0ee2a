/**
 * Snappy framing: sections 3 and 4.1 to 4.4 of the Snappy framing format. The block compressor and the
 * checksum are parameters. Decoding at once and decoding from a stream, frame by frame, are both shown
 * to undo the encoder.
 */
module SnappyFraming {
  import opened Types

  const HEADER_SIZE := 4
  const CRC_SIZE := 4
  const MAX_BLOCK_SIZE := 0x1_0000
  const STREAM_IDENTIFIER: Bytes := [0x73, 0x4e, 0x61, 0x50, 0x70, 0x59]

  // Chunk types.
  const STREAM: Byte := 0xff
  const COMPRESSED: Byte := 0x00
  const UNCOMPRESSED: Byte := 0x01
  const PADDING: Byte := 0xfe

  datatype SnappyError =
    | TooLong
    | Invalid
    | Truncated
    | UnknownIdentifier
    | UnknownType
    | CrcMismatch
    | StreamClosed
    | Fault

  datatype Outcome<+T> = Ok(value: T) | Err(error: SnappyError)

  /** The block compressor, its length header, its inverse, and the masked checksum. */
  datatype Codec = Codec(
    compress: Bytes -> Bytes,
    lengthOf: Bytes -> Option<nat>,
    uncompress: Bytes -> Option<Bytes>,
    crc: Bytes -> Bytes)

  /** On this block the inner codec is inverse, and its output with the checksum fits 24 bits. */
  ghost predicate BlockOk(c: Codec, x: Bytes) {
    && |c.crc(x)| == CRC_SIZE
    && c.uncompress(c.compress(x)) == Some(x) && c.lengthOf(c.compress(x)) == Some(|x|)
    && (|x| <= MAX_BLOCK_SIZE ==> CRC_SIZE + |c.compress(x)| < 0x100_0000)
  }

  ghost predicate CodecOk(c: Codec) {
    forall x :: BlockOk(c, x)
  }

  // ----- frames

  function StoreLittle24(n: nat): Bytes {
    var mid: nat, high: nat := n / 256, n / 65536;
    [n % 256, mid % 256, high % 256]
  }

  function LoadLittle24(b: Bytes): nat
    requires |b| >= 3
  {
    var low: nat, mid: nat, high: nat := b[0], b[1], b[2];
    low + 256 * mid + 65536 * high
  }

  lemma Little24RoundTrip(n: nat, suffix: Bytes)
    requires n < 0x100_0000
    ensures LoadLittle24(StoreLittle24(n) + suffix) == n
  {
  }

  function Frame(kind: Byte, content: Bytes): Bytes {
    [kind] + StoreLittle24(|content|) + content
  }

  function Min(a: nat, b: nat): nat {
    if a < b then a else b
  }

  function DataFrame(c: Codec, chunk: Bytes): Bytes {
    Frame(COMPRESSED, c.crc(chunk) + c.compress(chunk))
  }

  /** The data frames of an input: blocks of 64 KiB, the last one shorter. */
  function DataFrames(c: Codec, input: Bytes): Bytes {
    if input == [] then []
    else
      var k := Min(|input|, MAX_BLOCK_SIZE);
      DataFrame(c, input[..k]) + DataFrames(c, input[k..])
  }

  function Framed(c: Codec, input: Bytes): Bytes {
    Frame(STREAM, STREAM_IDENTIFIER) + DataFrames(c, input)
  }

  method CompressFramed(c: Codec, input: Bytes) returns (framed: Bytes)
    ensures framed == Framed(c, input)
  {
    framed := Frame(STREAM, STREAM_IDENTIFIER);
    var rest := input;
    while rest != []
      invariant framed + DataFrames(c, rest) == Framed(c, input)
      decreases |rest|
    {
      var chunk := rest[..Min(|rest|, MAX_BLOCK_SIZE)];
      var crc := c.crc(chunk);
      AppendFrame(framed, DataFrame(c, chunk), DataFrames(c, rest[|chunk|..]));
      rest := rest[|chunk|..];
      var compressed := c.compress(chunk);
      framed := framed + Frame(COMPRESSED, crc + compressed);
    }
    assert framed + [] == framed;
  }

  lemma AppendFrame(a: Bytes, b: Bytes, c: Bytes)
    ensures a + (b + c) == (a + b) + c
  {
  }

  // ----- decoding

  function ChunkNeedBytes(input: Bytes): Option<nat> {
    if |input| < HEADER_SIZE then None else Some(HEADER_SIZE + LoadLittle24(input[1..]))
  }

  function UncompressLimited(c: Codec, data: Bytes, maxSize: nat): Outcome<Bytes> {
    match c.lengthOf(data)
    case None => Err(Invalid)
    case Some(n) =>
      if n > maxSize then Err(TooLong)
      else
        match c.uncompress(data)
        case None => Err(Invalid)
        case Some(x) => Ok(x)
  }

  function SaturatingSub(a: nat, b: nat): nat {
    if a < b then 0 else a - b
  }

  /** What one frame contributes, with room for `maxSize` more bytes. */
  function FrameContent(c: Codec, kind: Byte, content: Bytes, maxSize: nat): Outcome<Bytes> {
    if kind == STREAM then
      if content != STREAM_IDENTIFIER then Err(UnknownIdentifier) else Ok([])
    else if kind == COMPRESSED || kind == UNCOMPRESSED then
      if |content| < CRC_SIZE then Err(Fault)
      else
        var data := content[CRC_SIZE..];
        var block := if kind == COMPRESSED then UncompressLimited(c, data, maxSize) else Ok(data);
        if block.Err? then block
        else if c.crc(block.value) != content[..CRC_SIZE] then Err(CrcMismatch)
        else block
    else if kind == PADDING then Ok([])
    else Err(UnknownType)
  }

  function Unframed(c: Codec, input: Bytes, maxSize: nat, result: Bytes): Outcome<Bytes>
    decreases |input|
  {
    if input == [] then Ok(result)
    else
      var need := ChunkNeedBytes(input);
      if need.None? || |input| < need.value then Err(Truncated)
      else
        var block := FrameContent(c, input[0], input[HEADER_SIZE..need.value], SaturatingSub(maxSize, |result|));
        if block.Err? then block
        else Unframed(c, input[need.value..], maxSize, result + block.value)
  }

  method UncompressFramed(c: Codec, input: Bytes, maxSize: nat) returns (r: Outcome<Bytes>)
    ensures r == Unframed(c, input, maxSize, [])
  {
    var result: Bytes := [];
    var rest := input;
    while rest != []
      invariant Unframed(c, rest, maxSize, result) == Unframed(c, input, maxSize, [])
      decreases |rest|
    {
      var need := ChunkNeedBytes(rest);
      if need.None? || |rest| < need.value {
        return Err(Truncated);
      }
      var kind := rest[0];
      var size := LoadLittle24(rest[1..]);
      var content := rest[HEADER_SIZE..HEADER_SIZE + size];
      rest := rest[HEADER_SIZE + size..];
      if kind == STREAM {
        if content != STREAM_IDENTIFIER {
          return Err(UnknownIdentifier);
        }
        assert result + [] == result;
      } else if kind == COMPRESSED || kind == UNCOMPRESSED {
        if |content| < CRC_SIZE {
          return Err(Fault);
        }
        var expected := content[..CRC_SIZE];
        var data := content[CRC_SIZE..];
        if kind == COMPRESSED {
          var block := UncompressLimited(c, data, SaturatingSub(maxSize, |result|));
          if block.Err? {
            return block;
          }
          data := block.value;
        }
        if c.crc(data) != expected {
          return Err(CrcMismatch);
        }
        result := result + data;
      } else if kind == PADDING {
        assert result + [] == result;
      } else {
        return Err(UnknownType);
      }
    }
    return Ok(result);
  }

  // ----- round trip, at once

  /** The decoder splits off exactly one frame. */
  lemma FrameSplits(kind: Byte, content: Bytes, rest: Bytes)
    requires |content| < 0x100_0000
    ensures var input := Frame(kind, content) + rest;
            var need := HEADER_SIZE + |content|;
            && input != [] && input[0] == kind
            && ChunkNeedBytes(input) == Some(need) && need <= |input|
            && input[HEADER_SIZE..need] == content && input[need..] == rest
            && need == |Frame(kind, content)|
  {
    var input := Frame(kind, content) + rest;
    assert input[1..] == StoreLittle24(|content|) + (content + rest);
    Little24RoundTrip(|content|, content + rest);
  }

  lemma DataFrameContent(c: Codec, chunk: Bytes, maxSize: nat)
    requires CodecOk(c)
    ensures FrameContent(c, COMPRESSED, c.crc(chunk) + c.compress(chunk), maxSize)
         == if |chunk| > maxSize then Err(TooLong) else Ok(chunk)
  {
    assert BlockOk(c, chunk);
    var content := c.crc(chunk) + c.compress(chunk);
    assert content[CRC_SIZE..] == c.compress(chunk) && content[..CRC_SIZE] == c.crc(chunk);
  }

  /** One step of the decoder over an encoded block. */
  lemma UnframeBlock(c: Codec, chunk: Bytes, rest: Bytes, maxSize: nat, result: Bytes)
    requires CodecOk(c) && |chunk| <= MAX_BLOCK_SIZE
    ensures Unframed(c, DataFrame(c, chunk) + rest, maxSize, result)
         == if |chunk| > SaturatingSub(maxSize, |result|) then Err(TooLong)
            else Unframed(c, rest, maxSize, result + chunk)
  {
    assert BlockOk(c, chunk);
    FrameSplits(COMPRESSED, c.crc(chunk) + c.compress(chunk), rest);
    DataFrameContent(c, chunk, SaturatingSub(maxSize, |result|));
  }

  lemma {:induction false} DataFramesRoundTrip(c: Codec, input: Bytes, maxSize: nat, result: Bytes)
    requires CodecOk(c) && |result| <= maxSize
    ensures Unframed(c, DataFrames(c, input), maxSize, result)
         == if |result| + |input| > maxSize then Err(TooLong) else Ok(result + input)
    decreases |input|
  {
    if input == [] {
      assert result + [] == result;
    } else {
      var k := Min(|input|, MAX_BLOCK_SIZE);
      var chunk := input[..k];
      UnframeBlock(c, chunk, DataFrames(c, input[k..]), maxSize, result);
      if |result| + k <= maxSize {
        DataFramesRoundTrip(c, input[k..], maxSize, result + chunk);
        JoinChunk(result, input, k);
      }
    }
  }

  lemma IdentifierFrame(c: Codec, rest: Bytes, maxSize: nat, result: Bytes)
    ensures Unframed(c, Frame(STREAM, STREAM_IDENTIFIER) + rest, maxSize, result) == Unframed(c, rest, maxSize, result)
  {
    FrameSplits(STREAM, STREAM_IDENTIFIER, rest);
    assert result + [] == result;
  }

  /** Decoding what was encoded gives the input back exactly when it is within the size limit. */
  lemma FramedRoundTrip(c: Codec, input: Bytes, maxSize: nat)
    requires CodecOk(c)
    ensures Unframed(c, Framed(c, input), maxSize, [])
         == if |input| > maxSize then Err(TooLong) else Ok(input)
  {
    IdentifierFrame(c, DataFrames(c, input), maxSize, []);
    DataFramesRoundTrip(c, input, maxSize, []);
    assert [] + input == input;
  }

  // ----- decoding from a stream

  /** The bytes produced and the bytes of the stream not read yet. */
  datatype Received = Received(result: Bytes, rest: Bytes)

  function StreamUnframed(c: Codec, stream: Bytes, size: nat, result: Bytes): Outcome<Received>
    decreases |stream|
  {
    if |result| >= size then Ok(Received(result, stream))
    else if |stream| < HEADER_SIZE then Err(StreamClosed)
    else
      var need := ChunkNeedBytes(stream[..HEADER_SIZE]).value;
      if |stream| < need then Err(StreamClosed)
      else
        var block := Unframed(c, stream[..need], SaturatingSub(size, |result|), []);
        if block.Err? then Err(block.error)
        else StreamUnframed(c, stream[need..], size, result + block.value)
  }

  /** The variable-length number that announces the size of a message. */
  datatype Varint = Varint(encode: nat -> Bytes, read: Bytes -> Option<(nat, Bytes)>)

  function Announced(v: Varint, n: nat, tail: Bytes): Bytes {
    v.encode(n) + tail
  }

  ghost predicate VarintOk(v: Varint) {
    forall n: nat, tail: Bytes :: v.read(Announced(v, n, tail)) == Some((n, tail))
  }

  /** `coUncompressFramed`: the announced size, then frames until that many bytes came out. */
  function MessageFrom(c: Codec, v: Varint, stream: Bytes, maxSize: nat): Outcome<Received> {
    var announced := v.read(stream);
    if announced.None? then Err(StreamClosed)
    else if announced.value.0 > maxSize then Err(TooLong)
    else StreamUnframed(c, announced.value.1, announced.value.0, [])
  }

  method ReadFramed(c: Codec, v: Varint, stream: Bytes, maxSize: nat) returns (r: Outcome<Received>)
    ensures r == MessageFrom(c, v, stream, maxSize)
  {
    var announced := v.read(stream);
    if announced.None? {
      return Err(StreamClosed);
    }
    var (size, start) := announced.value;
    if size > maxSize {
      return Err(TooLong);
    }
    var result: Bytes := [];
    var rest := start;
    while |result| < size
      invariant StreamUnframed(c, rest, size, result) == StreamUnframed(c, start, size, [])
      decreases |rest|
    {
      if |rest| < HEADER_SIZE {
        return Err(StreamClosed);
      }
      var need := ChunkNeedBytes(rest[..HEADER_SIZE]).value;
      if |rest| < need {
        return Err(StreamClosed);
      }
      var block := UncompressFramed(c, rest[..need], SaturatingSub(size, |result|));
      if block.Err? {
        return Err(block.error);
      }
      result := result + block.value;
      rest := rest[need..];
    }
    return Ok(Received(result, rest));
  }

  /** The stream reader takes exactly one frame at a time. */
  lemma StreamFrame(c: Codec, kind: Byte, content: Bytes, rest: Bytes, size: nat, result: Bytes)
    requires |content| < 0x100_0000 && |result| < size
    ensures var block := Unframed(c, Frame(kind, content), SaturatingSub(size, |result|), []);
            var next := if block.Err? then Err(block.error) else StreamUnframed(c, rest, size, result + block.value);
            StreamUnframed(c, Frame(kind, content) + rest, size, result) == next
  {
    var frame := Frame(kind, content);
    var stream := frame + rest;
    FrameSplits(kind, content, rest);
    assert stream[..HEADER_SIZE][1..] == stream[1..HEADER_SIZE] == StoreLittle24(|content|);
    Little24RoundTrip(|content|, []);
    assert StoreLittle24(|content|) + [] == StoreLittle24(|content|);
    assert stream[..|frame|] == frame && stream[|frame|..] == rest;
  }

  lemma UnframeSingleBlock(c: Codec, chunk: Bytes, room: nat)
    requires CodecOk(c) && |chunk| <= MAX_BLOCK_SIZE && |chunk| <= room
    ensures Unframed(c, DataFrame(c, chunk), room, []) == Ok(chunk)
  {
    UnframeBlock(c, chunk, [], room, []);
    assert DataFrame(c, chunk) + [] == DataFrame(c, chunk);
    assert [] + chunk == chunk;
  }

  /** One step of the stream reader over an encoded block. */
  lemma StreamBlock(c: Codec, chunk: Bytes, rest: Bytes, size: nat, result: Bytes)
    requires CodecOk(c) && |chunk| <= MAX_BLOCK_SIZE && |result| < size && |result| + |chunk| <= size
    ensures StreamUnframed(c, DataFrame(c, chunk) + rest, size, result)
         == StreamUnframed(c, rest, size, result + chunk)
  {
    assert BlockOk(c, chunk);
    UnframeSingleBlock(c, chunk, SaturatingSub(size, |result|));
    StreamFrame(c, COMPRESSED, c.crc(chunk) + c.compress(chunk), rest, size, result);
  }

  lemma JoinChunk(result: Bytes, input: Bytes, k: nat)
    requires k <= |input|
    ensures result + input[..k] + input[k..] == result + input
  {
  }

  lemma {:induction false} StreamRoundTrip(c: Codec, input: Bytes, tail: Bytes, size: nat, result: Bytes)
    requires CodecOk(c) && size == |result| + |input|
    ensures StreamUnframed(c, DataFrames(c, input) + tail, size, result) == Ok(Received(result + input, tail))
    decreases |input|
  {
    if input == [] {
      assert DataFrames(c, input) + tail == tail && result + input == result;
    } else {
      var k := Min(|input|, MAX_BLOCK_SIZE);
      AppendFrame(DataFrame(c, input[..k]), DataFrames(c, input[k..]), tail);
      StreamBlock(c, input[..k], DataFrames(c, input[k..]) + tail, size, result);
      StreamRoundTrip(c, input[k..], tail, size, result + input[..k]);
      JoinChunk(result, input, k);
    }
  }

  /**
   * Reading frame by frame gives the same bytes as decoding at once, and leaves what follows the
   * message; an empty message leaves the stream untouched.
   */
  lemma StreamAgreesWithDecoder(c: Codec, input: Bytes, tail: Bytes, maxSize: nat)
    requires CodecOk(c) && |input| <= maxSize
    ensures StreamUnframed(c, Framed(c, input) + tail, |input|, [])
         == Ok(Received(input, if input == [] then Framed(c, input) + tail else tail))
    ensures Unframed(c, Framed(c, input), maxSize, []) == Ok(input)
  {
    FramedRoundTrip(c, input, maxSize);
    if input != [] {
      var data := DataFrames(c, input) + tail;
      AppendFrame(Frame(STREAM, STREAM_IDENTIFIER), DataFrames(c, input), tail);
      IdentifierFrame(c, [], |input|, []);
      assert Frame(STREAM, STREAM_IDENTIFIER) + [] == Frame(STREAM, STREAM_IDENTIFIER);
      StreamFrame(c, STREAM, STREAM_IDENTIFIER, data, |input|, []);
      StreamRoundTrip(c, input, tail, |input|, []);
      assert [] + input == input;
    }
  }

  /** `coCompressFramed`: what the writer puts on the stream. */
  method WriteFramed(c: Codec, v: Varint, message: Bytes) returns (written: Bytes)
    ensures written == Announced(v, |message|, Framed(c, message))
  {
    var compressed := CompressFramed(c, message);
    written := v.encode(|message|) + compressed;
  }

  /** The reader undoes the writer exactly within the size limit. */
  lemma MessageRoundTrip(c: Codec, v: Varint, message: Bytes, tail: Bytes, maxSize: nat)
    requires CodecOk(c) && VarintOk(v)
    ensures MessageFrom(c, v, Announced(v, |message|, Framed(c, message)) + tail, maxSize)
         == if |message| > maxSize then Err(TooLong)
            else Ok(Received(message, if message == [] then Framed(c, message) + tail else tail))
  {
    assert Announced(v, |message|, Framed(c, message)) + tail == Announced(v, |message|, Framed(c, message) + tail);
    if |message| <= maxSize {
      StreamAgreesWithDecoder(c, message, tail, maxSize);
    }
  }

  /**
   * The reader leaves exactly what follows the message if and only if the message is not empty: the
   * writer sends an identifier frame even for an empty message, and the reader does not take it.
   */
  lemma MessageIsConsumed(c: Codec, v: Varint, message: Bytes, tail: Bytes, maxSize: nat)
    requires CodecOk(c) && VarintOk(v) && |message| <= maxSize
    ensures var stream := Announced(v, |message|, Framed(c, message)) + tail;
            MessageFrom(c, v, stream, maxSize) == Ok(Received(message, tail)) <==> message != []
  {
    MessageRoundTrip(c, v, message, tail, maxSize);
    assert |Framed(c, message) + tail| > |tail|;
  }
}
