/**
 * The record framing of a trace file, and the pass that rewrites a trace
 * record by record: each record is the tag byte 0x0A, the payload length as
 * a base-128 varint, and the encoded packet. A packet the annotation leaves
 * alone is copied byte for byte; a changed one is encoded afresh.
 *
 * The packet codec is a library; it enters the model as a pair of
 * functions. The input file is a byte sequence and the output file the
 * bytes appended to it.
 */
module Framer {
  import opened Wrappers
  import Format
  import Trace = Synthetto
  import opened Annotate

  type byte = b: nat | b < 256

  const TAG: byte := 0x0A

  /** The longest length field the reader accepts. */
  const MAX_LEN_BYTES: nat := 19

  /** `TracePacket::decode` and `TracePacket::encode`. */
  datatype Codec = Codec(decode: seq<byte> -> Result<Trace.TracePacket, string>, encode: Trace.TracePacket -> seq<byte>)

  datatype FrameError =
    | Eof
    | BadTag(tag: byte)
    | UnterminatedLen
    | InvalidVarint
    | ZeroLen
    | DecodeFailed(msg: string)
    | AnnotateFailed(msg: string)

  /** The message each error carries out of the pass. */
  function Message(e: FrameError): string
  {
    match e
    case Eof => "failed to fill whole buffer"
    case BadTag(t) => "invalid trace: tag is 0x" + Format.Digits(t, 16) + ", expected 0x0A"
    case UnterminatedLen => "invalid trace: len is un-terminated varint."
    case InvalidVarint => "failed to decode Protobuf message: invalid varint"
    case ZeroLen => "invalid trace: zero-len package."
    case DecodeFailed(msg) => msg
    case AnnotateFailed(msg) => msg
  }

  // ---- Varints ------------------------------------------------------------

  function Pow128(k: nat): (p: nat)
    ensures p >= 1
  {
    if k == 0 then 1 else 128 * Pow128(k - 1)
  }

  /** `encode_varint`: seven bits per byte, least significant first, the high bit set on all but the last. */
  function EncodeVarint(n: nat): (bs: seq<byte>)
    ensures |bs| >= 1
  {
    if n < 0x80 then [n] else [n % 0x80 + 0x80] + EncodeVarint(n / 0x80)
  }

  /** Every byte of a varint but the last has the continuation bit set; the last has it clear. */
  lemma {:induction false} EncodingShape(n: nat)
    ensures var bs := EncodeVarint(n);
            && bs[|bs| - 1] < 0x80
            && forall i :: 0 <= i < |bs| - 1 ==> bs[i] >= 0x80
  {
    if n >= 0x80 {
      EncodingShape(n / 0x80);
      var rest := EncodeVarint(n / 0x80);
      assert EncodeVarint(n) == [n % 0x80 + 0x80] + rest;
    }
  }

  /**
   * `decode_varint` over the `k` bytes from byte `from`, having read `i` of
   * them: a byte below 0x80 ends the number; the tenth may only be 0 or 1.
   */
  function DecodeAt(bs: seq<byte>, from: nat, k: nat, i: nat): Result<nat, FrameError>
    requires i <= 9 && from + k <= |bs|
    decreases k - i
  {
    if i >= k then Err(InvalidVarint)
    else if i == 9 then (if bs[from + 9] < 2 then Ok(bs[from + 9]) else Err(InvalidVarint))
    else if bs[from + i] < 0x80 then Ok(bs[from + i])
    else
      match DecodeAt(bs, from, k, i + 1)
      case Err(e) => Err(e)
      case Ok(v) => Ok(bs[from + i] - 0x80 + 0x80 * v)
  }

  /** `decode_length_delimiter`, on a buffer holding the length field. */
  function DecodeVarint(bs: seq<byte>): Result<nat, FrameError>
  {
    DecodeAt(bs, 0, |bs|, 0)
  }

  /** Decoding a copy of the bytes is decoding them where they are. */
  lemma {:induction false} DecodeShift(cs: seq<byte>, bs: seq<byte>, from: nat, i: nat)
    requires i <= 9 && from + |cs| <= |bs| && cs == bs[from..from + |cs|]
    ensures DecodeAt(cs, 0, |cs|, i) == DecodeAt(bs, from, |cs|, i)
    decreases 9 - i
  {
    if i < |cs| {
      assert cs[i] == bs[from + i];
      if i < 9 {
        DecodeShift(cs, bs, from, i + 1);
      }
    }
  }

  /** `encode_length_delimited`: the length of the encoding, then the encoding. */
  function EncodeDelimited(codec: Codec, p: Trace.TracePacket): seq<byte>
  {
    var e := codec.encode(p);
    EncodeVarint(|e|) + e
  }

  lemma {:induction false} EncodeShort(n: nat, k: nat)
    requires 1 <= k && n < Pow128(k)
    ensures |EncodeVarint(n)| <= k
    decreases k
  {
    if n >= 0x80 {
      assert k > 1;
      assert n / 0x80 < Pow128(k - 1);
      EncodeShort(n / 0x80, k - 1);
    }
  }

  /** A 64-bit length takes at most ten bytes. */
  lemma EncodeAtMostTen(n: nat)
    requires n < 0x1_0000_0000_0000_0000
    ensures |EncodeVarint(n)| <= 10
  {
    assert Pow128(10) == 0x1_0000_0000_0000_0000 * 64;
    EncodeShort(n, 10);
  }

  /** Decoding what was encoded at byte `i`, for a number that fits in the bytes left before the tenth. */
  lemma {:induction false} DecodeEncodeFrom(bs: seq<byte>, i: nat, n: nat)
    requires i <= 9 && n < 2 * Pow128(9 - i)
    requires i + |EncodeVarint(n)| <= |bs| && bs[i..i + |EncodeVarint(n)|] == EncodeVarint(n)
    ensures DecodeAt(bs, 0, |bs|, i) == Ok(n)
    decreases 9 - i
  {
    var e := EncodeVarint(n);
    assert bs[i] == e[0];
    if n < 0x80 {
      assert e == [n];
    } else {
      assert i < 9;
      var rest := EncodeVarint(n / 0x80);
      assert e == [n % 0x80 + 0x80] + rest;
      SplitHead(bs, i, n % 0x80 + 0x80, rest);
      SevenBits(n, 8 - i);
      DecodeEncodeFrom(bs, i + 1, n / 0x80);
      assert bs[i] - 0x80 + 0x80 * (n / 0x80) == n;
    }
  }

  /** A stretch starting with `x` at byte `i`: `x` is there, and the rest follows it. */
  lemma SplitHead(bs: seq<byte>, i: nat, x: byte, rest: seq<byte>)
    requires i + 1 + |rest| <= |bs| && bs[i..i + 1 + |rest|] == [x] + rest
    ensures bs[i] == x && bs[i + 1..i + 1 + |rest|] == rest
  {
    assert bs[i] == bs[i..i + 1 + |rest|][0];
    assert bs[i + 1..i + 1 + |rest|] == bs[i..i + 1 + |rest|][1..];
  }

  /** Splitting off the low seven bits of a number of `k + 1` varint digits leaves `k` digits. */
  lemma SevenBits(n: nat, k: nat)
    requires n < 2 * Pow128(k + 1)
    ensures n / 0x80 < 2 * Pow128(k)
    ensures n % 0x80 + 0x80 * (n / 0x80) == n
  {
    assert Pow128(k + 1) == 0x80 * Pow128(k);
  }

  /** The varint round trip, whatever follows the encoding. */
  lemma VarintRoundTrip(n: nat, rest: seq<byte>)
    requires n < 0x1_0000_0000_0000_0000
    ensures DecodeVarint(EncodeVarint(n) + rest) == Ok(n)
  {
    var bs := EncodeVarint(n) + rest;
    assert bs[0..|EncodeVarint(n)|] == EncodeVarint(n);
    assert 2 * Pow128(9) == 0x1_0000_0000_0000_0000;
    DecodeEncodeFrom(bs, 0, n);
  }

  // ---- Reading a length field -----------------------------------------------

  /**
   * How many bytes the length field starting at byte `from` takes, having
   * read `n` of them; or why it cannot be read.
   */
  function LenCount(bs: seq<byte>, from: nat, n: nat): (r: Result<nat, FrameError>)
    requires n < MAX_LEN_BYTES
    ensures r.Ok? ==> n < r.value <= MAX_LEN_BYTES && from + r.value <= |bs| && bs[from + r.value - 1] < 0x80
    ensures r.Err? ==> r.error == Eof || r.error == UnterminatedLen
    decreases |bs| - from - n
  {
    if from + n >= |bs| then Err(Eof)
    else if bs[from + n] < 0x80 then Ok(n + 1)
    else if n + 1 == MAX_LEN_BYTES then Err(UnterminatedLen)
    else LenCount(bs, from, n + 1)
  }

  /** A slice of a slice is a slice of the whole. */
  lemma SliceOfSlice(s: seq<byte>, a: nat, b: nat, c: nat, d: nat)
    requires a <= b <= |s| && c <= d <= b - a
    ensures s[a..b][c..d] == s[a + c..a + d]
  {
    assert forall i :: 0 <= i < d - c ==> s[a..b][c..d][i] == s[a + c + i];
  }

  /** A length field is read up to its first byte without the continuation bit. */
  lemma {:induction false} LenCountStops(bs: seq<byte>, from: nat, j: nat, m: nat)
    requires j < m <= MAX_LEN_BYTES && from + m <= |bs|
    requires forall i :: from + j <= i < from + m - 1 ==> bs[i] >= 0x80
    requires bs[from + m - 1] < 0x80
    ensures LenCount(bs, from, j) == Ok(m)
    decreases m - j
  {
    if j + 1 < m {
      assert bs[from + j] >= 0x80;
      LenCountStops(bs, from, j + 1, m);
    }
  }

  /** Nineteen continuation bytes are refused as an unterminated length. */
  lemma {:induction false} UnterminatedRejected(bs: seq<byte>, from: nat, n: nat)
    requires n < MAX_LEN_BYTES && from + MAX_LEN_BYTES <= |bs|
    requires forall i :: from + n <= i < from + MAX_LEN_BYTES ==> bs[i] >= 0x80
    ensures LenCount(bs, from, n) == Err(UnterminatedLen)
    decreases MAX_LEN_BYTES - n
  {
    if n + 1 < MAX_LEN_BYTES {
      UnterminatedRejected(bs, from, n + 1);
    }
  }

  /** The inner loop of `annotate`: reads the length field at `start` into the fixed buffer. */
  method ReadLenField(input: seq<byte>, start: nat, lenField: array<byte>) returns (n: nat, err: Option<FrameError>)
    requires lenField.Length == MAX_LEN_BYTES
    modifies lenField
    ensures err.Some? <==> LenCount(input, start, 0).Err?
    ensures err.Some? ==> err.value == LenCount(input, start, 0).error
    ensures err.None? ==> n == LenCount(input, start, 0).value && lenField[..n] == input[start..start + n]
  {
    n := 0;
    while true
      invariant 0 <= n < MAX_LEN_BYTES
      invariant LenCount(input, start, 0) == LenCount(input, start, n)
      invariant start + n <= |input| ==> lenField[..n] == input[start..start + n]
      decreases MAX_LEN_BYTES - n
    {
      if start + n >= |input| {
        return n, Some(Eof);
      }
      var b := input[start + n];
      lenField[n] := b;
      n := n + 1;
      assert lenField[..n] == input[start..start + n];
      if b < 0x80 {
        return n, None;
      }
      if n == MAX_LEN_BYTES {
        return n, Some(UnterminatedLen);
      }
    }
  }

  // ---- The pass -----------------------------------------------------------

  /** What the annotation does to one packet: nothing, a changed packet, or an error. */
  type Annotation = Trace.TracePacket -> Result<Option<Trace.TracePacket>, string>

  /** `annotate_packet` with the given resolvers. */
  function PacketAnnotation(reg: Registry): Annotation
    requires WellKeyed(reg)
  {
    pkt => AnnotatePacketSpec(reg, pkt)
  }

  /** The bytes written so far, and the error that stopped the pass, if any. */
  datatype Outcome = Outcome(written: seq<byte>, error: Option<FrameError>)

  /**
   * The head of the record at byte `pos`: checks the tag and reads the
   * length field; gives the length field's size and the payload length,
   * both within the input.
   */
  function Header(input: seq<byte>, pos: nat): (r: Result<(nat, nat), FrameError>)
    requires pos < |input|
    ensures r.Ok? ==> 0 < r.value.0 && 0 < r.value.1 && pos + 1 + r.value.0 + r.value.1 <= |input|
  {
    if input[pos] != TAG then Err(BadTag(input[pos]))
    else
      match LenCount(input, pos + 1, 0)
      case Err(e) => Err(e)
      case Ok(k) =>
        match DecodeAt(input, pos + 1, k, 0)
        case Err(e) => Err(e)
        case Ok(len) =>
          if len == 0 then Err(ZeroLen)
          else if pos + 1 + k + len > |input| then Err(Eof)
          else Ok((k, len))
  }

  /** What is written for a record with the given length field and payload: a copy, or the changed packet framed afresh. */
  function RecordOut(annotate: Annotation, codec: Codec, lenBytes: seq<byte>, payload: seq<byte>): (r: Result<seq<byte>, FrameError>)
    ensures r.Ok? ==> r.value != [] && r.value[0] == TAG
  {
    match codec.decode(payload)
    case Err(msg) => Err(DecodeFailed(msg))
    case Ok(pkt) =>
      match annotate(pkt)
      case Err(msg) => Err(AnnotateFailed(msg))
      case Ok(None) => Ok([TAG] + lenBytes + payload)
      case Ok(Some(p)) => Ok([TAG] + EncodeDelimited(codec, p))
  }

  /**
   * The record at byte `pos`: how many bytes it takes and the bytes written
   * for it, or the error that stops the pass there.
   */
  function NextRecord(annotate: Annotation, codec: Codec, input: seq<byte>, pos: nat): (r: Result<(nat, seq<byte>), FrameError>)
    requires pos < |input|
    ensures r.Ok? ==> 0 < r.value.0 && pos + r.value.0 <= |input| && r.value.1 != [] && r.value.1[0] == TAG
  {
    match Header(input, pos)
    case Err(e) => Err(e)
    case Ok((k, len)) =>
      match RecordOut(annotate, codec, input[pos + 1..pos + 1 + k], input[pos + 1 + k..pos + 1 + k + len])
      case Err(e) => Err(e)
      case Ok(record) => Ok((1 + k + len, record))
  }

  /** Reads one record at a position: its size and the bytes to write for it, or the error that stops the pass. */
  type Reader = (seq<byte>, nat) -> Result<(nat, seq<byte>), FrameError>

  /** A reader that, inside the input, only ever accepts a record that is not empty and fits. */
  ghost predicate Advancing(next: Reader)
  {
    forall input: seq<byte>, pos: nat {:trigger next(input, pos)} ::
      pos < |input| && next(input, pos).Ok? ==> 0 < next(input, pos).value.0 && pos + next(input, pos).value.0 <= |input|
  }

  /** The loop of the pass: record after record from byte `pos` on, having written `written`, up to the end or the first error. */
  function Run(next: Reader, input: seq<byte>, pos: nat, written: seq<byte>): Outcome
    requires Advancing(next) && pos <= |input|
    decreases |input| - pos
  {
    if pos == |input| then Outcome(written, None)
    else
      match next(input, pos)
      case Err(e) => Outcome(written, Some(e))
      case Ok((n, record)) => Run(next, input, pos + n, written + record)
  }

  /** The reader of the pass: the record at each position, annotated. */
  function RecordReader(annotate: Annotation, codec: Codec): (next: Reader)
    ensures Advancing(next)
  {
    (input: seq<byte>, pos: nat) => if pos < |input| then NextRecord(annotate, codec, input, pos) else Err(Eof)
  }

  /** What the pass does with a whole trace file. */
  function Rewrite(annotate: Annotation, codec: Codec, input: seq<byte>): Outcome
  {
    Run(RecordReader(annotate, codec), input, 0, [])
  }

  /** The head of the record at `pos`: its tag and its length field, copied into the fixed buffer. */
  method ReadHeader(input: seq<byte>, pos: nat, lenField: array<byte>) returns (r: Result<(nat, nat), FrameError>)
    requires pos < |input| && lenField.Length == MAX_LEN_BYTES
    modifies lenField
    ensures r == Header(input, pos)
    ensures r.Ok? ==> lenField[..r.value.0] == input[pos + 1..pos + 1 + r.value.0]
  {
    var tag := input[pos];
    if tag != TAG {
      return Err(BadTag(tag));
    }
    var k, err := ReadLenField(input, pos + 1, lenField);
    if err.Some? {
      return Err(err.value);
    }
    var lenBytes := lenField[..k];
    var decoded := DecodeVarint(lenBytes);
    DecodeShift(lenBytes, input, pos + 1, 0);
    if decoded.Err? {
      return Err(decoded.error);
    }
    var len := decoded.value;
    if len == 0 {
      return Err(ZeroLen);
    }
    if pos + 1 + k + len > |input| {
      return Err(Eof);
    }
    return Ok((k, len));
  }

  /** Decodes the payload, annotates the packet, and gives the bytes to write for the record. */
  method WriteRecord(annotate: Annotation, codec: Codec, lenBytes: seq<byte>, payload: seq<byte>) returns (r: Result<seq<byte>, FrameError>)
    ensures r == RecordOut(annotate, codec, lenBytes, payload)
  {
    var pkt := codec.decode(payload);
    if pkt.Err? {
      return Err(DecodeFailed(pkt.error));
    }
    var transformed := annotate(pkt.value);
    if transformed.Err? {
      return Err(AnnotateFailed(transformed.error));
    }
    if transformed.value.Some? {
      r := Ok([TAG] + EncodeDelimited(codec, transformed.value.value));
    } else {
      r := Ok([TAG] + lenBytes + payload);
    }
  }

  /** Reads the record at `pos` and works out what to write for it. */
  method ReadRecord(annotate: Annotation, codec: Codec, input: seq<byte>, pos: nat, lenField: array<byte>)
    returns (r: Result<(nat, seq<byte>), FrameError>)
    requires pos < |input| && lenField.Length == MAX_LEN_BYTES
    modifies lenField
    ensures r == NextRecord(annotate, codec, input, pos)
  {
    var h := ReadHeader(input, pos, lenField);
    if h.Err? {
      return Err(h.error);
    }
    var (k, len) := h.value;
    var lenBytes := lenField[..k];
    assert lenBytes == input[pos + 1..pos + 1 + k];
    var payload := input[pos + 1 + k..pos + 1 + k + len];
    var out := WriteRecord(annotate, codec, lenBytes, payload);
    assert Header(input, pos) == Ok((k, len));
    if out.Err? {
      return Err(out.error);
    }
    return Ok((1 + k + len, out.value));
  }

  /** The framing loop of `annotate`, from the first byte of the input to the end or the first error. */
  method AnnotateTrace(annotate: Annotation, codec: Codec, input: seq<byte>) returns (written: seq<byte>, error: Option<FrameError>)
    ensures Outcome(written, error) == Rewrite(annotate, codec, input)
  {
    ghost var next := RecordReader(annotate, codec);
    written := [];
    var pos := 0;
    var lenField := new byte[MAX_LEN_BYTES](i => 0);
    while pos < |input|
      invariant pos <= |input|
      invariant Rewrite(annotate, codec, input) == Run(next, input, pos, written)
      decreases |input| - pos
    {
      var r := ReadRecord(annotate, codec, input, pos, lenField);
      assert next(input, pos) == r;
      if r.Err? {
        return written, Some(r.error);
      }
      written := written + r.value.1;
      pos := pos + r.value.0;
    }
    return written, None;
  }

  /** `annotate` on a trace file: the framing loop with the packet visitor of the given resolvers. */
  method AnnotateFile(reg: Registry, codec: Codec, input: seq<byte>) returns (written: seq<byte>, error: Option<FrameError>)
    requires WellKeyed(reg)
    ensures Outcome(written, error) == Rewrite(PacketAnnotation(reg), codec, input)
  {
    written, error := AnnotateTrace(PacketAnnotation(reg), codec, input);
  }

  // ---- What the pass promises ---------------------------------------------

  /** One record as the writer lays it out: the tag, the payload length, the payload. */
  function Frame(payload: seq<byte>): seq<byte>
  {
    [TAG] + EncodeVarint(|payload|) + payload
  }

  /** An empty trace is rewritten to an empty trace. */
  lemma EmptyTrace(annotate: Annotation, codec: Codec)
    ensures Rewrite(annotate, codec, []) == Outcome([], None)
  {
  }

  /** A first byte other than the tag stops the pass before anything is written. */
  lemma BadFirstTag(annotate: Annotation, codec: Codec, input: seq<byte>)
    requires input != [] && input[0] != TAG
    ensures Rewrite(annotate, codec, input) == Outcome([], Some(BadTag(input[0])))
  {
    assert RecordReader(annotate, codec)(input, 0) == Err(BadTag(input[0]));
  }

  /** A length field of zero is an error wherever it occurs, even when the rest of the file is well formed. */
  lemma ZeroLengthRejected(annotate: Annotation, codec: Codec, input: seq<byte>, pos: nat, written: seq<byte>)
    requires pos + 2 <= |input| && input[pos] == TAG && input[pos + 1] == 0
    ensures Run(RecordReader(annotate, codec), input, pos, written) == Outcome(written, Some(ZeroLen))
  {
    assert Header(input, pos) == Err(ZeroLen);
    assert RecordReader(annotate, codec)(input, pos) == Err(ZeroLen);
  }

  /** The length field of a well-framed record is read back as the payload's length. */
  lemma FramedLength(payload: seq<byte>, bs: seq<byte>, from: nat)
    requires 0 < |payload| < 0x1_0000_0000_0000_0000
    requires from + |EncodeVarint(|payload|)| <= |bs|
    requires bs[from..from + |EncodeVarint(|payload|)|] == EncodeVarint(|payload|)
    ensures LenCount(bs, from, 0) == Ok(|EncodeVarint(|payload|)|)
    ensures DecodeAt(bs, from, |EncodeVarint(|payload|)|, 0) == Ok(|payload|)
  {
    var e := EncodeVarint(|payload|);
    var m := |e|;
    EncodeAtMostTen(|payload|);
    EncodingShape(|payload|);
    forall i | from <= i < from + m
      ensures bs[i] == e[i - from]
    {
      assert bs[from..from + m][i - from] == bs[i];
    }
    LenCountStops(bs, from, 0, m);
    VarintRoundTrip(|payload|, []);
    assert e + [] == e;
    DecodeShift(e, bs, from, 0);
  }

  /** A record laid out at `pos` as the tag, `lenBytes` and `payload` can be cut back into those parts. */
  lemma RecordParts(input: seq<byte>, pos: nat, lenBytes: seq<byte>, payload: seq<byte>)
    requires pos + 1 + |lenBytes| + |payload| <= |input|
    requires input[pos..pos + 1 + |lenBytes| + |payload|] == [TAG] + lenBytes + payload
    ensures input[pos] == TAG
    ensures input[pos + 1..pos + 1 + |lenBytes|] == lenBytes
    ensures input[pos + 1 + |lenBytes|..pos + 1 + |lenBytes| + |payload|] == payload
  {
    var k := |lenBytes|;
    var size := 1 + k + |payload|;
    var f := input[pos..pos + size];
    assert input[pos] == f[0];
    SliceOfSlice(input, pos, pos + size, 1, 1 + k);
    assert f[1..1 + k] == lenBytes;
    SliceOfSlice(input, pos, pos + size, 1 + k, size);
    assert f[1 + k..size] == payload;
  }

  /** The head of a well-framed record at `pos`: the length field the writer put there, and the payload's length. */
  lemma FramedHeader(input: seq<byte>, pos: nat, payload: seq<byte>)
    requires 0 < |payload| < 0x1_0000_0000_0000_0000
    requires pos + |Frame(payload)| <= |input| && input[pos..pos + |Frame(payload)|] == Frame(payload)
    ensures var k := |EncodeVarint(|payload|)|;
            && Header(input, pos) == Ok((k, |payload|))
            && input[pos + 1..pos + 1 + k] == EncodeVarint(|payload|)
            && input[pos + 1 + k..pos + 1 + k + |payload|] == payload
  {
    RecordParts(input, pos, EncodeVarint(|payload|), payload);
    FramedLength(payload, input, pos + 1);
  }

  /** The outcome of a record holding `payload`. */
  function RecordFor(annotate: Annotation, codec: Codec, payload: seq<byte>): Result<(nat, seq<byte>), FrameError>
  {
    var size := |Frame(payload)|;
    match codec.decode(payload)
    case Err(msg) => Err(DecodeFailed(msg))
    case Ok(pkt) =>
      match annotate(pkt)
      case Err(msg) => Err(AnnotateFailed(msg))
      case Ok(None) => Ok((size, Frame(payload)))
      case Ok(Some(p)) => Ok((size, Frame(codec.encode(p))))
  }

  /** The bytes written for a record read as the writer framed it. */
  lemma RecordOutOfFrame(annotate: Annotation, codec: Codec, payload: seq<byte>)
    ensures var size := |Frame(payload)|;
            RecordFor(annotate, codec, payload)
            == match RecordOut(annotate, codec, EncodeVarint(|payload|), payload)
               case Err(e) => Err(e)
               case Ok(record) => Ok((size, record))
  {
    var e := EncodeVarint(|payload|);
    assert [TAG] + e + payload == Frame(payload);
    forall p: Trace.TracePacket
      ensures [TAG] + EncodeDelimited(codec, p) == Frame(codec.encode(p))
    {
    }
  }

  /** What the pass writes for a well-framed record depends only on its payload. */
  lemma FramedRecordRead(annotate: Annotation, codec: Codec, input: seq<byte>, pos: nat, payload: seq<byte>)
    requires 0 < |payload| < 0x1_0000_0000_0000_0000
    requires pos + |Frame(payload)| <= |input| && input[pos..pos + |Frame(payload)|] == Frame(payload)
    ensures NextRecord(annotate, codec, input, pos) == RecordFor(annotate, codec, payload)
    ensures RecordReader(annotate, codec)(input, pos) == RecordFor(annotate, codec, payload)
  {
    var e := EncodeVarint(|payload|);
    var k := |e|;
    FramedHeader(input, pos, payload);
    assert 1 + k + |payload| == |Frame(payload)|;
    var out := RecordOut(annotate, codec, e, payload);
    assert NextRecord(annotate, codec, input, pos) == if out.Err? then Err(out.error) else Ok((1 + k + |payload|, out.value));
    RecordOutOfFrame(annotate, codec, payload);
  }

  /** A payload the pass can copy: it fits a length field, decodes, and is left alone by the annotation. */
  predicate Copied(annotate: Annotation, codec: Codec, payload: seq<byte>)
  {
    && 0 < |payload| < 0x1_0000_0000_0000_0000
    && codec.decode(payload).Ok?
    && annotate(codec.decode(payload).value) == Ok(None)
  }

  /** A record whose packet the annotation leaves alone is copied unchanged: tag, original length bytes, original payload. */
  lemma UnchangedRecordCopied(annotate: Annotation, codec: Codec, input: seq<byte>, pos: nat, payload: seq<byte>)
    requires Copied(annotate, codec, payload)
    requires pos + |Frame(payload)| <= |input| && input[pos..pos + |Frame(payload)|] == Frame(payload)
    ensures RecordReader(annotate, codec)(input, pos) == Ok((|Frame(payload)|, Frame(payload)))
  {
    FramedRecordRead(annotate, codec, input, pos, payload);
    assert RecordFor(annotate, codec, payload) == Ok((|Frame(payload)|, Frame(payload)));
  }

  /** A record whose packet the annotation changes is replaced by a fresh record holding the new packet. */
  lemma ChangedRecordReframed(annotate: Annotation, codec: Codec, input: seq<byte>, pos: nat, payload: seq<byte>)
    requires 0 < |payload| < 0x1_0000_0000_0000_0000
    requires pos + |Frame(payload)| <= |input| && input[pos..pos + |Frame(payload)|] == Frame(payload)
    requires codec.decode(payload).Ok?
    requires var r := annotate(codec.decode(payload).value); r.Ok? && r.value.Some?
    ensures var p := annotate(codec.decode(payload).value).value.value;
            RecordReader(annotate, codec)(input, pos) == Ok((|Frame(payload)|, Frame(codec.encode(p))))
  {
    FramedRecordRead(annotate, codec, input, pos, payload);
    var p := annotate(codec.decode(payload).value).value.value;
    assert RecordFor(annotate, codec, payload) == Ok((|Frame(payload)|, Frame(codec.encode(p))));
  }

  /** Whatever a reader does, the pass only appends: what was written before stays a prefix of the output. */
  lemma {:induction false} RunAppends(next: Reader, input: seq<byte>, pos: nat, written: seq<byte>)
    requires Advancing(next) && pos <= |input|
    ensures written <= Run(next, input, pos, written).written
    decreases |input| - pos
  {
    if pos < |input| {
      match next(input, pos)
      case Err(_) =>
      case Ok((n, record)) =>
        RunAppends(next, input, pos + n, written + record);
    }
  }

  /** The records one after another. */
  function Concat(frames: seq<seq<byte>>): seq<byte>
  {
    if frames == [] then [] else frames[0] + Concat(frames[1..])
  }

  /** The reader hands back each of `frames`, in order from `pos`, as a record to write unchanged. */
  ghost predicate Echoes(next: Reader, input: seq<byte>, pos: nat, frames: seq<seq<byte>>)
    decreases |frames|
  {
    frames == [] || (next(input, pos) == Ok((|frames[0]|, frames[0])) && Echoes(next, input, pos + |frames[0]|, frames[1..]))
  }

  /** A suffix made of two parts: the first part sits right at `pos`, the second right after it. */
  lemma SplitSuffix(input: seq<byte>, pos: nat, a: seq<byte>, b: seq<byte>)
    requires pos <= |input| && input[pos..] == a + b
    ensures pos + |a| <= |input|
    ensures input[pos..pos + |a|] == a
    ensures input[pos + |a|..] == b
  {
    assert input[pos..pos + |a|] == input[pos..][..|a|];
    assert input[pos + |a|..] == input[pos..][|a|..];
  }

  /** When the reader echoes every record of the rest of the input, the pass copies it to the end without error. */
  lemma {:induction false} RunEchoes(next: Reader, input: seq<byte>, pos: nat, frames: seq<seq<byte>>, written: seq<byte>)
    requires Advancing(next) && pos <= |input| && input[pos..] == Concat(frames)
    requires forall i :: 0 <= i < |frames| ==> frames[i] != []
    requires Echoes(next, input, pos, frames)
    ensures Run(next, input, pos, written) == Outcome(written + Concat(frames), None)
    decreases |frames|
  {
    if frames == [] {
      assert written + [] == written;
    } else {
      var f, tail := frames[0], frames[1..];
      assert Concat(frames) == f + Concat(tail);
      SplitSuffix(input, pos, f, Concat(tail));
      RunEchoes(next, input, pos + |f|, tail, written + f);
      assert written + f + Concat(tail) == written + (f + Concat(tail));
    }
  }

  /** Each payload framed as the writer frames it. */
  function Frames(payloads: seq<seq<byte>>): (frames: seq<seq<byte>>)
    ensures |frames| == |payloads|
    ensures forall i :: 0 <= i < |payloads| ==> frames[i] == Frame(payloads[i])
  {
    seq(|payloads|, i requires 0 <= i < |payloads| => Frame(payloads[i]))
  }

  /** A trace made of the given payloads, each framed. */
  function Stream(payloads: seq<seq<byte>>): seq<byte>
  {
    Concat(Frames(payloads))
  }

  /** A reader that reads every well-framed record of `input` whose payload the pass can copy as that record, unchanged. */
  ghost predicate CopiesFramed(next: Reader, annotate: Annotation, codec: Codec, input: seq<byte>)
  {
    forall at: nat, payload: seq<byte> ::
      Copied(annotate, codec, payload) && at + |Frame(payload)| <= |input| && input[at..at + |Frame(payload)|] == Frame(payload)
      ==> next(input, at) == Ok((|Frame(payload)|, Frame(payload)))
  }

  /** Such a reader echoes every record of a well-framed stretch of payloads the pass can copy. */
  lemma {:induction false} FramedEchoes(next: Reader, annotate: Annotation, codec: Codec, input: seq<byte>, pos: nat, payloads: seq<seq<byte>>)
    requires CopiesFramed(next, annotate, codec, input)
    requires pos <= |input| && input[pos..] == Stream(payloads)
    requires forall i :: 0 <= i < |payloads| ==> Copied(annotate, codec, payloads[i])
    ensures Echoes(next, input, pos, Frames(payloads))
    decreases |payloads|
  {
    if payloads != [] {
      var head, tail := payloads[0], payloads[1..];
      var frames := Frames(payloads);
      assert frames[1..] == Frames(tail);
      assert Stream(payloads) == Frame(head) + Stream(tail);
      SplitSuffix(input, pos, Frame(head), Stream(tail));
      assert Copied(annotate, codec, head);
      FramedEchoes(next, annotate, codec, input, pos + |Frame(head)|, tail);
    }
  }

  /** The pass's own reader reads every well-framed record it can copy as itself. */
  lemma RecordReaderCopies(annotate: Annotation, codec: Codec, input: seq<byte>)
    ensures CopiesFramed(RecordReader(annotate, codec), annotate, codec, input)
  {
    forall at: nat, payload: seq<byte> |
      Copied(annotate, codec, payload) && at + |Frame(payload)| <= |input| && input[at..at + |Frame(payload)|] == Frame(payload)
      ensures RecordReader(annotate, codec)(input, at) == Ok((|Frame(payload)|, Frame(payload)))
    {
      UnchangedRecordCopied(annotate, codec, input, at, payload);
    }
  }

  /** When no packet is changed, the pass writes back exactly the trace it read. */
  lemma UnannotatedTraceEchoed(annotate: Annotation, codec: Codec, payloads: seq<seq<byte>>)
    requires forall i :: 0 <= i < |payloads| ==> Copied(annotate, codec, payloads[i])
    ensures Rewrite(annotate, codec, Stream(payloads)) == Outcome(Stream(payloads), None)
  {
    var input := Stream(payloads);
    var next := RecordReader(annotate, codec);
    assert input[0..] == input;
    RecordReaderCopies(annotate, codec, input);
    FramedEchoes(next, annotate, codec, input, 0, payloads);
    RunEchoes(next, input, 0, Frames(payloads), []);
    assert [] + input == input;
  }

  /** Without resolvers, every well-framed trace of decodable packets is copied unchanged. */
  lemma NoResolversEchoTrace(codec: Codec, payloads: seq<seq<byte>>)
    requires forall i :: 0 <= i < |payloads| ==>
               0 < |payloads[i]| < 0x1_0000_0000_0000_0000 && codec.decode(payloads[i]).Ok?
    ensures Rewrite(PacketAnnotation(map[]), codec, Stream(payloads)) == Outcome(Stream(payloads), None)
  {
    var none := PacketAnnotation(map[]);
    forall i | 0 <= i < |payloads|
      ensures Copied(none, codec, payloads[i])
    {
      EmptyRegistryKeepsPackets(codec.decode(payloads[i]).value);
    }
    UnannotatedTraceEchoed(none, codec, payloads);
  }
}
