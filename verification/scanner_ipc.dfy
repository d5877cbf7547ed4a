/** The frame that carries a scanner's result over a pipe, and the reader that
    assembles it from chunks. */
module ScannerIpc {
  import opened Basics
  import opened Binary

  const MAGIC_TEXT: string := "OUTSCAN:SCANNER_RESULT:v1\0"
  const MAGIC_BYTES := 26
  const HEADER_BYTES := 30
  const MAX_PAYLOAD_BYTES := 33_554_432
  const MAX_CHUNKS := 4_096

  datatype ReadResult =
    | Frame(payload: Bytes)
    | InvalidContext
    | Aborted
    | TimedOut
    | StreamError
    | InvalidFrame
    | OutputTooLarge
    | TooFragmented

  datatype EncodeResult = Encoded(frame: Bytes) | BadContext | PayloadTooLarge

  predicate ValidLimit(max: int) {
    0 < max <= MAX_PAYLOAD_BYTES
  }

  function Magic(): (m: Bytes)
    ensures |m| == MAGIC_BYTES
  {
    Ascii(MAGIC_TEXT)
  }

  function FrameOf(payload: Bytes): (frame: Bytes)
    requires |payload| <= UINT32_MAX
    ensures |frame| == HEADER_BYTES + |payload|
  {
    Magic() + U32be(|payload|) + payload
  }

  function Encode(payload: Bytes, max: int): EncodeResult {
    if !ValidLimit(max) then BadContext
    else if |payload| == 0 || |payload| > max then PayloadTooLarge
    else Encoded(FrameOf(payload))
  }

  /** When a payload is encoded, and why it is not. */
  lemma EncodeAnswers(payload: Bytes, max: int)
    ensures Encode(payload, max) == BadContext <==> !(1 <= max <= 33_554_432)
    ensures Encode(payload, max) == PayloadTooLarge <==> 1 <= max <= 33_554_432 && !(1 <= |payload| <= max)
    ensures Encode(payload, max).Encoded? ==> Encode(payload, max).frame == FrameOf(payload)
  {
    hide FrameOf;
  }

  // ---- what a byte stream means -------------------------------------------

  function DeclaredLength(stream: Bytes): int
    requires |stream| >= HEADER_BYTES
  {
    ReadU32be(stream[MAGIC_BYTES..HEADER_BYTES])
  }

  /** The failure that a prefix of the stream already decides, if any. */
  function Rejected(stream: Bytes, max: int): Option<ReadResult> {
    if |stream| < HEADER_BYTES then None
    else if stream[..MAGIC_BYTES] != Magic() || DeclaredLength(stream) == 0 then Some(InvalidFrame)
    else if DeclaredLength(stream) > max then Some(OutputTooLarge)
    else if |stream| > HEADER_BYTES + DeclaredLength(stream) then Some(InvalidFrame)
    else None
  }

  /** The result of reading a stream that ended. */
  function Classify(stream: Bytes, max: int): ReadResult {
    match Rejected(stream, max)
    case Some(failure) => failure
    case None =>
      if |stream| >= HEADER_BYTES && |stream| == HEADER_BYTES + DeclaredLength(stream)
      then Frame(stream[HEADER_BYTES..]) else InvalidFrame
  }

  lemma FrameFields(payload: Bytes)
    requires |payload| <= UINT32_MAX
    ensures FrameOf(payload)[..MAGIC_BYTES] == Magic()
    ensures DeclaredLength(FrameOf(payload)) == |payload|
    ensures FrameOf(payload)[HEADER_BYTES..] == payload
  {
    U32RoundTrip(|payload|);
    assert FrameOf(payload)[MAGIC_BYTES..HEADER_BYTES] == U32be(|payload|);
  }

  /** Reading succeeds with a payload exactly on the frame encoded from it. */
  lemma FrameRoundTrip(stream: Bytes, payload: Bytes, max: int)
    requires ValidLimit(max)
    ensures Classify(stream, max) == Frame(payload) <==> Encode(payload, max) == Encoded(stream)
  {
    if Classify(stream, max) == Frame(payload) {
      U32Inverse(stream[MAGIC_BYTES..HEADER_BYTES]);
      assert stream == stream[..MAGIC_BYTES] + stream[MAGIC_BYTES..HEADER_BYTES] + stream[HEADER_BYTES..];
    }
    if Encode(payload, max) == Encoded(stream) {
      FrameFields(payload);
    }
  }

  /** A failure, once decided, is not undone by the rest of the stream. */
  lemma RejectedForGood(stream: Bytes, rest: Bytes, max: int)
    requires Rejected(stream, max).Some?
    ensures Rejected(stream + rest, max) == Rejected(stream, max)
  {
    assert (stream + rest)[..MAGIC_BYTES] == stream[..MAGIC_BYTES];
    assert (stream + rest)[MAGIC_BYTES..HEADER_BYTES] == stream[MAGIC_BYTES..HEADER_BYTES];
  }

  // ---- reading chunk by chunk ---------------------------------------------

  /** What waiting for the next chunk can give; the source ends after its last. */
  datatype Next = Chunk(data: Bytes) | NotBytes | AbortSignalled | DeadlinePassed | SourceFailed

  /** The outcome after `count` chunks that together were `stream`. */
  function Outcome(items: seq<Next>, stream: Bytes, count: nat, max: int): ReadResult
    decreases |items|
  {
    if items == [] then Classify(stream, max)
    else
      match items[0]
      case AbortSignalled => Aborted
      case DeadlinePassed => TimedOut
      case SourceFailed => StreamError
      case NotBytes => if count + 1 > MAX_CHUNKS then TooFragmented else StreamError
      case Chunk(data) =>
        if count + 1 > MAX_CHUNKS then TooFragmented
        else if Rejected(stream + data, max).Some? then Rejected(stream + data, max).value
        else Outcome(items[1..], stream + data, count + 1, max)
  }

  predicate OnlyChunks(items: seq<Next>) {
    forall i | 0 <= i < |items| :: items[i].Chunk?
  }

  function Concat(items: seq<Next>): Bytes
    requires OnlyChunks(items)
  {
    if items == [] then [] else items[0].data + Concat(items[1..])
  }

  lemma {:induction false} OutcomeOfChunks(items: seq<Next>, stream: Bytes, count: nat, max: int)
    requires OnlyChunks(items) && Rejected(stream, max).None?
    ensures count + |items| <= MAX_CHUNKS ==>
              Outcome(items, stream, count, max) == Classify(stream + Concat(items), max)
    ensures count <= MAX_CHUNKS < count + |items| ==>
              var read := stream + Concat(items[..MAX_CHUNKS - count]);
              Outcome(items, stream, count, max)
              == (if Rejected(read, max).Some? then Rejected(read, max).value else TooFragmented)
    decreases |items|
  {
    hide Rejected, Classify;
    if items == [] {
      assert stream + Concat(items) == stream;
    } else {
      var data := items[0].data;
      var rest := items[1..];
      assert stream + Concat(items) == (stream + data) + Concat(rest);
      if count + 1 <= MAX_CHUNKS {
        var taken := items[..if |items| <= MAX_CHUNKS - count then |items| else MAX_CHUNKS - count];
        assert taken[0] == items[0] && taken[1..] == rest[..|taken| - 1];
        assert stream + Concat(taken) == (stream + data) + Concat(taken[1..]);
        if Rejected(stream + data, max).Some? {
          RejectedForGood(stream + data, Concat(rest), max);
          RejectedForGood(stream + data, Concat(taken[1..]), max);
          RejectedDecides((stream + data) + Concat(rest), max);
        } else {
          OutcomeOfChunks(rest, stream + data, count + 1, max);
        }
      } else if count == MAX_CHUNKS {
        assert items[..MAX_CHUNKS - count] == [];
        assert stream + Concat([]) == stream;
      }
    }
  }

  lemma RejectedDecides(stream: Bytes, max: int)
    requires Rejected(stream, max).Some?
    ensures Classify(stream, max) == Rejected(stream, max).value
  {
  }

  /** However a stream is cut into at most 4,096 chunks, empty ones included, the
      result and the failure code depend on the bytes alone. */
  lemma ChunkingIndependence(items: seq<Next>, others: seq<Next>, max: int)
    requires OnlyChunks(items) && OnlyChunks(others) && Concat(items) == Concat(others)
    requires |items| <= MAX_CHUNKS && |others| <= MAX_CHUNKS
    ensures Outcome(items, [], 0, max) == Outcome(others, [], 0, max) == Classify(Concat(items), max)
  {
    OutcomeOfChunks(items, [], 0, max);
    OutcomeOfChunks(others, [], 0, max);
    assert [] + Concat(items) == Concat(items);
  }

  /** One chunk more than 4,096 is an error of its own, unless the first 4,096
      already held one. */
  lemma TooManyChunks(items: seq<Next>, max: int)
    requires OnlyChunks(items) && |items| > MAX_CHUNKS
    ensures var read := Concat(items[..MAX_CHUNKS]);
            Outcome(items, [], 0, max) == (if Rejected(read, max).Some? then Rejected(read, max).value else TooFragmented)
  {
    OutcomeOfChunks(items, [], 0, max);
    assert [] + Concat(items[..MAX_CHUNKS]) == Concat(items[..MAX_CHUNKS]);
  }

  /** Whatever was encoded is read back, however it is cut. */
  lemma ReadsBack(items: seq<Next>, payload: Bytes, max: int)
    requires OnlyChunks(items) && |items| <= MAX_CHUNKS && ValidLimit(max)
    ensures Outcome(items, [], 0, max) == Frame(payload) <==> Encode(payload, max) == Encoded(Concat(items))
  {
    ChunkingIndependence(items, items, max);
    FrameRoundTrip(Concat(items), payload, max);
  }

  // ---- the reader ---------------------------------------------------------

  /** `chunk.copy(buffer, at, from, from + count)`. */
  method CopyInto(chunk: Bytes, buffer: array<Byte>, at: nat, from: nat, count: nat)
    requires from + count <= |chunk| && at + count <= buffer.Length
    modifies buffer
    ensures forall k | 0 <= k < buffer.Length ::
              buffer[k] == if at <= k < at + count then chunk[from + (k - at)] else old(buffer[k])
  {
    for i := 0 to count
      invariant forall k | 0 <= k < buffer.Length ::
                  buffer[k] == if at <= k < at + i then chunk[from + (k - at)] else old(buffer[k])
    {
      buffer[at + i] := chunk[from + i];
    }
  }

  /** What the buffers hold after the chunks read so far. */
  ghost predicate Holds(stream: Bytes, header: array<Byte>, headerOffset: nat, payload: array?<Byte>,
                        payloadOffset: nat)
    reads header, payload
  {
    && header.Length == HEADER_BYTES
    && headerOffset == Min(|stream|, HEADER_BYTES)
    && header[..headerOffset] == stream[..headerOffset]
    && (payload == null <==> headerOffset < HEADER_BYTES)
    && (payload == null ==> payloadOffset == 0)
    && (payload != null ==>
          && payloadOffset == |stream| - HEADER_BYTES
          && payload.Length == DeclaredLength(stream)
          && payloadOffset <= payload.Length
          && payload[..payloadOffset] == stream[HEADER_BYTES..])
  }

  lemma HeaderDecides(stream: Bytes, header: Bytes, max: int)
    requires |header| == HEADER_BYTES <= |stream| && stream[..HEADER_BYTES] == header
    ensures stream[..MAGIC_BYTES] == header[..MAGIC_BYTES]
    ensures DeclaredLength(stream) == ReadU32be(header[MAGIC_BYTES..])
  {
    assert stream[..MAGIC_BYTES] == stream[..HEADER_BYTES][..MAGIC_BYTES];
    assert stream[MAGIC_BYTES..HEADER_BYTES] == stream[..HEADER_BYTES][MAGIC_BYTES..];
  }

  /** The part of a chunk that still belongs to the header. */
  method FillHeader(chunk: Bytes, header: array<Byte>, at: nat, ghost stream: Bytes) returns (count: nat)
    requires at == |stream| < HEADER_BYTES == header.Length && header[..at] == stream
    modifies header
    ensures count == Min(HEADER_BYTES - at, |chunk|)
    ensures header[..at + count] == (stream + chunk)[..at + count]
  {
    count := Min(HEADER_BYTES - at, |chunk|);
    CopyInto(chunk, header, at, 0, count);
    assert header[..at + count] == stream + chunk[..count];
  }

  /** The part of a chunk that the payload still has room for. */
  method FillPayload(chunk: Bytes, offset: nat, payload: array<Byte>, at: nat, ghost read: Bytes) returns (count: nat)
    requires offset <= |chunk| && at == |read| <= payload.Length && payload[..at] == read
    modifies payload
    ensures count == Min(payload.Length - at, |chunk| - offset)
    ensures payload[..at + count] == read + chunk[offset..offset + count]
  {
    count := Min(payload.Length - at, |chunk| - offset);
    CopyInto(chunk, payload, at, offset, count);
    assert payload[..at + count] == read + chunk[offset..offset + count];
  }

  /** The outcome from the next item on. */
  lemma OutcomeNext(source: seq<Next>, i: nat, stream: Bytes, max: int)
    requires i < |source|
    ensures var all := Outcome(source[i..], stream, i, max);
            match source[i]
            case AbortSignalled => all == Aborted
            case DeadlinePassed => all == TimedOut
            case SourceFailed => all == StreamError
            case NotBytes => all == (if i + 1 > MAX_CHUNKS then TooFragmented else StreamError)
            case Chunk(data) =>
              if i + 1 > MAX_CHUNKS then all == TooFragmented
              else if Rejected(stream + data, max).Some? then all == Rejected(stream + data, max).value
              else all == Outcome(source[i + 1..], stream + data, i + 1, max)
  {
    assert source[i..][1..] == source[i + 1..];
  }

  /** A stream that ended where it should, or did not. */
  lemma OutcomeAtEnd(stream: Bytes, count: nat, max: int)
    requires Rejected(stream, max).None?
    ensures Outcome([], stream, count, max)
            == (if |stream| >= HEADER_BYTES && |stream| == HEADER_BYTES + DeclaredLength(stream)
                then Frame(stream[HEADER_BYTES..]) else InvalidFrame)
  {
  }

  lemma HeaderRejects(stream: Bytes, max: int)
    requires |stream| >= HEADER_BYTES
    ensures stream[..MAGIC_BYTES] != Magic() || DeclaredLength(stream) == 0 ==> Rejected(stream, max) == Some(InvalidFrame)
    ensures stream[..MAGIC_BYTES] == Magic() && DeclaredLength(stream) > max && DeclaredLength(stream) != 0 ==>
              Rejected(stream, max) == Some(OutputTooLarge)
    ensures stream[..MAGIC_BYTES] == Magic() && 0 < DeclaredLength(stream) <= max ==>
              Rejected(stream, max) == (if |stream| > HEADER_BYTES + DeclaredLength(stream) then Some(InvalidFrame) else None)
    ensures Rejected(stream, max).None? ==> stream[..MAGIC_BYTES] == Magic() && 0 < DeclaredLength(stream) <= max
  {
  }

  lemma ShortIsNotRejected(stream: Bytes, max: int)
    requires |stream| < HEADER_BYTES
    ensures Rejected(stream, max).None?
  {
  }

  /** The header is complete: the failure it shows, or the length of the payload. */
  method ReadHeader(header: array<Byte>, max: int, ghost stream: Bytes) returns (failure: Option<ReadResult>,
                    length: nat)
    requires header.Length == HEADER_BYTES <= |stream| && header[..] == stream[..HEADER_BYTES]
    ensures failure.Some? ==> Rejected(stream, max) == failure
    ensures failure.None? ==>
              && length == DeclaredLength(stream) > 0
              && Rejected(stream, max) == (if |stream| > HEADER_BYTES + length then Some(InvalidFrame) else None)
  {
    HeaderDecides(stream, header[..], max);
    HeaderRejects(stream, max);
    length := 0;
    if header[..MAGIC_BYTES] != Magic() {
      return Some(InvalidFrame), 0;
    }
    length := ReadU32be(header[MAGIC_BYTES..]);
    if length == 0 {
      return Some(InvalidFrame), 0;
    }
    if length > max {
      return Some(OutputTooLarge), 0;
    }
    failure := None;
  }

  lemma BehindHeader(stream: Bytes, chunk: Bytes)
    requires |stream| <= HEADER_BYTES <= |stream| + |chunk|
    ensures (stream + chunk)[HEADER_BYTES..] == chunk[HEADER_BYTES - |stream|..]
  {
  }

  method ReadFrame(source: seq<Next>, max: int) returns (r: ReadResult)
    ensures !ValidLimit(max) ==> r == InvalidContext
    ensures ValidLimit(max) ==> r == Outcome(source, [], 0, max)
  {
    hide Outcome, Rejected, DeclaredLength;
    if !ValidLimit(max) {
      return InvalidContext;
    }
    var header := new Byte[HEADER_BYTES](_ => 0);
    var headerOffset: nat := 0;
    var payload: array?<Byte> := null;
    var payloadOffset: nat := 0;
    var chunks := 0;
    ghost var stream: Bytes := [];
    ShortIsNotRejected(stream, max);
    assert source[0..] == source;
    while chunks < |source|
      invariant 0 <= chunks <= |source| && chunks <= MAX_CHUNKS
      invariant fresh(header) && (payload != null ==> fresh(payload) && payload != header)
      invariant Holds(stream, header, headerOffset, payload, payloadOffset)
      invariant Rejected(stream, max).None?
      invariant Outcome(source, [], 0, max) == Outcome(source[chunks..], stream, chunks, max)
      decreases |source| - chunks
    {
      var next := source[chunks];
      OutcomeNext(source, chunks, stream, max);
      match next {
        case AbortSignalled => return Aborted;
        case DeadlinePassed => return TimedOut;
        case SourceFailed => return StreamError;
        case _ =>
      }
      chunks := chunks + 1;
      if chunks > MAX_CHUNKS {
        return TooFragmented;
      }
      if next.NotBytes? {
        return StreamError;
      }
      var chunk := next.data;
      ghost var longer := stream + chunk;
      var offset: nat := 0;
      if headerOffset < HEADER_BYTES {
        offset := FillHeader(chunk, header, headerOffset, stream);
        headerOffset := headerOffset + offset;
        if headerOffset == HEADER_BYTES {
          assert longer[..HEADER_BYTES] == header[..];
          var failure, length := ReadHeader(header, max, longer);
          if failure.Some? {
            return failure.value;
          }
          payload := new Byte[length](_ => 0);
          BehindHeader(stream, chunk);
        } else {
          ShortIsNotRejected(longer, max);
        }
      } else {
        HeaderStays(stream, chunk);
        HeaderRejects(stream, max);
        HeaderRejects(longer, max);
        assert stream[HEADER_BYTES..] + chunk == longer[HEADER_BYTES..];
      }
      if payload != null {
        ghost var read := payload[..payloadOffset];
        var count := FillPayload(chunk, offset, payload, payloadOffset, read);
        payloadOffset := payloadOffset + count;
        assert read + chunk[offset..] == longer[HEADER_BYTES..];
        offset := offset + count;
      }
      if offset != |chunk| {
        return InvalidFrame;
      }
      stream := longer;
    }
    assert source[chunks..] == [];
    OutcomeAtEnd(stream, chunks, max);
    if payload == null || payloadOffset != payload.Length {
      return InvalidFrame;
    }
    assert payload[..] == stream[HEADER_BYTES..];
    return Frame(payload[..]);
  }

  lemma HeaderStays(stream: Bytes, chunk: Bytes)
    requires |stream| >= HEADER_BYTES
    ensures (stream + chunk)[..HEADER_BYTES] == stream[..HEADER_BYTES]
    ensures (stream + chunk)[..MAGIC_BYTES] == stream[..MAGIC_BYTES]
    ensures DeclaredLength(stream + chunk) == DeclaredLength(stream)
  {
    assert (stream + chunk)[MAGIC_BYTES..HEADER_BYTES] == stream[MAGIC_BYTES..HEADER_BYTES];
  }

  // ---- which failure ------------------------------------------------------

  /** The stream has a whole header of the right kind. */
  predicate HasHeader(stream: Bytes) {
    |stream| >= 30 && stream[..26] == Ascii("OUTSCAN:SCANNER_RESULT:v1\0")
  }

  /** The payload length that the header gives, most significant byte first. */
  function HeaderLength(stream: Bytes): int
    requires |stream| >= 30
  {
    stream[26] as int * 16_777_216 + stream[27] as int * 65_536 + stream[28] as int * 256 + stream[29] as int
  }

  lemma HeaderLengthIsDeclared(stream: Bytes)
    requires |stream| >= 30
    ensures HeaderLength(stream) == DeclaredLength(stream)
  {
  }

  /** A stream that ends is a frame, too large by its header, or invalid, exactly
      when header, declared length and size say so. */
  lemma StreamMeans(stream: Bytes, max: int)
    requires ValidLimit(max)
    ensures Classify(stream, max) == OutputTooLarge <==> HasHeader(stream) && HeaderLength(stream) > max
    ensures Classify(stream, max).Frame? <==>
              HasHeader(stream) && 0 < HeaderLength(stream) <= max && |stream| == 30 + HeaderLength(stream)
    ensures Classify(stream, max).Frame? ==> Classify(stream, max).payload == stream[30..]
    ensures Classify(stream, max) == InvalidFrame <==>
              !HasHeader(stream) || HeaderLength(stream) == 0
              || (HeaderLength(stream) <= max && |stream| != 30 + HeaderLength(stream))
  {
    hide ReadU32be;
    if |stream| >= 30 {
      HeaderLengthIsDeclared(stream);
    }
  }

  /** What the source gave instead of a chunk ends the reading with its own code,
      unless the chunks before it already hold a failure. */
  lemma {:induction false} Interrupted(items: seq<Next>, k: nat, stream: Bytes, count: nat, max: int)
    requires k < |items| && count + k < 4_096 && OnlyChunks(items[..k]) && !items[k].Chunk?
    requires Rejected(stream, max).None?
    ensures var read := stream + Concat(items[..k]);
            Outcome(items, stream, count, max)
            == if Rejected(read, max).Some? then Rejected(read, max).value
               else match items[k]
                    case AbortSignalled => Aborted
                    case DeadlinePassed => TimedOut
                    case _ => StreamError
    decreases k
  {
    hide Rejected;
    if k == 0 {
      assert stream + Concat(items[..0]) == stream;
    } else {
      var data := items[0].data;
      assert items[..k][0] == items[0] && items[..k][1..] == items[1..][..k - 1];
      assert stream + Concat(items[..k]) == (stream + data) + Concat(items[1..][..k - 1]);
      if Rejected(stream + data, max).Some? {
        RejectedForGood(stream + data, Concat(items[1..][..k - 1]), max);
      } else {
        assert OnlyChunks(items[1..][..k - 1]);
        Interrupted(items[1..], k - 1, stream + data, count + 1, max);
      }
    }
  }
}
