/**
 Length-prefixed framing of messages on a byte stream. The payload codec is a parameter: `ser`
 turns a message into bytes and `de` reads one back, or fails.
 */
module Framing {
  import opened Bytes
  import opened Wrappers

  const MAX_MESSAGE_SIZE: nat := 64 * 1024 * 1024
  const U32: nat := 0x1_0000_0000

  /** Little-endian, cut to 32 bits. */
  function ToLe(n: nat): (p: seq<byte>)
    ensures |p| == 4
  {
    [n % 256, n / 256 % 256, n / 256 / 256 % 256, n / 256 / 256 / 256 % 256]
  }

  function FromLe(b0: byte, b1: byte, b2: byte, b3: byte): nat {
    b0 + 256 * b1 + 65536 * b2 + 16777216 * b3
  }

  function Encode<T>(msg: T, ser: T -> seq<byte>): seq<byte> {
    ToLe(|ser(msg)|) + ser(msg)
  }

  function ReadLengthPrefix(data: seq<byte>): Option<(nat, seq<byte>)> {
    if |data| < 4 then None else Some((FromLe(data[0], data[1], data[2], data[3]), data[4..]))
  }

  datatype Decoded<+T> = NeedMore | Malformed | Frame(msg: T, consumed: nat)

  function TryDecodeFramed<T>(buf: seq<byte>, de: seq<byte> -> Option<T>): (r: Decoded<T>)
    ensures r.Frame? ==> 4 <= r.consumed <= |buf|
  {
    match ReadLengthPrefix(buf)
    case None => NeedMore
    case Some((len, rest)) =>
      if |rest| < len then NeedMore
      else match de(rest[..len])
        case None => Malformed
        case Some(msg) => Frame(msg, 4 + len)
  }

  datatype ReadError = TooLarge(size: nat) | EndOfStream | Undecodable

  /** The receiving side of a stream, which refuses a large prefix before it reads the payload.
      `data` is all the stream will ever deliver. */
  function ReadMessage<T>(data: seq<byte>, de: seq<byte> -> Option<T>): Result<(T, nat), ReadError> {
    match ReadLengthPrefix(data)
    case None => Failure(EndOfStream)
    case Some((len, rest)) =>
      if len > MAX_MESSAGE_SIZE then Failure(TooLarge(len))
      else if |rest| < len then Failure(EndOfStream)
      else match de(rest[..len])
        case None => Failure(Undecodable)
        case Some(msg) => Success((msg, 4 + len))
  }

  /** What `de` makes of the bytes of a message is that message. */
  ghost predicate Inverse<T(!new)>(ser: T -> seq<byte>, de: seq<byte> -> Option<T>) {
    forall m :: de(ser(m)) == Some(m)
  }

  // ----- one frame

  lemma PrefixRoundTrip(n: nat)
    ensures var p := ToLe(n); FromLe(p[0], p[1], p[2], p[3]) == n % U32
  {
    var a := n / 256;
    var b := a / 256;
    var c := b / 256;
    assert n == U32 * (c / 256) + (n % 256 + 256 * (a % 256) + 65536 * (b % 256) + 16777216 * (c % 256));
  }

  /** The lowest byte of the length comes first on the wire. */
  lemma LowestByteFirst(n: nat)
    requires n < 256
    ensures ToLe(n) == [n, 0, 0, 0] && ToLe(256 * n) == [0, n, 0, 0]
  {
  }

  lemma PrefixBytes(p: seq<byte>, rest: seq<byte>)
    requires |p| == 4
    ensures ReadLengthPrefix(p + rest) == Some((FromLe(p[0], p[1], p[2], p[3]), rest))
  {
    assert (p + rest)[4..] == rest;
  }

  lemma EncodedPrefix<T>(msg: T, ser: T -> seq<byte>, tail: seq<byte>)
    ensures ReadLengthPrefix(Encode(msg, ser) + tail) == Some((|ser(msg)| % U32, ser(msg) + tail))
  {
    var p := ToLe(|ser(msg)|);
    PrefixRoundTrip(|ser(msg)|);
    PrefixBytes(p, ser(msg) + tail);
    assert p + (ser(msg) + tail) == p + ser(msg) + tail;
  }

  /** A frame decodes to its message, whatever follows it on the stream. */
  lemma FrameThenTail<T(!new)>(msg: T, ser: T -> seq<byte>, de: seq<byte> -> Option<T>, tail: seq<byte>)
    requires Inverse(ser, de) && |ser(msg)| < U32
    ensures TryDecodeFramed(Encode(msg, ser) + tail, de) == Frame(msg, |Encode(msg, ser)|)
  {
    EncodedPrefix(msg, ser, tail);
    assert (ser(msg) + tail)[..|ser(msg)|] == ser(msg);
    assert de(ser(msg)) == Some(msg);
    WholeFrame(Encode(msg, ser) + tail, |ser(msg)|, ser(msg) + tail, msg, de);
  }

  lemma WholeFrame<T>(buf: seq<byte>, len: nat, rest: seq<byte>, msg: T, de: seq<byte> -> Option<T>)
    requires ReadLengthPrefix(buf) == Some((len, rest)) && len <= |rest| && de(rest[..len]) == Some(msg)
    ensures TryDecodeFramed(buf, de) == Frame(msg, 4 + len)
  {
  }

  /** Encoding and decoding are inverse exactly for messages whose length fits the prefix. */
  lemma FrameRoundTripsIff<T(!new)>(msg: T, ser: T -> seq<byte>, de: seq<byte> -> Option<T>)
    requires Inverse(ser, de)
    ensures TryDecodeFramed(Encode(msg, ser), de) == Frame(msg, |Encode(msg, ser)|) <==> |ser(msg)| < U32
  {
    EncodedPrefix(msg, ser, []);
    assert Encode(msg, ser) + [] == Encode(msg, ser);
    assert ser(msg) + [] == ser(msg);
    if |ser(msg)| < U32 {
      FrameThenTail(msg, ser, de, []);
    }
  }

  /** A codec with arbitrarily long messages: a number is that many zero bytes. */
  function Zeros(n: nat): seq<byte> { seq(n, i => 0) }

  function Count(b: seq<byte>): Option<nat> { Some(|b|) }

  /** Its first message that does not fit the prefix is not read back. */
  lemma LongFrameFails()
    ensures TryDecodeFramed(Encode(U32, Zeros), Count) != Frame(U32, |Encode(U32, Zeros)|)
  {
    assert Inverse(Zeros, Count);
    FrameRoundTripsIff(U32, Zeros, Count);
  }

  /** Every strict prefix of a frame asks for more. */
  lemma StrictPrefixNeedsMore<T>(msg: T, ser: T -> seq<byte>, de: seq<byte> -> Option<T>, k: nat)
    requires |ser(msg)| < U32 && k < |Encode(msg, ser)|
    ensures TryDecodeFramed(Encode(msg, ser)[..k], de) == NeedMore
  {
    PrefixRoundTrip(|ser(msg)|);
  }

  /** The size check refuses exactly the messages above the cap and lets every other through. */
  lemma ReadAccepts<T(!new)>(msg: T, ser: T -> seq<byte>, de: seq<byte> -> Option<T>, tail: seq<byte>)
    requires Inverse(ser, de) && |ser(msg)| < U32
    ensures ReadMessage(Encode(msg, ser) + tail, de)
         == if |ser(msg)| <= MAX_MESSAGE_SIZE then Success((msg, |Encode(msg, ser)|)) else Failure(TooLarge(|ser(msg)|))
  {
    EncodedPrefix(msg, ser, tail);
    assert (ser(msg) + tail)[..|ser(msg)|] == ser(msg);
    ReadIs(Encode(msg, ser) + tail, |ser(msg)|, ser(msg) + tail, de);
  }

  lemma ReadIs<T>(buf: seq<byte>, len: nat, rest: seq<byte>, de: seq<byte> -> Option<T>)
    requires ReadLengthPrefix(buf) == Some((len, rest)) && len <= |rest|
    ensures ReadMessage(buf, de)
         == if len > MAX_MESSAGE_SIZE then Failure(TooLarge(len))
            else match de(rest[..len]) case None => Failure(Undecodable) case Some(msg) => Success((msg, 4 + len))
    ensures TryDecodeFramed(buf, de)
         == match de(rest[..len]) case None => Malformed case Some(msg) => Frame(msg, 4 + len)
  {
  }

  /** A stream that ends within a frame is reported as ended, unless the prefix was already refused. */
  lemma ReadEnds<T>(msg: T, ser: T -> seq<byte>, de: seq<byte> -> Option<T>, k: nat)
    requires |ser(msg)| < U32 && k < |Encode(msg, ser)|
    ensures ReadMessage(Encode(msg, ser)[..k], de)
         == if k >= 4 && |ser(msg)| > MAX_MESSAGE_SIZE then Failure(TooLarge(|ser(msg)|)) else Failure(EndOfStream)
  {
    PrefixRoundTrip(|ser(msg)|);
  }

  /** A whole payload that cannot be decoded is reported as such by both sides, whatever follows it. */
  lemma GarbageReported<T>(payload: seq<byte>, de: seq<byte> -> Option<T>, tail: seq<byte>)
    requires |payload| <= MAX_MESSAGE_SIZE && de(payload) == None
    ensures ReadMessage(ToLe(|payload|) + payload + tail, de) == Failure(Undecodable)
    ensures TryDecodeFramed(ToLe(|payload|) + payload + tail, de) == Malformed
  {
    PayloadPrefix(payload, tail);
    assert (payload + tail)[..|payload|] == payload;
    ReadIs(ToLe(|payload|) + payload + tail, |payload|, payload + tail, de);
  }

  lemma PayloadPrefix(payload: seq<byte>, tail: seq<byte>)
    requires |payload| < U32
    ensures ReadLengthPrefix(ToLe(|payload|) + payload + tail) == Some((|payload|, payload + tail))
  {
    var p := ToLe(|payload|);
    PrefixRoundTrip(|payload|);
    PrefixBytes(p, payload + tail);
    assert p + (payload + tail) == p + payload + tail;
  }

  // ----- a stream of frames

  /** The messages found so far, what is left over, and whether a payload could not be decoded. */
  datatype Stream<T> = Stream(msgs: seq<T>, rest: seq<byte>, broken: bool)

  function Prepend<T>(msgs: seq<T>, s: Stream<T>): Stream<T> {
    s.(msgs := msgs + s.msgs)
  }

  function DecodeAll<T>(buf: seq<byte>, de: seq<byte> -> Option<T>): Stream<T>
    decreases |buf|
  {
    match TryDecodeFramed(buf, de)
    case NeedMore => Stream([], buf, false)
    case Malformed => Stream([], buf, true)
    case Frame(msg, consumed) => Prepend([msg], DecodeAll(buf[consumed..], de))
  }

  function EncodeAll<T>(msgs: seq<T>, ser: T -> seq<byte>): seq<byte> {
    if msgs == [] then [] else Encode(msgs[0], ser) + EncodeAll(msgs[1..], ser)
  }

  ghost predicate AllFit<T>(msgs: seq<T>, ser: T -> seq<byte>) {
    forall i :: 0 <= i < |msgs| ==> |ser(msgs[i])| < U32
  }

  lemma PrependTwice<T>(a: seq<T>, b: seq<T>, s: Stream<T>)
    ensures Prepend(a, Prepend(b, s)) == Prepend(a + b, s) && Prepend([], s) == s
  {
    assert a + (b + s.msgs) == a + b + s.msgs;
    assert [] + s.msgs == s.msgs;
  }

  lemma FirstFrame<T>(frame: seq<byte>, rest: seq<byte>, msg: T, de: seq<byte> -> Option<T>)
    requires TryDecodeFramed(frame + rest, de) == Frame(msg, |frame|)
    ensures DecodeAll(frame + rest, de) == Prepend([msg], DecodeAll(rest, de))
  {
    assert (frame + rest)[|frame|..] == rest;
  }

  lemma EncodeAllHead<T>(msgs: seq<T>, ser: T -> seq<byte>, tail: seq<byte>)
    requires msgs != []
    ensures EncodeAll(msgs, ser) + tail == Encode(msgs[0], ser) + (EncodeAll(msgs[1..], ser) + tail)
  {
  }

  lemma HeadRoundTrip<T(!new)>(msgs: seq<T>, ser: T -> seq<byte>, de: seq<byte> -> Option<T>, tail: seq<byte>)
    requires Inverse(ser, de) && AllFit(msgs, ser) && msgs != []
    ensures DecodeAll(EncodeAll(msgs, ser) + tail, de) == Prepend([msgs[0]], DecodeAll(EncodeAll(msgs[1..], ser) + tail, de))
  {
    var rest := EncodeAll(msgs[1..], ser) + tail;
    EncodeAllHead(msgs, ser, tail);
    FrameThenTail(msgs[0], ser, de, rest);
    FirstFrame(Encode(msgs[0], ser), rest, msgs[0], de);
  }

  /** Messages encoded one after another come back exactly, in order; what follows them is decoded
      as if it stood alone. */
  lemma {:induction false} StreamRoundTrip<T(!new)>(msgs: seq<T>, ser: T -> seq<byte>, de: seq<byte> -> Option<T>, tail: seq<byte>)
    requires Inverse(ser, de) && AllFit(msgs, ser)
    ensures DecodeAll(EncodeAll(msgs, ser) + tail, de) == Prepend(msgs, DecodeAll(tail, de))
    decreases |msgs|
  {
    if msgs == [] {
      assert EncodeAll(msgs, ser) + tail == tail;
      PrependTwice([], [], DecodeAll(tail, de));
    } else {
      HeadRoundTrip(msgs, ser, de, tail);
      StreamRoundTrip(msgs[1..], ser, de, tail);
      PrependTwice([msgs[0]], msgs[1..], DecodeAll(tail, de));
      assert [msgs[0]] + msgs[1..] == msgs;
    }
  }

  /** All bytes are consumed, and no two lists of messages look the same on the stream. */
  lemma StreamUnambiguous<T(!new)>(a: seq<T>, b: seq<T>, ser: T -> seq<byte>, de: seq<byte> -> Option<T>)
    requires Inverse(ser, de) && AllFit(a, ser) && AllFit(b, ser)
    ensures DecodeAll(EncodeAll(a, ser), de) == Stream(a, [], false)
    ensures EncodeAll(a, ser) == EncodeAll(b, ser) ==> a == b
  {
    StreamRoundTrip(a, ser, de, []);
    StreamRoundTrip(b, ser, de, []);
    assert EncodeAll(a, ser) + [] == EncodeAll(a, ser) && EncodeAll(b, ser) + [] == EncodeAll(b, ser);
    assert a + [] == a && b + [] == b;
  }

  // ----- chunks

  /** A chunk arrives: it is appended to what was left over, and every frame that is now complete
      is taken out. */
  function Fed<T>(s: Stream<T>, chunk: seq<byte>, de: seq<byte> -> Option<T>): Stream<T> {
    if s.broken then s.(rest := s.rest + chunk)
    else Prepend(s.msgs, DecodeAll(s.rest + chunk, de))
  }

  /** More bytes after a frame do not change it. */
  lemma FrameStays<T>(a: seq<byte>, b: seq<byte>, de: seq<byte> -> Option<T>)
    requires !TryDecodeFramed(a, de).NeedMore?
    ensures TryDecodeFramed(a + b, de) == TryDecodeFramed(a, de)
  {
    var len := FromLe(a[0], a[1], a[2], a[3]);
    assert (a + b)[4..][..len] == a[4..][..len];
  }

  lemma FedAfter<T>(msgs: seq<T>, s: Stream<T>, chunk: seq<byte>, de: seq<byte> -> Option<T>)
    ensures Fed(Prepend(msgs, s), chunk, de) == Prepend(msgs, Fed(s, chunk, de))
  {
    if !s.broken {
      PrependTwice(msgs, s.msgs, DecodeAll(s.rest + chunk, de));
    }
  }

  lemma {:induction false} FedFromStart<T>(a: seq<byte>, chunk: seq<byte>, de: seq<byte> -> Option<T>)
    ensures Fed(DecodeAll(a, de), chunk, de) == DecodeAll(a + chunk, de)
    decreases |a|
  {
    match TryDecodeFramed(a, de) {
      case NeedMore => PrependTwice([], [], DecodeAll(a + chunk, de));
      case Malformed => FrameStays(a, chunk, de);
      case Frame(msg, consumed) =>
        FrameStays(a, chunk, de);
        assert (a + chunk)[consumed..] == a[consumed..] + chunk;
        FedFromStart(a[consumed..], chunk, de);
        FedAfter([msg], DecodeAll(a[consumed..], de), chunk, de);
    }
  }

  function FedAll<T>(s: Stream<T>, chunks: seq<seq<byte>>, de: seq<byte> -> Option<T>): Stream<T> {
    if chunks == [] then s else Fed(FedAll(s, chunks[..|chunks| - 1], de), chunks[|chunks| - 1], de)
  }

  function Joined(chunks: seq<seq<byte>>): seq<byte> {
    if chunks == [] then [] else Joined(chunks[..|chunks| - 1]) + chunks[|chunks| - 1]
  }

  /** However the stream is cut into chunks, the receiver ends with what the whole stream says:
      for every byte string, well-formed or not. */
  lemma {:induction false} ChunkingIsInvisible<T>(chunks: seq<seq<byte>>, de: seq<byte> -> Option<T>)
    ensures FedAll(Stream([], [], false), chunks, de) == DecodeAll(Joined(chunks), de)
  {
    if chunks != [] {
      var n := |chunks| - 1;
      ChunkingIsInvisible(chunks[..n], de);
      FedFromStart(Joined(chunks[..n]), chunks[n], de);
    }
  }
}
