/**
 Length-prefixed frames: packages/plugin-runtime/src/protocol.ts, the `data` handler of
 packages/plugin-runtime/src/socket-server.ts and crates/plugin-host/src/unix_socket.rs.
 */
module Framing {
  import opened Wrappers
  import opened Wire

  /** The last `width` base-256 digits of `n`, most significant first. */
  function BigEndian(n: nat, width: nat): (bs: Bytes)
    ensures |bs| == width
  {
    if width == 0 then [] else BigEndian(n / 0x100, width - 1) + [n % 0x100]
  }

  function FromBigEndian(bs: Bytes): nat {
    if bs == [] then 0 else FromBigEndian(bs[..|bs| - 1]) * 0x100 + bs[|bs| - 1] as int
  }

  /** The unsigned 32-bit length prefix; longer lengths wrap around. */
  function LengthPrefix(length: nat): (bs: Bytes)
    ensures |bs| == 4
  {
    BigEndian(length % TWO32, 4)
  }

  function ReadLength(bs: Bytes): nat
    requires |bs| >= 4
  {
    FromBigEndian(bs[..4])
  }

  function FrameOf(payload: Bytes): Bytes {
    LengthPrefix(|payload|) + payload
  }

  predicate HasCompleteFrame(bs: Bytes) {
    |bs| >= 4 && 4 + ReadLength(bs) <= |bs|
  }

  function FirstPayload(bs: Bytes): Bytes
    requires HasCompleteFrame(bs)
  {
    bs[4..4 + ReadLength(bs)]
  }

  function AfterFirst(bs: Bytes): Bytes
    requires HasCompleteFrame(bs)
  {
    bs[4 + ReadLength(bs)..]
  }

  datatype Parsed = Parsed(frames: seq<Bytes>, remainder: Bytes)

  /** All complete frames at the front of `bs`, and what is left. */
  function ParseFrames(bs: Bytes): Parsed
    decreases |bs|
  {
    if !HasCompleteFrame(bs) then Parsed([], bs)
    else
      var rest := ParseFrames(AfterFirst(bs));
      Parsed([FirstPayload(bs)] + rest.frames, rest.remainder)
  }

  function EncodeStream(payloads: seq<Bytes>): Bytes {
    if payloads == [] then [] else FrameOf(payloads[0]) + EncodeStream(payloads[1..])
  }

  predicate Framable(payloads: seq<Bytes>) {
    forall p <- payloads :: |p| < TWO32
  }

  function Flatten(chunks: seq<Bytes>): Bytes {
    if chunks == [] then [] else chunks[0] + Flatten(chunks[1..])
  }

  /** The buffer loop: each chunk is appended to what was left over before it. */
  function Feed(buffer: Bytes, chunks: seq<Bytes>): Parsed
    decreases |chunks|
  {
    if chunks == [] then Parsed([], buffer)
    else
      var now := ParseFrames(buffer + chunks[0]);
      var later := Feed(now.remainder, chunks[1..]);
      Parsed(now.frames + later.frames, later.remainder)
  }

  // ---- Frames and streams

  function Power256(width: nat): nat {
    if width == 0 then 1 else 0x100 * Power256(width - 1)
  }

  lemma {:induction false} DigitsRoundTrip(n: nat, width: nat)
    requires n < Power256(width)
    ensures FromBigEndian(BigEndian(n, width)) == n
  {
    if width > 0 {
      DigitsRoundTrip(n / 0x100, width - 1);
      assert BigEndian(n, width)[..width - 1] == BigEndian(n / 0x100, width - 1);
    }
  }

  lemma {:induction false} NumberRoundTrip(bs: Bytes)
    ensures FromBigEndian(bs) < Power256(|bs|)
    ensures BigEndian(FromBigEndian(bs), |bs|) == bs
  {
    if bs != [] {
      NumberRoundTrip(bs[..|bs| - 1]);
    }
  }

  lemma DigitsOfFour(bs: Bytes)
    requires |bs| == 4
    ensures FromBigEndian(bs) == bs[0] as int * 0x100_0000 + bs[1] as int * 0x1_0000 + bs[2] as int * 0x100 + bs[3] as int
  {
    var (three, two, one) := (bs[..3], bs[..2], bs[..1]);
    assert three[..2] == two && two[..1] == one && one[..0] == [];
    assert FromBigEndian(one) == bs[0] as int;
    assert FromBigEndian(two) == FromBigEndian(one) * 0x100 + bs[1] as int;
    assert FromBigEndian(three) == FromBigEndian(two) * 0x100 + bs[2] as int;
  }

  /** The most significant byte of a length comes first. */
  lemma LengthOfBytes(bs: Bytes)
    requires |bs| >= 4
    ensures ReadLength(bs) == bs[0] as int * 0x100_0000 + bs[1] as int * 0x1_0000 + bs[2] as int * 0x100 + bs[3] as int
  {
    DigitsOfFour(bs[..4]);
  }

  lemma PrefixBytes(length: nat)
    ensures LengthPrefix(length) == [length / 0x100_0000 % 0x100, length / 0x1_0000 % 0x100, length / 0x100 % 0x100, length % 0x100]
  {
    hide BigEndian, FromBigEndian;
    var bs: Bytes := [length / 0x100_0000 % 0x100, length / 0x1_0000 % 0x100, length / 0x100 % 0x100, length % 0x100];
    DigitsOfFour(bs);
    FourDigits(length);
    NumberRoundTrip(bs);
  }

  lemma FourDigits(n: nat)
    ensures n % TWO32 == n / 0x100_0000 % 0x100 * 0x100_0000 + n / 0x1_0000 % 0x100 * 0x1_0000 + n / 0x100 % 0x100 * 0x100 + n % 0x100
  {
    var (a, b, c, d) := (n / 0x100_0000, n / 0x1_0000, n / 0x100, n / TWO32);
    assert a == b / 0x100 && b == c / 0x100 && d == a / 0x100;
  }

  lemma FourBytes()
    ensures Power256(4) == TWO32
  {
    assert Power256(2) == 0x1_0000;
  }

  lemma LengthRoundTrip(length: nat)
    ensures ReadLength(LengthPrefix(length)) == length % TWO32
  {
    FourBytes();
    DigitsRoundTrip(length % TWO32, 4);
    assert LengthPrefix(length)[..4] == LengthPrefix(length);
  }

  lemma PrefixFromLength(bs: Bytes)
    requires |bs| >= 4
    ensures ReadLength(bs) < TWO32 && LengthPrefix(ReadLength(bs)) == bs[..4]
  {
    FourBytes();
    NumberRoundTrip(bs[..4]);
  }

  lemma FrameSplit(bs: Bytes)
    requires HasCompleteFrame(bs)
    ensures bs == FrameOf(FirstPayload(bs)) + AfterFirst(bs) && |FirstPayload(bs)| < TWO32
  {
    PrefixFromLength(bs);
  }

  lemma FirstFrame(payload: Bytes, rest: Bytes)
    requires |payload| < TWO32
    ensures HasCompleteFrame(FrameOf(payload) + rest)
    ensures FirstPayload(FrameOf(payload) + rest) == payload && AfterFirst(FrameOf(payload) + rest) == rest
  {
    hide FromBigEndian, BigEndian;
    LengthRoundTrip(|payload|);
    var bs := FrameOf(payload) + rest;
    assert bs[..4] == LengthPrefix(|payload|)[..4];
  }

  /** A frame is read back as the payload it was made from exactly when its length fits 32 bits. */
  lemma FrameRoundTrip(payload: Bytes)
    ensures ParseFrames(FrameOf(payload)) == Parsed([payload], []) <==> |payload| < TWO32
  {
    var bs := FrameOf(payload);
    if |payload| < TWO32 {
      FirstFrame(payload, []);
      assert bs + [] == bs;
    } else {
      LengthRoundTrip(|payload|);
      assert bs[..4] == LengthPrefix(|payload|)[..4];
    }
  }

  /** `p` splits `bs` into frames and a remainder that holds no complete frame. */
  ghost predicate Splits(p: Parsed, bs: Bytes) {
    EncodeStream(p.frames) + p.remainder == bs && Framable(p.frames) && !HasCompleteFrame(p.remainder)
  }

  lemma SplitsMore(payload: Bytes, p: Parsed, bs: Bytes)
    requires |payload| < TWO32 && Splits(p, bs)
    ensures Splits(Parsed([payload] + p.frames, p.remainder), FrameOf(payload) + bs)
  {
    hide FrameOf, HasCompleteFrame;
    assert ([payload] + p.frames)[1..] == p.frames;
    assert FrameOf(payload) + EncodeStream(p.frames) + p.remainder ==
           FrameOf(payload) + (EncodeStream(p.frames) + p.remainder);
  }

  /** Parsing splits the bytes into frames and a remainder without losing, adding or reordering any. */
  lemma {:induction false} ParseReassembles(bs: Bytes)
    ensures Splits(ParseFrames(bs), bs)
    decreases |bs|
  {
    hide FrameOf, ReadLength;
    if HasCompleteFrame(bs) {
      ParseReassembles(AfterFirst(bs));
      FrameSplit(bs);
      SplitsMore(FirstPayload(bs), ParseFrames(AfterFirst(bs)), AfterFirst(bs));
    } else {
      assert EncodeStream([]) + bs == bs;
    }
  }

  /** And that split is the only one. */
  lemma {:induction false} ParseIsUnique(p: Parsed, bs: Bytes)
    requires Splits(p, bs)
    ensures ParseFrames(bs) == p
    decreases |p.frames|
  {
    hide FrameOf, HasCompleteFrame, FirstPayload, AfterFirst;
    var payloads := p.frames;
    if payloads == [] {
      assert bs == p.remainder;
      ParseLeavesIncomplete(bs);
    } else {
      var rest, tail := payloads[1..], EncodeStream(payloads[1..]) + p.remainder;
      assert bs == FrameOf(payloads[0]) + tail;
      assert payloads == [payloads[0]] + rest && payloads[0] in payloads;
      ParseIsUnique(Parsed(rest, p.remainder), tail);
      FirstFrame(payloads[0], tail);
    }
  }

  lemma {:induction false} EncodeStreamConcat(a: seq<Bytes>, b: seq<Bytes>)
    ensures EncodeStream(a + b) == EncodeStream(a) + EncodeStream(b)
  {
    if a == [] {
      assert a + b == b;
    } else {
      assert (a + b)[1..] == a[1..] + b;
      EncodeStreamConcat(a[1..], b);
    }
  }

  /** Splitting `a`, then what it left over followed by `b`, splits `a + b`. */
  lemma SplitsCompose(p: Parsed, a: Bytes, q: Parsed, b: Bytes)
    requires Splits(p, a) && Splits(q, p.remainder + b)
    ensures Splits(Parsed(p.frames + q.frames, q.remainder), a + b)
  {
    hide HasCompleteFrame, EncodeStream;
    EncodeStreamConcat(p.frames, q.frames);
    var (e, f) := (EncodeStream(p.frames), EncodeStream(q.frames));
    assert (e + f) + q.remainder == e + (f + q.remainder);
    assert (e + p.remainder) + b == e + (p.remainder + b);
  }

  /** However the bytes are cut into chunks, the loop ends where parsing them at once would. */
  lemma {:induction false} ChunkingDoesNotMatter(buffer: Bytes, chunks: seq<Bytes>)
    requires !HasCompleteFrame(buffer)
    ensures Feed(buffer, chunks) == ParseFrames(buffer + Flatten(chunks))
    ensures Splits(Feed(buffer, chunks), buffer + Flatten(chunks))
    decreases |chunks|
  {
    hide HasCompleteFrame, Splits;
    var all := buffer + Flatten(chunks);
    ParseReassembles(all);
    if chunks == [] {
      assert all == buffer;
    } else {
      var now := ParseFrames(buffer + chunks[0]);
      ParseReassembles(buffer + chunks[0]);
      SplitsEnd(now, buffer + chunks[0]);
      ChunkingDoesNotMatter(now.remainder, chunks[1..]);
      SplitsCompose(now, buffer + chunks[0], Feed(now.remainder, chunks[1..]), Flatten(chunks[1..]));
      assert all == (buffer + chunks[0]) + Flatten(chunks[1..]);
      ParseIsUnique(Feed(buffer, chunks), all);
    }
  }

  lemma SplitsEnd(p: Parsed, bs: Bytes)
    requires Splits(p, bs)
    ensures !HasCompleteFrame(p.remainder)
  {
  }

  /** Frames written by one side come out of the other side's loop in order, with nothing left over. */
  lemma StreamRoundTrip(payloads: seq<Bytes>, chunks: seq<Bytes>)
    requires Framable(payloads)
    requires Flatten(chunks) == EncodeStream(payloads)
    ensures Feed([], chunks) == Parsed(payloads, [])
  {
    ChunkingDoesNotMatter([], chunks);
    assert [] + Flatten(chunks) == Flatten(chunks) == EncodeStream(payloads) + [];
    ParseIsUnique(Parsed(payloads, []), Flatten(chunks));
  }

  /**
   Part of a transmission: after any of the chunks the frames so far are the first of those sent, and
   the buffer is what the bytes received hold beyond them.
   */
  lemma StreamPrefix(payloads: seq<Bytes>, received: seq<Bytes>, missing: Bytes)
    requires Framable(payloads)
    requires Flatten(received) + missing == EncodeStream(payloads)
    ensures Feed([], received).frames <= payloads
    ensures Splits(Feed([], received), Flatten(received))
  {
    hide Splits;
    var bs := Flatten(received);
    ChunkingDoesNotMatter([], received);
    assert [] + bs == bs;
    var p := Feed([], received);
    ParseReassembles(p.remainder + missing);
    var q := ParseFrames(p.remainder + missing);
    SplitsCompose(p, bs, q, missing);
    ParseIsUnique(Parsed(p.frames + q.frames, q.remainder), bs + missing);
    assert EncodeStream(payloads) + [] == bs + missing;
    SplitsNothing(payloads);
    ParseIsUnique(Parsed(payloads, []), bs + missing);
  }

  lemma SplitsNothing(payloads: seq<Bytes>)
    requires Framable(payloads)
    ensures Splits(Parsed(payloads, []), EncodeStream(payloads))
  {
    assert EncodeStream(payloads) + [] == EncodeStream(payloads);
  }

  // ---- The code

  function DecodeEach<E>(frames: seq<Bytes>, decode: Bytes -> Option<E>): Option<seq<E>> {
    if frames == [] then Some([])
    else
      match DecodeEach(frames[..|frames| - 1], decode)
      case None => None
      case Some(es) =>
        match decode(frames[|frames| - 1])
        case None => None
        case Some(e) => Some(es + [e])
  }

  method EncodeFrame(payload: Bytes) returns (frame: array<Byte>)
    ensures fresh(frame) && frame[..] == FrameOf(payload)
  {
    frame := new Byte[4 + |payload|](_ => 0);
    var prefix := LengthPrefix(|payload|);
    frame[0], frame[1], frame[2], frame[3] := prefix[0], prefix[1], prefix[2], prefix[3];
    for i := 0 to |payload|
      invariant frame[..4] == LengthPrefix(|payload|)
      invariant frame[4..4 + i] == payload[..i]
    {
      frame[4 + i] := payload[i];
    }
    assert frame[..] == frame[..4] + frame[4..4 + |payload|];
  }

  /** Having taken the frames `done` off `bs`, the bytes `left` remain to be parsed. */
  ghost predicate Taken(bs: Bytes, done: seq<Bytes>, left: Bytes) {
    ParseFrames(bs) == Parsed(done + ParseFrames(left).frames, ParseFrames(left).remainder)
  }

  lemma TakeOne(bs: Bytes, done: seq<Bytes>, left: Bytes)
    requires Taken(bs, done, left) && HasCompleteFrame(left)
    ensures Taken(bs, done + [FirstPayload(left)], AfterFirst(left))
  {
    var rest := ParseFrames(AfterFirst(left));
    assert done + ([FirstPayload(left)] + rest.frames) == (done + [FirstPayload(left)]) + rest.frames;
  }

  /** None stands for the exception thrown when a complete frame cannot be decoded. */
  method TryDecodeFrames<E>(buffer: Bytes, decode: Bytes -> Option<E>) returns (r: Option<(seq<E>, Bytes)>)
    ensures var p := ParseFrames(buffer);
            r == match DecodeEach(p.frames, decode) case None => None case Some(es) => Some((es, p.remainder))
  {
    hide ParseFrames;
    var envelopes: seq<E>, offset := [], 0;
    ghost var done: seq<Bytes>, left := [], buffer;
    assert [] + ParseFrames(buffer).frames == ParseFrames(buffer).frames;
    while offset + 4 <= |buffer|
      invariant 0 <= offset <= |buffer| && left == buffer[offset..]
      invariant DecodeEach(done, decode) == Some(envelopes)
      invariant Taken(buffer, done, left)
    {
      var frameLength := ReadLength(buffer[offset..offset + 4]);
      HeaderAt(buffer, offset);
      if offset + 4 + frameLength > |buffer| {
        break;
      }
      var payload := buffer[offset + 4..offset + 4 + frameLength];
      assert payload == FirstPayload(left);
      TakeOne(buffer, done, left);
      done, left := done + [payload], buffer[offset + 4 + frameLength..];
      assert left == AfterFirst(buffer[offset..]);
      assert done[..|done| - 1] + [payload] == done;
      match decode(payload) {
        case None =>
          DecodeFailsEarly(done, ParseFrames(left).frames, decode);
          return None;
        case Some(e) => envelopes := envelopes + [e];
      }
      offset := offset + 4 + frameLength;
    }
    ParseLeavesIncomplete(left);
    assert done + [] == done;
    return Some((envelopes, buffer[offset..]));
  }

  lemma HeaderAt(buffer: Bytes, offset: nat)
    requires offset + 4 <= |buffer|
    ensures buffer[offset..][..4] == buffer[offset..offset + 4][..4]
  {
  }

  lemma ParseLeavesIncomplete(bs: Bytes)
    requires !HasCompleteFrame(bs)
    ensures ParseFrames(bs) == Parsed([], bs)
  {
  }

  lemma {:induction false} DecodeFailsEarly<E>(a: seq<Bytes>, b: seq<Bytes>, decode: Bytes -> Option<E>)
    requires DecodeEach(a, decode).None?
    ensures DecodeEach(a + b, decode).None?
    decreases |b|
  {
    if b == [] {
      assert a + b == a;
    } else {
      var front := b[..|b| - 1];
      assert (a + b)[..|a + b| - 1] == a + front;
      DecodeFailsEarly(a, front, decode);
    }
  }

  /** Once a complete frame cannot be decoded, every later `data` event of the socket fails on it again. */
  lemma StuckOnBadFrame<E>(buffer: Bytes, chunk: Bytes, decode: Bytes -> Option<E>)
    requires DecodeEach(ParseFrames(buffer).frames, decode).None?
    ensures DecodeEach(ParseFrames(buffer + chunk).frames, decode).None?
  {
    hide ParseFrames;
    var p := ParseFrames(buffer);
    var q := ParseFrames(p.remainder + chunk);
    ParseReassembles(buffer);
    ParseReassembles(p.remainder + chunk);
    SplitsCompose(p, buffer, q, chunk);
    ParseIsUnique(Parsed(p.frames + q.frames, q.remainder), buffer + chunk);
    DecodeFailsEarly(p.frames, q.frames, decode);
  }

  /** The receiving end of one socket: the bytes not yet decoded. */
  class SocketReader<!E> {
    const decode: Bytes -> Option<E>
    var buffer: Bytes
    ghost var received: Bytes
    ghost var delivered: seq<Bytes>

    /** Nothing received is lost: it is the frames delivered and the buffer. */
    ghost predicate Valid()
      reads this
    {
      received == EncodeStream(delivered) + buffer && Framable(delivered)
    }

    constructor (decode: Bytes -> Option<E>)
      ensures Valid() && received == [] && buffer == [] && delivered == [] && this.decode == decode
    {
      this.decode := decode;
      buffer := [];
      received := [];
      delivered := [];
    }

    /**
     One `data` event. When a frame cannot be decoded, the exception leaves the appended buffer in
     place and nothing is delivered.
     */
    method OnData(chunk: Bytes) returns (envelopes: Option<seq<E>>)
      requires Valid()
      modifies this
      ensures Valid() && received == old(received) + chunk
      ensures var p := ParseFrames(old(buffer) + chunk);
              envelopes == DecodeEach(p.frames, decode) &&
              if envelopes.Some? then
                buffer == p.remainder && delivered == old(delivered) + p.frames &&
                ParseFrames(received) == Parsed(delivered, buffer)
              else buffer == old(buffer) + chunk && delivered == old(delivered)
    {
      hide ParseFrames, FrameOf, HasCompleteFrame;
      ghost var p := ParseFrames(buffer + chunk);
      DeliverMore(delivered, buffer, chunk);

      buffer := buffer + chunk;
      received := received + chunk;
      var decoded := TryDecodeFrames(buffer, decode);
      match decoded
      case None => envelopes := None;
      case Some((es, remainder)) =>
        buffer := remainder;
        delivered := delivered + p.frames;
        envelopes := Some(es);
    }
  }

  /** Frames delivered, then those in the buffer and what has arrived, are the frames of it all. */
  lemma DeliverMore(delivered: seq<Bytes>, buffer: Bytes, chunk: Bytes)
    requires Framable(delivered)
    ensures var p := ParseFrames(buffer + chunk);
            var received := EncodeStream(delivered) + buffer + chunk;
            received == EncodeStream(delivered) + (buffer + chunk) &&
            received == EncodeStream(delivered + p.frames) + p.remainder && Framable(delivered + p.frames) &&
            ParseFrames(received) == Parsed(delivered + p.frames, p.remainder)
  {
    hide ParseFrames, FrameOf, HasCompleteFrame, EncodeStream;
    var p := ParseFrames(buffer + chunk);
    ParseReassembles(buffer + chunk);
    EncodeStreamConcat(delivered, p.frames);
    var e, f := EncodeStream(delivered), EncodeStream(p.frames);
    assert e + buffer + chunk == e + (buffer + chunk);
    assert (e + f) + p.remainder == e + (f + p.remainder);
    ParseIsUnique(Parsed(delivered + p.frames, p.remainder), e + buffer + chunk);
  }

  /** What has been delivered is a prefix of what was sent, when what was received is. */
  lemma {:induction false} DeliveredInOrder(delivered: seq<Bytes>, buffer: Bytes, sent: seq<Bytes>)
    requires Framable(delivered) && Framable(sent)
    requires EncodeStream(delivered) + buffer <= EncodeStream(sent)
    ensures delivered <= sent
  {
    hide FrameOf, HasCompleteFrame, FirstPayload, AfterFirst;
    if delivered != [] {
      var tail := EncodeStream(delivered[1..]) + buffer;
      var all := EncodeStream(sent);
      var missing := all[|EncodeStream(delivered) + buffer|..];
      assert delivered[0] in delivered;
      assert all == FrameOf(delivered[0]) + (tail + missing);
      FirstFrame(delivered[0], tail + missing);
      if sent == [] {
        FrameIsSomething(delivered[0]);
        assert false;
      }
      assert sent[0] in sent;
      FirstFrame(sent[0], EncodeStream(sent[1..]));
      assert tail + missing == EncodeStream(sent[1..]);
      assert forall p <- delivered[1..] :: p in delivered;
      assert forall p <- sent[1..] :: p in sent;
      DeliveredInOrder(delivered[1..], buffer, sent[1..]);
      assert delivered == [delivered[0]] + delivered[1..] && sent == [sent[0]] + sent[1..];
    }
  }

  lemma FrameIsSomething(payload: Bytes)
    ensures FrameOf(payload) != []
  {
  }
}
