/**
 Both ends of one socket: crates/plugin-host/src/unix_socket.rs and the connection handler of
 packages/plugin-runtime/src/socket-server.ts.

 The runtime starts a loop over the envelopes of each `data` event and awaits each reply before it goes on
 with the next; loops of different events run side by side. A run is any interleaving of `data` events and
 replies that become ready. What a plugin's method does with a request is an input of the latter.
 */
module Sessions {
  import opened Wrappers
  import opened Wire
  import opened Envelopes
  import opened Framing
  import opened Clients

  /** A result's encoding, or the fault reported when the method is unknown, fails or times out. */
  datatype Handled = Payload(payload: Bytes) | Fault(error: FrameworkError)

  // ---- The runtime's replies

  function ErrorEnvelope(requestId: u64, error: FrameworkError, trace: Option<TraceContext>): WireEnvelope {
    WireEnvelope(PROTOCOL_VERSION, requestId, trace, Some(WireError(error.code.ToWire(), error.message)))
  }

  /** `text` is the text of the runtime's own complaint about the envelope. */
  function HandleEnvelope(e: WireEnvelope, handled: Handled, text: Bytes): Option<WireEnvelope> {
    if e.protocolVersion != PROTOCOL_VERSION then
      Some(ErrorEnvelope(e.requestId, FrameworkError(ProtocolVersionMismatch, text), e.trace))
    else
      match e.body
      case Some(WireRequest(_, _)) =>
        (match handled
         case Payload(payload) => Some(WireEnvelope(PROTOCOL_VERSION, e.requestId, e.trace, Some(WireResponse(payload))))
         case Fault(error) => Some(ErrorEnvelope(e.requestId, error, e.trace)))
      case Some(WireControl(kind)) =>
        if kind == Ping.ToWire() then
          Some(WireEnvelope(PROTOCOL_VERSION, e.requestId, e.trace, Some(WireControl(Pong.ToWire()))))
        else if kind == Shutdown.ToWire() then None
        else Some(ErrorEnvelope(e.requestId, FrameworkError(Unknown, text), e.trace))
      case _ => Some(ErrorEnvelope(e.requestId, FrameworkError(Unknown, text), e.trace))
  }

  /**
   Whatever arrives, the reply is a message the host understands, with the id and the trace of what it
   answers; only a shutdown gets none.
   */
  lemma RepliesEcho(e: WireEnvelope, handled: Handled, text: Bytes)
    ensures HandleEnvelope(e, handled, text).None? <==> IntoMessage(e) == Ok(Control(e.requestId, Shutdown, e.trace))
    ensures HandleEnvelope(e, handled, text).Some? ==>
              var r := IntoMessage(HandleEnvelope(e, handled, text).value);
              r.Ok? && r.value.requestId == e.requestId && r.value.trace == e.trace && !r.value.RpcRequest? &&
              (r.value.RpcResponse? <==> IntoMessage(e).Ok? && IntoMessage(e).value.RpcRequest? && handled.Payload?) &&
              (r.value.Control? <==> IntoMessage(e) == Ok(Control(e.requestId, Ping, e.trace)))
  {
  }

  /** The versions, kinds and codes of replies as numbers, for every envelope that gets one. */
  lemma ReplyNumbers(e: WireEnvelope, handled: Handled, text: Bytes)
    ensures HandleEnvelope(e, handled, text).Some? ==>
              var r := HandleEnvelope(e, handled, text).value;
              r.protocolVersion == 1 && r.requestId == e.requestId && r.trace == e.trace && r.body.Some? &&
              (e.protocolVersion != 1 ==> r.body == Some(WireError(2, text))) &&
              (e.protocolVersion == 1 ==>
                match e.body
                case None => r.body == Some(WireError(0, text))
                case Some(WireRequest(_, _)) =>
                  (handled.Payload? ==> r.body == Some(WireResponse(handled.payload))) &&
                  (handled.Fault? ==> r.body.value.WireError? && r.body.value.message == handled.error.message &&
                                      FrameworkErrorCode.FromWire(r.body.value.code) == Some(handled.error.code))
                case Some(WireControl(kind)) => r.body == Some(if kind == 0 then WireControl(1) else WireError(0, text))
                case Some(_) => r.body == Some(WireError(0, text)))
    ensures HandleEnvelope(e, handled, text).None? <==> e.protocolVersion == 1 && e.body == Some(WireControl(2))
  {
  }

  predicate IsShutdown(m: ProtocolMessage) {
    m.Control? && m.control == Shutdown
  }

  /** The message that answers a message other than a shutdown. */
  function ReplyTo(m: ProtocolMessage, handled: Handled, text: Bytes): ProtocolMessage
    requires !IsShutdown(m)
  {
    match m
    case RpcRequest(id, _, _, trace) =>
      (match handled
       case Payload(payload) => RpcResponse(id, payload, trace)
       case Fault(error) => Error(id, error, trace))
    case Control(id, control, trace) =>
      if control == Ping then Control(id, Pong, trace) else Error(id, FrameworkError(Unknown, text), trace)
    case _ => Error(m.requestId, FrameworkError(Unknown, text), m.trace)
  }

  lemma ReplyIsEncoded(m: ProtocolMessage, handled: Handled, text: Bytes)
    requires !IsShutdown(m)
    ensures HandleEnvelope(FromMessage(m), handled, text) == Some(FromMessage(ReplyTo(m, handled, text)))
  {
  }

  // ---- One connection

  /**
   The loop that one `data` event starts over its envelopes, the `first`-th to before the `end`-th of the
   connection. It awaits the reply to the `next` one before it goes on; loops do not wait for each other.
   */
  datatype Loop = Loop(first: nat, next: nat, end: nat) {
    predicate Open() {
      next < end
    }
  }

  /** A reply as it was written, and what it answers. */
  datatype Reply = Reply(index: nat, handled: Handled, text: Bytes, envelope: WireEnvelope)

  /**
   The runtime's end: the buffer, the envelopes decoded, the loops over them, the replies written and
   whether a shutdown has ended the socket. `received`, `delivered` and `owner`, the number of each
   envelope's loop, are history.
   */
  datatype Connection = Connection(
    received: Bytes,
    buffer: Bytes,
    delivered: seq<Bytes>,
    seen: seq<WireEnvelope>,
    owner: seq<nat>,
    loops: seq<Loop>,
    replies: seq<Reply>,
    ended: bool)

  const START := Connection([], [], [], [], [], [], [], false)

  /** What the method makes of the envelope that a loop awaits is known when the loop resolves. */
  datatype Step =
    | Data(chunk: Bytes)
    | Resolve(loop: nat, handled: Handled, text: Bytes)

  predicate Enabled(s: Connection, step: Step) {
    step.Resolve? ==> step.loop < |s.loops| && s.loops[step.loop].Open() && s.loops[step.loop].next < |s.seen|
  }

  /** The envelopes that come out when the chunk is added to the buffer; none when one cannot be decoded. */
  function Arriving(s: Connection, chunk: Bytes): seq<WireEnvelope> {
    var es := DecodeEach(ParseFrames(s.buffer + chunk).frames, DecodeWire);
    if es.Some? then es.value else []
  }

  function Receive(s: Connection, chunk: Bytes): Connection {
    var p := ParseFrames(s.buffer + chunk);
    var es := Arriving(s, chunk);
    if DecodeEach(p.frames, DecodeWire).None? then s.(received := s.received + chunk, buffer := s.buffer + chunk)
    else
      s.(received := s.received + chunk, buffer := p.remainder, delivered := s.delivered + p.frames, seen := s.seen + es,
         owner := s.owner + seq(|es|, _ => |s.loops|),
         loops := if es == [] then s.loops else s.loops + [Loop(|s.seen|, |s.seen|, |s.seen| + |es|)])
  }

  /** A write to a socket that has ended goes nowhere. */
  function Write(s: Connection, index: nat, handled: Handled, text: Bytes, reply: Option<WireEnvelope>): Connection {
    if reply.None? then s.(ended := true)
    else if s.ended then s
    else s.(replies := s.replies + [Reply(index, handled, text, reply.value)])
  }

  function Apply(s: Connection, step: Step): Connection
    requires Enabled(s, step)
  {
    match step
    case Data(chunk) => Receive(s, chunk)
    case Resolve(l, handled, text) =>
      var i := s.loops[l].next;
      Write(s, i, handled, text, HandleEnvelope(s.seen[i], handled, text)).(
        loops := s.loops[l := s.loops[l].(next := i + 1)])
  }

  ghost predicate CanRun(s: Connection, steps: seq<Step>)
    decreases |steps|
  {
    steps == [] || (Enabled(s, steps[0]) && CanRun(Apply(s, steps[0]), steps[1..]))
  }

  ghost function Run(s: Connection, steps: seq<Step>): Connection
    requires CanRun(s, steps)
    decreases |steps|
  {
    if steps == [] then s else Run(Apply(s, steps[0]), steps[1..])
  }

  // ---- What holds in every interleaving

  /** The loops share out the envelopes, each run of them to one loop. */
  ghost predicate LoopsFit(s: Connection) {
    |s.owner| == |s.seen| &&
    (forall l :: 0 <= l < |s.loops| ==> s.loops[l].first <= s.loops[l].next <= s.loops[l].end <= |s.seen|) &&
    (forall i :: 0 <= i < |s.owner| ==>
      s.owner[i] < |s.loops| && s.loops[s.owner[i]].first <= i < s.loops[s.owner[i]].end) &&
    (forall l, i :: 0 <= l < |s.loops| && s.loops[l].first <= i < s.loops[l].end ==> s.owner[i] == l)
  }

  /** The envelope's loop has gone past it. */
  ghost predicate Resolved(s: Connection, i: nat) {
    i < |s.owner| && s.owner[i] < |s.loops| && i < s.loops[s.owner[i]].next
  }

  ghost predicate Replied(s: Connection, i: nat) {
    exists k :: 0 <= k < |s.replies| && s.replies[k].index == i
  }

  /** Replies are the right ones, no two are to one envelope, and none is missing before a shutdown. */
  ghost predicate RepliesFit(s: Connection) {
    (forall k :: 0 <= k < |s.replies| ==>
      var r := s.replies[k];
      Resolved(s, r.index) && r.index < |s.seen| &&
      HandleEnvelope(s.seen[r.index], r.handled, r.text) == Some(r.envelope)) &&
    (forall j, k :: 0 <= j < k < |s.replies| ==> s.replies[j].index != s.replies[k].index) &&
    (!s.ended ==> forall i :: 0 <= i < |s.seen| && Resolved(s, i) ==> Replied(s, i))
  }

  /** Replies to the envelopes of one `data` event are in order. */
  ghost predicate EventsInOrder(s: Connection) {
    forall j, k :: 0 <= j < k < |s.replies| && Shared(s, s.replies[j].index, s.replies[k].index) ==>
                     s.replies[j].index < s.replies[k].index
  }

  /** Both envelopes arrived with one `data` event. */
  predicate Shared(s: Connection, i: nat, j: nat) {
    i < |s.owner| && j < |s.owner| && s.owner[i] == s.owner[j]
  }

  /** The envelopes are those of the frames delivered, and no byte is lost. */
  ghost predicate BytesFit(s: Connection) {
    s.received == EncodeStream(s.delivered) + s.buffer && Framable(s.delivered) &&
    DecodeEach(s.delivered, DecodeWire) == Some(s.seen)
  }

  predicate AsksShutdown(e: WireEnvelope) {
    IntoMessage(e) == Ok(Control(e.requestId, Shutdown, e.trace))
  }

  /** The socket ends only because of a shutdown. */
  ghost predicate EndFits(s: Connection) {
    s.ended ==> exists i :: 0 <= i < |s.seen| && AsksShutdown(s.seen[i])
  }

  ghost predicate Inv(s: Connection) {
    LoopsFit(s) && RepliesFit(s) && EventsInOrder(s) && BytesFit(s) && EndFits(s)
  }

  lemma ReceiveLoops(s: Connection, chunk: Bytes)
    requires LoopsFit(s)
    ensures LoopsFit(Receive(s, chunk))
    ensures forall i :: 0 <= i < |s.seen| ==> (Resolved(Receive(s, chunk), i) <==> Resolved(s, i))
    ensures forall i :: |s.seen| <= i < |Receive(s, chunk).seen| ==> !Resolved(Receive(s, chunk), i)
  {
    hide Arriving;
  }

  lemma ResolveLoops(s: Connection, step: Step)
    requires LoopsFit(s) && Enabled(s, step) && step.Resolve?
    ensures LoopsFit(Apply(s, step))
    ensures !Resolved(s, s.loops[step.loop].next)
    ensures forall i :: 0 <= i < |s.seen| ==>
              (Resolved(Apply(s, step), i) <==> Resolved(s, i) || i == s.loops[step.loop].next)
  {
    hide HandleEnvelope;
  }

  lemma ReceiveReplies(s: Connection, chunk: Bytes)
    requires LoopsFit(s) && RepliesFit(s) && EventsInOrder(s)
    ensures RepliesFit(Receive(s, chunk)) && EventsInOrder(Receive(s, chunk))
  {
    hide Arriving, LoopsFit, HandleEnvelope, Resolved;
    var t := Receive(s, chunk);
    ReceiveLoops(s, chunk);
    assert t.replies == s.replies && t.ended == s.ended && s.seen <= t.seen;
    assert |s.owner| == |s.seen| by { OwnersFit(s); }
    assert s.owner <= t.owner;
    forall i | 0 <= i < |t.seen| && Resolved(t, i) && !t.ended ensures Replied(t, i) {
      assert Replied(s, i);
    }
  }

  lemma OwnersFit(s: Connection)
    requires LoopsFit(s)
    ensures |s.owner| == |s.seen|
  {
  }

  lemma ResolveReplies(s: Connection, step: Step)
    requires LoopsFit(s) && RepliesFit(s) && Enabled(s, step) && step.Resolve?
    ensures RepliesFit(Apply(s, step))
  {
    hide LoopsFit, HandleEnvelope, Resolved;
    var t, n := Apply(s, step), s.loops[step.loop].next;
    ResolveLoops(s, step);
    assert t.seen == s.seen && s.replies <= t.replies;
    forall i | 0 <= i < |t.seen| && Resolved(t, i) && !t.ended ensures Replied(t, i) {
      if i == n {
        assert t.replies[|s.replies|].index == n;
      } else {
        var k :| 0 <= k < |s.replies| && s.replies[k].index == i;
        assert t.replies[k] == s.replies[k];
      }
    }
  }

  lemma ResolveInOrder(s: Connection, step: Step)
    requires LoopsFit(s) && RepliesFit(s) && EventsInOrder(s) && Enabled(s, step) && step.Resolve?
    ensures EventsInOrder(Apply(s, step))
  {
    hide HandleEnvelope, Replied;
    var t, n := Apply(s, step), s.loops[step.loop].next;
    assert t.owner == s.owner && s.replies <= t.replies && |t.replies| <= |s.replies| + 1;
    assert s.owner[n] == step.loop;
    forall j | 0 <= j < |s.replies| && Shared(s, s.replies[j].index, n) ensures s.replies[j].index < n {
      assert Resolved(s, s.replies[j].index);
    }
  }

  lemma ReceiveBytes(s: Connection, chunk: Bytes)
    requires BytesFit(s)
    ensures BytesFit(Receive(s, chunk))
  {
    hide ParseFrames, DecodeWire, EncodeStream, Framable, DecodeEach;
    DeliverMore(s.delivered, s.buffer, chunk);
    var p := ParseFrames(s.buffer + chunk);
    if DecodeEach(p.frames, DecodeWire).Some? {
      DecodeEachConcat(s.delivered, p.frames, DecodeWire);
    } else {
      assert s.received + chunk == EncodeStream(s.delivered) + (s.buffer + chunk);
    }
  }

  lemma ReceiveEnd(s: Connection, chunk: Bytes)
    requires EndFits(s)
    ensures EndFits(Receive(s, chunk))
  {
    hide AsksShutdown, Arriving;
    var t := Receive(s, chunk);
    assert s.seen <= t.seen && t.ended == s.ended;
    if s.ended {
      var i :| 0 <= i < |s.seen| && AsksShutdown(s.seen[i]);
      assert t.seen[i] == s.seen[i];
    }
  }

  lemma StepKeepsInv(s: Connection, step: Step)
    requires Inv(s) && Enabled(s, step)
    ensures Inv(Apply(s, step))
  {
    hide LoopsFit, RepliesFit, EventsInOrder, BytesFit, EndFits, Receive, HandleEnvelope;
    if step.Data? {
      ReceiveLoops(s, step.chunk);
      ReceiveReplies(s, step.chunk);
      ReceiveBytes(s, step.chunk);
      ReceiveEnd(s, step.chunk);
    } else {
      ResolveLoops(s, step);
      ResolveReplies(s, step);
      ResolveInOrder(s, step);
      ResolveEnd(s, step);
    }
  }

  lemma ResolveEnd(s: Connection, step: Step)
    requires BytesFit(s) && EndFits(s) && Enabled(s, step) && step.Resolve?
    ensures BytesFit(Apply(s, step)) && EndFits(Apply(s, step))
  {
    hide HandleEnvelope, IntoMessage, EncodeStream, DecodeWire;
    RepliesEcho(s.seen[s.loops[step.loop].next], step.handled, step.text);
  }

  lemma {:induction false} RunKeepsInv(s: Connection, steps: seq<Step>)
    requires Inv(s) && CanRun(s, steps)
    ensures Inv(Run(s, steps))
    decreases |steps|
  {
    hide Inv, Apply, Enabled;
    if steps != [] {
      StepKeepsInv(s, steps[0]);
      RunKeepsInv(Apply(s, steps[0]), steps[1..]);
    }
  }

  predicate Nothing(s: Connection) {
    s.received == s.buffer == [] && s.delivered == [] && s.seen == [] && s.owner == [] && s.loops == [] &&
    s.replies == [] && !s.ended
  }

  lemma NothingFits(s: Connection)
    requires Nothing(s)
    ensures LoopsFit(s) && RepliesFit(s) && EventsInOrder(s) && EndFits(s) && InStep(s)
  {
    hide HandleEnvelope, IntoMessage;
  }

  lemma NoBytes(s: Connection)
    requires Nothing(s)
    ensures BytesFit(s)
  {
    hide FrameOf;
  }

  lemma StartInv()
    ensures Inv(START) && InStep(START)
  {
    hide LoopsFit, RepliesFit, EventsInOrder, BytesFit, EndFits, InStep;
    NothingFits(START);
    NoBytes(START);
  }

  lemma ReachableInv(steps: seq<Step>)
    requires CanRun(START, steps)
    ensures Inv(Run(START, steps))
  {
    hide Inv, CanRun, Run;
    StartInv();
    RunKeepsInv(START, steps);
  }

  /** All envelopes that have arrived have been handled. */
  predicate Quiet(s: Connection) {
    forall l :: 0 <= l < |s.loops| ==> !s.loops[l].Open()
  }

  /**
   In every interleaving, replies answer what arrived, each with its own id and trace, none twice, and
   those to one `data` event are in order; once everything is handled and nobody asked for a shutdown,
   everything has been replied to.
   */
  lemma EachIsAnsweredOnce(steps: seq<Step>)
    requires CanRun(START, steps)
    ensures var s := Run(START, steps);
            (forall k :: 0 <= k < |s.replies| ==> s.replies[k].index < |s.seen| && Answers(s, s.replies[k])) &&
            (forall j, k :: 0 <= j < k < |s.replies| ==> s.replies[j].index != s.replies[k].index) &&
            EventsInOrder(s) &&
            (Quiet(s) && (forall i :: 0 <= i < |s.seen| ==> !AsksShutdown(s.seen[i])) ==>
              |s.replies| == |s.seen| && forall i :: 0 <= i < |s.seen| ==> Replied(s, i))
  {
    hide HandleEnvelope, IntoMessage, EventsInOrder, BytesFit, Replied;
    ReachableInv(steps);
    var s := Run(START, steps);
    forall k | 0 <= k < |s.replies| ensures s.replies[k].index < |s.seen| && Answers(s, s.replies[k]) {
      var r := s.replies[k];
      RepliesEcho(s.seen[r.index], r.handled, r.text);
    }
    if Quiet(s) {
      forall i | 0 <= i < |s.seen| ensures Resolved(s, i) {
        assert !s.loops[s.owner[i]].Open();
      }
      if !s.ended {
        RepliesCount(s);
      }
    }
  }

  lemma RepliesCount(s: Connection)
    requires RepliesFit(s) && forall i :: 0 <= i < |s.seen| ==> Replied(s, i)
    ensures |s.replies| == |s.seen|
  {
    hide HandleEnvelope, Resolved;
    var xs := seq(|s.replies|, k requires 0 <= k < |s.replies| => s.replies[k].index);
    forall i | 0 <= i < |s.seen| ensures i in xs {
      assert Replied(s, i);
      var k :| 0 <= k < |s.replies| && s.replies[k].index == i;
      assert xs[k] == i;
    }
    EachNumberOnce(xs, |s.seen|);
  }

  lemma {:induction false} EachNumberOnce(xs: seq<nat>, n: nat)
    requires forall j, k :: 0 <= j < k < |xs| ==> xs[j] != xs[k]
    requires forall k :: 0 <= k < |xs| ==> xs[k] < n
    requires forall i :: 0 <= i < n ==> i in xs
    ensures |xs| == n
    decreases n
  {
    if n > 0 {
      assert n - 1 in xs;
      var p :| 0 <= p < |xs| && xs[p] == n - 1;
      var ys := xs[..p] + xs[p + 1..];
      assert forall k :: 0 <= k < |ys| ==> ys[k] == if k < p then xs[k] else xs[k + 1];
      forall i | 0 <= i < n - 1 ensures i in ys {
        assert i in xs;
        var k :| 0 <= k < |xs| && xs[k] == i;
        assert ys[if k < p then k else k - 1] == i;
      }
      EachNumberOnce(ys, n - 1);
    }
  }

  /** What the handler made of the envelope, a message to the host with the envelope's id and trace. */
  predicate Answers(s: Connection, r: Reply)
    requires r.index < |s.seen|
  {
    HandleEnvelope(s.seen[r.index], r.handled, r.text) == Some(r.envelope) &&
    IntoMessage(r.envelope).Ok? && IntoMessage(r.envelope).value.requestId == s.seen[r.index].requestId &&
    IntoMessage(r.envelope).value.trace == s.seen[r.index].trace
  }

  lemma {:induction false} DecodeEachConcat<E>(a: seq<Bytes>, b: seq<Bytes>, decode: Bytes -> Option<E>)
    requires DecodeEach(a, decode).Some? && DecodeEach(b, decode).Some?
    ensures DecodeEach(a + b, decode) == Some(DecodeEach(a, decode).value + DecodeEach(b, decode).value)
    decreases |b|
  {
    if b == [] {
      assert a + b == a && DecodeEach(a, decode).value + [] == DecodeEach(a, decode).value;
    } else {
      assert (a + b)[..|a + b| - 1] == a + b[..|b| - 1];
      DecodeEachConcat(a, b[..|b| - 1], decode);
      var last := decode(b[|b| - 1]).value;
      var es, fs := DecodeEach(a, decode).value, DecodeEach(b[..|b| - 1], decode).value;
      assert es + (fs + [last]) == es + fs + [last];
    }
  }

  // ---- When replies are in order

  ghost predicate InOrder(s: Connection) {
    forall j, k :: 0 <= j < k < |s.replies| ==> s.replies[j].index < s.replies[k].index
  }

  /** A later event overtakes: of two requests that arrive one by one, the second may be answered first. */
  lemma RepliesCanOvertake(m1: ProtocolMessage, h1: Handled, x1: Bytes, m2: ProtocolMessage, h2: Handled, x2: Bytes)
    requires !IsShutdown(m1) && !IsShutdown(m2) && |EncodeEnvelope(m1)| < TWO32 && |EncodeEnvelope(m2)| < TWO32
    ensures var steps := [Data(FrameOf(EncodeEnvelope(m1))), Data(FrameOf(EncodeEnvelope(m2))),
                          Resolve(1, h2, x2), Resolve(0, h1, x1)];
            CanRun(START, steps) &&
            Run(START, steps).replies == [Reply(1, h2, x2, FromMessage(ReplyTo(m2, h2, x2))),
                                          Reply(0, h1, x1, FromMessage(ReplyTo(m1, h1, x1)))]
  {
    hide HandleEnvelope, FromMessage, ReplyTo, EncodeEnvelope, FrameOf, Receive;
    var s1 := Receive(START, FrameOf(EncodeEnvelope(m1)));
    var s2 := Receive(s1, FrameOf(EncodeEnvelope(m2)));
    OneFrameArrives(START, m1);
    OneFrameArrives(s1, m2);
    ReplyIsEncoded(m1, h1, x1);
    ReplyIsEncoded(m2, h2, x2);
    var s3 := Apply(s2, Resolve(1, h2, x2));
    var s4 := Apply(s3, Resolve(0, h1, x1));
    RunsStep(s3, Resolve(0, h1, x1), []);
    RunsStep(s2, Resolve(1, h2, x2), [Resolve(0, h1, x1)]);
    RunsStep(s1, Data(FrameOf(EncodeEnvelope(m2))), [Resolve(1, h2, x2), Resolve(0, h1, x1)]);
    RunsStep(START, Data(FrameOf(EncodeEnvelope(m1))),
             [Data(FrameOf(EncodeEnvelope(m2))), Resolve(1, h2, x2), Resolve(0, h1, x1)]);
  }

  lemma RunsStep(s: Connection, step: Step, rest: seq<Step>)
    requires Enabled(s, step) && CanRun(Apply(s, step), rest)
    ensures CanRun(s, [step] + rest) && Run(s, [step] + rest) == Run(Apply(s, step), rest)
  {
    hide Enabled, Apply;
    assert ([step] + rest)[1..] == rest;
  }

  lemma DecodeOne<E>(frame: Bytes, e: E, decode: Bytes -> Option<E>)
    requires decode(frame) == Some(e)
    ensures DecodeEach([frame], decode) == Some([e])
  {
    var frames := [frame];
    assert frames[..|frames| - 1] == [];
    assert [] + [e] == [e];
  }

  lemma OneFrameArrives(s: Connection, m: ProtocolMessage)
    requires s.buffer == [] && |EncodeEnvelope(m)| < TWO32
    ensures var frame := FrameOf(EncodeEnvelope(m));
            Receive(s, frame) ==
              s.(received := s.received + frame, delivered := s.delivered + [EncodeEnvelope(m)],
                 seen := s.seen + [FromMessage(m)], owner := s.owner + [|s.loops|],
                 loops := s.loops + [Loop(|s.seen|, |s.seen|, |s.seen| + 1)])
  {
    hide FrameOf, ParseFrames, DecodeWire, FromMessage;
    var payload := EncodeEnvelope(m);
    assert [] + FrameOf(payload) == FrameOf(payload);
    FrameRoundTrip(payload);
    WireRoundTrip(FromMessage(m));
    assert DecodeEach([payload], DecodeWire) == Some([FromMessage(m)]) by { DecodeOne(payload, FromMessage(m), DecodeWire); }
  }

  /** Nothing arrives while something that arrived before is still being handled. */
  ghost predicate Polite(s: Connection, steps: seq<Step>)
    requires CanRun(s, steps)
    decreases |steps|
  {
    steps == [] ||
    ((steps[0].Data? && Arriving(s, steps[0].chunk) != [] ==> Quiet(s)) && Polite(Apply(s, steps[0]), steps[1..]))
  }

  /** Replies so far are those to the first envelopes, and the next one will be to the next envelope. */
  ghost predicate InStep(s: Connection) {
    (forall k :: 0 <= k < |s.replies| ==> s.replies[k].index == k) &&
    (!s.ended ==> forall l :: 0 <= l < |s.loops| && s.loops[l].Open() ==> s.loops[l].next == |s.replies|)
  }

  lemma QuietIsResolved(s: Connection)
    requires LoopsFit(s) && Quiet(s)
    ensures forall i :: 0 <= i < |s.seen| ==> Resolved(s, i)
  {
    forall i | 0 <= i < |s.seen| ensures Resolved(s, i) {
      assert !s.loops[s.owner[i]].Open();
    }
  }

  lemma QuietIsAnswered(s: Connection)
    requires LoopsFit(s) && RepliesFit(s) && InStep(s) && Quiet(s) && !s.ended
    ensures |s.replies| == |s.seen|
  {
    hide HandleEnvelope, LoopsFit, Resolved;
    QuietIsResolved(s);
    assert s.seen != [] ==> Replied(s, |s.seen| - 1);
    assert s.replies != [] ==> s.replies[|s.replies| - 1].index < |s.seen|;
  }

  lemma InStepKept(s: Connection, step: Step)
    requires Inv(s) && InStep(s) && Enabled(s, step)
    requires step.Data? && Arriving(s, step.chunk) != [] ==> Quiet(s)
    ensures InStep(Apply(s, step))
  {
    hide HandleEnvelope, Arriving, RepliesFit, EventsInOrder, BytesFit, EndFits;
    var t := Apply(s, step);
    if step.Data? {
      if Arriving(s, step.chunk) != [] && !s.ended {
        QuietIsAnswered(s);
      }
    } else {
      var n := s.loops[step.loop].next;
      forall l | 0 <= l < |t.loops| && t.loops[l].Open() && !t.ended ensures t.loops[l].next == |t.replies| {
        assert s.loops[l].Open();
        assert s.owner[s.loops[l].next] == l && s.owner[n] == step.loop;
      }
    }
  }

  lemma {:induction false} PoliteRunKeepsStep(s: Connection, steps: seq<Step>)
    requires Inv(s) && InStep(s) && CanRun(s, steps) && Polite(s, steps)
    ensures InStep(Run(s, steps))
    decreases |steps|
  {
    hide Inv, InStep, Apply, Enabled, Quiet;
    if steps != [] {
      StepKeepsInv(s, steps[0]);
      InStepKept(s, steps[0]);
      PoliteRunKeepsStep(Apply(s, steps[0]), steps[1..]);
    }
  }

  /** In polite runs, replies come in the order of what they answer, without a gap. */
  lemma PoliteRunsAreInOrder(steps: seq<Step>)
    requires CanRun(START, steps) && Polite(START, steps)
    ensures forall k :: 0 <= k < |Run(START, steps).replies| ==> Run(START, steps).replies[k].index == k
    ensures InStep(Run(START, steps)) && InOrder(Run(START, steps))
  {
    hide CanRun, Run, Polite, Inv;
    StartInv();
    PoliteRunKeepsStep(START, steps);
  }

  predicate OnlyResolves(steps: seq<Step>) {
    forall k :: 0 <= k < |steps| ==> steps[k].Resolve?
  }

  /** Whatever the handlers do from here on, replies stay in order. */
  ghost predicate OrderIsSafe(s: Connection) {
    forall steps :: CanRun(s, steps) && OnlyResolves(steps) ==> InOrder(Run(s, steps))
  }

  lemma {:induction false} ResolvesArePolite(s: Connection, steps: seq<Step>)
    requires CanRun(s, steps) && OnlyResolves(steps)
    ensures Polite(s, steps)
    decreases |steps|
  {
    hide Apply, Enabled;
    if steps != [] {
      assert forall k :: 0 <= k < |steps| - 1 ==> steps[1..][k] == steps[k + 1];
      ResolvesArePolite(Apply(s, steps[0]), steps[1..]);
    }
  }

  lemma InStepIsSafe(s: Connection)
    requires Inv(s) && InStep(s)
    ensures OrderIsSafe(s)
  {
    hide Inv, CanRun, Run, Polite, OnlyResolves;
    forall steps | CanRun(s, steps) && OnlyResolves(steps) ensures InOrder(Run(s, steps)) {
      ResolvesArePolite(s, steps);
      PoliteRunKeepsStep(s, steps);
    }
  }

  lemma TwoOpenLoopsAreUnsafe(s: Connection, l: nat, m: nat)
    requires LoopsFit(s) && l < m < |s.loops| && s.loops[l].Open() && s.loops[m].Open() && !s.ended
    requires s.loops[l].next < s.loops[m].next
    requires !AsksShutdown(s.seen[s.loops[l].next]) && !AsksShutdown(s.seen[s.loops[m].next])
    ensures !OrderIsSafe(s)
  {
    hide HandleEnvelope, IntoMessage;
    var h, x := Payload([]), [];
    var first, second := Resolve(m, h, x), Resolve(l, h, x);
    RepliesEcho(s.seen[s.loops[l].next], h, x);
    RepliesEcho(s.seen[s.loops[m].next], h, x);
    var t := Apply(s, first);
    var u := Apply(t, second);
    RunsStep(t, second, []);
    RunsStep(s, first, [second]);
    var n := |s.replies|;
    assert u.replies[n].index == s.loops[m].next && u.replies[n + 1].index == s.loops[l].next;
    assert OnlyResolves([first] + [second]) && CanRun(s, [first] + [second]) && !InOrder(Run(s, [first] + [second]));
  }

  /**
   As long as arrivals have been polite, the next `data` event leaves the order of replies safe from every
   schedule exactly when it brings no envelope or everything before it has been handled.
   */
  lemma OrderedExactlyWhilePolite(steps: seq<Step>, chunk: Bytes)
    requires CanRun(START, steps) && Polite(START, steps)
    requires forall i :: 0 <= i < |Receive(Run(START, steps), chunk).seen| ==>
               !AsksShutdown(Receive(Run(START, steps), chunk).seen[i])
    ensures var s := Run(START, steps);
            OrderIsSafe(Receive(s, chunk)) <==> Arriving(s, chunk) == [] || Quiet(s)
  {
    hide CanRun, Run, Polite, AsksShutdown, RepliesFit, EventsInOrder, BytesFit, Receive, Arriving, OrderIsSafe, InStep;
    var s := Run(START, steps);
    var t := Receive(s, chunk);
    ReachableInv(steps);
    PoliteRunsAreInOrder(steps);
    assert t == Apply(s, Data(chunk)) && Enabled(s, Data(chunk));
    StepKeepsInv(s, Data(chunk));
    if Arriving(s, chunk) == [] || Quiet(s) {
      InStepKept(s, Data(chunk));
      InStepIsSafe(t);
    } else {
      var l :| 0 <= l < |s.loops| && s.loops[l].Open();
      ArrivalOpensLoop(s, chunk);
      assert !t.ended by { NotEnded(t); }
      TwoOpenLoopsAreUnsafe(t, l, |s.loops|);
    }
  }

  lemma NotEnded(s: Connection)
    requires EndFits(s) && forall i :: 0 <= i < |s.seen| ==> !AsksShutdown(s.seen[i])
    ensures !s.ended
  {
  }

  lemma ArrivalOpensLoop(s: Connection, chunk: Bytes)
    requires LoopsFit(s) && Arriving(s, chunk) != []
    ensures var t := Receive(s, chunk);
            t.loops == s.loops + [Loop(|s.seen|, |s.seen|, |t.seen|)] && |t.seen| > |s.seen| && t.ended == s.ended
  {
    hide ParseFrames, DecodeWire, DecodeEach;
  }

  // ---- A host that waits for each reply

  predicate NoShutdown(ms: seq<ProtocolMessage>) {
    forall i :: 0 <= i < |ms| ==> !IsShutdown(ms[i])
  }

  function Encoded(ms: seq<ProtocolMessage>): seq<Bytes> {
    seq(|ms|, i requires 0 <= i < |ms| => EncodeEnvelope(ms[i]))
  }

  /** The bytes of as many messages as a host has sent that sends the next one after each reply. */
  function SentSoFar(s: Connection, ms: seq<ProtocolMessage>): Bytes {
    EncodeStream(Encoded(if |s.replies| < |ms| then ms[..|s.replies| + 1] else ms))
  }

  /** At each `data` event, no more has arrived than such a host has sent, in chunks of any size. */
  ghost predicate FromWaitingHost(s: Connection, ms: seq<ProtocolMessage>, steps: seq<Step>)
    requires CanRun(s, steps)
    decreases |steps|
  {
    steps == [] ||
    ((steps[0].Data? ==> s.received + steps[0].chunk <= SentSoFar(s, ms)) &&
     FromWaitingHost(Apply(s, steps[0]), ms, steps[1..]))
  }

  /** What has been decoded is the first messages of the host. */
  ghost predicate SeenFrom(s: Connection, ms: seq<ProtocolMessage>) {
    |s.seen| <= |ms| && forall i :: 0 <= i < |s.seen| ==> s.seen[i] == FromMessage(ms[i])
  }

  lemma {:induction false} DecodeEachAt<E>(frames: seq<Bytes>, i: nat, decode: Bytes -> Option<E>)
    requires DecodeEach(frames, decode).Some? && i < |frames|
    ensures |DecodeEach(frames, decode).value| == |frames|
    ensures decode(frames[i]) == Some(DecodeEach(frames, decode).value[i])
  {
    var n := |frames| - 1;
    if i < n {
      DecodeEachAt(frames[..n], i, decode);
    } else if n > 0 {
      DecodeEachAt(frames[..n], n - 1, decode);
    }
  }

  lemma EncodedFrames(ms: seq<ProtocolMessage>, sent: seq<ProtocolMessage>)
    requires sent <= ms && Framable(Encoded(ms))
    ensures Encoded(sent) <= Encoded(ms) && Framable(Encoded(sent))
  {
    hide EncodeEnvelope;
    forall i | 0 <= i < |sent| ensures Encoded(sent)[i] == Encoded(ms)[i] && Encoded(ms)[i] in Encoded(ms) {
      assert Encoded(ms)[i] == EncodeEnvelope(ms[i]);
    }
  }

  /** From bytes that are a part of what the host sent come its first messages. */
  lemma SeenInOrder(s: Connection, ms: seq<ProtocolMessage>)
    requires BytesFit(s) && Framable(Encoded(ms)) && s.received <= EncodeStream(Encoded(ms))
    ensures SeenFrom(s, ms)
  {
    hide EncodeEnvelope, DecodeWire, EncodeStream, FromMessage, Framable;
    DeliveredInOrder(s.delivered, s.buffer, Encoded(ms));
    if s.delivered != [] {
      DecodeEachAt(s.delivered, 0, DecodeWire);
    }
    assert |s.seen| == |s.delivered| by { SameLength(s.delivered, s.seen); }
    forall i | 0 <= i < |s.seen| ensures s.seen[i] == FromMessage(ms[i]) {
      DecodeEachAt(s.delivered, i, DecodeWire);
      assert s.delivered[i] == Encoded(ms)[i] == EncodeEnvelope(ms[i]);
      MessageDecodes(ms, i);
    }
  }

  lemma SameLength(frames: seq<Bytes>, es: seq<WireEnvelope>)
    requires DecodeEach(frames, DecodeWire) == Some(es)
    ensures |es| == |frames|
  {
    hide DecodeWire;
    if frames != [] {
      DecodeEachAt(frames, 0, DecodeWire);
    }
  }

  lemma MessageDecodes(ms: seq<ProtocolMessage>, i: nat)
    requires Framable(Encoded(ms)) && i < |ms|
    ensures DecodeWire(EncodeEnvelope(ms[i])) == Some(FromMessage(ms[i]))
  {
    hide DecodeWire, EncodeWire;
    assert Encoded(ms)[i] in Encoded(ms);
    WireRoundTrip(FromMessage(ms[i]));
  }

  lemma NoShutdownArrives(s: Connection, ms: seq<ProtocolMessage>)
    requires SeenFrom(s, ms) && NoShutdown(ms)
    ensures forall i :: 0 <= i < |s.seen| ==> !AsksShutdown(s.seen[i])
  {
    forall i | 0 <= i < |s.seen| ensures !AsksShutdown(s.seen[i]) {
      IntoMessageInverts(s.seen[i], ms[i]);
    }
  }

  /** A host that waits for each reply is polite: what arrives next finds everything handled. */
  lemma WaitingIsPolite(s: Connection, ms: seq<ProtocolMessage>, chunk: Bytes)
    requires Inv(s) && InStep(s) && NoShutdown(ms) && Framable(Encoded(ms))
    requires s.received + chunk <= SentSoFar(s, ms)
    ensures SeenFrom(Receive(s, chunk), ms)
    ensures Arriving(s, chunk) != [] ==> Quiet(s)
  {
    hide LoopsFit, RepliesFit, EventsInOrder, EndFits, BytesFit, InStep, SeenFrom, Receive, Encoded, EncodeStream, Framable, NoShutdown;
    var sent := if |s.replies| < |ms| then ms[..|s.replies| + 1] else ms;
    var t := Receive(s, chunk);
    EncodedFrames(ms, sent);
    ReceiveBytes(s, chunk);
    assert t.received == s.received + chunk by { ReceivedMore(s, chunk); }
    SeenInOrder(t, sent);
    assert SeenFrom(t, ms) && |t.seen| <= |sent| by { SeenFromMore(t, sent, ms); }
    if Arriving(s, chunk) != [] {
      ArrivalOpensLoop(s, chunk);
      assert !s.ended by {
        ReceivedMore(s, chunk);
        NoShutdownArrives(t, ms);
        ReceiveEnd(s, chunk);
        NotEnded(t);
      }
      AnsweredInStep(s);
    }
  }

  lemma ReceivedMore(s: Connection, chunk: Bytes)
    ensures Receive(s, chunk).received == s.received + chunk && s.seen <= Receive(s, chunk).seen
    ensures Receive(s, chunk).ended == s.ended
  {
    hide ParseFrames, DecodeWire, DecodeEach;
  }

  lemma SeenFromMore(s: Connection, sent: seq<ProtocolMessage>, ms: seq<ProtocolMessage>)
    requires SeenFrom(s, sent) && sent <= ms
    ensures SeenFrom(s, ms) && |s.seen| <= |sent|
  {
  }

  /** When there are as many replies as envelopes, nothing is being handled. */
  lemma AnsweredInStep(s: Connection)
    requires LoopsFit(s) && RepliesFit(s) && InStep(s) && !s.ended && |s.seen| <= |s.replies|
    ensures Quiet(s)
  {
    hide HandleEnvelope, Resolved, Replied;
    forall l | 0 <= l < |s.loops| ensures !s.loops[l].Open() {
    }
  }

  lemma {:induction false} WaitingRun(s: Connection, ms: seq<ProtocolMessage>, steps: seq<Step>)
    requires Inv(s) && InStep(s) && SeenFrom(s, ms) && NoShutdown(ms) && Framable(Encoded(ms))
    requires CanRun(s, steps) && FromWaitingHost(s, ms, steps)
    ensures Polite(s, steps) && SeenFrom(Run(s, steps), ms)
    decreases |steps|
  {
    hide Inv, InStep, SeenFrom, SentSoFar, Framable, Encoded, NoShutdown, Receive, Arriving, Quiet, HandleEnvelope;
    if steps != [] {
      var step := steps[0];
      if step.Data? {
        WaitingIsPolite(s, ms, step.chunk);
      } else {
        ResolveSeesNothingNew(s, ms, step);
      }
      StepKeepsInv(s, step);
      InStepKept(s, step);
      WaitingRun(Apply(s, step), ms, steps[1..]);
    }
  }

  lemma ResolveSeesNothingNew(s: Connection, ms: seq<ProtocolMessage>, step: Step)
    requires SeenFrom(s, ms) && Enabled(s, step) && step.Resolve?
    ensures SeenFrom(Apply(s, step), ms)
  {
    hide HandleEnvelope;
  }

  function WireReplies(replies: seq<Reply>): seq<Bytes> {
    seq(|replies|, k requires 0 <= k < |replies| => EncodeWire(replies[k].envelope))
  }

  /** What the runtime has written to the socket. */
  function Written(s: Connection): Bytes {
    EncodeStream(WireReplies(s.replies))
  }

  /** The messages in the replies. */
  function Answering(ms: seq<ProtocolMessage>, replies: seq<Reply>): seq<ProtocolMessage>
    requires NoShutdown(ms) && |replies| <= |ms|
  {
    seq(|replies|, k requires 0 <= k < |replies| => ReplyTo(ms[k], replies[k].handled, replies[k].text))
  }

  /**
   For a host that waits for each reply, however its bytes are cut and the runtime is scheduled, what is
   written back is the replies to its messages, one after the other.
   */
  lemma WaitingHostIsAnswered(ms: seq<ProtocolMessage>, steps: seq<Step>)
    requires NoShutdown(ms) && Framable(Encoded(ms))
    requires CanRun(START, steps) && FromWaitingHost(START, ms, steps)
    ensures var s := Run(START, steps);
            Polite(START, steps) && |s.replies| <= |ms| && WireReplies(s.replies) == Encoded(Answering(ms, s.replies))
  {
    hide CanRun, Run, FromWaitingHost, Polite, InStep, RepliesFit, LoopsFit, EventsInOrder, BytesFit, EndFits, EncodeWire, EncodeStream, Framable, HandleEnvelope, FromMessage, ReplyTo, IsShutdown;
    StartInv();
    assert SeenFrom(START, ms);
    WaitingRun(START, ms, steps);
    var s := Run(START, steps);
    ReachableInv(steps);
    PoliteRunsAreInOrder(steps);
    forall k | 0 <= k < |s.replies|
      ensures k < |s.seen| && s.replies[k].envelope == FromMessage(ReplyTo(ms[k], s.replies[k].handled, s.replies[k].text))
    {
      ReplyFits(s, k);
      ReplyIsEncoded(ms[k], s.replies[k].handled, s.replies[k].text);
    }
    if s.replies != [] {
      ReplyFits(s, |s.replies| - 1);
    }
    assert WireReplies(s.replies) == Encoded(Answering(ms, s.replies));
  }

  lemma ReplyFits(s: Connection, k: nat)
    requires RepliesFit(s) && k < |s.replies|
    ensures var r := s.replies[k];
            r.index < |s.seen| && HandleEnvelope(s.seen[r.index], r.handled, r.text) == Some(r.envelope)
  {
    hide HandleEnvelope, Resolved, Replied;
  }

  /** The runtime's end of one connection; each open loop is a `data` handler that awaits a reply. */
  class SocketHandler {
    const reader: SocketReader<WireEnvelope>
    var envelopes: seq<WireEnvelope>
    var loops: seq<Loop>
    var written: Bytes
    var ended: bool
    ghost var owner: seq<nat>
    ghost var replies: seq<Reply>

    ghost function View(): Connection
      reads this, reader
    {
      Connection(reader.received, reader.buffer, reader.delivered, envelopes, owner, loops, replies, ended)
    }

    ghost predicate Valid()
      reads this, reader
    {
      reader.Valid() && reader.decode == DecodeWire && Inv(View()) && written == Written(View())
    }

    constructor ()
      ensures Valid() && fresh(reader) && View() == START
    {
      hide Inv, EncodeStream, DecodeWire, WireReplies, Framable, Written, FrameOf, ParseFrames;
      reader := new SocketReader<WireEnvelope>(DecodeWire);
      envelopes, loops, written, ended, owner, replies := [], [], [], false, [], [];
      new;
      StartInv();
      NothingWritten();
    }

    /** A `data` event up to its first await; `ok` is false when a complete frame cannot be decoded. */
    method OnData(chunk: Bytes) returns (ok: bool)
      requires Valid()
      modifies this, reader
      ensures Valid() && View() == Apply(old(View()), Data(chunk))
      ensures written == old(written) && ended == old(ended) && old(envelopes) <= envelopes && old(loops) <= loops
      ensures loops == if |envelopes| == |old(envelopes)| then old(loops)
                       else old(loops) + [Loop(|old(envelopes)|, |old(envelopes)|, |envelopes|)]
      ensures ok <==> DecodeEach(ParseFrames(old(reader.buffer) + chunk).frames, DecodeWire).Some?
    {
      hide Inv, DecodeWire, ParseFrames, DecodeEach, EncodeStream, Framable;
      StepKeepsInv(View(), Data(chunk));
      var decoded := reader.OnData(chunk);
      if decoded.None? {
        return false;
      }
      var first, l := |envelopes|, |loops|;
      envelopes := envelopes + decoded.value;
      owner := owner + seq(|decoded.value|, _ => l);
      if decoded.value != [] {
        loops := loops + [Loop(first, first, |envelopes|)];
      }
      return true;
    }

    /** A reply is ready: it is written, and the loop goes on to its next envelope. */
    method OnReply(loop: nat, handled: Handled, text: Bytes)
      requires Valid() && Enabled(View(), Resolve(loop, handled, text))
      modifies this
      ensures Valid() && View() == Apply(old(View()), Resolve(loop, handled, text))
      ensures var l := old(loops)[loop]; var reply := HandleEnvelope(envelopes[l.next], handled, text);
              envelopes == old(envelopes) && loops == old(loops)[loop := Loop(l.first, l.next + 1, l.end)] &&
              ended == (old(ended) || reply.None?) &&
              written == old(written) + if reply.Some? && !old(ended) then FrameOf(EncodeWire(reply.value)) else []
    {
      hide Inv, HandleEnvelope, FrameOf, EncodeWire;
      StepKeepsInv(View(), Resolve(loop, handled, text));
      var i := loops[loop].next;
      var response := HandleEnvelope(envelopes[i], handled, text);
      match response {
        case None => ended := true;
        case Some(reply) =>
          if !ended {
            var frame := EncodeFrame(EncodeWire(reply));
            written := written + frame[..];
            WriteOneMore(replies, Reply(i, handled, text, reply));
            replies := replies + [Reply(i, handled, text, reply)];
          }
      }
      loops := loops[loop := loops[loop].(next := i + 1)];
    }
  }

  lemma NothingWritten()
    ensures Written(START) == []
  {
    hide EncodeWire, FrameOf;
  }

  lemma WriteOneMore(replies: seq<Reply>, r: Reply)
    ensures EncodeStream(WireReplies(replies + [r])) == EncodeStream(WireReplies(replies)) + FrameOf(EncodeWire(r.envelope))
  {
    hide FrameOf, EncodeWire;
    assert WireReplies(replies + [r]) == WireReplies(replies) + [EncodeWire(r.envelope)];
    EncodeStreamConcat(WireReplies(replies), [EncodeWire(r.envelope)]);
    assert EncodeStream([EncodeWire(r.envelope)]) == FrameOf(EncodeWire(r.envelope)) by {
      var one := [EncodeWire(r.envelope)];
      assert one[1..] == [];
    }
  }

  // ---- The host's end

  /** What one read off the stream gives, and what it leaves. */
  function ReadOne(stream: Bytes): (Answer, Bytes) {
    if HasCompleteFrame(stream) then
      (match DecodeEnvelope(FirstPayload(stream)) case Ok(m) => Ok(m) case Err(_) => Err(Transport), AfterFirst(stream))
    else (Err(Transport), [])
  }

  /** Reading the replies one after the other gives them in order, and each is the answer to its own request. */
  lemma ReadsOwnAnswer(replies: seq<ProtocolMessage>)
    requires replies != [] && Framable(Encoded(replies))
    ensures ReadOne(EncodeStream(Encoded(replies))) == (Ok(replies[0]), EncodeStream(Encoded(replies[1..])))
  {
    hide EncodeEnvelope, DecodeEnvelope, HasCompleteFrame, FirstPayload, AfterFirst, FrameOf;
    var first := EncodeEnvelope(replies[0]);
    assert Encoded(replies)[0] == first && Encoded(replies)[1..] == Encoded(replies[1..]);
    assert first in Encoded(replies);
    FirstFrame(first, EncodeStream(Encoded(replies[1..])));
    EnvelopeRoundTrip(replies[0]);
  }

  /** A caller gets what its own method did, and never another request's answer. */
  lemma OutcomeIsHandled<T>(id: u64, methodId: u32, payload: Bytes, trace: Option<TraceContext>,
                            handled: Handled, text: Bytes, decode: Bytes -> Option<T>)
    ensures Outcome(id, Ok(ReplyTo(RpcRequest(id, methodId, payload, trace), handled, text)), decode) ==
              match handled case Payload(p) => Decoded(p, decode) case Fault(error) => Err(Framework(error))
  {
  }

  /**
   For a host that waits for each reply, once the last request is answered, its caller reads exactly the
   outcome of its own method, whatever came before.
   */
  lemma InvokeOverSocket<T>(before: seq<ProtocolMessage>, id: u64, methodId: u32, payload: Bytes, trace: Option<TraceContext>,
                            steps: seq<Step>, decode: Bytes -> Option<T>)
    requires var ms := before + [RpcRequest(id, methodId, payload, trace)];
             NoShutdown(ms) && Framable(Encoded(ms)) && CanRun(START, steps) && FromWaitingHost(START, ms, steps)
    requires |Run(START, steps).replies| == |before| + 1 && Framable(WireReplies(Run(START, steps).replies))
    ensures var s := Run(START, steps); var n := |before|;
            var earlier := EncodeStream(WireReplies(s.replies[..n]));
            earlier <= Written(s) &&
            var (answer, left) := ReadOne(Written(s)[|earlier|..]);
            left == [] &&
            Outcome(id, answer, decode) ==
              match s.replies[n].handled case Payload(p) => Decoded(p, decode) case Fault(error) => Err(Framework(error))
  {
    hide ReplyTo, EncodeEnvelope, EncodeWire, ReadOne, Outcome, EncodeStream, CanRun, Run, FromWaitingHost, Polite;
    var ms := before + [RpcRequest(id, methodId, payload, trace)];
    var s, n := Run(START, steps), |before|;
    WaitingHostIsAnswered(ms, steps);
    var answers := Answering(ms, s.replies);
    assert Encoded(answers) == Encoded(answers[..n]) + Encoded(answers[n..]);
    assert Encoded(answers[..n]) == WireReplies(s.replies[..n]) by {
      assert WireReplies(s.replies[..n]) == WireReplies(s.replies)[..n];
    }
    EncodeStreamConcat(Encoded(answers[..n]), Encoded(answers[n..]));
    assert Framable(Encoded(answers[n..])) by {
      assert forall p <- Encoded(answers[n..]) :: p in Encoded(answers);
    }
    ReadsOwnAnswer(answers[n..]);
    assert answers[n..][1..] == [];
    assert EncodeStream(Encoded([])) == [] by { NothingEncoded(); }
    OutcomeIsHandled(id, methodId, payload, trace, s.replies[n].handled, s.replies[n].text, decode);
  }

  lemma NothingEncoded()
    ensures EncodeStream(Encoded([])) == []
  {
  }

  /** The socket as the host sees it: what it has written, and what has arrived and is still unread. */
  class UnixSocketTransport {
    var written: Bytes
    var unread: Bytes

    constructor ()
      ensures written == [] && unread == []
    {
      written, unread := [], [];
    }

    method ReadExact(n: nat) returns (bs: Option<Bytes>)
      modifies this`unread
      ensures if n <= |old(unread)| then bs == Some(old(unread)[..n]) && unread == old(unread)[n..]
              else bs == None && unread == []
    {
      if n > |unread| {
        unread := [];
        return None;
      }
      bs := Some(unread[..n]);
      unread := unread[n..];
    }

    /** `arriving` is what the other end sends before it closes the connection or falls silent for good. */
    method Send(message: ProtocolMessage, arriving: Bytes) returns (answer: Answer)
      modifies this
      ensures written == old(written) + FrameOf(EncodeEnvelope(message))
      ensures (answer, unread) == ReadOne(old(unread) + arriving)
      ensures answer.Ok? ==>
                exists frame, rest :: old(unread) + arriving == FrameOf(frame) + rest && |frame| < TWO32 &&
                                      DecodeEnvelope(frame) == Ok(answer.value) && unread == rest
    {
      hide EncodeEnvelope, DecodeEnvelope;
      var payload := EncodeEnvelope(message);
      written := written + LengthPrefix(|payload|);
      written := written + payload;
      unread := unread + arriving;
      ghost var stream := unread;
      var len := ReadExact(4);
      if len.None? {
        return Err(Transport);
      }
      var frameLen := ReadLength(len.value);
      assert ReadLength(stream) == frameLen by { assert len.value[..4] == stream[..4]; }
      var frame := ReadExact(frameLen);
      if frame.None? {
        return Err(Transport);
      }
      var decoded := DecodeEnvelope(frame.value);
      assert frame.value == FirstPayload(stream) && unread == AfterFirst(stream);
      FrameSplit(stream);
      match decoded
      case Ok(m) => return Ok(m);
      case Err(_) => return Err(Transport);
    }
  }
}
