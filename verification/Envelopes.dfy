/**
 Protocol envelopes: crates/plugin-protocol/src/envelope.rs and control.rs.

 A message becomes a wire envelope, the wire envelope a list of records, the records bytes; decoding
 runs the other way and merges records into a default envelope one at a time, so the last
 occurrence of a field wins ("Last One Wins" in the Protocol Buffers Encoding specification).
 Strings are their bytes.
 */
module Envelopes {
  import opened Wrappers
  import opened Wire

  const PROTOCOL_VERSION: u32 := 1

  // ---- Messages

  datatype ControlMessage = Ping | Pong | Shutdown
  {
    function ToWire(): i32 {
      match this
      case Ping => 0
      case Pong => 1
      case Shutdown => 2
    }

    static function FromWire(value: i32): (r: Option<ControlMessage>)
      ensures forall kind: ControlMessage :: r == Some(kind) <==> kind.ToWire() == value
    {
      if value == 0 then Some(Ping) else if value == 1 then Some(Pong)
      else if value == 2 then Some(Shutdown) else None
    }
  }

  datatype FrameworkErrorCode = Unknown | Timeout | ProtocolVersionMismatch | DecodeFailed
  {
    function ToWire(): i32 {
      match this
      case Unknown => 0
      case Timeout => 1
      case ProtocolVersionMismatch => 2
      case DecodeFailed => 3
    }

    static function FromWire(value: i32): (r: Option<FrameworkErrorCode>)
      ensures forall code: FrameworkErrorCode :: r == Some(code) <==> code.ToWire() == value
    {
      if value == 0 then Some(Unknown) else if value == 1 then Some(Timeout)
      else if value == 2 then Some(ProtocolVersionMismatch)
      else if value == 3 then Some(DecodeFailed) else None
    }
  }

  datatype FrameworkError = FrameworkError(code: FrameworkErrorCode, message: Bytes)

  datatype TraceContext = TraceContext(traceId: Bytes, spanId: Bytes, traceFlags: u32)

  datatype ProtocolMessage =
    | RpcRequest(requestId: u64, methodId: u32, payload: Bytes, trace: Option<TraceContext>)
    | RpcResponse(requestId: u64, payload: Bytes, trace: Option<TraceContext>)
    | Control(requestId: u64, control: ControlMessage, trace: Option<TraceContext>)
    | Error(requestId: u64, error: FrameworkError, trace: Option<TraceContext>)

  datatype ProtocolError =
    | Malformed
    | UnsupportedVersion(version: u32)
    | MissingBody
    | UnknownControlMessage(kind: i32)
    | UnknownFrameworkErrorCode(code: i32)

  // ---- Wire envelopes

  datatype WireBody =
    | WireRequest(methodId: u32, payload: Bytes)
    | WireResponse(payload: Bytes)
    | WireControl(kind: i32)
    | WireError(code: i32, message: Bytes)
  {
    function Tag(): nat {
      match this
      case WireRequest(_, _) => 4
      case WireResponse(_) => 5
      case WireControl(_) => 6
      case WireError(_, _) => 7
    }
  }

  datatype WireEnvelope = WireEnvelope(
    protocolVersion: u32,
    requestId: u64,
    trace: Option<TraceContext>,
    body: Option<WireBody>)

  const NO_TRACE := TraceContext([], [], 0)
  const EMPTY_ENVELOPE := WireEnvelope(0, 0, None, None)

  function EmptyBody(tag: nat): WireBody
    requires 4 <= tag <= 7
  {
    if tag == 4 then WireRequest(0, []) else if tag == 5 then WireResponse([])
    else if tag == 6 then WireControl(0) else WireError(0, [])
  }

  function FromMessage(m: ProtocolMessage): WireEnvelope {
    WireEnvelope(
      PROTOCOL_VERSION, m.requestId, m.trace,
      Some(match m
           case RpcRequest(_, methodId, payload, _) => WireRequest(methodId, payload)
           case RpcResponse(_, payload, _) => WireResponse(payload)
           case Control(_, control, _) => WireControl(control.ToWire())
           case Error(_, error, _) => WireError(error.code.ToWire(), error.message)))
  }

  function IntoMessage(e: WireEnvelope): Result<ProtocolMessage, ProtocolError> {
    if e.protocolVersion != PROTOCOL_VERSION then Err(UnsupportedVersion(e.protocolVersion))
    else
      match e.body
      case None => Err(MissingBody)
      case Some(WireRequest(methodId, payload)) => Ok(RpcRequest(e.requestId, methodId, payload, e.trace))
      case Some(WireResponse(payload)) => Ok(RpcResponse(e.requestId, payload, e.trace))
      case Some(WireControl(kind)) =>
        (match ControlMessage.FromWire(kind)
         case None => Err(UnknownControlMessage(kind))
         case Some(control) => Ok(Control(e.requestId, control, e.trace)))
      case Some(WireError(code, message)) =>
        match FrameworkErrorCode.FromWire(code)
        case None => Err(UnknownFrameworkErrorCode(code))
        case Some(known) => Ok(Error(e.requestId, FrameworkError(known, message), e.trace))
  }

  // ---- Encoding: default-valued scalars are left out, present sub-messages never are

  function Int32ToVarint(k: i32): u64 {
    if k < 0 then k + TWO64 else k
  }

  function VarintToUint32(v: u64): u32 {
    v % TWO32
  }

  function VarintToInt32(v: u64): i32 {
    if v % TWO32 >= 0x8000_0000 then v % TWO32 - TWO32 else v % TWO32
  }

  function Scalar(tag: nat, value: u64): seq<Record> {
    if value == 0 then [] else [Varint(tag, value)]
  }

  function Text(tag: nat, content: Bytes): seq<Record> {
    if content == [] then [] else [Delimited(tag, content)]
  }

  function TraceRecords(t: TraceContext): seq<Record> {
    Text(1, t.traceId) + Text(2, t.spanId) + Scalar(3, t.traceFlags)
  }

  function BodyRecords(b: WireBody): seq<Record> {
    match b
    case WireRequest(methodId, payload) => Scalar(1, methodId) + Text(2, payload)
    case WireResponse(payload) => Text(1, payload)
    case WireControl(kind) => Scalar(1, Int32ToVarint(kind))
    case WireError(code, message) => Scalar(1, Int32ToVarint(code)) + Text(2, message)
  }

  function EnvelopeRecords(e: WireEnvelope): seq<Record> {
    Scalar(1, e.protocolVersion) + Scalar(2, e.requestId) +
    (if e.trace.None? then [] else [Delimited(3, EncodeRecords(TraceRecords(e.trace.value)))]) +
    (if e.body.None? then [] else [Delimited(e.body.value.Tag(), EncodeRecords(BodyRecords(e.body.value)))])
  }

  function EncodeWire(e: WireEnvelope): Bytes {
    EncodeRecords(EnvelopeRecords(e))
  }

  function EncodeEnvelope(m: ProtocolMessage): Bytes {
    EncodeWire(FromMessage(m))
  }

  // ---- Decoding: merge one record at a time; an unknown tag is skipped, a wrong wire type is an error

  function MergeAll<M>(m: M, rs: seq<Record>, merge: (M, Record) -> Option<M>): Option<M>
    decreases |rs|
  {
    if rs == [] then Some(m)
    else
      match merge(m, rs[0])
      case None => None
      case Some(next) => MergeAll(next, rs[1..], merge)
  }

  function MergeBytes<M>(m: M, bs: Bytes, merge: (M, Record) -> Option<M>): Option<M> {
    match ParseRecords(bs)
    case None => None
    case Some(rs) => MergeAll(m, rs, merge)
  }

  function MergeTrace(t: TraceContext, r: Record): Option<TraceContext> {
    match r.tag
    case 1 => if r.Delimited? then Some(t.(traceId := r.content)) else None
    case 2 => if r.Delimited? then Some(t.(spanId := r.content)) else None
    case 3 => if r.Varint? then Some(t.(traceFlags := VarintToUint32(r.value))) else None
    case _ => Some(t)
  }

  function MergeBody(b: WireBody, r: Record): Option<WireBody> {
    match b
    case WireRequest(_, _) =>
      if r.tag == 1 then if r.Varint? then Some(b.(methodId := VarintToUint32(r.value))) else None
      else if r.tag == 2 then if r.Delimited? then Some(b.(payload := r.content)) else None
      else Some(b)
    case WireResponse(_) =>
      if r.tag == 1 then if r.Delimited? then Some(b.(payload := r.content)) else None
      else Some(b)
    case WireControl(_) =>
      if r.tag == 1 then if r.Varint? then Some(b.(kind := VarintToInt32(r.value))) else None
      else Some(b)
    case WireError(_, _) =>
      if r.tag == 1 then if r.Varint? then Some(b.(code := VarintToInt32(r.value))) else None
      else if r.tag == 2 then if r.Delimited? then Some(b.(message := r.content)) else None
      else Some(b)
  }

  /** What an arriving body of this tag is merged into: the body already there if it has the same tag. */
  function BodyBase(e: WireEnvelope, tag: nat): WireBody
    requires 4 <= tag <= 7
  {
    if e.body.Some? && e.body.value.Tag() == tag then e.body.value else EmptyBody(tag)
  }

  function MergeEnvelope(e: WireEnvelope, r: Record): Option<WireEnvelope> {
    if r.tag == 1 then if r.Varint? then Some(e.(protocolVersion := VarintToUint32(r.value))) else None
    else if r.tag == 2 then if r.Varint? then Some(e.(requestId := r.value)) else None
    else if r.tag == 3 then
      if !r.Delimited? then None
      else
        match MergeBytes(if e.trace.Some? then e.trace.value else NO_TRACE, r.content, MergeTrace)
        case None => None
        case Some(t) => Some(e.(trace := Some(t)))
    else if 4 <= r.tag <= 7 then
      if !r.Delimited? then None
      else
        match MergeBytes(BodyBase(e, r.tag), r.content, MergeBody)
        case None => None
        case Some(b) => Some(e.(body := Some(b)))
    else Some(e)
  }

  function DecodeWire(bs: Bytes): Option<WireEnvelope> {
    MergeBytes(EMPTY_ENVELOPE, bs, MergeEnvelope)
  }

  function DecodeEnvelope(bs: Bytes): Result<ProtocolMessage, ProtocolError> {
    match DecodeWire(bs)
    case None => Err(Malformed)
    case Some(e) => IntoMessage(e)
  }

  // ---- The reference: what putting one envelope after another means

  function LaterText(earlier: Bytes, later: Bytes): Bytes {
    if later == [] then earlier else later
  }

  function OverlayTrace(a: TraceContext, b: TraceContext): TraceContext {
    TraceContext(LaterText(a.traceId, b.traceId), LaterText(a.spanId, b.spanId),
                 if b.traceFlags == 0 then a.traceFlags else b.traceFlags)
  }

  function OverlayBody(a: WireBody, b: WireBody): WireBody {
    match (a, b)
    case (WireRequest(m, p), WireRequest(n, q)) => WireRequest(if n == 0 then m else n, LaterText(p, q))
    case (WireResponse(p), WireResponse(q)) => WireResponse(LaterText(p, q))
    case (WireControl(k), WireControl(l)) => WireControl(if l == 0 then k else l)
    case (WireError(c, t), WireError(d, u)) => WireError(if d == 0 then c else d, LaterText(t, u))
    case _ => b
  }

  /** Fields that `b` sets replace those of `a`; sub-messages of the same kind are merged. */
  function Overlay(a: WireEnvelope, b: WireEnvelope): WireEnvelope {
    WireEnvelope(
      if b.protocolVersion == 0 then a.protocolVersion else b.protocolVersion,
      if b.requestId == 0 then a.requestId else b.requestId,
      if a.trace.Some? && b.trace.Some? then Some(OverlayTrace(a.trace.value, b.trace.value))
      else if b.trace.Some? then b.trace else a.trace,
      if a.body.Some? && b.body.Some? then Some(OverlayBody(a.body.value, b.body.value))
      else if b.body.Some? then b.body else a.body)
  }

  // ---- Proofs

  lemma {:induction false} MergeAllConcat<M>(m: M, a: seq<Record>, b: seq<Record>, merge: (M, Record) -> Option<M>)
    ensures MergeAll(m, a + b, merge) ==
            match MergeAll(m, a, merge) case None => None case Some(mid) => MergeAll(mid, b, merge)
    decreases |a|
  {
    if a == [] {
      assert a + b == b;
    } else {
      assert (a + b)[0] == a[0] && (a + b)[1..] == a[1..] + b;
      if merge(m, a[0]).Some? {
        MergeAllConcat(merge(m, a[0]).value, a[1..], b, merge);
      }
    }
  }

  lemma MergeOptional<M>(m: M, rs: seq<Record>, next: M, merge: (M, Record) -> Option<M>)
    requires |rs| <= 1
    requires next == m || |rs| == 1
    requires |rs| == 1 ==> merge(m, rs[0]) == Some(next)
    ensures MergeAll(m, rs, merge) == Some(next)
  {
    if |rs| == 1 {
      assert rs[1..] == [];
    }
  }

  predicate AllWellFormed(rs: seq<Record>) {
    forall r <- rs :: r.WellFormed()
  }

  /** Decoding the encoding of records is merging the records. */
  lemma MergeEncoded<M>(m: M, rs: seq<Record>, merge: (M, Record) -> Option<M>)
    requires AllWellFormed(rs)
    ensures MergeBytes(m, EncodeRecords(rs), merge) == MergeAll(m, rs, merge)
  {
    RecordsRoundTrip(rs, []);
    assert EncodeRecords(rs) + [] == EncodeRecords(rs) && rs + [] == rs;
  }

  lemma TraceMerges(a: TraceContext, b: TraceContext)
    ensures MergeAll(a, TraceRecords(b), MergeTrace) == Some(OverlayTrace(a, b))
  {
    var a1 := a.(traceId := LaterText(a.traceId, b.traceId));
    var a2 := a1.(spanId := LaterText(a.spanId, b.spanId));
    MergeOptional(a, Text(1, b.traceId), a1, MergeTrace);
    MergeOptional(a1, Text(2, b.spanId), a2, MergeTrace);
    MergeOptional(a2, Scalar(3, b.traceFlags), OverlayTrace(a, b), MergeTrace);
    MergeAllConcat(a, Text(1, b.traceId), Text(2, b.spanId), MergeTrace);
    MergeAllConcat(a, Text(1, b.traceId) + Text(2, b.spanId), Scalar(3, b.traceFlags), MergeTrace);
  }

  /** A body of two fields. */
  lemma TwoFieldsMerge(a: WireBody, x: seq<Record>, mid: WireBody, y: seq<Record>, end: WireBody)
    requires |x| <= 1 && (mid == a || |x| == 1) && (|x| == 1 ==> MergeBody(a, x[0]) == Some(mid))
    requires |y| <= 1 && (end == mid || |y| == 1) && (|y| == 1 ==> MergeBody(mid, y[0]) == Some(end))
    ensures MergeAll(a, x + y, MergeBody) == Some(end)
  {
    hide MergeBody, MergeAll;
    MergeOptional(a, x, mid, MergeBody);
    MergeOptional(mid, y, end, MergeBody);
    MergeAllConcat(a, x, y, MergeBody);
  }

  lemma BodyMerges(a: WireBody, b: WireBody)
    requires a.Tag() == b.Tag()
    ensures MergeAll(a, BodyRecords(b), MergeBody) == Some(OverlayBody(a, b))
  {
    hide MergeAll;
    var end := OverlayBody(a, b);
    match b
    case WireRequest(methodId, payload) =>
      TwoFieldsMerge(a, Scalar(1, methodId), a.(methodId := end.methodId), Text(2, payload), end);
    case WireResponse(payload) =>
      MergeOptional(a, Text(1, payload), end, MergeBody);
    case WireControl(kind) =>
      MergeOptional(a, Scalar(1, Int32ToVarint(kind)), end, MergeBody);
    case WireError(code, message) =>
      TwoFieldsMerge(a, Scalar(1, Int32ToVarint(code)), a.(code := end.code), Text(2, message), end);
  }

  predicate ContentsBelow(rs: seq<Record>, bound: nat) {
    forall r <- rs :: r.Delimited? ==> |r.content| < bound
  }

  lemma TraceFits(t: TraceContext)
    requires |EncodeRecords(TraceRecords(t))| < TWO64
    ensures AllWellFormed(TraceRecords(t))
  {
    hide EncodeRecords;
    ContentFits(TraceRecords(t));
  }

  lemma BodyFits(b: WireBody)
    requires |EncodeRecords(BodyRecords(b))| < TWO64
    ensures AllWellFormed(BodyRecords(b))
  {
    hide EncodeRecords;
    ContentFits(BodyRecords(b));
  }

  lemma EnvelopeFieldsFit(e: WireEnvelope)
    requires ContentsBelow(EnvelopeRecords(e), TWO64)
    ensures AllWellFormed(EnvelopeRecords(e))
    ensures e.trace.Some? ==> |EncodeRecords(TraceRecords(e.trace.value))| < TWO64
    ensures e.body.Some? ==> |EncodeRecords(BodyRecords(e.body.value))| < TWO64
  {
    hide EncodeRecords, TraceRecords, BodyRecords;
    var rs := EnvelopeRecords(e);
    if e.trace.Some? {
      assert Delimited(3, EncodeRecords(TraceRecords(e.trace.value))) in rs;
    }
    if e.body.Some? {
      assert Delimited(e.body.value.Tag(), EncodeRecords(BodyRecords(e.body.value))) in rs;
    }
  }

  lemma EnvelopeFits(e: WireEnvelope)
    requires |EncodeWire(e)| < TWO64
    ensures AllWellFormed(EnvelopeRecords(e))
    ensures e.trace.Some? ==> AllWellFormed(TraceRecords(e.trace.value))
    ensures e.body.Some? ==> AllWellFormed(BodyRecords(e.body.value))
  {
    hide EncodeRecords, EnvelopeRecords, TraceRecords, BodyRecords, AllWellFormed;
    ContentFits(EnvelopeRecords(e));
    EnvelopeFieldsFit(e);
    if e.trace.Some? {
      TraceFits(e.trace.value);
    }
    if e.body.Some? {
      BodyFits(e.body.value);
    }
  }

  lemma TraceFieldMerges(a: WireEnvelope, t: TraceContext)
    requires AllWellFormed(TraceRecords(t))
    ensures MergeEnvelope(a, Delimited(3, EncodeRecords(TraceRecords(t)))) ==
            Some(a.(trace := Some(if a.trace.Some? then OverlayTrace(a.trace.value, t) else t)))
  {
    var base := if a.trace.Some? then a.trace.value else NO_TRACE;
    MergeEncoded(base, TraceRecords(t), MergeTrace);
    TraceMerges(base, t);
  }

  lemma BodyFieldMerges(a: WireEnvelope, b: WireBody)
    requires AllWellFormed(BodyRecords(b))
    ensures MergeEnvelope(a, Delimited(b.Tag(), EncodeRecords(BodyRecords(b)))) ==
            Some(a.(body := Some(if a.body.Some? then OverlayBody(a.body.value, b) else b)))
  {
    hide ParseRecords, EncodeRecords, BodyRecords, MergeBody, MergeBytes;
    var base := BodyBase(a, b.Tag());
    MergeEncoded(base, BodyRecords(b), MergeBody);
    BodyMerges(base, b);
  }

  /** Merging the records of `b` into `a` overlays `b` on `a`. */
  lemma EnvelopeMerges(a: WireEnvelope, b: WireEnvelope)
    requires |EncodeWire(b)| < TWO64
    ensures MergeAll(a, EnvelopeRecords(b), MergeEnvelope) == Some(Overlay(a, b))
  {
    hide ParseRecords, EncodeRecords;
    EnvelopeFits(b);
    var end := Overlay(a, b);
    var a1 := a.(protocolVersion := end.protocolVersion);
    var a2 := a1.(requestId := end.requestId);
    var a3 := a2.(trace := end.trace);
    var r1, r2 := Scalar(1, b.protocolVersion), Scalar(2, b.requestId);
    var r3 := if b.trace.None? then [] else [Delimited(3, EncodeRecords(TraceRecords(b.trace.value)))];
    var r4 := if b.body.None? then []
              else [Delimited(b.body.value.Tag(), EncodeRecords(BodyRecords(b.body.value)))];
    if b.trace.Some? {
      TraceFieldMerges(a2, b.trace.value);
    }
    if b.body.Some? {
      BodyFieldMerges(a3, b.body.value);
    }
    MergeOptional(a, r1, a1, MergeEnvelope);
    MergeOptional(a1, r2, a2, MergeEnvelope);
    MergeOptional(a2, r3, a3, MergeEnvelope);
    MergeOptional(a3, r4, end, MergeEnvelope);
    MergeAllConcat(a, r1, r2, MergeEnvelope);
    MergeAllConcat(a, r1 + r2, r3, MergeEnvelope);
    MergeAllConcat(a, r1 + r2 + r3, r4, MergeEnvelope);
  }

  /** Bytes of one envelope followed by bytes of another decode to the overlay of the two. */
  lemma LastOneWins(a: WireEnvelope, b: WireEnvelope)
    requires |EncodeWire(a)| < TWO64 && |EncodeWire(b)| < TWO64
    ensures DecodeWire(EncodeWire(a) + EncodeWire(b)) == Some(Overlay(a, b))
  {
    var ra, rb := EnvelopeRecords(a), EnvelopeRecords(b);
    EnvelopeFits(a);
    EnvelopeFits(b);
    EncodeRecordsConcat(ra, rb);
    MergeEncoded(EMPTY_ENVELOPE, ra + rb, MergeEnvelope);
    MergeAllConcat(EMPTY_ENVELOPE, ra, rb, MergeEnvelope);
    EnvelopeMerges(EMPTY_ENVELOPE, a);
    EnvelopeMerges(a, b);
  }

  /** Every wire envelope survives encoding, defaults and absent fields included. */
  lemma WireRoundTrip(e: WireEnvelope)
    requires |EncodeWire(e)| < TWO64
    ensures DecodeWire(EncodeWire(e)) == Some(e)
  {
    EnvelopeFits(e);
    MergeEncoded(EMPTY_ENVELOPE, EnvelopeRecords(e), MergeEnvelope);
    EnvelopeMerges(EMPTY_ENVELOPE, e);
  }

  /** Every message whose encoding fits the address space survives encoding. */
  lemma EnvelopeRoundTrip(m: ProtocolMessage)
    requires |EncodeEnvelope(m)| < TWO64
    ensures DecodeEnvelope(EncodeEnvelope(m)) == Ok(m)
  {
    hide ParseRecords, EncodeRecords;
    var e := FromMessage(m);
    WireRoundTrip(e);
    IntoMessageInverts(e, m);
  }

  /** A decoded envelope is accepted exactly when it is the wire form of the message it yields. */
  lemma IntoMessageInverts(e: WireEnvelope, m: ProtocolMessage)
    ensures IntoMessage(e) == Ok(m) <==> e == FromMessage(m)
  {
  }

  /** The record leaves whatever it is merged into as it is. */
  ghost predicate Skipped<M(!new)>(r: Record, merge: (M, Record) -> Option<M>) {
    forall m :: merge(m, r) == Some(m)
  }

  lemma SkippedAnywhere<M(!new)>(m: M, before: seq<Record>, r: Record, after: seq<Record>, merge: (M, Record) -> Option<M>)
    requires Skipped(r, merge)
    ensures MergeAll(m, before + [r] + after, merge) == MergeAll(m, before + after, merge)
  {
    assert before + [r] + after == before + ([r] + after);
    MergeAllConcat(m, before, [r] + after, merge);
    MergeAllConcat(m, before, after, merge);
    if MergeAll(m, before, merge).Some? {
      var mid := MergeAll(m, before, merge).value;
      MergeAllConcat(mid, [r], after, merge);
      MergeOptional(mid, [r], mid, merge);
    }
  }

  lemma WithoutSkipped<M(!new)>(m: M, before: seq<Record>, r: Record, after: seq<Record>, merge: (M, Record) -> Option<M>)
    requires AllWellFormed(before) && AllWellFormed(after) && r.WellFormed() && Skipped(r, merge)
    ensures MergeBytes(m, EncodeRecords(before + [r] + after), merge) == MergeBytes(m, EncodeRecords(before + after), merge)
  {
    hide MergeBytes, EncodeRecords;
    MergeEncoded(m, before + [r] + after, merge);
    MergeEncoded(m, before + after, merge);
    SkippedAnywhere(m, before, r, after, merge);
  }

  /** A record with a tag this version does not know changes nothing, wherever in an envelope it stands. */
  lemma UnknownFieldsAreSkipped(before: seq<Record>, r: Record, after: seq<Record>)
    requires AllWellFormed(before) && AllWellFormed(after) && r.WellFormed() && r.tag > 7
    ensures DecodeEnvelope(EncodeRecords(before + [r] + after)) == DecodeEnvelope(EncodeRecords(before + after))
  {
    hide EncodeRecords, MergeBytes;
    WithoutSkipped(EMPTY_ENVELOPE, before, r, after, MergeEnvelope);
  }

  /** The sub-message with tag `outer`, a trace context or a body, has no field with the tag of `r`. */
  predicate UnknownIn(outer: nat, r: Record) {
    match outer
    case 3 => r.tag > 3
    case 4 => r.tag > 2
    case 5 => r.tag > 1
    case 6 => r.tag > 1
    case _ => r.tag > 2
  }

  lemma UnknownInBody(b: WireBody, before: seq<Record>, r: Record, after: seq<Record>)
    requires UnknownIn(b.Tag(), r)
    ensures MergeAll(b, before + [r] + after, MergeBody) == MergeAll(b, before + after, MergeBody)
  {
    assert before + [r] + after == before + ([r] + after);
    MergeAllConcat(b, before, [r] + after, MergeBody);
    MergeAllConcat(b, before, after, MergeBody);
    BodyKeepsTag(b, before);
    if MergeAll(b, before, MergeBody).Some? {
      var mid := MergeAll(b, before, MergeBody).value;
      MergeAllConcat(mid, [r], after, MergeBody);
      MergeOptional(mid, [r], mid, MergeBody);
    }
  }

  lemma {:induction false} BodyKeepsTag(b: WireBody, rs: seq<Record>)
    ensures MergeAll(b, rs, MergeBody).Some? ==> MergeAll(b, rs, MergeBody).value.Tag() == b.Tag()
    decreases |rs|
  {
    if rs != [] && MergeBody(b, rs[0]).Some? {
      BodyKeepsTag(MergeBody(b, rs[0]).value, rs[1..]);
    }
  }

  /** What stands for one field of the envelope, with and without the unknown field inside it. */
  lemma SameField(e: WireEnvelope, outer: nat, x: seq<Record>, r: Record, y: seq<Record>)
    requires 3 <= outer <= 7 && AllWellFormed(x) && AllWellFormed(y) && r.WellFormed() && UnknownIn(outer, r)
    ensures MergeEnvelope(e, Delimited(outer, EncodeRecords(x + [r] + y))) ==
            MergeEnvelope(e, Delimited(outer, EncodeRecords(x + y)))
  {
    hide EncodeRecords, MergeBytes, MergeBody, MergeTrace;
    if outer == 3 {
      assert Skipped(r, MergeTrace) by { TraceSkips(r); }
      WithoutSkipped(if e.trace.Some? then e.trace.value else NO_TRACE, x, r, y, MergeTrace);
    } else {
      var base := BodyBase(e, outer);
      assert base.Tag() == outer;
      MergeEncoded(base, x + [r] + y, MergeBody);
      MergeEncoded(base, x + y, MergeBody);
      UnknownInBody(base, x, r, y);
    }
  }

  lemma TraceSkips(r: Record)
    requires r.tag > 3
    ensures Skipped(r, MergeTrace)
  {
  }

  /** Nor does it inside a trace context or a body. */
  lemma UnknownInnerFieldsAreSkipped(before: seq<Record>, outer: nat, x: seq<Record>, r: Record, y: seq<Record>, after: seq<Record>)
    requires AllWellFormed(before) && AllWellFormed(after) && 3 <= outer <= 7
    requires AllWellFormed(x) && AllWellFormed(y) && r.WellFormed() && UnknownIn(outer, r)
    requires |EncodeRecords(x + [r] + y)| < TWO64 && |EncodeRecords(x + y)| < TWO64
    ensures DecodeEnvelope(EncodeRecords(before + [Delimited(outer, EncodeRecords(x + [r] + y))] + after)) ==
            DecodeEnvelope(EncodeRecords(before + [Delimited(outer, EncodeRecords(x + y))] + after))
  {
    hide EncodeRecords, MergeBytes, MergeEnvelope, UnknownIn, AllWellFormed, MergeAll, IntoMessage;
    var (long, short) := (Delimited(outer, EncodeRecords(x + [r] + y)), Delimited(outer, EncodeRecords(x + y)));
    AllJoin(before, long, after);
    AllJoin(before, short, after);
    MergeEncoded(EMPTY_ENVELOPE, before + [long] + after, MergeEnvelope);
    MergeEncoded(EMPTY_ENVELOPE, before + [short] + after, MergeEnvelope);
    forall e ensures MergeEnvelope(e, long) == MergeEnvelope(e, short) {
      SameField(e, outer, x, r, y);
    }
    SameMerge(EMPTY_ENVELOPE, before, long, short, after);
  }

  lemma AllJoin(before: seq<Record>, r: Record, after: seq<Record>)
    requires AllWellFormed(before) && AllWellFormed(after) && r.WellFormed()
    ensures AllWellFormed(before + [r] + after)
  {
  }

  /** Records that are merged alike can replace each other. */
  lemma SameMerge(e: WireEnvelope, before: seq<Record>, a: Record, b: Record, after: seq<Record>)
    requires forall m :: MergeEnvelope(m, a) == MergeEnvelope(m, b)
    ensures MergeAll(e, before + [a] + after, MergeEnvelope) == MergeAll(e, before + [b] + after, MergeEnvelope)
  {
    hide MergeEnvelope;
    assert before + [a] + after == before + ([a] + after) && before + [b] + after == before + ([b] + after);
    MergeAllConcat(e, before, [a] + after, MergeEnvelope);
    MergeAllConcat(e, before, [b] + after, MergeEnvelope);
    if MergeAll(e, before, MergeEnvelope).Some? {
      var mid := MergeAll(e, before, MergeEnvelope).value;
      FirstMerges(mid, a, after);
      FirstMerges(mid, b, after);
    }
  }

  lemma FirstMerges(e: WireEnvelope, r: Record, rest: seq<Record>)
    ensures MergeAll(e, [r] + rest, MergeEnvelope) ==
            match MergeEnvelope(e, r) case None => None case Some(next) => MergeAll(next, rest, MergeEnvelope)
  {
    hide MergeEnvelope;
    assert ([r] + rest)[1..] == rest;
  }

  /** A known field of the wrong wire type makes the whole message malformed. */
  lemma WrongTypesAreMalformed(before: seq<Record>, r: Record, after: seq<Record>)
    requires AllWellFormed(before) && AllWellFormed(after) && r.WellFormed()
    requires if r.tag <= 2 then !r.Varint? else r.tag <= 7 && !r.Delimited?
    ensures DecodeEnvelope(EncodeRecords(before + [r] + after)) == Err(Malformed)
  {
    hide EncodeRecords, MergeBytes, IntoMessage;
    AllJoin(before, r, after);
    MergeEncoded(EMPTY_ENVELOPE, before + [r] + after, MergeEnvelope);
    assert before + [r] + after == before + ([r] + after);
    MergeAllConcat(EMPTY_ENVELOPE, before, [r] + after, MergeEnvelope);
    if MergeAll(EMPTY_ENVELOPE, before, MergeEnvelope).Some? {
      FirstMerges(MergeAll(EMPTY_ENVELOPE, before, MergeEnvelope).value, r, after);
    }
  }

  /**
   An encoded message starts with the version, and with any other version in its place it is refused for
   that version, whatever else it carries.
   */
  lemma OtherVersionsAreRefused(m: ProtocolMessage, version: u32)
    requires |EncodeEnvelope(m)| < TWO64 && version != PROTOCOL_VERSION
    ensures |EncodeEnvelope(m)| >= 2 && EncodeEnvelope(m)[..2] == [0x08, 0x01]
    ensures DecodeEnvelope(EncodeRecord(Varint(1, version)) + EncodeEnvelope(m)[2..]) == Err(UnsupportedVersion(version))
  {
    hide ParseRecords, EncodeRecords;
    var e := FromMessage(m);
    var rest := e.(protocolVersion := 0);
    var tail := EnvelopeRecords(rest);
    var other := Varint(1, version);
    assert EnvelopeRecords(e) == [Varint(1, 1)] + tail;
    EncodeFirst(Varint(1, 1), tail);
    EncodeFirst(other, tail);
    assert EncodeRecord(Varint(1, 1)) == [0x08, 0x01];
    assert EncodeRecord(other) + EncodeEnvelope(m)[2..] == EncodeRecords([other] + tail);
    EnvelopeFits(e);
    MergeEncoded(EMPTY_ENVELOPE, [other] + tail, MergeEnvelope);
    MergeAllConcat(EMPTY_ENVELOPE, [other], tail, MergeEnvelope);
    var start := EMPTY_ENVELOPE.(protocolVersion := version);
    MergeOptional(EMPTY_ENVELOPE, [other], start, MergeEnvelope);
    EnvelopeMerges(start, rest);
  }

  // ---- The bytes

  /** A field that is left out when it is 0. */
  function NumberField(key: Byte, n: nat): Bytes {
    if n == 0 then [] else [key] + EncodeVarint(n)
  }

  /** A field that is left out when it is empty. */
  function TextField(key: Byte, content: Bytes): Bytes {
    if content == [] then [] else MessageField(key, content)
  }

  function MessageField(key: Byte, content: Bytes): Bytes {
    [key] + EncodeVarint(|content|) + content
  }

  lemma SmallKey(key: Byte)
    requires key < 0x80
    ensures EncodeVarint(key) == [key]
  {
  }

  lemma OneRecord(r: Record)
    ensures EncodeRecords([r]) == EncodeRecord(r)
  {
    hide EncodeRecord;
    assert [r][1..] == [];
  }

  lemma ScalarBytes(tag: nat, value: u64)
    requires 1 <= tag < 16
    ensures EncodeRecords(Scalar(tag, value)) == NumberField(8 * tag, value)
  {
    hide EncodeVarint, EncodeRecord;
    if value != 0 {
      OneRecord(Varint(tag, value));
      RecordLayout(tag, value, []);
      SmallKey(8 * tag);
    }
  }

  lemma DelimitedBytes(tag: nat, content: Bytes)
    requires 1 <= tag < 15
    ensures EncodeRecords([Delimited(tag, content)]) == MessageField(8 * tag + 2, content)
  {
    hide EncodeVarint, EncodeRecord;
    OneRecord(Delimited(tag, content));
    RecordLayout(tag, 0, content);
    SmallKey(8 * tag + 2);
    assert [8 * tag + 2] + (EncodeVarint(|content|) + content) == [8 * tag + 2] + EncodeVarint(|content|) + content;
  }

  lemma TextBytes(tag: nat, content: Bytes)
    requires 1 <= tag < 15
    ensures EncodeRecords(Text(tag, content)) == TextField(8 * tag + 2, content)
  {
    hide EncodeRecord;
    if content != [] {
      DelimitedBytes(tag, content);
    }
  }

  /** A trace context: its ids under the keys 0a and 12, its flags under 18. */
  lemma TraceLayout(t: TraceContext)
    ensures EncodeRecords(TraceRecords(t)) ==
            TextField(0x0a, t.traceId) + TextField(0x12, t.spanId) + NumberField(0x18, t.traceFlags)
  {
    hide EncodeRecords, TextField, NumberField;
    EncodeRecordsConcat(Text(1, t.traceId) + Text(2, t.spanId), Scalar(3, t.traceFlags));
    EncodeRecordsConcat(Text(1, t.traceId), Text(2, t.spanId));
    TextBytes(1, t.traceId);
    TextBytes(2, t.spanId);
    ScalarBytes(3, t.traceFlags);
  }

  /** Each kind of body has its own key, and its fields theirs; kinds and codes are small numbers. */
  lemma BodyLayout(m: ProtocolMessage)
    ensures var body := FromMessage(m).body.value;
            EncodeRecords([Delimited(body.Tag(), EncodeRecords(BodyRecords(body)))]) ==
            match m
            case RpcRequest(_, methodId, payload, _) =>
              MessageField(0x22, NumberField(0x08, methodId) + TextField(0x12, payload))
            case RpcResponse(_, payload, _) => MessageField(0x2a, TextField(0x0a, payload))
            case Control(_, control, _) =>
              MessageField(0x32, NumberField(0x08, if control.Ping? then 0 else if control.Pong? then 1 else 2))
            case Error(_, error, _) =>
              var code := if error.code.Unknown? then 0 else if error.code.Timeout? then 1
                          else if error.code.ProtocolVersionMismatch? then 2 else 3;
              MessageField(0x3a, NumberField(0x08, code) + TextField(0x12, error.message))
  {
    hide EncodeRecords, TextField, NumberField, MessageField;
    var body := FromMessage(m).body.value;
    DelimitedBytes(body.Tag(), EncodeRecords(BodyRecords(body)));
    match body
    case WireRequest(methodId, payload) =>
      EncodeRecordsConcat(Scalar(1, methodId), Text(2, payload));
      ScalarBytes(1, methodId);
      TextBytes(2, payload);
    case WireResponse(payload) => TextBytes(1, payload);
    case WireControl(kind) => ScalarBytes(1, Int32ToVarint(kind));
    case WireError(code, message) =>
      EncodeRecordsConcat(Scalar(1, Int32ToVarint(code)), Text(2, message));
      ScalarBytes(1, Int32ToVarint(code));
      TextBytes(2, message);
  }

  /** The bytes of a message: version, id unless it is 0, trace context if there is one, and body. */
  lemma EnvelopeLayout(m: ProtocolMessage)
    ensures EncodeEnvelope(m) ==
            [0x08, 0x01] + NumberField(0x10, m.requestId) +
            (if m.trace.None? then []
             else
               MessageField(0x1a, TextField(0x0a, m.trace.value.traceId) + TextField(0x12, m.trace.value.spanId) +
                                  NumberField(0x18, m.trace.value.traceFlags))) +
            match m
            case RpcRequest(_, methodId, payload, _) =>
              MessageField(0x22, NumberField(0x08, methodId) + TextField(0x12, payload))
            case RpcResponse(_, payload, _) => MessageField(0x2a, TextField(0x0a, payload))
            case Control(_, control, _) =>
              MessageField(0x32, NumberField(0x08, if control.Ping? then 0 else if control.Pong? then 1 else 2))
            case Error(_, error, _) =>
              var code := if error.code.Unknown? then 0 else if error.code.Timeout? then 1
                          else if error.code.ProtocolVersionMismatch? then 2 else 3;
              MessageField(0x3a, NumberField(0x08, code) + TextField(0x12, error.message))
  {
    hide EncodeRecords, TextField, MessageField, BodyRecords, TraceRecords;
    var e := FromMessage(m);
    EnvelopeParts(e);
    ScalarBytes(1, 1);
    assert NumberField(0x08, 1) == [0x08, 0x01];
    ScalarBytes(2, m.requestId);
    if m.trace.Some? {
      DelimitedBytes(3, EncodeRecords(TraceRecords(m.trace.value)));
      TraceLayout(m.trace.value);
    }
    BodyLayout(m);
  }

  lemma EnvelopeParts(e: WireEnvelope)
    requires e.body.Some?
    ensures EncodeWire(e) ==
            EncodeRecords(Scalar(1, e.protocolVersion)) + EncodeRecords(Scalar(2, e.requestId)) +
            (if e.trace.None? then [] else EncodeRecords([Delimited(3, EncodeRecords(TraceRecords(e.trace.value)))])) +
            EncodeRecords([Delimited(e.body.value.Tag(), EncodeRecords(BodyRecords(e.body.value)))])
  {
    hide BodyRecords, TraceRecords, EncodeRecord;
    var (a, b) := (Scalar(1, e.protocolVersion), Scalar(2, e.requestId));
    var c := if e.trace.None? then [] else [Delimited(3, EncodeRecords(TraceRecords(e.trace.value)))];
    var d := [Delimited(e.body.value.Tag(), EncodeRecords(BodyRecords(e.body.value)))];
    EncodeRecordsConcat(a, b);
    EncodeRecordsConcat(a + b, c);
    EncodeRecordsConcat(a + b + c, d);
  }

  /** A ping, and a response, as they are on the wire. */
  lemma PingBytes()
    ensures EncodeEnvelope(Control(0, Ping, None)) == [0x08, 0x01, 0x32, 0x00]
  {
    hide EncodeEnvelope;
    EnvelopeLayout(Control(0, Ping, None));
  }

  lemma ResponseBytes()
    ensures EncodeEnvelope(RpcResponse(1, [0x70], None)) == [0x08, 0x01, 0x10, 0x01, 0x2a, 0x03, 0x0a, 0x01, 0x70]
  {
    hide EncodeEnvelope;
    EnvelopeLayout(RpcResponse(1, [0x70], None));
  }

  /** What is refused, and why. */
  lemma RefusedExactly(e: WireEnvelope)
    ensures forall version :: IntoMessage(e) == Err(UnsupportedVersion(version)) <==>
              e.protocolVersion == version && version != 1
    ensures IntoMessage(e) == Err(MissingBody) <==> e.protocolVersion == 1 && e.body.None?
    ensures forall kind :: IntoMessage(e) == Err(UnknownControlMessage(kind)) <==>
              e.protocolVersion == 1 && e.body == Some(WireControl(kind)) && !(0 <= kind <= 2)
    ensures forall code :: IntoMessage(e) == Err(UnknownFrameworkErrorCode(code)) <==>
              e.protocolVersion == 1 && e.body.Some? && e.body.value.WireError? && e.body.value.code == code &&
              !(0 <= code <= 3)
    ensures IntoMessage(e) != Err(Malformed)
  {
    forall kind: i32 ensures ControlMessage.FromWire(kind).None? <==> !(0 <= kind <= 2) {
      assert Ping.ToWire() == 0 && Pong.ToWire() == 1 && Shutdown.ToWire() == 2;
    }
  }
}
