/** The typed client of crates/plugin-host/src/client.rs: request ids and response correlation. */
module Clients {
  import opened Wrappers
  import opened Wire
  import opened Envelopes

  datatype PluginHostError =
    | EncodeFailure
    | DecodeFailure
    | Framework(error: FrameworkError)
    | Transport
    | Overloaded
    | TimedOut(requestId: nat)
    | CircuitOpen
    | UnexpectedRequestId(expected: nat, actual: nat)
    | UnexpectedMessage(message: ProtocolMessage)

  /** What a transport gives back for one request. */
  type Answer = Result<ProtocolMessage, PluginHostError>

  /** The typed response for `requestId`; `decode` is the decoding of the response type. */
  function DecodeResponseMessage<T>(requestId: nat, response: ProtocolMessage, decode: Bytes -> Option<T>): Result<T, PluginHostError> {
    match response
    case RpcResponse(actual, payload, _) =>
      if actual != requestId then Err(UnexpectedRequestId(requestId, actual)) else Decoded(payload, decode)
    case Error(actual, error, _) =>
      if actual != requestId then Err(UnexpectedRequestId(requestId, actual)) else Err(Framework(error))
    case other => Err(UnexpectedMessage(other))
  }

  function Decoded<T>(payload: Bytes, decode: Bytes -> Option<T>): Result<T, PluginHostError> {
    match decode(payload)
    case None => Err(DecodeFailure)
    case Some(value) => Ok(value)
  }

  /** What a caller of `invoke` sees once the transport's answer has arrived. */
  function Outcome<T>(requestId: nat, answer: Answer, decode: Bytes -> Option<T>): Result<T, PluginHostError> {
    match answer
    case Err(error) => Err(error)
    case Ok(message) => DecodeResponseMessage(requestId, message, decode)
  }

  /**
   A caller gets a value exactly when the transport answered with a response to that very request whose
   payload decodes to it.
   */
  lemma OnlyOwnResponses<T>(requestId: nat, answer: Answer, decode: Bytes -> Option<T>, value: T)
    ensures Outcome(requestId, answer, decode) == Ok(value) <==>
            answer.Ok? && answer.value.RpcResponse? && answer.value.requestId == requestId &&
            decode(answer.value.payload) == Some(value)
  {
  }

  /** When a caller sees which error; the errors of the transport itself are passed on. */
  lemma OtherOutcomes<T>(requestId: nat, answer: Answer, decode: Bytes -> Option<T>)
    requires answer.Ok?
    ensures var m := answer.value; var r := Outcome(requestId, answer, decode);
            (r == Err(DecodeFailure) <==> m.RpcResponse? && m.requestId == requestId && decode(m.payload).None?) &&
            (forall error :: r == Err(Framework(error)) <==> m.Error? && m.requestId == requestId && m.error == error) &&
            (forall expected, actual :: r == Err(UnexpectedRequestId(expected, actual)) <==>
              (m.RpcResponse? || m.Error?) && expected == requestId && actual == m.requestId && expected != actual) &&
            (forall other :: r == Err(UnexpectedMessage(other)) <==> other == m && (m.RpcRequest? || m.Control?))
  {
  }

  lemma TransportErrorsPass<T>(requestId: nat, error: PluginHostError, decode: Bytes -> Option<T>)
    ensures Outcome(requestId, Err(error), decode) == Err(error)
  {
  }

  /** The unscheduled client: one request at a time over its own transport. */
  class PluginHost {
    var nextRequestId: nat
    ghost var sent: seq<ProtocolMessage>

    /** Requests carry the ids 1, 2, 3, ... in the order they are sent, never the same id twice. */
    ghost predicate Valid()
      reads this
    {
      nextRequestId >= 1 &&
      (forall i :: 0 <= i < |sent| ==> sent[i].RpcRequest? && 1 <= sent[i].requestId < nextRequestId) &&
      forall i, j :: 0 <= i < j < |sent| ==> sent[i].requestId < sent[j].requestId
    }

    constructor ()
      ensures Valid() && nextRequestId == 1 && sent == []
    {
      nextRequestId := 1;
      sent := [];
    }

    method TakeRequestId() returns (requestId: nat)
      modifies this`nextRequestId
      ensures requestId == old(nextRequestId) && nextRequestId == old(nextRequestId) + 1
    {
      requestId := nextRequestId;
      nextRequestId := nextRequestId + 1;
    }

    /**
     `encoded` is the encoded request, None when encoding failed; `answer` is what the transport says.
     A request that cannot be encoded still uses up an id.
     */
    method Invoke<T>(methodId: u32, encoded: Option<Bytes>, trace: Option<TraceContext>, answer: Answer,
                     decode: Bytes -> Option<T>)
      returns (r: Result<T, PluginHostError>)
      requires Valid() && nextRequestId < TWO64
      modifies this
      ensures Valid() && nextRequestId == old(nextRequestId) + 1
      ensures encoded.None? ==> r == Err(EncodeFailure) && sent == old(sent)
      ensures encoded.Some? ==>
                r == Outcome(old(nextRequestId), answer, decode) &&
                sent == old(sent) + [RpcRequest(old(nextRequestId), methodId, encoded.value, trace)]
    {
      var requestId := TakeRequestId();
      if encoded.None? {
        return Err(EncodeFailure);
      }
      sent := sent + [RpcRequest(requestId, methodId, encoded.value, trace)];
      match answer
      case Err(error) => r := Err(error);
      case Ok(message) => r := DecodeResponseMessage(requestId, message, decode);
    }
  }
}
