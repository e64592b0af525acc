/** What the two envelope validators, `verifyClientToServerMessage` and
    `verifyServerToClientMessage`, have in common: the kinds of rejection,
    the order in which the checks run, and the two envelope-level checks on
    `CommonStuff` (positive sequence number, non-nil exchange UUIDs) that
    come before and after the payload check. */
module Envelope {
  import opened Wrappers
  import opened Protos
  import opened ProtobufUuid

  /** Why a validator throws. */
  datatype VerifyError =
    | SeqNumNotPositive
    | UnrecognizedPayloadType   // the parser could not map the wire number
    | DefaultPayloadType        // the enum's 0 default, `UNKNOWN`
    | UnhandledPayloadType      // the switch's `default:` branch
    | MissingSubMessage
    | EmptyUsername
    | NilClientExchangeUuid
    | NilServerExchangeUuid

  /** Why `deserialize` throws: the parser gave up, or the validator did. */
  datatype DeserializeError = ParseFailed | Rejected(reason: VerifyError)

  /** The position of the check that raises `e`: the sequence number first,
      then the payload type and its sub-message (whose errors exclude each
      other), then the client UUID, then the server UUID. */
  function Rank(e: VerifyError): (k: nat)
    ensures k <= 3
    ensures k == 0 <==> e == SeqNumNotPositive
    ensures k == 2 <==> e == NilClientExchangeUuid
    ensures k == 3 <==> e == NilServerExchangeUuid
  {
    match e
    case SeqNumNotPositive => 0
    case NilClientExchangeUuid => 2
    case NilServerExchangeUuid => 3
    case _ => 1
  }

  /** Run `first`; only when it passes, run `next`. */
  function AndThen(first: Outcome<VerifyError>, next: Outcome<VerifyError>): (r: Outcome<VerifyError>)
    ensures r.Pass? <==> first.Pass? && next.Pass?
    ensures first.Fail? ==> r == first
    ensures first.Pass? ==> r == next
  {
    if first.Fail? then first else next
  }

  /** The sequence-number check: `getSeqNum() <= 0` throws. A wire value
      of 2^31 or more reads as a negative `int` and is rejected too. */
  function CheckSeqNum(cs: CommonStuff): (r: Outcome<VerifyError>)
    ensures r.Pass? <==> cs.seqNum > 0
    ensures r.Fail? ==> r.error == SeqNumNotPositive
  {
    if cs.seqNum <= 0 then Fail(SeqNumNotPositive) else Pass
  }

  /** The exchange-UUID checks, client first: an unset field reads as the
      nil default instance and is rejected like an explicit nil. */
  function CheckExchangeUuids(cs: CommonStuff): (r: Outcome<VerifyError>)
    ensures r.Pass? <==> !IsNilUuidSimple(cs.GetClientExchangeUuid()) && !IsNilUuidSimple(cs.GetServerExchangeUuid())
    ensures r.Fail? ==> (r.error == NilClientExchangeUuid <==> IsNilUuidSimple(cs.GetClientExchangeUuid()))
    ensures r.Fail? ==> r.error == NilClientExchangeUuid || r.error == NilServerExchangeUuid
  {
    if IsNilUuidSimple(cs.GetClientExchangeUuid()) then Fail(NilClientExchangeUuid)
    else if IsNilUuidSimple(cs.GetServerExchangeUuid()) then Fail(NilServerExchangeUuid)
    else Pass
  }

  /** An unset exchange UUID is rejected: the field's default reads as nil. */
  lemma UnsetExchangeUuidRejected(cs: CommonStuff)
    requires cs.clientExchangeUuid.None? || cs.serverExchangeUuid.None?
    ensures CheckExchangeUuids(cs).Fail?
  {
    NilOverloadsAgree(NilUuid);
  }
}
