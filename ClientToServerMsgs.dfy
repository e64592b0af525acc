/** The client-to-server envelope: its validator, `deserialize` after the
    parse, and the four builders of the login exchange. */
module ClientToServerMsgs {
  import opened Wrappers
  import opened JavaArith
  import opened Protos
  import opened ProtobufUuid
  import Common
  import opened Envelope

  type PayloadType = ClientToServerPayloadType

  /** Does `m` break the rule whose failure is `e`? One rule per `throw` of
      the validator. */
  predicate Violated(m: ClientToServer, e: VerifyError) {
    var cs := m.GetCommonStuff();
    match e
    case SeqNumNotPositive => cs.seqNum <= 0
    case UnrecognizedPayloadType => m.payloadType == PayloadType.Unrecognized
    case DefaultPayloadType => m.payloadType == PayloadType.Unknown
    case UnhandledPayloadType => m.payloadType.OtherValue?
    case MissingSubMessage =>
      (m.payloadType == LoginChallengeSolved && m.loginChallengeSolved.None?) ||
      (m.payloadType == LoginFollowup && m.loginFollowup.None?)
    case EmptyUsername =>
      m.payloadType == LoginFollowup && m.loginFollowup.Some? && m.loginFollowup.value.username == ""
    case NilClientExchangeUuid => IsNilUuidSimple(cs.GetClientExchangeUuid())
    case NilServerExchangeUuid => IsNilUuidSimple(cs.GetServerExchangeUuid())
  }

  /** The `switch` on the payload type. `LOGIN_REQUEST` and `LOGIN_FINISH`
      carry no sub-message; `LOGIN_CHALLENGE_SOLVED` needs its sub-message,
      whatever `a` and `b` hold; `LOGIN_FOLLOWUP` needs its sub-message with
      a non-empty username. */
  function CheckPayload(m: ClientToServer): (r: Outcome<VerifyError>)
    ensures r.Pass? <==>
              m.payloadType == LoginRequest || m.payloadType == LoginFinish ||
              (m.payloadType == LoginChallengeSolved && m.loginChallengeSolved.Some?) ||
              (m.payloadType == LoginFollowup && m.loginFollowup.Some? && |m.loginFollowup.value.username| > 0)
    ensures r.Fail? ==> Rank(r.error) == 1 && Violated(m, r.error)
  {
    match m.payloadType
    case Unrecognized => Fail(UnrecognizedPayloadType)
    case Unknown => Fail(DefaultPayloadType)
    case LoginChallengeSolved =>
      if m.loginChallengeSolved.None? then Fail(MissingSubMessage) else Pass
    case LoginFollowup =>
      if m.loginFollowup.None? then Fail(MissingSubMessage)
      else if m.loginFollowup.value.username == "" then Fail(EmptyUsername)
      else Pass
    case LoginRequest => Pass
    case LoginFinish => Pass
    case OtherValue(_) => Fail(UnhandledPayloadType)
  }

  /** `verifyClientToServerMessage`: passes iff no rule is broken, and
      otherwise fails with the first broken rule in the order the checks
      run. */
  function Verify(m: ClientToServer): (r: Outcome<VerifyError>)
    ensures r.Pass? <==> forall e :: !Violated(m, e)
    ensures r.Fail? ==> Violated(m, r.error)
    ensures r.Fail? ==> forall e :: Rank(e) < Rank(r.error) ==> !Violated(m, e)
  {
    var cs := m.GetCommonStuff();
    ChecksCoverRules(m);
    var r := AndThen(CheckSeqNum(cs), AndThen(CheckPayload(m), CheckExchangeUuids(cs)));
    assert r.Fail? ==> Violated(m, r.error);
    r
  }

  /** When all three checks pass, no rule is broken. */
  lemma ChecksCoverRules(m: ClientToServer)
    ensures (CheckSeqNum(m.GetCommonStuff()).Pass? && CheckPayload(m).Pass? &&
             CheckExchangeUuids(m.GetCommonStuff()).Pass?) ==> forall e :: !Violated(m, e)
  {
    forall e | CheckSeqNum(m.GetCommonStuff()).Pass? && CheckPayload(m).Pass? &&
               CheckExchangeUuids(m.GetCommonStuff()).Pass?
      ensures !Violated(m, e)
    {
    }
  }

  /** `deserialize` after `parseFrom`: `parsed` is the parsed message, or
      `None` when the parser threw. */
  function Deserialize(parsed: Option<ClientToServer>): (r: Result<ClientToServer, DeserializeError>)
    ensures r.Success? <==> parsed.Some? && Verify(parsed.value).Pass?
    ensures r.Success? ==> r.value == parsed.value
    ensures parsed.None? ==> r == Failure(ParseFailed)
    ensures parsed.Some? && r.Failure? ==> r.error.Rejected? && Violated(parsed.value, r.error.reason)
    // the rejection is the validator's own error: the first rule broken
    ensures parsed.Some? && r.Failure? ==> r.error == Rejected(Verify(parsed.value).error)
    ensures parsed.Some? && r.Failure? ==>
              forall e :: Rank(e) < Rank(r.error.reason) ==> !Violated(parsed.value, e)
  {
    match parsed
    case None => Failure(ParseFailed)
    case Some(m) =>
      var v := Verify(m);
      if v.Fail? then Failure(Rejected(v.error)) else Success(m)
  }

  /** A sequence number sent as an unsigned 32-bit value of 2^31 or more
      reads as a negative `int` and is rejected before anything else. */
  lemma WrappedSeqNumRejected(m: ClientToServer, u: nat)
    requires 0x8000_0000 <= u < 0x1_0000_0000
    requires m.GetCommonStuff().seqNum == JavaIntOfUnsigned(u)
    ensures Verify(m) == Fail(SeqNumNotPositive)
  {
  }

  /** The validator looks at no sub-message field except the username:
      `a` and `b` are never constrained, and `LOGIN_REQUEST` and
      `LOGIN_FINISH` pass whatever the two slots hold. */
  lemma SubMessageContentsIgnored(m: ClientToServer, a: Long, b: Long,
                                  followup: Option<LoginFollowupMsg>,
                                  solved: Option<LoginChallengeSolvedMsg>)
    ensures m.loginChallengeSolved.Some? ==>
              Verify(m.(loginChallengeSolved := Some(LoginChallengeSolvedMsg(a, b)))) == Verify(m)
    ensures m.payloadType == LoginRequest || m.payloadType == LoginFinish ==>
              Verify(m.(loginFollowup := followup, loginChallengeSolved := solved)) == Verify(m)
  {
  }

  // ---- builders

  /** `buildCclientToServerBuilder`: a builder with the record's `CommonStuff`. */
  function BuilderFor(d: Common.CommonData): (m: ClientToServer)
    ensures m.commonStuff == Some(Common.CommonStuffOf(d))
    ensures m.payloadType == PayloadType.Unknown && m.loginFollowup.None? && m.loginChallengeSolved.None?
  {
    ClientToServerWith(Common.CommonStuffOf(d))
  }

  /** `buildLoginFollowup`: the followup carrying `username`. From a valid
      record it verifies iff the username is not empty and the record holds
      both exchange UUIDs. */
  function BuildLoginFollowup(username: string, d: Common.CommonData): (m: ClientToServer)
    ensures m.commonStuff == Some(Common.CommonStuffOf(d))
    ensures m.payloadType == LoginFollowup && m.loginFollowup == Some(LoginFollowupMsg(username))
    ensures m.loginChallengeSolved.None?
    ensures Common.Valid(d) ==>
              (Verify(m).Pass? <==> username != "" && d.clientExchangeUuid.Some? && d.serverExchangeUuid.Some?)
    ensures Common.Valid(d) && username == "" ==> Verify(m) == Fail(EmptyUsername)
  {
    BuilderFor(d).(payloadType := LoginFollowup, loginFollowup := Some(LoginFollowupMsg(username)))
  }

  /** `buildLoginRequest`: no sub-message. From a valid record it verifies
      iff the record holds both exchange UUIDs. */
  function BuildLoginRequest(d: Common.CommonData): (m: ClientToServer)
    ensures m.commonStuff == Some(Common.CommonStuffOf(d)) && m.payloadType == LoginRequest
    ensures m.loginFollowup.None? && m.loginChallengeSolved.None?
    ensures Common.Valid(d) ==> (Verify(m).Pass? <==> d.clientExchangeUuid.Some? && d.serverExchangeUuid.Some?)
    ensures Common.Valid(d) && d.clientExchangeUuid.None? ==> Verify(m) == Fail(NilClientExchangeUuid)
  {
    BuilderFor(d).(payloadType := LoginRequest)
  }

  /** `buildLoginFinish`: no sub-message. From a valid record it verifies
      iff the record holds both exchange UUIDs. */
  function BuildLoginFinish(d: Common.CommonData): (m: ClientToServer)
    ensures m.commonStuff == Some(Common.CommonStuffOf(d)) && m.payloadType == LoginFinish
    ensures m.loginFollowup.None? && m.loginChallengeSolved.None?
    ensures Common.Valid(d) ==> (Verify(m).Pass? <==> d.clientExchangeUuid.Some? && d.serverExchangeUuid.Some?)
  {
    BuilderFor(d).(payloadType := LoginFinish)
  }

  /** `buildLoginChallengeSolved`: the two numbers in their sub-message. From
      a valid record it verifies iff the record holds both exchange UUIDs,
      whatever `a` and `b` are. */
  function BuildLoginChallengeSolved(a: Long, b: Long, d: Common.CommonData): (m: ClientToServer)
    ensures m.commonStuff == Some(Common.CommonStuffOf(d))
    ensures m.payloadType == LoginChallengeSolved && m.loginChallengeSolved == Some(LoginChallengeSolvedMsg(a, b))
    ensures m.loginFollowup.None?
    ensures Common.Valid(d) ==> (Verify(m).Pass? <==> d.clientExchangeUuid.Some? && d.serverExchangeUuid.Some?)
  {
    BuilderFor(d).(payloadType := LoginChallengeSolved, loginChallengeSolved := Some(LoginChallengeSolvedMsg(a, b)))
  }
}
