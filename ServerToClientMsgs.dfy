/** The server-to-client envelope: its validator, `deserialize` after the
    parse, and the nine builders of the login exchange. */
module ServerToClientMsgs {
  import opened Wrappers
  import opened JavaArith
  import opened Protos
  import opened ProtobufUuid
  import Common
  import opened Envelope

  type PayloadType = ServerToClientPayloadType

  /** Is the sub-message that payload type `t` needs missing from `m`? The
      five payload types with a sub-message each need their own slot. */
  predicate SubMessageMissing(m: ServerToClient, t: PayloadType) {
    (t == GenericFailure && m.genericFailure.None?) ||
    (t == LoginGenericFailure && m.loginGenericFailure.None?) ||
    (t == LoginChallenge && m.loginChallenge.None?) ||
    (t == LoginRequestAnswerFailure && m.loginRequestAnswerFailure.None?) ||
    (t == LoginFollowupAnswerOk && m.loginFollowupAnswerOk.None?)
  }

  /** Does `m` break the rule whose failure is `e`? One rule per `throw` of
      the validator; no server-to-client rule is about a username. */
  predicate Violated(m: ServerToClient, e: VerifyError) {
    var cs := m.GetCommonStuff();
    match e
    case SeqNumNotPositive => cs.seqNum <= 0
    case UnrecognizedPayloadType => m.payloadType == PayloadType.Unrecognized
    case DefaultPayloadType => m.payloadType == PayloadType.Unknown
    case UnhandledPayloadType => m.payloadType.OtherValue?
    case MissingSubMessage => SubMessageMissing(m, m.payloadType)
    case EmptyUsername => false
    case NilClientExchangeUuid => IsNilUuidSimple(cs.GetClientExchangeUuid())
    case NilServerExchangeUuid => IsNilUuidSimple(cs.GetServerExchangeUuid())
  }

  /** The payload types that carry no sub-message. */
  predicate Payloadless(t: PayloadType) {
    t == LoginRequestAnswerOk || t == LoginFollowupAnswerFailure ||
    t == LoginChallengeSolvedAnswerOk || t == LoginChallengeSolvedAnswerFailure
  }

  /** The `switch` on the payload type: each of the five payload types with
      a sub-message needs its slot present, whatever the sub-message holds;
      the four without one pass. */
  function CheckPayload(m: ServerToClient): (r: Outcome<VerifyError>)
    ensures r.Pass? <==>
              Payloadless(m.payloadType) ||
              (m.payloadType == GenericFailure && m.genericFailure.Some?) ||
              (m.payloadType == LoginGenericFailure && m.loginGenericFailure.Some?) ||
              (m.payloadType == LoginChallenge && m.loginChallenge.Some?) ||
              (m.payloadType == LoginRequestAnswerFailure && m.loginRequestAnswerFailure.Some?) ||
              (m.payloadType == LoginFollowupAnswerOk && m.loginFollowupAnswerOk.Some?)
    ensures r.Fail? ==> Rank(r.error) == 1 && Violated(m, r.error)
  {
    match m.payloadType
    case Unrecognized => Fail(UnrecognizedPayloadType)
    case Unknown => Fail(DefaultPayloadType)
    case GenericFailure =>
      if m.genericFailure.None? then Fail(MissingSubMessage) else Pass
    case LoginGenericFailure =>
      if m.loginGenericFailure.None? then Fail(MissingSubMessage) else Pass
    case LoginChallenge =>
      if m.loginChallenge.None? then Fail(MissingSubMessage) else Pass
    case LoginRequestAnswerFailure =>
      if m.loginRequestAnswerFailure.None? then Fail(MissingSubMessage) else Pass
    case LoginFollowupAnswerOk =>
      if m.loginFollowupAnswerOk.None? then Fail(MissingSubMessage) else Pass
    case LoginRequestAnswerOk => Pass
    case LoginFollowupAnswerFailure => Pass
    case LoginChallengeSolvedAnswerOk => Pass
    case LoginChallengeSolvedAnswerFailure => Pass
    case OtherValue(_) => Fail(UnhandledPayloadType)
  }

  /** When all three checks pass, no rule is broken. */
  lemma ChecksCoverRules(m: ServerToClient)
    ensures (CheckSeqNum(m.GetCommonStuff()).Pass? && CheckPayload(m).Pass? &&
             CheckExchangeUuids(m.GetCommonStuff()).Pass?) ==> forall e :: !Violated(m, e)
  {
    forall e | CheckSeqNum(m.GetCommonStuff()).Pass? && CheckPayload(m).Pass? &&
               CheckExchangeUuids(m.GetCommonStuff()).Pass?
      ensures !Violated(m, e)
    {
    }
  }

  /** `verifyServerToClientMessage`: passes iff no rule is broken, and
      otherwise fails with the first broken rule in the order the checks
      run. */
  function Verify(m: ServerToClient): (r: Outcome<VerifyError>)
    ensures r.Pass? <==> forall e :: !Violated(m, e)
    ensures r.Fail? ==> Violated(m, r.error)
    ensures r.Fail? ==> forall e :: Rank(e) < Rank(r.error) ==> !Violated(m, e)
  {
    var cs := m.GetCommonStuff();
    ChecksCoverRules(m);
    var r := AndThen(CheckSeqNum(cs), AndThen(CheckPayload(m), CheckExchangeUuids(cs)));
    assert r.Fail? ==> Violated(m, r.error);
    r
  }

  /** `deserialize` after `parseFrom`: `parsed` is the parsed message, or
      `None` when the parser threw. */
  function Deserialize(parsed: Option<ServerToClient>): (r: Result<ServerToClient, DeserializeError>)
    ensures r.Success? <==> parsed.Some? && Verify(parsed.value).Pass?
    ensures r.Success? ==> r.value == parsed.value
    ensures parsed.None? ==> r == Failure(ParseFailed)
    ensures parsed.Some? && r.Failure? ==> r.error.Rejected? && Violated(parsed.value, r.error.reason)
    // the rejection is the validator's own error: the first rule broken
    ensures parsed.Some? && r.Failure? ==> r.error == Rejected(Verify(parsed.value).error)
    ensures parsed.Some? && r.Failure? ==>
              forall e :: Rank(e) < Rank(r.error.reason) ==> !Violated(parsed.value, e)
  {
    match parsed
    case None => Failure(ParseFailed)
    case Some(m) =>
      var v := Verify(m);
      if v.Fail? then Failure(Rejected(v.error)) else Success(m)
  }

  /** A sequence number sent as an unsigned 32-bit value of 2^31 or more
      reads as a negative `int` and is rejected before anything else. */
  lemma WrappedSeqNumRejected(m: ServerToClient, u: nat)
    requires 0x8000_0000 <= u < 0x1_0000_0000
    requires m.GetCommonStuff().seqNum == JavaIntOfUnsigned(u)
    ensures Verify(m) == Fail(SeqNumNotPositive)
  {
  }

  /** Which sub-message slots of `m` are set. */
  function Presence(m: ServerToClient): seq<bool> {
    [m.genericFailure.Some?, m.loginGenericFailure.Some?, m.loginChallenge.Some?,
     m.loginRequestAnswerFailure.Some?, m.loginFollowupAnswerOk.Some?]
  }

  /** The validator reads no sub-message field: two envelopes with the same
      `CommonStuff`, payload type and set slots get the same verdict, be a
      message empty, a product any long, a player UUID nil or a nested
      cause itself invalid. */
  lemma SubMessageContentsIgnored(m: ServerToClient, m': ServerToClient)
    requires m.commonStuff == m'.commonStuff && m.payloadType == m'.payloadType
    requires Presence(m) == Presence(m')
    ensures Verify(m) == Verify(m')
  {
    assert m.genericFailure.Some? == m'.genericFailure.Some? by { assert Presence(m)[0] == Presence(m')[0]; }
    assert m.loginGenericFailure.Some? == m'.loginGenericFailure.Some? by { assert Presence(m)[1] == Presence(m')[1]; }
    assert m.loginChallenge.Some? == m'.loginChallenge.Some? by { assert Presence(m)[2] == Presence(m')[2]; }
    assert m.loginRequestAnswerFailure.Some? == m'.loginRequestAnswerFailure.Some? by { assert Presence(m)[3] == Presence(m')[3]; }
    assert m.loginFollowupAnswerOk.Some? == m'.loginFollowupAnswerOk.Some? by { assert Presence(m)[4] == Presence(m')[4]; }
  }

  // ---- builders

  /** `buildServerToClientBuilder`: a builder with the record's `CommonStuff`. */
  function BuilderFor(d: Common.CommonData): (m: ServerToClient)
    ensures m.commonStuff == Some(Common.CommonStuffOf(d)) && m.payloadType == PayloadType.Unknown
    ensures Presence(m) == [false, false, false, false, false]
  {
    ServerToClientWith(Common.CommonStuffOf(d))
  }

  /** Built from a valid record, a message whose payload check passes
      verifies iff the record holds both exchange UUIDs. */
  predicate VerifiesIffBothUuids(m: ServerToClient, d: Common.CommonData) {
    Verify(m).Pass? <==> d.clientExchangeUuid.Some? && d.serverExchangeUuid.Some?
  }

  /** `buildGenericFailure`: `msg` and the offending `cause`. */
  function BuildGenericFailure(msg: string, cause: ClientToServer, d: Common.CommonData): (m: ServerToClient)
    ensures m.commonStuff == Some(Common.CommonStuffOf(d)) && m.payloadType == GenericFailure
    ensures Presence(m) == [true, false, false, false, false]
    ensures m.genericFailure == Some(GenericFailureMsg(msg, Some(cause)))
    ensures Common.Valid(d) ==> VerifiesIffBothUuids(m, d)
  {
    BuilderFor(d).(payloadType := GenericFailure, genericFailure := Some(GenericFailureMsg(msg, Some(cause))))
  }

  /** `buildLoginGenericFailure`: `msg` and the offending `cause`. */
  function BuildLoginGenericFailure(msg: string, cause: ClientToServer, d: Common.CommonData): (m: ServerToClient)
    ensures m.commonStuff == Some(Common.CommonStuffOf(d)) && m.payloadType == LoginGenericFailure
    ensures Presence(m) == [false, true, false, false, false]
    ensures m.loginGenericFailure == Some(LoginGenericFailureMsg(msg, Some(cause)))
    ensures Common.Valid(d) ==> VerifiesIffBothUuids(m, d)
  {
    BuilderFor(d).(payloadType := LoginGenericFailure,
                   loginGenericFailure := Some(LoginGenericFailureMsg(msg, Some(cause))))
  }

  /** `buildLoginChallenge`: the challenge `product`. */
  function BuildLoginChallenge(product: Long, d: Common.CommonData): (m: ServerToClient)
    ensures m.commonStuff == Some(Common.CommonStuffOf(d)) && m.payloadType == LoginChallenge
    ensures Presence(m) == [false, false, true, false, false]
    ensures m.loginChallenge == Some(LoginChallengeMsg(product))
    ensures Common.Valid(d) ==> VerifiesIffBothUuids(m, d)
  {
    BuilderFor(d).(payloadType := LoginChallenge, loginChallenge := Some(LoginChallengeMsg(product)))
  }

  /** `buildLoginRequestAnswerOk`: no sub-message. */
  function BuildLoginRequestAnswerOk(d: Common.CommonData): (m: ServerToClient)
    ensures m.commonStuff == Some(Common.CommonStuffOf(d)) && m.payloadType == LoginRequestAnswerOk
    ensures Presence(m) == [false, false, false, false, false]
    ensures Common.Valid(d) ==> VerifiesIffBothUuids(m, d)
    ensures Common.Valid(d) && d.clientExchangeUuid.None? ==> Verify(m) == Fail(NilClientExchangeUuid)
  {
    BuilderFor(d).(payloadType := LoginRequestAnswerOk)
  }

  /** `buildLoginRequestAnswerFailure`: the failure `msg`. */
  function BuildLoginRequestAnswerFailure(msg: string, d: Common.CommonData): (m: ServerToClient)
    ensures m.commonStuff == Some(Common.CommonStuffOf(d)) && m.payloadType == LoginRequestAnswerFailure
    ensures Presence(m) == [false, false, false, true, false]
    ensures m.loginRequestAnswerFailure == Some(LoginRequestAnswerFailureMsg(msg))
    ensures Common.Valid(d) ==> VerifiesIffBothUuids(m, d)
  {
    BuilderFor(d).(payloadType := LoginRequestAnswerFailure,
                   loginRequestAnswerFailure := Some(LoginRequestAnswerFailureMsg(msg)))
  }

  /** `buildLoginFollowupAnswerOk`: the player's name and UUID, the UUID in
      pair form; converting it back gives the player's UUID. */
  function BuildLoginFollowupAnswerOk(playerUuid: JavaUuid, playerName: string, d: Common.CommonData)
    : (m: ServerToClient)
    ensures m.commonStuff == Some(Common.CommonStuffOf(d)) && m.payloadType == LoginFollowupAnswerOk
    ensures Presence(m) == [false, false, false, false, true]
    ensures m.loginFollowupAnswerOk.value.playerUuid == Some(JavaUuidToProtobufUuidSimple(playerUuid))
    ensures m.loginFollowupAnswerOk.Some? && m.loginFollowupAnswerOk.value.playerName == playerName
    ensures ProtobufUuidSimpleToJavaUuid(m.loginFollowupAnswerOk.value.GetPlayerUuid()) == playerUuid
    ensures Common.Valid(d) ==> VerifiesIffBothUuids(m, d)
  {
    var simplePlayerUuid := JavaUuidToProtobufUuidSimple(playerUuid);
    BuilderFor(d).(payloadType := LoginFollowupAnswerOk,
                   loginFollowupAnswerOk := Some(LoginFollowupAnswerOkMsg(playerName, Some(simplePlayerUuid))))
  }

  /** `buildLoginFollowupAnswerFailure`: no sub-message. */
  function BuildLoginFollowupAnswerFailure(d: Common.CommonData): (m: ServerToClient)
    ensures m.commonStuff == Some(Common.CommonStuffOf(d)) && m.payloadType == LoginFollowupAnswerFailure
    ensures Presence(m) == [false, false, false, false, false]
    ensures Common.Valid(d) ==> VerifiesIffBothUuids(m, d)
  {
    BuilderFor(d).(payloadType := LoginFollowupAnswerFailure)
  }

  /** `buildLoginChallengeSolvedAnswerOk`: no sub-message. */
  function BuildLoginChallengeSolvedAnswerOk(d: Common.CommonData): (m: ServerToClient)
    ensures m.commonStuff == Some(Common.CommonStuffOf(d)) && m.payloadType == LoginChallengeSolvedAnswerOk
    ensures Presence(m) == [false, false, false, false, false]
    ensures Common.Valid(d) ==> VerifiesIffBothUuids(m, d)
  {
    BuilderFor(d).(payloadType := LoginChallengeSolvedAnswerOk)
  }

  /** `buildLoginChallengeSolvedAnswerFailure`: no sub-message. */
  function BuildLoginChallengeSolvedAnswerFailure(d: Common.CommonData): (m: ServerToClient)
    ensures m.commonStuff == Some(Common.CommonStuffOf(d)) && m.payloadType == LoginChallengeSolvedAnswerFailure
    ensures Presence(m) == [false, false, false, false, false]
    ensures Common.Valid(d) ==> VerifiesIffBothUuids(m, d)
  {
    BuilderFor(d).(payloadType := LoginChallengeSolvedAnswerFailure)
  }
}
