/** The protobuf messages of the login exchange, as the generated Java classes
    present them after parsing. A sub-message field has wire presence, so it
    is an Option (`hasX()` is `x.Some?`); its getter yields the field's
    default instance when it is unset. Scalar and string fields have no
    presence and read as their value (0, 0L or ""). */
module Protos {
  import opened Wrappers
  import opened JavaArith

  /** The unsigned 32-bit value `u` of a wire field read into a Java `int`:
      values from 2^31 up wrap around to negative numbers. */
  function JavaIntOfUnsigned(u: nat): (r: Int32)
    requires u < 0x1_0000_0000
    ensures r >= 0 <==> u < 0x8000_0000
    ensures r % 0x1_0000_0000 == u
  {
    if u < 0x8000_0000 then u else u - 0x1_0000_0000
  }

  /** Message `UuidSimple`: a UUID as two 64-bit fields. */
  datatype UuidSimple = UuidSimple(high: Long, low: Long)

  /** The default `UuidSimple` instance: both fields 0. */
  const DefaultUuidSimple := UuidSimple(0, 0)

  /** Message `Uuid`: a UUID as a `bytes` field. */
  datatype Uuid = Uuid(data: seq<Byte>)

  /** Message `CommonStuff`, carried by every envelope. */
  datatype CommonStuff = CommonStuff(
    seqNum: Int32,
    clientExchangeUuid: Option<UuidSimple>,
    serverExchangeUuid: Option<UuidSimple>)
  {
    function GetClientExchangeUuid(): UuidSimple {
      clientExchangeUuid.GetOr(DefaultUuidSimple)
    }

    function GetServerExchangeUuid(): UuidSimple {
      serverExchangeUuid.GetOr(DefaultUuidSimple)
    }
  }

  const DefaultCommonStuff := CommonStuff(0, None, None)

  // ---- client to server

  /** `ClientToServer.PayloadType`. `Unknown` is the enum's 0 default,
      `Unrecognized` what the parser yields for a number the schema does not
      list, and `OtherValue(n)` stands for any further value the schema may
      list that the validator's switch does not name. */
  datatype ClientToServerPayloadType =
    | Unknown
    | LoginRequest
    | LoginChallengeSolved
    | LoginFollowup
    | LoginFinish
    | OtherValue(number: int)
    | Unrecognized

  datatype LoginFollowupMsg = LoginFollowupMsg(username: string)

  datatype LoginChallengeSolvedMsg = LoginChallengeSolvedMsg(a: Long, b: Long)

  datatype ClientToServer = ClientToServer(
    commonStuff: Option<CommonStuff>,
    payloadType: ClientToServerPayloadType,
    loginFollowup: Option<LoginFollowupMsg>,
    loginChallengeSolved: Option<LoginChallengeSolvedMsg>)
  {
    function GetCommonStuff(): CommonStuff {
      commonStuff.GetOr(DefaultCommonStuff)
    }
  }

  /** A fresh `ClientToServer.newBuilder()` with only `commonStuff` set. */
  function ClientToServerWith(cs: CommonStuff): ClientToServer {
    ClientToServer(Some(cs), ClientToServerPayloadType.Unknown, None, None)
  }

  // ---- server to client

  /** `ServerToClient.PayloadType`; `Unknown`, `OtherValue` and `Unrecognized`
      as for the client-to-server enum. */
  datatype ServerToClientPayloadType =
    | Unknown
    | GenericFailure
    | LoginGenericFailure
    | LoginChallenge
    | LoginRequestAnswerOk
    | LoginRequestAnswerFailure
    | LoginFollowupAnswerOk
    | LoginFollowupAnswerFailure
    | LoginChallengeSolvedAnswerOk
    | LoginChallengeSolvedAnswerFailure
    | OtherValue(number: int)
    | Unrecognized

  datatype GenericFailureMsg = GenericFailureMsg(msg: string, cause: Option<ClientToServer>)

  datatype LoginGenericFailureMsg = LoginGenericFailureMsg(msg: string, cause: Option<ClientToServer>)

  datatype LoginChallengeMsg = LoginChallengeMsg(product: Long)

  datatype LoginRequestAnswerFailureMsg = LoginRequestAnswerFailureMsg(msg: string)

  datatype LoginFollowupAnswerOkMsg = LoginFollowupAnswerOkMsg(playerName: string, playerUuid: Option<UuidSimple>)
  {
    function GetPlayerUuid(): UuidSimple {
      playerUuid.GetOr(DefaultUuidSimple)
    }
  }

  datatype ServerToClient = ServerToClient(
    commonStuff: Option<CommonStuff>,
    payloadType: ServerToClientPayloadType,
    genericFailure: Option<GenericFailureMsg>,
    loginGenericFailure: Option<LoginGenericFailureMsg>,
    loginChallenge: Option<LoginChallengeMsg>,
    loginRequestAnswerFailure: Option<LoginRequestAnswerFailureMsg>,
    loginFollowupAnswerOk: Option<LoginFollowupAnswerOkMsg>)
  {
    function GetCommonStuff(): CommonStuff {
      commonStuff.GetOr(DefaultCommonStuff)
    }
  }

  /** A fresh `ServerToClient.newBuilder()` with only `commonStuff` set. */
  function ServerToClientWith(cs: CommonStuff): ServerToClient {
    ServerToClient(Some(cs), ServerToClientPayloadType.Unknown, None, None, None, None, None)
  }
}
