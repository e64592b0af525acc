/** The `CommonData` record: a message's sequence number and its two optional
    exchange UUIDs, guarded by its constructor, and its mapping into the
    protobuf `CommonStuff` sub-message. The packages `common` and
    `name.pomelo.protobuf_trial.test.common` each hold a copy of this class;
    their constructors and `toProtobufCommonStuff` run the same steps,
    through each package's own `UtilsForProtobufUuid` and `CommonStuff`,
    and both are this module (the second copy's random generator is not). */
module Common {
  import opened Wrappers
  import opened JavaArith
  import opened Protos
  import opened ProtobufUuid

  /** A `CommonData` instance; `None` is a null UUID reference. */
  datatype CommonData = CommonData(
    seqNum: Int32,
    clientExchangeUuid: Option<JavaUuid>,
    serverExchangeUuid: Option<JavaUuid>)

  /** Why the constructor throws. */
  datatype CommonDataError =
    | SeqNumNotPositive
    | ClientExchangeUuidNil
    | ServerExchangeUuidNil

  /** A UUID reference that is either null or not nil. */
  predicate NullOrNotNil(u: Option<JavaUuid>) {
    u.None? || !IsNilUuid(u.value)
  }

  /** What every constructed `CommonData` satisfies. */
  predicate Valid(d: CommonData) {
    d.seqNum > 0 && NullOrNotNil(d.clientExchangeUuid) && NullOrNotNil(d.serverExchangeUuid)
  }

  /** Does the argument list break the rule `e` names? */
  predicate Breaks(seqNum: Int32, client: Option<JavaUuid>, server: Option<JavaUuid>, e: CommonDataError) {
    match e
    case SeqNumNotPositive => seqNum <= 0
    case ClientExchangeUuidNil => !NullOrNotNil(client)
    case ServerExchangeUuidNil => !NullOrNotNil(server)
  }

  /** `new CommonData(seqNum, clientExchangeUUID, serverExchangeUUID)`: the
      record, or the first of its three checks that fails. */
  function NewCommonData(seqNum: Int32, client: Option<JavaUuid>, server: Option<JavaUuid>)
    : (r: Result<CommonData, CommonDataError>)
    ensures r.Success? <==> Valid(CommonData(seqNum, client, server))
    ensures r.Success? ==> r.value == CommonData(seqNum, client, server)
    ensures r.Failure? ==> Breaks(seqNum, client, server, r.error)
    // the checks run in order: sequence number, client UUID, server UUID
    ensures seqNum <= 0 ==> r == Failure(SeqNumNotPositive)
    ensures r == Failure(ClientExchangeUuidNil) ==> seqNum > 0
    ensures r == Failure(ServerExchangeUuidNil) ==> seqNum > 0 && NullOrNotNil(client)
  {
    if seqNum <= 0 then Failure(SeqNumNotPositive)
    else if client.Some? && IsNilUuid(client.value) then Failure(ClientExchangeUuidNil)
    else if server.Some? && IsNilUuid(server.value) then Failure(ServerExchangeUuidNil)
    else Success(CommonData(seqNum, client, server))
  }

  /** Null UUIDs pass the constructor: only a present UUID is nil-checked. */
  lemma NullUuidsAccepted(seqNum: Int32, client: Option<JavaUuid>, server: Option<JavaUuid>)
    requires seqNum > 0
    ensures NewCommonData(seqNum, None, None) == Success(CommonData(seqNum, None, None))
    ensures client.Some? && IsNilUuid(client.value) ==>
              NewCommonData(seqNum, client, server) == Failure(ClientExchangeUuidNil)
  {
  }

  /** The `CommonStuff` message `toProtobufCommonStuff` builds for `d`. */
  function CommonStuffOf(d: CommonData): (cs: CommonStuff)
    ensures cs.seqNum == d.seqNum
    ensures cs.clientExchangeUuid.Some? <==> d.clientExchangeUuid.Some?
    ensures cs.serverExchangeUuid.Some? <==> d.serverExchangeUuid.Some?
    // a set UUID field converts back to the record's UUID ...
    ensures cs.clientExchangeUuid.Some? ==>
              ProtobufUuidSimpleToJavaUuid(cs.clientExchangeUuid.value) == d.clientExchangeUuid.value
    ensures cs.serverExchangeUuid.Some? ==>
              ProtobufUuidSimpleToJavaUuid(cs.serverExchangeUuid.value) == d.serverExchangeUuid.value
    // ... and an unset one reads as the nil UUID
    ensures ProtobufUuidSimpleToJavaUuid(cs.GetClientExchangeUuid()) == d.clientExchangeUuid.GetOr(NilUuid)
    ensures ProtobufUuidSimpleToJavaUuid(cs.GetServerExchangeUuid()) == d.serverExchangeUuid.GetOr(NilUuid)
  {
    CommonStuff(
      d.seqNum,
      if d.clientExchangeUuid.Some? then Some(JavaUuidToProtobufUuidSimple(d.clientExchangeUuid.value)) else None,
      if d.serverExchangeUuid.Some? then Some(JavaUuidToProtobufUuidSimple(d.serverExchangeUuid.value)) else None)
  }

  /** `toProtobufCommonStuff`: a `CommonStuff` builder with the sequence
      number set, then each exchange UUID set in pair form when it is not
      null. */
  method ToProtobufCommonStuff(d: CommonData) returns (cs: CommonStuff)
    ensures cs == CommonStuffOf(d)
  {
    var builder := DefaultCommonStuff.(seqNum := d.seqNum);
    if d.clientExchangeUuid.Some? {
      var pbUuid := JavaUuidToProtobufUuidSimple(d.clientExchangeUuid.value);
      builder := builder.(clientExchangeUuid := Some(pbUuid));
    }
    if d.serverExchangeUuid.Some? {
      var pbUuid := JavaUuidToProtobufUuidSimple(d.serverExchangeUuid.value);
      builder := builder.(serverExchangeUuid := Some(pbUuid));
    }
    cs := builder;
  }

  /** The sub-message of a valid record carries a positive sequence number
      and, for each exchange UUID, a non-nil pair exactly when the record
      holds one: an unset field reads back as nil. */
  lemma CommonStuffOfValid(d: CommonData)
    requires Valid(d)
    ensures CommonStuffOf(d).seqNum > 0
    ensures IsNilUuidSimple(CommonStuffOf(d).GetClientExchangeUuid()) <==> d.clientExchangeUuid.None?
    ensures IsNilUuidSimple(CommonStuffOf(d).GetServerExchangeUuid()) <==> d.serverExchangeUuid.None?
  {
    var cs := CommonStuffOf(d);
    NilOverloadsAgree(ProtobufUuidSimpleToJavaUuid(cs.GetClientExchangeUuid()));
    NilOverloadsAgree(ProtobufUuidSimpleToJavaUuid(cs.GetServerExchangeUuid()));
  }
}
