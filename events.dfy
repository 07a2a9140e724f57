/**
 * The Record Mapper: a Matrix `m.room.message` event payload (Client-Server
 * API, instant messaging module) and the normalized record the logger keeps of
 * it. JSON text is not modelled; a payload is already decoded into the fields
 * the mapper looks at, each of which may be absent.
 */
module Events {
  import opened Wrappers

  /** The `content` object of an event: `body` is required, `url` optional. */
  datatype Content = Content(body: Option<string>, url: Option<string>)

  /** A decoded event payload, or text that does not decode to a JSON object. */
  datatype Payload =
    | NotAnObject
    | Event(originServerTs: Option<int>, origin: Option<string>, sender: Option<string>,
            eventId: Option<string>, roomId: Option<string>, content: Option<Content>)

  /** The normalized record written, serialized, as one log line. */
  datatype Record = Record(ts: int, originTs: int, origin: string, sender: string,
                           eventId: string, roomId: string, message: string, url: Option<string>)

  /** Why a payload cannot be mapped: it is not a JSON object, or lacks the named key. */
  datatype MappingError = NotJsonObject | MissingKey(key: string)

  predicate HasRequiredFields(p: Payload) {
    && p.Event?
    && p.originServerTs.Some? && p.origin.Some? && p.sender.Some?
    && p.eventId.Some? && p.roomId.Some? && p.content.Some? && p.content.value.body.Some?
  }

  /**
   * The first key, in the order the mapper reads them, that the payload lacks;
   * `content` is reported before `body`.
   */
  function FirstMissingKey(p: Payload): string
    requires p.Event? && !HasRequiredFields(p)
  {
    if p.originServerTs.None? then "origin_server_ts"
    else if p.origin.None? then "origin"
    else if p.sender.None? then "sender"
    else if p.eventId.None? then "event_id"
    else if p.roomId.None? then "room_id"
    else if p.content.None? then "content"
    else "body"
  }

  /**
   * Turns a fetched `(received_ts, payload)` row into a record: `ts` is the
   * reception timestamp, the other fields are copied from the payload, `url`
   * is absent exactly when the content has none.
   */
  function ProcessMessageRow(receivedTs: int, payload: Payload): (r: Result<Record, MappingError>)
    ensures r.Success? <==> HasRequiredFields(payload)
    ensures r.Success? ==>
      && r.value.ts == receivedTs
      && Some(r.value.originTs) == payload.originServerTs
      && Some(r.value.origin) == payload.origin
      && Some(r.value.sender) == payload.sender
      && Some(r.value.eventId) == payload.eventId
      && Some(r.value.roomId) == payload.roomId
      && Some(r.value.message) == payload.content.value.body
      && r.value.url == payload.content.value.url
    ensures r.Failure? && payload.NotAnObject? ==> r.error == NotJsonObject
    ensures r.Failure? && payload.Event? ==> r.error == MissingKey(FirstMissingKey(payload))
  {
    match payload
    case NotAnObject => Failure(NotJsonObject)
    case Event(originServerTs, origin, sender, eventId, roomId, content) =>
      if !HasRequiredFields(payload) then Failure(MissingKey(FirstMissingKey(payload)))
      else
        Success(Record(receivedTs, originServerTs.value, origin.value, sender.value, eventId.value,
                       roomId.value, content.value.body.value, content.value.url))
  }

  /** The payload that carries exactly the fields of a record (the mapper's inverse). */
  function PayloadOf(r: Record): (p: Payload)
    ensures HasRequiredFields(p)
  {
    Event(Some(r.originTs), Some(r.origin), Some(r.sender), Some(r.eventId), Some(r.roomId),
          Some(Content(Some(r.message), r.url)))
  }

  /** Mapping is lossless: the payload of a record maps back to that record. */
  lemma MapPayloadOfRecord(r: Record)
    ensures ProcessMessageRow(r.ts, PayloadOf(r)) == Success(r)
  {
  }

  /** And every payload that maps is, on the fields the mapper reads, the payload of its record. */
  lemma PayloadOfMappedRecord(receivedTs: int, p: Payload)
    requires ProcessMessageRow(receivedTs, p).Success?
    ensures PayloadOf(ProcessMessageRow(receivedTs, p).value) == p
  {
  }

  /** The worked example: a message without `url`, received at 200. */
  lemma ProcessMessageRowExample()
    ensures ProcessMessageRow(200, Event(Some(100), Some("srv"), Some("@a:srv"), Some("$1"), Some("!abc"),
                                         Some(Content(Some("hi"), None))))
         == Success(Record(200, 100, "srv", "@a:srv", "$1", "!abc", "hi", None))
  {
  }

  /** A message without `body` cannot be mapped, and the error names `body`. */
  lemma MissingBodyIsRejected(receivedTs: int, p: Payload)
    requires p.Event? && p.originServerTs.Some? && p.origin.Some? && p.sender.Some?
    requires p.eventId.Some? && p.roomId.Some? && p.content.Some? && p.content.value.body.None?
    ensures ProcessMessageRow(receivedTs, p) == Failure(MissingKey("body"))
  {
  }
}
