/**
 * The HTTP response helpers of the generated services: the envelope
 * replies (`Response{request_id, code, msg, data}`), the flat replies whose
 * data fields are merged next to the three envelope keys, and the mapping
 * from business code to HTTP status.
 */
module Response {

  // ---------------------------------------------------------------------
  // Codes and statuses
  // ---------------------------------------------------------------------

  const CodeSuccess := 0
  const CodeError := 7
  const CodeInvalidParams := 400
  const CodeNotFound := 404
  const CodeServerError := 500

  const StatusOK := 200
  const StatusCreated := 201
  const StatusNoContent := 204
  const StatusBadRequest := 400
  const StatusNotFound := 404
  const StatusInternalServerError := 500

  const OkMsg := "ok"
  const SerializeFailureMsg := "服务器内部错误：无法序列化响应数据"

  /** The keys every flat reply carries and business data never overwrites. */
  const RequestIdKey := "request_id"
  const CodeKey := "code"
  const MsgKey := "msg"
  const ReservedKeys: set<string> := {RequestIdKey, CodeKey, MsgKey}

  /**
   * The HTTP status every Fail variant answers with: the business code
   * itself for the two codes that are HTTP statuses, 500 for everything else.
   */
  function FailStatus(code: int): (status: int)
    ensures status == StatusBadRequest <==> code == CodeInvalidParams
    ensures status == StatusNotFound <==> code == CodeNotFound
    ensures status == StatusInternalServerError <==> code != CodeInvalidParams && code != CodeNotFound
  {
    match code
    case 400 => StatusBadRequest
    case 404 => StatusNotFound
    case _ => StatusInternalServerError
  }

  // ---------------------------------------------------------------------
  // Replies
  // ---------------------------------------------------------------------

  /** A decoded JSON value, as a round trip through encoding/json yields it. */
  datatype Value =
    | Null
    | Bool(b: bool)
    | Number(n: int)
    | Text(s: string)
    | Array(items: seq<Value>)
    | Object(fields: map<string, Value>)

  /** The envelope of the structured replies. */
  datatype Envelope = Envelope(RequestID: string, Code: int, Msg: string, Data: Value)

  datatype Body = NoBody | Structured(envelope: Envelope) | Flat(fields: map<string, Value>)

  /** What the handler sends: a status and a body. */
  datatype Reply = Reply(status: int, body: Body)

  /**
   * The data handed to a flat reply, seen through the struct-to-map round
   * trip: nil, a value that decodes to a JSON object, or one that does not
   * (encoding fails, or the encoding is not an object).
   */
  datatype Payload = NilData | Fields(dataMap: map<string, Value>) | Unmappable

  /**
   * JSON: the envelope is built from the arguments unchanged; the request
   * id is the `X-Request-ID` response header, taken as `requestId`.
   */
  function JSON(requestId: string, httpStatus: int, code: int, msg: string, data: Value): (r: Reply)
    ensures r.status == httpStatus && r.body.Structured?
    ensures r.body.envelope.RequestID == requestId && r.body.envelope.Data == data
    ensures r.body.envelope.Code == code && r.body.envelope.Msg == msg
  {
    Reply(httpStatus, Structured(Envelope(requestId, code, msg, data)))
  }

  function Success(requestId: string, data: Value): (r: Reply)
    ensures r.status == StatusOK && r.body.Structured?
    ensures r.body.envelope == Envelope(requestId, CodeSuccess, OkMsg, data)
  {
    JSON(requestId, StatusOK, CodeSuccess, OkMsg, data)
  }

  function Created(requestId: string, data: Value): (r: Reply)
    ensures r.status == StatusCreated && r.body.Structured?
    ensures r.body.envelope == Envelope(requestId, CodeSuccess, OkMsg, data)
  {
    JSON(requestId, StatusCreated, CodeSuccess, OkMsg, data)
  }

  /** NoContent: status 204 and no body at all. */
  function NoContent(): (r: Reply)
    ensures r.status == StatusNoContent && r.body == NoBody
  {
    Reply(StatusNoContent, NoBody)
  }

  /** Fail: the status follows the business code, the data is JSON null. */
  function Fail(requestId: string, code: int, msg: string): (r: Reply)
    ensures r.status == FailStatus(code)
    ensures r.body == Structured(Envelope(requestId, code, msg, Null))
  {
    JSON(requestId, FailStatus(code), code, msg, Null)
  }

  function FailWithData(requestId: string, code: int, msg: string, data: Value): (r: Reply)
    ensures r.status == FailStatus(code)
    ensures r.body == Structured(Envelope(requestId, code, msg, data))
  {
    JSON(requestId, FailStatus(code), code, msg, data)
  }

  // ---------------------------------------------------------------------
  // Flat replies
  // ---------------------------------------------------------------------

  /** The `base` map of JSONFlat before any data is merged. */
  function BaseFields(requestId: string, code: int, msg: string): (m: map<string, Value>)
    ensures m.Keys == ReservedKeys
  {
    map[RequestIdKey := Text(requestId), CodeKey := Number(code), MsgKey := Text(msg)]
  }

  /** `base` with every key of `extra` it does not already have. */
  function Merged(base: map<string, Value>, extra: map<string, Value>): (m: map<string, Value>)
    ensures m.Keys == base.Keys + extra.Keys
    ensures forall k :: k in base ==> m[k] == base[k]
    ensures forall k :: k in extra && k !in base ==> m[k] == extra[k]
  {
    map k | k in base.Keys + extra.Keys :: if k in base then base[k] else extra[k]
  }

  /**
   * The reply JSONFlat sends. Data that cannot be turned into a map is
   * answered by the nil-data reply of a server error, whatever status the
   * caller asked for.
   */
  function FlatReply(requestId: string, httpStatus: int, code: int, msg: string, data: Payload): (r: Reply)
    ensures r.body.Flat? && ReservedKeys <= r.body.fields.Keys
    ensures data.Unmappable? ==> r == Reply(StatusInternalServerError, Flat(BaseFields(requestId, CodeServerError, SerializeFailureMsg)))
    ensures !data.Unmappable? ==> r.status == httpStatus
    ensures !data.Unmappable? ==> r.body.fields[RequestIdKey] == Text(requestId)
    ensures !data.Unmappable? ==> r.body.fields[CodeKey] == Number(code) && r.body.fields[MsgKey] == Text(msg)
    ensures data.NilData? ==> r.body.fields.Keys == ReservedKeys
    ensures data.Fields? ==> r.body.fields.Keys == ReservedKeys + data.dataMap.Keys
    ensures data.Fields? ==> forall k :: k in data.dataMap && k !in ReservedKeys ==> r.body.fields[k] == data.dataMap[k]
  {
    match data
    case NilData => Reply(httpStatus, Flat(BaseFields(requestId, code, msg)))
    case Fields(dataMap) => Reply(httpStatus, Flat(Merged(BaseFields(requestId, code, msg), dataMap)))
    case Unmappable => Reply(StatusInternalServerError, Flat(BaseFields(requestId, CodeServerError, SerializeFailureMsg)))
  }

  /** The part of `m` whose keys are not in `pending`. */
  function Without(m: map<string, Value>, pending: set<string>): map<string, Value> {
    map k | k in m.Keys - pending :: m[k]
  }

  /**
   * JSONFlat: starts from the three envelope keys and copies each data key
   * that is not one of them, in whatever order the map yields its keys;
   * unmappable data re-enters once with nil data and a server error.
   */
  method JSONFlat(requestId: string, httpStatus: int, code: int, msg: string, data: Payload) returns (reply: Reply)
    ensures reply == FlatReply(requestId, httpStatus, code, msg, data)
    decreases if data.NilData? then 0 else 1
  {
    var base := BaseFields(requestId, code, msg);
    match data {
      case NilData =>
      case Unmappable =>
        reply := JSONFlat(requestId, StatusInternalServerError, CodeServerError, SerializeFailureMsg, NilData);
        return;
      case Fields(dataMap) =>
        var pending := dataMap.Keys;
        while pending != {}
          invariant pending <= dataMap.Keys
          invariant base == Merged(BaseFields(requestId, code, msg), Without(dataMap, pending))
          decreases pending
        {
          var key :| key in pending;
          if key !in base {
            base := base[key := dataMap[key]];
          }
          pending := pending - {key};
        }
        assert Without(dataMap, pending) == dataMap;
    }
    reply := Reply(httpStatus, Flat(base));
  }

  method SuccessFlat(requestId: string, data: Payload) returns (reply: Reply)
    ensures reply == FlatReply(requestId, StatusOK, CodeSuccess, OkMsg, data)
  {
    reply := JSONFlat(requestId, StatusOK, CodeSuccess, OkMsg, data);
  }

  method CreatedFlat(requestId: string, data: Payload) returns (reply: Reply)
    ensures reply == FlatReply(requestId, StatusCreated, CodeSuccess, OkMsg, data)
  {
    reply := JSONFlat(requestId, StatusCreated, CodeSuccess, OkMsg, data);
  }

  method FailFlat(requestId: string, code: int, msg: string) returns (reply: Reply)
    ensures reply.status == FailStatus(code)
    ensures reply.body == Flat(BaseFields(requestId, code, msg))
  {
    reply := JSONFlat(requestId, FailStatus(code), code, msg, NilData);
  }

  method FailWithDataFlat(requestId: string, code: int, msg: string, data: Payload) returns (reply: Reply)
    ensures reply == FlatReply(requestId, FailStatus(code), code, msg, data)
  {
    reply := JSONFlat(requestId, FailStatus(code), code, msg, data);
  }

  // ---------------------------------------------------------------------
  // Properties
  // ---------------------------------------------------------------------

  /**
   * A flat reply never loses or alters a data key, except the three
   * envelope keys, which keep the envelope's values.
   */
  lemma FlatDataRoundTrip(requestId: string, httpStatus: int, code: int, msg: string, dataMap: map<string, Value>)
    ensures var f := FlatReply(requestId, httpStatus, code, msg, Fields(dataMap)).body.fields;
            && Without(f, ReservedKeys) == Without(dataMap, ReservedKeys)
            && f - (f.Keys - ReservedKeys) == BaseFields(requestId, code, msg)
  {
    var f := FlatReply(requestId, httpStatus, code, msg, Fields(dataMap)).body.fields;
    assert Without(f, ReservedKeys).Keys == Without(dataMap, ReservedKeys).Keys;
    assert (f - (f.Keys - ReservedKeys)).Keys == ReservedKeys;
  }

  /** Data whose keys are all envelope keys adds nothing to the nil-data reply. */
  lemma FlatReservedOnly(requestId: string, httpStatus: int, code: int, msg: string, dataMap: map<string, Value>)
    requires dataMap.Keys <= ReservedKeys
    ensures FlatReply(requestId, httpStatus, code, msg, Fields(dataMap))
         == FlatReply(requestId, httpStatus, code, msg, NilData)
  {
    var f := FlatReply(requestId, httpStatus, code, msg, Fields(dataMap)).body.fields;
    assert f == BaseFields(requestId, code, msg);
  }

  /** FailFlat and Fail agree on status, request id, code and message. */
  lemma FlatAgreesWithEnvelope(requestId: string, code: int, msg: string)
    ensures var s := FlatReply(requestId, FailStatus(code), code, msg, NilData);
            var e := Fail(requestId, code, msg);
            && s.status == e.status
            && s.body.fields[CodeKey] == Number(e.body.envelope.Code)
            && s.body.fields[MsgKey] == Text(e.body.envelope.Msg)
            && s.body.fields[RequestIdKey] == Text(e.body.envelope.RequestID)
  {
  }
}
