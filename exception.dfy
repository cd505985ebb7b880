// How application errors become HTTP responses: a status code per error
// kind and a JSON body holding the message, or one entry per field.
module Exception {
  import opened Common

  /** The JSON values the responses are built from. */
  datatype Json = JString(s: string) | JArray(items: seq<Json>) | JObject(members: seq<(string, Json)>)

  datatype Response = Response(status: int, body: Json)

  const BadRequest := 400
  const NotFoundStatus := 404
  const ConflictStatus := 409
  const InternalServerError := 500
  const NotFoundMessage := "Запрашиваемый ресурс не найден"

  /** The four kinds the common exceptions module declares, the only ones the match names. */
  predicate Declared(e: ApplicationError)
  {
    e.InvalidData? || e.NotFound? || e.Conflict? || e.InternalError?
  }

  /** `error_rest_content`: the status code of the kind and its content unchanged. */
  function ErrorRestContent(e: ApplicationError): (r: (int, ErrorContent))
    requires Declared(e)
    ensures r.1 == e.content
    ensures r.0 == BadRequest <==> e.InvalidData?
    ensures r.0 == NotFoundStatus <==> e.NotFound?
    ensures r.0 == ConflictStatus <==> e.Conflict?
    ensures r.0 == InternalServerError <==> e.InternalError?
  {
    match e
    case InvalidData(c) => (BadRequest, c)
    case NotFound(c) => (NotFoundStatus, c)
    case Conflict(c) => (ConflictStatus, c)
    case InternalError(c) => (InternalServerError, c)
  }

  function StatusCode(e: ApplicationError): int
    requires Declared(e)
  {
    ErrorRestContent(e).0
  }

  /** `{"field": k, "message": v}` for each key, in the order the map is iterated. */
  function FieldEntries(fields: map<string, string>, order: seq<string>): (r: seq<Json>)
    requires forall k :: k in order ==> k in fields
    ensures |r| == |order|
    ensures forall i :: 0 <= i < |order| ==>
              r[i] == JObject([("field", JString(order[i])), ("message", JString(fields[order[i]]))])
  {
    if order == [] then []
    else [JObject([("field", JString(order[0])), ("message", JString(fields[order[0]]))])]
         + FieldEntries(fields, order[1..])
  }

  /**
   * The body of `error_response`. A hash map's iteration order is not
   * specified, so `order` is the order it yields the keys in: each key once.
   */
  function ErrorBody(content: ErrorContent, order: seq<string>): (body: Json)
    requires content.Map? ==> (forall k :: k in order <==> k in content.fields)
                              && forall i, j :: 0 <= i < j < |order| ==> order[i] != order[j]
  {
    match content
    case Message(msg) => JObject([("error", JString(msg))])
    case Map(fields) => JObject([("error", JArray(FieldEntries(fields, order)))])
  }

  /** `error_response`: the status of `status_code` and the body of the error's content. */
  function ErrorResponse(e: ApplicationError, order: seq<string>): (r: Response)
    requires Declared(e)
    requires e.content.Map? ==> (forall k :: k in order <==> k in e.content.fields)
                                && forall i, j :: 0 <= i < j < |order| ==> order[i] != order[j]
    ensures r.status == StatusCode(e)
  {
    Response(StatusCode(e), ErrorBody(e.content, order))
  }

  /** A message becomes `{"error": msg}`. */
  lemma MessageBody(e: ApplicationError, msg: string, order: seq<string>)
    requires Declared(e) && e.content == Message(msg)
    ensures ErrorResponse(e, order).body == JObject([("error", JString(msg))])
  {
  }

  /**
   * A field map becomes `{"error": [...]}` with exactly one entry per map
   * pair: every key appears once, with its own message.
   */
  lemma {:induction false} MapBody(e: ApplicationError, order: seq<string>)
    requires Declared(e) && e.content.Map?
    requires forall k :: k in order <==> k in e.content.fields
    requires forall i, j :: 0 <= i < j < |order| ==> order[i] != order[j]
    ensures var fields := e.content.fields;
            var body := ErrorResponse(e, order).body;
            && body.JObject? && |body.members| == 1 && body.members[0].0 == "error"
            && body.members[0].1.JArray?
            && |body.members[0].1.items| == |fields|
            && (forall k :: k in fields ==>
                  exists i :: 0 <= i < |fields| && body.members[0].1.items[i]
                                                   == JObject([("field", JString(k)), ("message", JString(fields[k]))]))
  {
    var fields := e.content.fields;
    DistinctCard(order, fields.Keys);
    var items := FieldEntries(fields, order);
    forall k | k in fields
      ensures exists i :: 0 <= i < |fields| &&
                items[i] == JObject([("field", JString(k)), ("message", JString(fields[k]))])
    {
      var i :| 0 <= i < |order| && order[i] == k;
      assert items[i] == JObject([("field", JString(k)), ("message", JString(fields[k]))]);
    }
  }

  /** A repeat-free listing of a set has as many entries as the set has members. */
  lemma {:induction false} DistinctCard<T>(order: seq<T>, s: set<T>)
    requires forall k :: k in order <==> k in s
    requires forall i, j :: 0 <= i < j < |order| ==> order[i] != order[j]
    ensures |order| == |s|
  {
    if order != [] {
      var rest := order[1..];
      forall k ensures k in rest <==> k in s - {order[0]} {
        if k in rest {
          var j :| 0 <= j < |rest| && rest[j] == k;
          assert order[j + 1] == k;
        }
        if k in s - {order[0]} {
          var j :| 0 <= j < |order| && order[j] == k;
          assert j != 0;
          assert rest[j - 1] == k;
        }
      }
      forall i, j | 0 <= i < j < |rest| ensures rest[i] != rest[j] {
        assert rest[i] == order[i + 1] && rest[j] == order[j + 1];
      }
      DistinctCard(rest, s - {order[0]});
    }
  }

  /** `not_found`: always 404 with the fixed message. */
  function NotFoundResponse(): (r: Response)
    ensures r.status == 404 && r.body == JObject([("error", JString("Запрашиваемый ресурс не найден"))])
  {
    Response(NotFoundStatus, JObject([("error", JString(NotFoundMessage))]))
  }
}
