/** The JSON envelopes every controller answers with. */
module Response {
  import opened Wrappers

  /** The JSON values a reply body is built from. */
  datatype Json =
    | JNull
    | JBool(b: bool)
    | JNum(n: int)
    | JStr(s: string)
    | JArr(items: seq<Json>)
    | JObj(fields: map<string, Json>)

  /** A status code and a body. */
  datatype Reply = Reply(status: int, body: Json)

  /** JavaScript truthiness of an optional string: present and non-empty. */
  predicate Truthy(s: Option<string>)
  {
    s.Some? && s.value != ""
  }

  /** `if (x) payload[key] = x`: the entry is added only when `x` is truthy. */
  function WithIfTruthy(fields: map<string, Json>, key: string, x: Option<string>): (r: map<string, Json>)
    ensures Truthy(x) ==> r == fields[key := JStr(x.value)]
    ensures !Truthy(x) ==> r == fields
  {
    if Truthy(x) then fields[key := JStr(x.value)] else fields
  }

  /**
    `errorResponse`: the given status and `{ success: false, error: { message,
    code?, details? } }`, where `code` and `details` appear only when truthy.
  */
  function ErrorResponse(status: int, message: string, code: Option<string>, details: Option<string>): (r: Reply)
    ensures r.status == status
    ensures r.body.JObj? && r.body.fields.Keys == {"success", "error"}
    ensures r.body.fields["success"] == JBool(false)
    ensures r.body.fields["error"].JObj?
    ensures var e := r.body.fields["error"].fields;
            && "message" in e && e["message"] == JStr(message)
            && ("code" in e <==> Truthy(code)) && ("details" in e <==> Truthy(details))
            && (Truthy(code) ==> e["code"] == JStr(code.value))
            && (Truthy(details) ==> e["details"] == JStr(details.value))
            && e.Keys <= {"message", "code", "details"}
  {
    var error := WithIfTruthy(WithIfTruthy(map["message" := JStr(message)], "code", code), "details", details);
    Reply(status, JObj(map["success" := JBool(false), "error" := JObj(error)]))
  }

  /**
    `successResponse`: status 200 and `{ success: true, data, message? }`, with
    `message` only when truthy.
  */
  function SuccessResponse(data: Json, message: Option<string>): (r: Reply)
    ensures r.status == 200
    ensures r.body.JObj?
    ensures "success" in r.body.fields && r.body.fields["success"] == JBool(true)
    ensures "data" in r.body.fields && r.body.fields["data"] == data
    ensures "message" in r.body.fields <==> Truthy(message)
    ensures Truthy(message) ==> r.body.fields["message"] == JStr(message.value)
    ensures r.body.fields.Keys <= {"success", "data", "message"}
  {
    Reply(200, JObj(WithIfTruthy(map["success" := JBool(true), "data" := data], "message", message)))
  }

  /** What a client reads back from an error body: the message and the truthy extras. */
  function ReadError(body: Json): Option<(string, Option<string>, Option<string>)>
  {
    if body.JObj? && "error" in body.fields && body.fields["error"].JObj? then
      var e := body.fields["error"].fields;
      if "message" in e && e["message"].JStr? then
        Some((e["message"].s, ReadText(e, "code"), ReadText(e, "details")))
      else None
    else None
  }

  function ReadText(fields: map<string, Json>, key: string): Option<string>
  {
    if key in fields && fields[key].JStr? then Some(fields[key].s) else None
  }

  /** A falsy extra reads back as absent. */
  function Normalize(x: Option<string>): (r: Option<string>)
    ensures Truthy(x) ==> r == x
    ensures !Truthy(x) ==> r.None?
  {
    if Truthy(x) then x else None
  }

  /**
    An error body reads back as what was sent: the message always, and `code` and
    `details` exactly when they were truthy.
  */
  lemma ErrorResponseRoundTrip(status: int, message: string, code: Option<string>, details: Option<string>)
    ensures ReadError(ErrorResponse(status, message, code, details).body) == Some((message, Normalize(code), Normalize(details)))
  {
  }

  /** A client that tests `success` never takes an error reply for a success. */
  lemma ErrorAndSuccessAreDistinguishable(status: int, message: string, code: Option<string>, details: Option<string>, data: Json, note: Option<string>)
    ensures ErrorResponse(status, message, code, details).body.fields["success"]
            != SuccessResponse(data, note).body.fields["success"]
    ensures ReadError(SuccessResponse(data, note).body).None?
  {
  }
}
