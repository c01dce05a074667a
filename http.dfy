/** `http_response` and `CORS_HEADERS` (main.py:35-56): every reply of the endpoint is built here. */
module Http {
  import opened Wrappers

  /** JSON values as `request.json()` delivers them and `JSONResponse` serialises them. */
  datatype Json =
    | JNull
    | JBool(b: bool)
    | JInt(i: int)
    | JReal(r: real)
    | JStr(s: string)
    | JArray(items: seq<Json>)
    | JObject(fields: seq<(string, Json)>)

  /** The cross-origin headers attached to every response (main.py:35-39). */
  const CorsHeaders: seq<(string, string)> := [
    ("Access-Control-Allow-Origin", "*"),
    ("Access-Control-Allow-Methods", "POST"),
    ("Access-Control-Allow-Headers", "Content-Type")
  ]

  /** `CORS_HEADERS` is a dictionary: three distinct header names, each with its value. */
  lemma CorsHeadersEntries()
    ensures |CorsHeaders| == 3
    ensures forall i, j :: 0 <= i < j < |CorsHeaders| ==> CorsHeaders[i].0 != CorsHeaders[j].0
    ensures Field(CorsHeaders, "Access-Control-Allow-Origin") == Some("*")
    ensures Field(CorsHeaders, "Access-Control-Allow-Methods") == Some("POST")
    ensures Field(CorsHeaders, "Access-Control-Allow-Headers") == Some("Content-Type")
  {
  }

  /** A `JSONResponse`: status code, JSON object body in insertion order, and the `headers=`
      argument it was given. The `content-length` and `content-type` headers the framework
      adds when it renders the reply are not part of this value. */
  datatype Response = Response(status: int, body: seq<(string, Json)>, headers: seq<(string, string)>)

  /** What a caller reads from a reply: a code on status 200, otherwise an error message and
      the status repeated in the body; `Unreadable` for a body of neither shape. */
  datatype Reply = Success(code: string) | Failure(message: string, status: int) | Unreadable

  /** The value of the first field named `key` of a JSON object. */
  function Field<V>(fields: seq<(string, V)>, key: string): (r: Option<V>)
    ensures r.Some? <==> exists i :: 0 <= i < |fields| && fields[i].0 == key
    decreases |fields|
  {
    if fields == [] then None
    else if fields[0].0 == key then Some(fields[0].1)
    else
      var r := Field(fields[1..], key);
      assert forall i :: 0 <= i < |fields| - 1 ==> fields[1..][i] == fields[i + 1];
      assert r.Some? ==> exists i :: 0 <= i < |fields| - 1 && fields[1..][i].0 == key;
      r
  }

  /** The field names of a JSON object, in order. */
  function Names(fields: seq<(string, Json)>): (names: seq<string>)
    ensures |names| == |fields|
    ensures forall i :: 0 <= i < |fields| ==> names[i] == fields[i].0
  {
    seq(|fields|, i requires 0 <= i < |fields| => fields[i].0)
  }

  /** The reading of a response by its caller, independent of how it was built. */
  function Decode(resp: Response): Reply {
    if resp.status == 200 then
      match Field<Json>(resp.body, "code")
      case Some(JStr(c)) => Success(c)
      case _ => Unreadable
    else
      match (Field<Json>(resp.body, "message"), Field<Json>(resp.body, "code"))
      case (Some(JStr(m)), Some(JInt(s))) => if s == resp.status then Failure(m, s) else Unreadable
      case _ => Unreadable
  }

  /** `http_response(message, status=400)`. */
  function HttpResponse(message: string, status: int := 400): (r: Response)
    ensures r.status == status
    ensures Decode(r) == if status == 200 then Success(message) else Failure(message, status)
    ensures Names(r.body) == if status == 200 then ["code"] else ["message", "code"]
    ensures Field(r.headers, "Access-Control-Allow-Origin") == Some("*")
    ensures Field(r.headers, "Access-Control-Allow-Methods") == Some("POST")
    ensures Field(r.headers, "Access-Control-Allow-Headers") == Some("Content-Type")
    ensures |r.headers| == 3
  {
    CorsHeadersEntries();
    var body := if status == 200 then [("code", JStr(message))]
                else [("message", JStr(message)), ("code", JInt(status))];
    assert status != 200 ==> Field<Json>(body, "code") == Field<Json>(body[1..], "code") == Some(JInt(status));
    Response(status, body, CorsHeaders)
  }

  /** A reply can be read back into the message and status it was built from, so distinct
      arguments give distinct replies. */
  lemma HttpResponseInjective(m: string, s: int, m': string, s': int)
    requires HttpResponse(m, s) == HttpResponse(m', s')
    ensures m == m' && s == s'
  {
    assert Decode(HttpResponse(m, s)) == Decode(HttpResponse(m', s'));
  }
}
