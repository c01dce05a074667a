/** The decision logic of the `POST /` handler `fetch` (main.py:59-156) once the browser is
    abstracted: input validation, then the choice of reply from how the browser flow ended and
    what the listener captured on the way. */
module Fetch {
  import opened Wrappers
  import opened Http
  import opened Capture
  import opened PyStr

  /** The request body, `payload = await request.json()`, as a JSON object. */
  type Payload = map<string, Json>

  /** `payload.get(key)` */
  function Get(payload: Payload, key: string): (v: Option<Json>)
    ensures v.Some? <==> key in payload
    ensures v.Some? ==> v.value == payload[key]
  {
    if key in payload then Some(payload[key]) else None
  }

  /** Python truthiness of a looked-up value, `None` included. */
  predicate Truthy(v: Option<Json>) {
    match v
    case None => false
    case Some(JNull) => false
    case Some(JBool(b)) => b
    case Some(JInt(i)) => i != 0
    case Some(JReal(r)) => r != 0.0
    case Some(JStr(s)) => s != ""
    case Some(JArray(items)) => items != []
    case Some(JObject(fields)) => fields != []
  }

  /** The negation of the guard `not url or not email or not password` (main.py:72). */
  predicate HasRequiredParams(payload: Payload) {
    Truthy(Get(payload, "url")) && Truthy(Get(payload, "email")) && Truthy(Get(payload, "password"))
  }

  /** The falsy values, listed as Python lists them: `None`, `False`, zero, the empty string,
      the empty list and the empty dictionary; every other value is truthy. */
  lemma FalsyValues(v: Option<Json>)
    ensures !Truthy(v) <==>
      v in [None, Some(JNull), Some(JBool(false)), Some(JInt(0)), Some(JReal(0.0)),
            Some(JStr("")), Some(JArray([])), Some(JObject([]))]
  {
  }

  /** The keys the handler demands, in the order it reads them (main.py:66-68). */
  const RequiredKeys: seq<string> := ["url", "email", "password"]

  /** A request passes the guard exactly when each demanded key is present with a truthy value;
      a missing key counts as falsy, as `payload.get` returns `None` for it. */
  lemma RequiredParamsExactly(payload: Payload)
    ensures HasRequiredParams(payload) <==>
      forall i :: 0 <= i < |RequiredKeys| ==>
        RequiredKeys[i] in payload && Truthy(Some(payload[RequiredKeys[i]]))
  {
    if forall i :: 0 <= i < |RequiredKeys| ==>
         RequiredKeys[i] in payload && Truthy(Some(payload[RequiredKeys[i]])) {
      assert RequiredKeys[0] == "url" && RequiredKeys[1] == "email" && RequiredKeys[2] == "password";
    }
  }

  const MissingParams: string := "Missing required params"
  const CodeNotFound: string := "Code not found"

  /** How the browser steps of main.py:77-143 ended, with the URLs of the requests that
      failed while they ran, in delivery order: all steps returned, or one raised `message`. */
  datatype Flow = Completed(failed: seq<string>) | Threw(failed: seq<string>, message: string)

  /** The effect of one call: whether browser work was started (`async_playwright()` at
      main.py:77 was entered; it, or the launch at main.py:80, may itself raise into a `Threw`
      flow), and the reply. */
  datatype Run = Run(started: bool, response: Response)

  /** `fetch` with the polling loop of main.py:138-141 taken as returning normally, so that a
      completed flow reaches the final tests of main.py:146-149. */
  function Fetch(payload: Payload, flow: Flow): (run: Run)
    ensures run.started <==> HasRequiredParams(payload)
    ensures run.response.status == 200 <==>
      HasRequiredParams(payload) && flow.Completed? && CaptureAll(None, flow.failed).Some?
    ensures run.response.status != 200 ==> run.response.status == 400
    ensures run.response.headers == CorsHeaders
  {
    if !HasRequiredParams(payload) then Run(false, HttpResponse(MissingParams))
    else
      match flow
      case Completed(failed) =>
        // `captured_code` starts as `None` (main.py:75) and the listener updates it (main.py:92-103)
        var slot := CaptureAll(None, failed);
        CaptureFromEvents(failed);
        if slot.Some? && slot.value != "" then Run(true, HttpResponse(slot.value, 200))
        else Run(true, HttpResponse(CodeNotFound))
      case Threw(_, message) => Run(true, HttpResponse(message))
  }

  /** A request without a truthy `url`, `email` or `password` is refused before any browser
      work is started, whatever the browser would have done. */
  lemma MissingParamsShortCircuit(payload: Payload, flow: Flow)
    requires !HasRequiredParams(payload)
    ensures !Fetch(payload, flow).started
    ensures Decode(Fetch(payload, flow).response) == Failure(MissingParams, 400)
  {
  }

  /** A completed flow reports the code of the LAST failed request that yielded one. */
  lemma ReportsLastCapture(payload: Payload, failed: seq<string>, i: nat)
    requires HasRequiredParams(payload)
    requires i < |failed| && ParseCapture(failed[i]).Code?
    requires forall j :: i < j < |failed| ==> !ParseCapture(failed[j]).Code?
    ensures Decode(Fetch(payload, Completed(failed)).response) == Success(ParseCapture(failed[i]).value)
  {
    CaptureLastWins(None, failed, i);
  }

  /** A completed flow none of whose failed requests yielded a code reports "Code not found". */
  lemma ReportsCodeNotFound(payload: Payload, failed: seq<string>)
    requires HasRequiredParams(payload)
    requires forall j :: 0 <= j < |failed| ==> !ParseCapture(failed[j]).Code?
    ensures Decode(Fetch(payload, Completed(failed)).response) == Failure(CodeNotFound, 400)
  {
    CaptureUntouched(None, failed);
  }

  /** An exception is reported with its text, even when a code had been captured before it. */
  lemma ExceptionDiscardsCapture(payload: Payload, failed: seq<string>, message: string)
    requires HasRequiredParams(payload)
    ensures Decode(Fetch(payload, Threw(failed, message)).response) == Failure(message, 400)
  {
  }

  /** The endpoint answers with code `c` exactly when the request was valid, the flow completed,
      and some failed request yielded `c` with no later one yielding a code. */
  lemma SuccessExactly(payload: Payload, flow: Flow, c: string)
    ensures Decode(Fetch(payload, flow).response) == Success(c) <==>
      && HasRequiredParams(payload)
      && flow.Completed?
      && exists i :: 0 <= i < |flow.failed| && ParseCapture(flow.failed[i]) == Code(c)
                     && forall j :: i < j < |flow.failed| ==> !ParseCapture(flow.failed[j]).Code?
  {
    if HasRequiredParams(payload) && flow.Completed? {
      CompletedSuccess(payload, flow.failed, c);
    }
  }

  /** `SuccessExactly` for a valid request whose flow completed. */
  lemma CompletedSuccess(payload: Payload, failed: seq<string>, c: string)
    requires HasRequiredParams(payload)
    ensures Decode(Fetch(payload, Completed(failed)).response) == Success(c) <==>
      exists i :: 0 <= i < |failed| && ParseCapture(failed[i]) == Code(c)
                  && forall j :: i < j < |failed| ==> !ParseCapture(failed[j]).Code?
  {
    var verdicts := Verdicts(failed);
    if i :| 0 <= i < |failed| && verdicts[i].Code? {
      var last := LastCode(verdicts, i);
      ReportsLastCapture(payload, failed, last);
      forall k | 0 <= k < |failed| && ParseCapture(failed[k]) == Code(c)
                 && (forall j :: k < j < |failed| ==> !ParseCapture(failed[j]).Code?)
        ensures k == last
      {
        assert verdicts[last].Code? && verdicts[k].Code?;
      }
    } else {
      ReportsCodeNotFound(payload, failed);
    }
  }

  /** The text of the `TypeError` raised by `range` on a float. */
  const FloatRangeError: string := "'float' object cannot be interpreted as an integer"

  /** `fetch` as written. A completed flow reaches `range(timeout_page/1000)` (main.py:138), and
      true division in Python 3 yields a float whatever the numeric timeout (30000/1000 is 30.0),
      so `range` raises a `TypeError`, which the handler of main.py:151-156 reports. */
  function FetchAsWritten(payload: Payload, flow: Flow): (run: Run)
    ensures run.started <==> HasRequiredParams(payload)
    ensures run.response.status == 400
  {
    if !HasRequiredParams(payload) then Run(false, HttpResponse(MissingParams))
    else
      match flow
      case Completed(_) => Run(true, HttpResponse(FloatRangeError))
      case Threw(_, message) => Run(true, HttpResponse(message))
  }

  /** A login whose redirect `<base>?code=<c>` fails at the network layer: the handler as
      intended answers 200 with `c`, the handler as written answers 400 with the `TypeError` text. */
  lemma AsWrittenLosesCapturedCode(payload: Payload, base: string, c: string)
    requires HasRequiredParams(payload)
    requires StartsWith(base, Prefix) && '?' !in base
    requires c != "" && Plain(c)
    ensures Decode(Fetch(payload, Completed([base + "?code=" + c])).response) == Success(c)
    ensures Decode(FetchAsWritten(payload, Completed([base + "?code=" + c])).response)
         == Failure(FloatRangeError, 400)
  {
    CodeOnlyUrl(base, c);
    ReportsLastCapture(payload, [base + "?code=" + c], 0);
  }
}
