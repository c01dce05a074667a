/** The `requestfailed` listener `on_request_failed` (main.py:92-103): it inspects each failed
    request URL and may overwrite the per-request `captured_code` slot. */
module Capture {
  import opened Wrappers
  import opened PyStr

  /** Only failed requests whose URL starts with this text are inspected. */
  const Prefix: string := "mym"

  /** Why inspecting a matching URL raised; the listener catches and logs both. */
  datatype ParseError =
    | NoQuery                          // `url.split("?", 1)[1]` on a URL without `?`: IndexError
    | BadPair(index: nat, length: nat) // `dict(...)`: "dictionary update sequence element #index
                                       // has length length; 2 is required" (ValueError)

  /** What the listener makes of one failed request. */
  datatype Inspection =
    | Ignored                      // the URL does not start with the prefix
    | Malformed(error: ParseError) // the parse raised; nothing is captured
    | NoCode                       // parsed, but `code` is absent or empty (falsy)
    | Code(value: string)          // a non-empty code, which is written to the slot

  // ----- one `&`-piece, `p.split("=")` -----

  /** `p.split("=")` as one element handed to `dict`: a pair, or the length of the list
      that `dict` rejects. The list has one part more than `p` has `=`, so it is a pair
      exactly when there is one `=`, and then its parts are the text around it
      (`PairIsSplit` shows the agreement with `SplitAll`). */
  function Pair(piece: string): (r: Result<(string, string), nat>)
    ensures r.Ok? <==> Count(piece, '=') == 1
    ensures r.Err? ==> r.error == Count(piece, '=') + 1
  {
    if Count(piece, '=') == 1 then Ok(SplitFirst(piece, '=').value) else Err(Count(piece, '=') + 1)
  }

  /** `Pair` is what `dict` makes of the list `p.split("=")`. */
  lemma PairIsSplit(piece: string)
    ensures var parts := SplitAll(piece, '=');
      Pair(piece) == if |parts| == 2 then Ok((parts[0], parts[1])) else Err(|parts|)
  {
    var parts := SplitAll(piece, '=');
    if |parts| == 2 {
      var (k, v) := SplitFirst(piece, '=').value;
      SplitAllCons(k, '=', v);
      SplitAllNoSeparator(v, '=') by {
        CountAppend(k + "=", v, '=');
        CountAppend(k, "=", '=');
      }
    }
  }

  /** An accepted piece is its key, one `=`, and its value; neither part holds an `=`. */
  lemma PairParts(piece: string)
    requires Pair(piece).Ok?
    ensures var (k, v) := Pair(piece).value;
      piece == k + "=" + v && '=' !in k && '=' !in v
  {
    var (k, v) := Pair(piece).value;
    CountAppend(k + "=", v, '=');
    CountAppend(k, "=", '=');
  }

  /** Round trip: a key and a value without `=`, joined by `=`, are read back as that pair. */
  lemma PairOfJoin(k: string, v: string)
    requires '=' !in k && '=' !in v
    ensures Pair(k + "=" + v) == Ok((k, v))
  {
    CountAppend(k + "=", v, '=');
    CountAppend(k, "=", '=');
    SplitFirstOfJoin(k, '=', v);
  }

  // ----- `dict(p.split("=") for p in query.split("&"))` -----

  /** `dict(p.split("=") for p in pieces)`: pairs are inserted left to right, so a later
      key overwrites an earlier one, and the first piece that is not a pair aborts the
      whole construction. */
  function Params(pieces: seq<string>): (r: Result<map<string, string>, ParseError>)
    ensures r.Ok? <==> forall i {:trigger Pair(pieces[i])} :: 0 <= i < |pieces| ==> Pair(pieces[i]).Ok?
    ensures r.Err? ==> r.error.BadPair?
    decreases |pieces|
  {
    if pieces == [] then Ok(map[])
    else
      var n := |pieces| - 1;
      assert forall j :: 0 <= j < n ==> pieces[..n][j] == pieces[j];
      match Params(pieces[..n])
      case Err(e) => Err(e)
      case Ok(d) =>
        match Pair(pieces[n])
        case Err(len) => Err(BadPair(n, len))
        case Ok((k, v)) => Ok(d[k := v])
  }

  /** A failed construction names the FIRST piece that is not a pair, and that piece's length. */
  lemma {:induction false} ParamsFirstBadPair(pieces: seq<string>)
    requires Params(pieces).Err?
    ensures var e := Params(pieces).error;
      && e.index < |pieces|
      && Pair(pieces[e.index]) == Err(e.length)
      && forall j :: 0 <= j < e.index ==> Pair(pieces[j]).Ok?
    decreases |pieces|
  {
    var n := |pieces| - 1;
    var front := pieces[..n];
    assert forall j :: 0 <= j < n ==> front[j] == pieces[j];
    if Params(front).Err? {
      ParamsFirstBadPair(front);
    }
  }

  /** Dropping the last piece of a valid query keeps it valid. */
  lemma FrontParams(pieces: seq<string>)
    requires Params(pieces).Ok? && pieces != []
    ensures Params(pieces[..|pieces| - 1]).Ok?
  {
    var front := pieces[..|pieces| - 1];
    assert forall j :: 0 <= j < |front| ==> front[j] == pieces[j];
  }

  /** The last piece is inserted into the dictionary built from the others. */
  lemma ParamsLastStep(pieces: seq<string>, d: map<string, string>, d': map<string, string>)
    requires Params(pieces) == Ok(d) && pieces != []
    requires Params(pieces[..|pieces| - 1]) == Ok(d')
    ensures d == d'[Pair(pieces[|pieces| - 1]).value.0 := Pair(pieces[|pieces| - 1]).value.1]
  {
  }

  /** The parsed dictionary holds exactly the keys of the pieces. */
  lemma ParamsKeys(pieces: seq<string>, d: map<string, string>)
    requires Params(pieces) == Ok(d)
    ensures forall i :: 0 <= i < |pieces| ==> Pair(pieces[i]).value.0 in d
    ensures forall k :: k in d ==> exists i :: 0 <= i < |pieces| && Pair(pieces[i]).value.0 == k
  {
    forall i | 0 <= i < |pieces|
      ensures Pair(pieces[i]).value.0 in d
    {
      ParamsHasKey(pieces, d, i);
    }
    forall k | k in d
      ensures exists i :: 0 <= i < |pieces| && Pair(pieces[i]).value.0 == k
    {
      var i := ParamsKeyOrigin(pieces, d, k);
    }
  }

  /** Every piece's key is in the dictionary. */
  lemma {:induction false} ParamsHasKey(pieces: seq<string>, d: map<string, string>, i: nat)
    requires Params(pieces) == Ok(d) && i < |pieces|
    ensures Pair(pieces[i]).value.0 in d
    decreases |pieces|
  {
    var n := |pieces| - 1;
    var front := pieces[..n];
    FrontParams(pieces);
    var d' := Params(front).value;
    ParamsLastStep(pieces, d, d');
    if i < n {
      assert front[i] == pieces[i];
      ParamsHasKey(front, d', i);
      assert Pair(front[i]).value.0 in d';
      assert Pair(pieces[i]).value.0 in d';
    } else {
      assert i == n;
    }
  }

  /** Every key of the dictionary comes from some piece; `i` is one such piece. */
  lemma {:induction false} ParamsKeyOrigin(pieces: seq<string>, d: map<string, string>, k: string)
    returns (i: nat)
    requires Params(pieces) == Ok(d) && k in d
    ensures i < |pieces| && Pair(pieces[i]).value.0 == k
    decreases |pieces|
  {
    var n := |pieces| - 1;
    var front := pieces[..n];
    FrontParams(pieces);
    var d' := Params(front).value;
    ParamsLastStep(pieces, d, d');
    if Pair(pieces[n]).value.0 == k {
      i := n;
    } else {
      i := ParamsKeyOrigin(front, d', k);
      assert front[i] == pieces[i];
    }
  }

  /** When a key occurs in several pieces, the LAST of them supplies its value. */
  lemma {:induction false} ParamsLastWins(pieces: seq<string>, d: map<string, string>, i: nat,
                                          k: string, v: string)
    requires Params(pieces) == Ok(d)
    requires i < |pieces| && Pair(pieces[i]) == Ok((k, v))
    requires forall j :: i < j < |pieces| ==> Pair(pieces[j]).Ok? && Pair(pieces[j]).value.0 != k
    ensures k in d && d[k] == v
    decreases |pieces|
  {
    var n := |pieces| - 1;
    var front := pieces[..n];
    FrontParams(pieces);
    var d' := Params(front).value;
    ParamsLastStep(pieces, d, d');
    if i < n {
      assert forall j :: 0 <= j < n ==> front[j] == pieces[j];
      ParamsLastWins(front, d', i, k, v);
      assert Pair(pieces[n]).value.0 != k;
    } else {
      assert Pair(pieces[n]) == Ok((k, v));
    }
  }

  // ----- one failed request -----

  /** `on_request_failed` on one URL: the prefix test, then the query after the first `?`,
      split on every `&`, each piece split on every `=`, then `params.get("code")` and its
      truthiness test. */
  function ParseCapture(url: string): (r: Inspection)
    ensures r.Ignored? <==> !StartsWith(url, Prefix)
    ensures r == Malformed(NoQuery) <==> StartsWith(url, Prefix) && '?' !in url
    ensures r.Code? ==> r.value != ""
  {
    if !StartsWith(url, Prefix) then Ignored
    else
      match Query(url)
      case None => Malformed(NoQuery)
      case Some(query) =>
        Classify(Params(SplitAll(query, '&')))
  }

  /** The verdict on a parsed query: the `dict` error, or the truthiness test on
      `params.get("code")`. */
  function Classify(params: Result<map<string, string>, ParseError>): Inspection {
    match params
    case Err(e) => Malformed(e)
    case Ok(d) => if "code" in d && d["code"] != "" then Code(d["code"]) else NoCode
  }

  /** The query of a URL, `url.split("?", 1)[1]`: absent when there is no `?`, and otherwise
      everything after the first `?`. */
  function Query(url: string): (q: Option<string>)
    ensures q.Some? <==> '?' in url
    ensures q.Some? ==>
      && |q.value| < |url|
      && url == url[..|url| - |q.value| - 1] + "?" + q.value
      && '?' !in url[..|url| - |q.value| - 1]
  {
    match SplitFirst(url, '?')
    case None => None
    case Some((_, after)) => Some(after)
  }

  /** A single malformed piece anywhere in the query voids the whole event, even when
      another piece is a valid `code` pair. */
  lemma BadPieceVoidsEvent(url: string, i: nat)
    requires StartsWith(url, Prefix) && Query(url).Some?
    requires i < |SplitAll(Query(url).value, '&')|
    requires Count(SplitAll(Query(url).value, '&')[i], '=') != 1
    ensures ParseCapture(url).Malformed?
  {
    assert Pair(SplitAll(Query(url).value, '&')[i]).Err?;
  }

  /** The index of the last piece at or after `i` whose key is `k`. */
  function LastKey(pieces: seq<string>, i: nat, k: string): (m: nat)
    requires forall j :: 0 <= j < |pieces| ==> Pair(pieces[j]).Ok?
    requires i < |pieces| && Pair(pieces[i]).value.0 == k
    ensures i <= m < |pieces| && Pair(pieces[m]).value.0 == k
    ensures forall j :: m < j < |pieces| ==> Pair(pieces[j]).value.0 != k
    decreases |pieces| - i
  {
    if exists j :: i < j < |pieces| && Pair(pieces[j]).value.0 == k then
      var j :| i < j < |pieces| && Pair(pieces[j]).value.0 == k;
      LastKey(pieces, j, k)
    else i
  }

  /** The value of `code` in the dictionary comes from the last piece whose key is `code`;
      `m` is that piece. */
  lemma LastCodePiece(pieces: seq<string>, d: map<string, string>) returns (m: nat)
    requires Params(pieces) == Ok(d) && "code" in d
    ensures m < |pieces| && Pair(pieces[m]) == Ok(("code", d["code"]))
    ensures forall j :: m < j < |pieces| ==> Pair(pieces[j]).value.0 != "code"
  {
    var i := ParamsKeyOrigin(pieces, d, "code");
    m := LastKey(pieces, i, "code");
    ParamsLastWins(pieces, d, m, "code", Pair(pieces[m]).value.1);
  }

  /** The dictionary maps `code` to `c` exactly when the last piece whose key is `code`
      has the value `c`. */
  lemma ParamsCode(pieces: seq<string>, d: map<string, string>, c: string)
    requires Params(pieces) == Ok(d)
    ensures ("code" in d && d["code"] == c) <==>
      exists i :: (0 <= i < |pieces| && Pair(pieces[i]) == Ok(("code", c))
        && forall j :: i < j < |pieces| ==> Pair(pieces[j]).value.0 != "code")
  {
    if "code" in d && d["code"] == c {
      var m := LastCodePiece(pieces, d);
    }
    if exists i :: (0 <= i < |pieces| && Pair(pieces[i]) == Ok(("code", c))
         && forall j :: i < j < |pieces| ==> Pair(pieces[j]).value.0 != "code") {
      var i :| 0 <= i < |pieces| && Pair(pieces[i]) == Ok(("code", c))
         && forall j :: i < j < |pieces| ==> Pair(pieces[j]).value.0 != "code";
      ParamsLastWins(pieces, d, i, "code", c);
    }
  }

  /** The verdict on a query's pieces is the code `c` exactly when every piece is a pair and
      the last pair whose key is `code` has the non-empty value `c`. */
  lemma ClassifyExactly(pieces: seq<string>, c: string)
    ensures Classify(Params(pieces)) == Code(c) <==>
      && (forall j :: 0 <= j < |pieces| ==> Pair(pieces[j]).Ok?)
      && c != ""
      && exists i :: (0 <= i < |pieces| && Pair(pieces[i]) == Ok(("code", c))
           && forall j :: i < j < |pieces| ==> Pair(pieces[j]).value.0 != "code")
  {
    match Params(pieces)
    case Err(_) =>
      ParamsFirstBadPair(pieces);
    case Ok(d) =>
      ParamsCode(pieces, d, c);
  }

  /** Exactly when a URL with a query yields the code `c`: every piece of its query is a
      pair, and the last pair whose key is `code` has the non-empty value `c`. */
  lemma CodeExactly(url: string, c: string)
    requires StartsWith(url, Prefix) && Query(url).Some?
    ensures var pieces := SplitAll(Query(url).value, '&');
      ParseCapture(url) == Code(c) <==>
        && (forall j :: 0 <= j < |pieces| ==> Pair(pieces[j]).Ok?)
        && c != ""
        && exists i :: (0 <= i < |pieces| && Pair(pieces[i]) == Ok(("code", c))
             && forall j :: i < j < |pieces| ==> Pair(pieces[j]).value.0 != "code")
  {
    var pieces := SplitAll(Query(url).value, '&');
    assert ParseCapture(url) == Classify(Params(pieces));
    ClassifyExactly(pieces, c);
  }

  // ----- redirect URLs built from pairs -----

  /** A key or value that can stand in a query without being split: no `&` and no `=`. */
  predicate Plain(s: string) {
    '&' !in s && '=' !in s
  }

  /** The `key=value` pieces of a query built from pairs. */
  function Pieces(pairs: seq<(string, string)>): (pieces: seq<string>)
    ensures |pieces| == |pairs|
    ensures forall j :: 0 <= j < |pairs| ==> pieces[j] == pairs[j].0 + "=" + pairs[j].1
  {
    seq(|pairs|, j requires 0 <= j < |pairs| => pairs[j].0 + "=" + pairs[j].1)
  }

  /** The pieces of plain pairs parse back to the pairs, the last pair of a key supplying
      its value. */
  lemma ParamsOfPieces(pairs: seq<(string, string)>, i: nat)
    requires forall j :: 0 <= j < |pairs| ==> Plain(pairs[j].0) && Plain(pairs[j].1)
    requires i < |pairs|
    requires forall j :: i < j < |pairs| ==> pairs[j].0 != pairs[i].0
    ensures Params(Pieces(pairs)).Ok?
    ensures pairs[i].0 in Params(Pieces(pairs)).value
    ensures Params(Pieces(pairs)).value[pairs[i].0] == pairs[i].1
  {
    var pieces := Pieces(pairs);
    forall j | 0 <= j < |pairs|
      ensures Pair(pieces[j]) == Ok(pairs[j])
    {
      PairOfJoin(pairs[j].0, pairs[j].1);
    }
    ParamsLastWins(pieces, Params(pieces).value, i, pairs[i].0, pairs[i].1);
  }

  /** Round trip with a redirect URL built from a prefixed base and plain pairs: the value
      of the last `code` pair is what the listener reports. */
  lemma ParseBuiltUrl(base: string, pairs: seq<(string, string)>, i: nat)
    requires StartsWith(base, Prefix) && '?' !in base
    requires forall j :: 0 <= j < |pairs| ==> Plain(pairs[j].0) && Plain(pairs[j].1)
    requires i < |pairs| && pairs[i].0 == "code" && pairs[i].1 != ""
    requires forall j :: i < j < |pairs| ==> pairs[j].0 != "code"
    ensures ParseCapture(base + "?" + Join(Pieces(pairs), '&')) == Code(pairs[i].1)
  {
    var query := Join(Pieces(pairs), '&');
    var url := base + "?" + query;
    BuiltUrlParts(base, pairs, url);
    ParamsOfPieces(pairs, i);
    var params := Params(SplitAll(query, '&'));
    assert params.Ok? && params.value["code"] == pairs[i].1;
  }

  /** The parts of a built URL: it matches, and its query splits into the pieces. */
  lemma BuiltUrlParts(base: string, pairs: seq<(string, string)>, url: string)
    requires StartsWith(base, Prefix) && '?' !in base
    requires forall j :: 0 <= j < |pairs| ==> Plain(pairs[j].0) && Plain(pairs[j].1)
    requires pairs != [] && url == base + "?" + Join(Pieces(pairs), '&')
    ensures StartsWith(url, Prefix)
    ensures SplitFirst(url, '?') == Some((base, Join(Pieces(pairs), '&')))
    ensures SplitAll(Join(Pieces(pairs), '&'), '&') == Pieces(pairs)
  {
    var pieces := Pieces(pairs);
    assert url[..|Prefix|] == base[..|Prefix|];
    SplitFirstOfJoin(base, '?', Join(pieces, '&'));
    assert forall j :: 0 <= j < |pieces| ==> '&' !in pieces[j];
    SplitAllJoin(pieces, '&');
  }

  /** A redirect URL whose query is the single pair `code=<c>` yields `c`. */
  lemma CodeOnlyUrl(base: string, c: string)
    requires StartsWith(base, Prefix) && '?' !in base
    requires c != "" && Plain(c)
    ensures ParseCapture(base + "?code=" + c) == Code(c)
  {
    var pairs := [("code", c)];
    var url := base + "?code=" + c;
    assert Join(Pieces(pairs), '&') == "code" + "=" + c;
    assert url == base + "?" + Join(Pieces(pairs), '&');
    BuiltUrlParts(base, pairs, url);
    ParamsOfPieces(pairs, 0);
  }

  // ----- the `captured_code` slot -----

  /** The slot update for one verdict: overwritten by a code, untouched otherwise. */
  function Apply(slot: Option<string>, verdict: Inspection): (next: Option<string>)
    ensures next != slot ==> verdict.Code?
    ensures verdict.Code? ==> next == Some(verdict.value)
  {
    if verdict.Code? then Some(verdict.value) else slot
  }

  /** The slot update for one failed request (main.py:99-100). */
  function Step(slot: Option<string>, url: string): (next: Option<string>)
    ensures next != slot ==> ParseCapture(url).Code?
    ensures ParseCapture(url).Code? ==> next == Some(ParseCapture(url).value)
  {
    Apply(slot, ParseCapture(url))
  }

  /** The slot after a sequence of verdicts, applied in order. */
  function Replay(slot: Option<string>, verdicts: seq<Inspection>): (r: Option<string>)
    ensures r == slot || (r.Some? && exists i :: 0 <= i < |verdicts| && verdicts[i] == Code(r.value))
    decreases |verdicts|
  {
    if verdicts == [] then slot
    else
      var r := Replay(Apply(slot, verdicts[0]), verdicts[1..]);
      assert forall i :: 0 <= i < |verdicts| - 1 ==> verdicts[1..][i] == verdicts[i + 1];
      r
  }

  /** The listener's verdict on each failed request, in delivery order. */
  function Verdicts(events: seq<string>): (verdicts: seq<Inspection>)
    ensures |verdicts| == |events|
    ensures forall j :: 0 <= j < |events| ==> verdicts[j] == ParseCapture(events[j])
  {
    seq(|events|, j requires 0 <= j < |events| => ParseCapture(events[j]))
  }

  /** The slot after the listener has seen `events` in order. */
  function CaptureAll(slot: Option<string>, events: seq<string>): (r: Option<string>)
    ensures r == slot || (r.Some? && exists i :: 0 <= i < |events| && ParseCapture(events[i]) == Code(r.value))
  {
    var verdicts := Verdicts(events);
    var r := Replay(slot, verdicts);
    assert r != slot ==> exists i :: 0 <= i < |events| && ParseCapture(events[i]) == verdicts[i] == Code(r.value);
    r
  }

  /** Verdicts replayed in two batches leave the slot as if replayed in one. */
  lemma {:induction false} ReplayAppend(slot: Option<string>, a: seq<Inspection>, b: seq<Inspection>)
    ensures Replay(slot, a + b) == Replay(Replay(slot, a), b)
    decreases |a|
  {
    if a != [] {
      assert (a + b)[1..] == a[1..] + b;
      ReplayAppend(Apply(slot, a[0]), a[1..], b);
    } else {
      assert a + b == b;
    }
  }

  /** Verdicts without a code leave the slot as it was. */
  lemma {:induction false} ReplayUntouched(slot: Option<string>, verdicts: seq<Inspection>)
    requires forall j :: 0 <= j < |verdicts| ==> !verdicts[j].Code?
    ensures Replay(slot, verdicts) == slot
    decreases |verdicts|
  {
    if verdicts != [] {
      ReplayUntouched(slot, verdicts[1..]);
    }
  }

  /** The last verdict with a code decides the slot. */
  lemma ReplayLastWins(slot: Option<string>, verdicts: seq<Inspection>, i: nat)
    requires i < |verdicts| && verdicts[i].Code?
    requires forall j :: i < j < |verdicts| ==> !verdicts[j].Code?
    ensures Replay(slot, verdicts) == Some(verdicts[i].value)
  {
    var before, rest := verdicts[..i], verdicts[i..];
    assert verdicts == before + rest;
    ReplayAppend(slot, before, rest);
    var after := rest[1..];
    assert forall j :: 0 <= j < |after| ==> after[j] == verdicts[i + 1 + j];
    ReplayUntouched(Some(verdicts[i].value), after);
  }

  /** One more event updates the slot as `Step` does: the fold and the cell agree. */
  lemma CaptureAllStep(slot: Option<string>, events: seq<string>, url: string)
    ensures CaptureAll(slot, events + [url]) == Step(CaptureAll(slot, events), url)
  {
    assert Verdicts(events + [url]) == Verdicts(events) + [ParseCapture(url)];
    ReplayAppend(slot, Verdicts(events), [ParseCapture(url)]);
  }

  /** Events that yield no code (unmatched, malformed, missing or empty `code`) leave the
      slot as it was. */
  lemma CaptureUntouched(slot: Option<string>, events: seq<string>)
    requires forall j :: 0 <= j < |events| ==> !ParseCapture(events[j]).Code?
    ensures CaptureAll(slot, events) == slot
  {
    ReplayUntouched(slot, Verdicts(events));
  }

  /** The last event that yields a code decides the slot: later captures overwrite earlier ones. */
  lemma CaptureLastWins(slot: Option<string>, events: seq<string>, i: nat)
    requires i < |events| && ParseCapture(events[i]).Code?
    requires forall j :: i < j < |events| ==> !ParseCapture(events[j]).Code?
    ensures CaptureAll(slot, events) == Some(ParseCapture(events[i]).value)
  {
    ReplayLastWins(slot, Verdicts(events), i);
  }

  /** The index of the last verdict at or after `i` that carries a code. */
  function LastCode(verdicts: seq<Inspection>, i: nat): (k: nat)
    requires i < |verdicts| && verdicts[i].Code?
    ensures i <= k < |verdicts| && verdicts[k].Code?
    ensures forall j :: k < j < |verdicts| ==> !verdicts[j].Code?
    decreases |verdicts| - i
  {
    if exists j :: i < j < |verdicts| && verdicts[j].Code? then
      var j :| i < j < |verdicts| && verdicts[j].Code?;
      LastCode(verdicts, j)
    else i
  }

  /** A slot that starts empty holds only codes that some event yielded, never an empty one,
      and stays empty exactly when no event yields a code. */
  lemma CaptureFromEvents(events: seq<string>)
    ensures CaptureAll(None, events).Some? ==>
      && CaptureAll(None, events).value != ""
      && exists i :: 0 <= i < |events| && ParseCapture(events[i]) == Code(CaptureAll(None, events).value)
    ensures CaptureAll(None, events).None? <==> forall j :: 0 <= j < |events| ==> !ParseCapture(events[j]).Code?
  {
    var verdicts := Verdicts(events);
    if i :| 0 <= i < |events| && verdicts[i].Code? {
      var last := LastCode(verdicts, i);
      ReplayLastWins(None, verdicts, last);
    } else {
      ReplayUntouched(None, verdicts);
    }
  }

  /** The `captured_code` cell shared by the handler and its listener. */
  class Slot {
    var code: Option<string>

    /** `captured_code = None` (main.py:75). */
    constructor ()
      ensures code == None
    {
      code := None;
    }

    /** Delivery of one `requestfailed` event to `on_request_failed`. */
    method OnRequestFailed(url: string)
      modifies this
      ensures code == Step(old(code), url)
    {
      var verdict := ParseCapture(url);
      if verdict.Code? {
        code := Some(verdict.value);
      }
    }
  }
}
