/**
 * The generation loop of `getGeminiSummary` (popup.js): try the candidates in
 * order, return the first non-empty summary text, otherwise remember the most
 * recent failure reason and, once every candidate is used up, fail with that
 * reason and three fixed remediation hints. The network is replaced by one Gen
 * value per attempt: `outcomes[i]` is what the i-th request came to.
 */
module Client {
  import opened Wrappers
  import Text
  import Catalog

  /**
   * What one generation request came to:
   *  - Transport: `fetch` threw (the exception message; "" when it has none);
   *  - OkText: an ok status whose body parsed, with the string found at
   *    `candidates[0].content.parts[0].text`, if any;
   *  - OkBadJson: an ok status whose body failed to parse (the exception message);
   *  - NotOk: any other status, with the body's `error.message` if the body
   *    parsed and carried one.
   */
  datatype Gen =
    | Transport(message: string)
    | OkText(text: Option<string>)
    | OkBadJson(message: string)
    | NotOk(status: nat, statusText: string, errorMessage: Option<string>)

  /** The attempt produced a summary: an ok body with a non-empty text. */
  predicate IsSuccess(g: Gen) {
    g.OkText? && g.text.Some? && g.text.value != ""
  }

  /** The reason synthesised for a non-ok status without a usable error message. */
  function HttpReason(status: nat, statusText: string): (r: string)
    ensures |r| >= |statusText| + 8
    ensures r[..5] == "HTTP " && r[|r| - |statusText| - 2..] == ": " + statusText
    ensures Text.IsDigits(r[5..|r| - |statusText| - 2])
    ensures Text.DecimalValue(r[5..|r| - |statusText| - 2]) == status
  {
    Text.DecimalRoundTrip(status);
    var r := "HTTP " + Text.NatToString(status) + ": " + statusText;
    assert r[5..|r| - |statusText| - 2] == Text.NatToString(status);
    r
  }

  /** The status line determines the status and the status text: distinct responses give distinct reasons. */
  lemma HttpReasonInjective(s1: nat, t1: string, s2: nat, t2: string)
    requires HttpReason(s1, t1) == HttpReason(s2, t2)
    ensures s1 == s2 && t1 == t2
  {
    var d1, d2 := Text.NatToString(s1), Text.NatToString(s2);
    var r := HttpReason(s1, t1);
    assert r == "HTTP " + d1 + ": " + t1;
    assert r == "HTTP " + d2 + ": " + t2;
    // The first character after the shorter digit run is ':' in one reading and a digit in the other.
    var m := if |d1| <= |d2| then |d1| else |d2|;
    var c := r[5 + m];
    assert c == ("HTTP " + d1 + ": " + t1)[5 + m] == ("HTTP " + d2 + ": " + t2)[5 + m];
    assert |d1| == |d2|;
    assert d1 == r[5..5 + |d1|] == d2;
    Text.DecimalRoundTrip(s1);
    Text.DecimalRoundTrip(s2);
    assert t1 == r[7 + |d1|..] == t2;
  }

  /**
   * The reason a non-ok response records: the body's error message if it is
   * non-empty, else the status line (also when the body did not parse).
   */
  function NotOkReason(status: nat, statusText: string, errorMessage: Option<string>): (r: string)
    ensures r != ""
    ensures errorMessage.Some? && errorMessage.value != "" ==> r == errorMessage.value
    ensures errorMessage.None? || errorMessage.value == "" ==> r == HttpReason(status, statusText)
  {
    if errorMessage.Some? && errorMessage.value != "" then errorMessage.value
    else HttpReason(status, statusText)
  }

  /** The reason a failed attempt records, or None for an ok response without text (which records nothing). */
  function Recorded(g: Gen): (r: Option<string>)
    ensures r.None? <==> g.OkText?
    ensures g.NotOk? ==> r == Some(NotOkReason(g.status, g.statusText, g.errorMessage))
    ensures g.Transport? || g.OkBadJson? ==> r == Some(g.message)
  {
    match g
    case Transport(m) => Some(m)
    case OkText(_) => None
    case OkBadJson(m) => Some(m)
    case NotOk(s, t, e) => Some(NotOkReason(s, t, e))
  }

  /** `lastError` after an unsuccessful attempt: the attempt's reason if it records one, else unchanged. */
  function Record(lastError: Option<string>, g: Gen): (r: Option<string>)
    ensures g.OkText? ==> r == lastError
    ensures !g.OkText? ==> r.Some? && r == Recorded(g)
  {
    if Recorded(g).Some? then Recorded(g) else lastError
  }

  /** How the loop ends: with the summary of attempt `index`, or exhausted with the last recorded error. */
  datatype LoopEnd = Found(summary: string, index: nat) | Exhausted(lastError: Option<string>)

  /** The loop from attempt `i` on, with `lastError` recorded so far. */
  function Run(outcomes: seq<Gen>, i: nat, lastError: Option<string>): (r: LoopEnd)
    requires i <= |outcomes|
    ensures r.Found? ==> i <= r.index < |outcomes|
    decreases |outcomes| - i
  {
    if i == |outcomes| then Exhausted(lastError)
    else if IsSuccess(outcomes[i]) then Found(outcomes[i].text.value, i)
    else Run(outcomes, i + 1, Record(lastError, outcomes[i]))
  }

  /** A summary is returned only from a successful attempt with no successful attempt before it. */
  lemma {:induction false} RunFound(outcomes: seq<Gen>, i: nat, lastError: Option<string>)
    requires i <= |outcomes|
    ensures Run(outcomes, i, lastError).Found? ==>
      var k := Run(outcomes, i, lastError).index;
      && i <= k < |outcomes| && IsSuccess(outcomes[k])
      && Run(outcomes, i, lastError).summary == outcomes[k].text.value
      && forall j :: i <= j < k ==> !IsSuccess(outcomes[j])
    decreases |outcomes| - i
  {
    if i < |outcomes| && !IsSuccess(outcomes[i]) {
      RunFound(outcomes, i + 1, Record(lastError, outcomes[i]));
    }
  }

  /** The first successful attempt is the one whose text is returned; no later attempt matters. */
  lemma {:induction false} RunFirstSuccess(outcomes: seq<Gen>, i: nat, lastError: Option<string>, k: nat)
    requires i <= k < |outcomes| && IsSuccess(outcomes[k])
    requires forall j :: i <= j < k ==> !IsSuccess(outcomes[j])
    ensures Run(outcomes, i, lastError) == Found(outcomes[k].text.value, k)
    decreases k - i
  {
    if i < k {
      RunFirstSuccess(outcomes, i + 1, Record(lastError, outcomes[i]), k);
    }
  }

  /**
   * Last error wins: when no attempt succeeds, the loop ends with the reason of
   * the last attempt that recorded one (later ok-but-empty attempts do not
   * erase it).
   */
  lemma {:induction false} RunLastErrorWins(outcomes: seq<Gen>, i: nat, lastError: Option<string>, k: nat)
    requires i <= k < |outcomes| && Recorded(outcomes[k]).Some?
    requires forall j :: i <= j < |outcomes| ==> !IsSuccess(outcomes[j])
    requires forall j :: k < j < |outcomes| ==> Recorded(outcomes[j]).None?
    ensures Run(outcomes, i, lastError) == Exhausted(Recorded(outcomes[k]))
    decreases |outcomes| - i
  {
    if i < k {
      RunLastErrorWins(outcomes, i + 1, Record(lastError, outcomes[i]), k);
    } else {
      RunKeepsError(outcomes, k + 1, Recorded(outcomes[k]));
    }
  }

  /** When no attempt from `i` on succeeds or records a reason, the loop ends exhausted with `lastError` as it was. */
  lemma {:induction false} RunKeepsError(outcomes: seq<Gen>, i: nat, lastError: Option<string>)
    requires i <= |outcomes|
    requires forall j :: i <= j < |outcomes| ==> !IsSuccess(outcomes[j]) && Recorded(outcomes[j]).None?
    ensures Run(outcomes, i, lastError) == Exhausted(lastError)
    decreases |outcomes| - i
  {
    if i < |outcomes| {
      RunKeepsError(outcomes, i + 1, lastError);
    }
  }

  /** Some successful attempt means there is a first one, and the loop returns it. */
  lemma {:induction false} RunSucceedsWhenAnySucceeds(outcomes: seq<Gen>, k: nat)
    requires k < |outcomes| && IsSuccess(outcomes[k])
    ensures Run(outcomes, 0, None).Found?
    decreases k
  {
    if exists j :: 0 <= j < k && IsSuccess(outcomes[j]) {
      var j :| 0 <= j < k && IsSuccess(outcomes[j]);
      RunSucceedsWhenAnySucceeds(outcomes, j);
    } else {
      RunFirstSuccess(outcomes, 0, None, k);
    }
  }

  const DefaultReason: string := "All model attempts failed."
  const RemediationHints: string :=
    " Please verify:\n1. Your API key is valid\n2. Gemini API is enabled in Google Cloud Console\n3. Your API key has proper permissions"
  const GenericFailure: string :=
    "Failed to generate summary. Please verify your API key is valid and has access to Gemini API."

  /** The message thrown on exhaustion: the last reason (or the default when it is missing or empty), then the hints. */
  function ExhaustionMessage(lastError: Option<string>): (r: string)
    ensures |r| > |RemediationHints| && r[|r| - |RemediationHints|..] == RemediationHints
    ensures lastError.Some? && lastError.value != "" ==> r[..|r| - |RemediationHints|] == lastError.value
    ensures lastError.None? || lastError.value == "" ==> r[..|r| - |RemediationHints|] == DefaultReason
  {
    var reason := if lastError.Some? && lastError.value != "" then lastError.value else DefaultReason;
    reason + RemediationHints
  }

  /** The outer handler: rethrow an error that has a message, else replace it with the generic one. */
  function OuterCatch(message: string): (r: string)
    ensures r != ""
    ensures message != "" ==> r == message
    ensures message == "" ==> r == GenericFailure
  {
    if message != "" then message else GenericFailure
  }

  /** The result of `getGeminiSummary` once the loop has ended. */
  function Conclude(end: LoopEnd): (r: Result<string, string>)
    ensures end.Found? ==> r == Success(end.summary)
    ensures end.Exhausted? ==> r == Failure(ExhaustionMessage(end.lastError))
  {
    match end
    case Found(s, _) => Success(s)
    case Exhausted(e) => Failure(OuterCatch(ExhaustionMessage(e)))
  }

  /** One generation request: the endpoint of a candidate and the prompt in its body (temperature is fixed). */
  datatype Request = Request(url: string, prompt: string)

  /** The endpoint of a candidate: its version's surface, its model id, and the key. */
  function GenerateUrl(c: Catalog.Candidate, apiKey: string): (r: string)
    ensures Catalog.BaseUrl + Catalog.VersionName(c.version) + "/models/" + c.model <= r
    ensures |r| >= |apiKey| && r[|r| - |apiKey|..] == apiKey
  {
    Catalog.BaseUrl + Catalog.VersionName(c.version) + "/models/" + c.model + ":generateContent?key=" + apiKey
  }

  function RequestFor(prompt: string, apiKey: string, c: Catalog.Candidate): Request {
    Request(GenerateUrl(c, apiKey), prompt)
  }

  /** The requests for `candidates`, one each, in order. */
  function Requests(prompt: string, apiKey: string, candidates: seq<Catalog.Candidate>): (r: seq<Request>)
    ensures |r| == |candidates|
  {
    if candidates == [] then []
    else [RequestFor(prompt, apiKey, candidates[0])] + Requests(prompt, apiKey, candidates[1..])
  }

  /** Issuing one more request extends the requests issued so far. */
  lemma {:induction false} RequestsSnoc(prompt: string, apiKey: string, candidates: seq<Catalog.Candidate>, c: Catalog.Candidate)
    ensures Requests(prompt, apiKey, candidates + [c]) == Requests(prompt, apiKey, candidates) + [RequestFor(prompt, apiKey, c)]
  {
    if candidates != [] {
      assert (candidates + [c])[1..] == candidates[1..] + [c];
      RequestsSnoc(prompt, apiKey, candidates[1..], c);
    }
  }

  /** The k-th request goes to the k-th candidate's endpoint, and every request carries the same prompt. */
  lemma {:induction false} RequestsAt(prompt: string, apiKey: string, candidates: seq<Catalog.Candidate>)
    ensures |Requests(prompt, apiKey, candidates)| == |candidates|
    ensures forall k :: 0 <= k < |candidates| ==>
      Requests(prompt, apiKey, candidates)[k].prompt == prompt
      && Requests(prompt, apiKey, candidates)[k].url == GenerateUrl(candidates[k], apiKey)
  {
    if candidates != [] {
      RequestsAt(prompt, apiKey, candidates[1..]);
    }
  }

  /** How many requests the loop issues: up to and including the first success, or all of them. */
  function AttemptCount(outcomes: seq<Gen>): (n: nat)
    ensures n <= |outcomes|
  {
    match Run(outcomes, 0, None)
    case Found(_, i) => i + 1
    case Exhausted(_) => |outcomes|
  }

  /** With at least one candidate, at least one request is issued. */
  lemma AttemptCountPositive(outcomes: seq<Gen>)
    requires outcomes != []
    ensures AttemptCount(outcomes) >= 1
  {
  }

  /**
   * The for...of loop over the candidates. `sent` is the requests issued, in
   * order: one per candidate up to and including the first success (every
   * candidate when none succeeds), each carrying the same prompt.
   */
  method TryCandidates(prompt: string, apiKey: string, candidates: seq<Catalog.Candidate>, outcomes: seq<Gen>)
    returns (result: Result<string, string>, sent: seq<Request>)
    requires |outcomes| == |candidates|
    ensures result == Conclude(Run(outcomes, 0, None))
    ensures sent == Requests(prompt, apiKey, candidates[..AttemptCount(outcomes)])
  {
    var lastError: Option<string> := None;
    sent := [];
    var i := 0;
    while i < |candidates|
      invariant 0 <= i <= |candidates|
      invariant Run(outcomes, i, lastError) == Run(outcomes, 0, None)
      invariant sent == Requests(prompt, apiKey, candidates[..i])
    {
      RequestsSnoc(prompt, apiKey, candidates[..i], candidates[i]);
      assert candidates[..i + 1] == candidates[..i] + [candidates[i]];
      sent := sent + [RequestFor(prompt, apiKey, candidates[i])];
      match outcomes[i] {
        case OkText(summary) =>
          if summary.Some? && summary.value != "" {
            result := Success(summary.value);
            return;
          }
        case NotOk(status, statusText, errorMessage) =>
          lastError := Some(NotOkReason(status, statusText, errorMessage));
        case Transport(message) =>
          lastError := Some(message);
        case OkBadJson(message) =>
          lastError := Some(message);
      }
      i := i + 1;
    }
    var message := if lastError.Some? && lastError.value != "" then lastError.value else DefaultReason;
    result := Failure(OuterCatch(message + RemediationHints));
  }

  /** A fallthrough: a 404 then a success returns the success, and a third candidate is never tried. */
  lemma FallthroughExample(c: Gen)
    ensures Run([NotOk(404, "Not Found", None), OkText(Some("Summary X")), c], 0, None) == Found("Summary X", 1)
  {
  }

  /** Exhaustion: "quota exceeded" then "invalid key" fails with "invalid key". */
  lemma ExhaustionExample()
    ensures Conclude(Run([Transport("quota exceeded"), Transport("invalid key")], 0, None))
      == Failure("invalid key" + RemediationHints)
  {
  }
}
