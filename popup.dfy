/**
 * `getGeminiSummary` (popup.js) as a whole: build the prompt once, resolve the
 * candidate list, then walk it. Every remote call is an input: the two listing
 * outcomes and the outcome of each generation attempt.
 */
module Popup {
  import opened Wrappers
  import Text
  import Prompt
  import Catalog
  import Client

  /** The click handler asks for a summary only when the extracted text is present and not blank after trimming. */
  predicate HasArticleText(extracted: Option<string>) {
    extracted.Some? && Text.Trim(extracted.value) != ""
  }

  /** A summary is requested exactly when the page returned text with at least one non-whitespace character. */
  lemma HasArticleTextIffNonBlank(extracted: Option<string>)
    ensures HasArticleText(extracted) <==>
      extracted.Some? && exists i :: 0 <= i < |extracted.value| && !Text.IsJsWhitespace(extracted.value[i])
  {
  }

  /**
   * One summarisation request. `listed` is the listing URLs fetched, `sent`
   * the generation requests issued; `respond(i)` is what the i-th generation
   * request comes to.
   */
  method GetGeminiSummary(
    text: string, mode: string, apiKey: string,
    beta: Catalog.ListOutcome, v1: Catalog.ListOutcome, respond: nat -> Client.Gen)
    returns (result: Result<string, string>, listed: seq<string>, sent: seq<Client.Request>)
    ensures result == Client.Conclude(Client.Run(Outcomes(respond, |Catalog.Resolve(beta, v1)|), 0, None))
    ensures listed == if Catalog.Discover(Catalog.V1Beta, beta) == [] then
                        [Catalog.ListUrl(Catalog.V1Beta, apiKey), Catalog.ListUrl(Catalog.V1, apiKey)]
                      else [Catalog.ListUrl(Catalog.V1Beta, apiKey)]
    ensures sent == Client.Requests(Prompt.BuildPrompt(text, mode), apiKey,
                      Catalog.Resolve(beta, v1)[..Client.AttemptCount(Outcomes(respond, |Catalog.Resolve(beta, v1)|))])
    ensures |sent| >= 1
  {
    var prompt := Prompt.BuildPrompt(text, mode);
    var candidates;
    candidates, listed := Catalog.ResolveCandidates(apiKey, beta, v1);
    result, sent := Client.TryCandidates(prompt, apiKey, candidates, Outcomes(respond, |candidates|));
    Client.AttemptCountPositive(Outcomes(respond, |candidates|));
    Client.RequestsAt(prompt, apiKey, candidates[..Client.AttemptCount(Outcomes(respond, |candidates|))]);
  }

  /** The answers to the first `n` generation requests. */
  function Outcomes(respond: nat -> Client.Gen, n: nat): (r: seq<Client.Gen>)
    ensures |r| == n
  {
    if n == 0 then [] else Outcomes(respond, n - 1) + [respond(n - 1)]
  }

  /** The i-th of them is the answer to the i-th request. */
  lemma {:induction false} OutcomesAt(respond: nat -> Client.Gen, n: nat, i: nat)
    requires i < n
    ensures Outcomes(respond, n)[i] == respond(i)
  {
    if i < n - 1 {
      OutcomesAt(respond, n - 1, i);
    }
  }

  /**
   * What the caller sees: the first successful summary, which is non-empty;
   * otherwise a message that ends with the remediation hints.
   */
  lemma SummaryOutcome(outcomes: seq<Client.Gen>)
    ensures var r := Client.Conclude(Client.Run(outcomes, 0, None));
      && (r.Success? <==> exists k :: 0 <= k < |outcomes| && Client.IsSuccess(outcomes[k]))
      && (r.Success? ==> r.value != "")
      && (r.Failure? ==>
            |r.error| > |Client.RemediationHints|
            && r.error[|r.error| - |Client.RemediationHints|..] == Client.RemediationHints)
  {
    Client.RunFound(outcomes, 0, None);
    if exists k :: 0 <= k < |outcomes| && Client.IsSuccess(outcomes[k]) {
      var k :| 0 <= k < |outcomes| && Client.IsSuccess(outcomes[k]);
      Client.RunSucceedsWhenAnySucceeds(outcomes, k);
    }
  }
}
