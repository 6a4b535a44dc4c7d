# Resilient Gemini summarisation client, modelled in Dafny

This project models `getGeminiSummary` from the browser extension's `popup.js`:
the function that turns the text extracted from a web page into a summary by
calling the Gemini `generateContent` API. It has three parts, each modelled
without the network:

- **Prompt builder** (`prompt.dfy`, module `Prompt`): an article longer than
  20000 characters is cut to its first 20000 characters followed by `"..."`.
  The fixed instruction of the summary mode (`brief`, `detailed`, `bullets`,
  or the generic one for anything else) comes first, then a blank line, then
  the article.
- **Candidate resolver** (`catalog.dfy`, module `Catalog`): lists the models
  of the `v1beta` surface. It lists `v1` only when `v1beta` yielded no usable
  model. A listing that throws or is not ok yields nothing. Usable entries have
  a non-empty name and support `generateContent`. They keep the listing's order
  and are tagged with the version. Their id is the name with the first
  `"models/"` removed. When both listings yield nothing, a fixed six-entry list
  is used. Each listing result is an input (`ListOutcome`). `ResolveCandidates`
  performs the source's step-by-step reassignments and is proved equal to the
  pure `Resolve`.
- **Fallback loop** (`client.dfy`, module `Client`): tries the candidates in
  order and returns the first non-empty text found at
  `candidates[0].content.parts[0].text`. Each failure overwrites `lastError`:
  a thrown error records its message, a non-ok status records the body's
  `error.message` or `"HTTP <status>: <statusText>"`. An ok response without
  text records nothing. When the loop runs out of candidates, the error is the
  last reason (or `"All model attempts failed."`) followed by three fixed hints.
  Each attempt's result is an input (`Gen`): `outcomes[i]` is what the i-th
  request came to. `TryCandidates` is the `for...of` loop, proved against the
  recursive `Run`.

`popup.dfy` (module `Popup`) puts the three parts together as `GetGeminiSummary`.
It also holds the click handler's guard: a summary is requested only for
non-blank text. `text.dfy` (module `Text`) models the JavaScript string
operations the code relies on: `replace` with a string pattern, `${n}` for a
number, and `trim`. `wrappers.dfy` holds `Option` and `Result`.

An ok response without summary text might be expected to count as a failure
with a reason of its own. The code (popup.js:211-217) records nothing in that case: `lastError` keeps
its previous value. The model follows the code (`Client.Recorded`,
`Client.RunKeepsError`).

## Model

| member | source | states |
|---|---|---|
| `Text.IndexOf` | popup.js:148 | the index returned is an occurrence of the pattern and no earlier index is one; None means the pattern occurs nowhere |
| `Text.ReplaceFirstAt` | popup.js:148 | `replace` with a string pattern removes exactly the first occurrence, wherever it stands |
| `Text.ReplaceFirstAbsent` | popup.js:168 | a name without the pattern is left unchanged |
| `Text.ReplaceFirst` | popup.js:148 | without an occurrence the string is unchanged; otherwise only the first occurrence found by IndexOf is replaced, and everything before and after it is kept |
| `Text.NatToString` | popup.js:225 | the decimal rendering of the status is non-empty and all digits; it starts with "0" only for 0, which renders as exactly "0" |
| `Text.DecimalRoundTrip` | popup.js:223 | reading the rendered status back gives the status |
| `Text.TrimStart` | popup.js:65 | only leading whitespace is removed, and the result starts with non-whitespace |
| `Text.TrimEnd` | popup.js:65 | only trailing whitespace is removed, and the result ends with non-whitespace |
| `Text.Trim` | popup.js:65 | the trimmed text is no longer than the original and neither starts nor ends with whitespace |
| `Text.TrimEmptyIffBlank` | popup.js:65 | `trim()` gives "" exactly when every character is whitespace |
| `Prompt.Truncate` | popup.js:114-116 | the article part is at most 20003 characters; a long text becomes its 20000-character prefix plus "..."; a short one is unchanged |
| `Prompt.TruncateIdempotent` | popup.js:114-116 | truncating a truncated text changes nothing |
| `Prompt.TruncateFixedPoint` | popup.js:114-116 | a text passes unchanged exactly when it has at most 20000 characters or is a 20000-character prefix plus "..." |
| `Prompt.InstructionByMode` | popup.js:118-131 | each of brief, detailed and bullets has its own instruction; every other mode gets the generic one |
| `Prompt.PromptLayout` | popup.js:118-131 | the prompt opens with the mode's instruction and a blank line; its article part is at most 20003 characters, and a text of at most 20000 characters is the article unchanged |
| `Prompt.ArticleOf` | popup.js:118-131 | a prompt read back for a mode is that mode's instruction, a blank line, and the article |
| `Prompt.PromptArticle` | popup.js:114-131 | in every mode the prompt's article part is exactly the truncated text |
| `Prompt.PromptInjective` | popup.js:114-131 | in one mode, distinct untruncated texts give distinct prompts |
| `Catalog.ListUrl` | popup.js:139-160 | the listing URL (v1beta at line 140, v1 at line 160) is the version's models endpoint and ends with the API key |
| `Catalog.Usable` | popup.js:145 | an entry passes the filter exactly when its name is present and non-empty and generateContent is among its methods |
| `Catalog.ModelId` | popup.js:148 | the first "models/" in a name is removed wherever it stands and the rest is kept; a name without it is its own id; a name starting with it loses exactly that prefix |
| `Catalog.ToCandidate` | popup.js:146-150 | a discovered candidate carries the queried version and the listed name |
| `Catalog.UsableModels` | popup.js:144-145 | the filter keeps exactly the entries with a name and with generateContent among their methods |
| `Catalog.UsableModelsAppend` | popup.js:144-145 | the filter distributes over concatenation, so it keeps the listing's order |
| `Catalog.Candidates` | popup.js:144-150 | one candidate per usable entry, in order, each with its id derived from its name |
| `Catalog.Discover` | popup.js:137-154 | a failed or non-ok listing contributes nothing; every candidate has the version queried and the id derived from its name |
| `Catalog.DiscoverListing` | popup.js:144-150 | a listing's candidates come from usable entries only, and every usable entry yields one; a missing models array yields none |
| `Catalog.StaticFallback` | popup.js:178-187 | six entries: five under v1beta, then gemini-pro under v1 |
| `Catalog.Resolve` | popup.js:135-187 | the resolved candidate list is never empty |
| `Catalog.ResolveCandidates` | popup.js:135-187 | the step-by-step resolution equals Resolve; the v1 listing is requested only when v1beta yielded nothing |
| `Catalog.ResolvePrefersBeta` | popup.js:156-157 | when v1beta yields a usable model, the result is v1beta's list and v1's outcome cannot matter |
| `Catalog.ResolveFallsToV1` | popup.js:152-175 | a v1beta listing with nothing usable behaves like a failed one, and v1's list is used if it has any |
| `Catalog.ResolveStatic` | popup.js:177-187 | when both listings yield nothing the fixed list is used, ending with gemini-pro under v1beta then under v1 |
| `Catalog.ModelIdFirstOccurrence` | popup.js:148 | a name made of a part without "models/", then "models/", then anything, gives the two parts joined: "foo/models/bar" gives "foo/bar" |
| `Client.HttpReason` | popup.js:223-225 | the synthesised reason is "HTTP ", the decimal digits whose value is the status, ": ", then the status text |
| `Client.HttpReasonInjective` | popup.js:223-225 | the synthesised "HTTP status: text" reason determines the status and the status text |
| `Client.NotOkReason` | popup.js:218-225 | a non-ok reason is never empty; a non-empty error.message wins, and without one the reason is the status line |
| `Client.Recorded` | popup.js:211-234 | exactly the attempts that are not ok-with-a-parsed-body record a reason; a non-ok status records NotOkReason (error.message, else the status line); a thrown error records its message |
| `Client.Record` | popup.js:211-234 | an ok response without summary text leaves lastError as it was; any other failed attempt replaces it with its own reason |
| `Client.Run` | popup.js:193-236 | a loop that returns does so at an attempt in range |
| `Client.RunFound` | popup.js:193-216 | a returned summary is the non-empty text of a successful attempt, and no earlier attempt succeeded |
| `Client.RunFirstSuccess` | popup.js:193-216 | the first successful attempt's text is returned, whatever the later attempts would give |
| `Client.RunSucceedsWhenAnySucceeds` | popup.js:211-216 | if any attempt succeeds, the loop returns a summary |
| `Client.RunLastErrorWins` | popup.js:211-236 | with no success, the loop ends with the reason of the last attempt that recorded one |
| `Client.RunKeepsError` | popup.js:211-217 | ok responses without text leave lastError as it was |
| `Client.ExhaustionMessage` | popup.js:238-240 | the thrown message is the last reason, or the default when it is missing or empty, followed by the hints |
| `Client.OuterCatch` | popup.js:241-244 | an error with a message is rethrown unchanged; one without a message is replaced by the fixed generic failure |
| `Client.Conclude` | popup.js:238-244 | on exhaustion the caller receives exactly the exhaustion message |
| `Client.GenerateUrl` | popup.js:195 | the generation endpoint is the candidate's version surface followed by its model id, and ends with the API key |
| `Client.Requests` | popup.js:193-209 | one request per candidate |
| `Client.RequestsSnoc` | popup.js:193-209 | each attempt appends exactly its own request to those issued before |
| `Client.RequestsAt` | popup.js:195-209 | one request per candidate, in order, each to that candidate's endpoint and each with the same prompt |
| `Client.AttemptCount` | popup.js:193-216 | the loop never makes more attempts than there are candidates |
| `Client.AttemptCountPositive` | popup.js:193-216 | with at least one candidate the loop makes at least one attempt |
| `Client.TryCandidates` | popup.js:191-240 | the loop's result is Run's; it issues the requests of the candidates up to and including the first success (all when none succeeds), in order |
| `Client.FallthroughExample` | popup.js:193-236 | a 404 then "Summary X" returns "Summary X" from the second candidate, and a third is never tried |
| `Client.ExhaustionExample` | popup.js:230-240 | failures "quota exceeded" then "invalid key" end with "invalid key" plus the hints |
| `Popup.HasArticleTextIffNonBlank` | popup.js:65-69 | a summary is requested exactly when the extracted text has a non-whitespace character |
| `Popup.GetGeminiSummary` | popup.js:112-245 | v1beta is always listed and v1 only when v1beta yields nothing; at least one generation request is issued; the requests go to the resolved candidates in order, up to the first success, all carrying the one prompt built from the text and mode |
| `Popup.OutcomesAt` | popup.js:193-209 | the i-th generation request receives the i-th answer |
| `Popup.SummaryOutcome` | popup.js:211-244 | the call succeeds exactly when some attempt succeeds, with a non-empty summary; a failure message always ends with the remediation hints |

## Left out

- The DOM and extension wiring of popup.js:1-110 (storage lookup, tab query, script injection and its re-send, the 100 ms delay, `innerText` writes, the copy button). These are UI and foreign API calls. Only the non-blank text guard (popup.js:65-69) is modelled.
- background.js: a single install listener that calls extension APIs. It contains no logic.
- `fetch`, HTTP and JSON parsing are replaced by the `ListOutcome` and `Gen` inputs. A listing body that is not JSON, is `null`, or has a `null` entry throws inside its `try`. The model folds all of these into `ListFailed`. An entry that is a number, string or boolean has no `name`, so the filter drops it without throwing. The model represents such an entry as `ListedModel(None, None)`.
- `Catalog.Usable`: `supportedGenerationMethods` is a list of strings when present. A string value would pass `.includes('generateContent')` as a substring test (String.prototype.includes). This case is not modelled.
- `Catalog.Discover`: `models` is a list when present. A truthy `models` that is not an array makes `.filter` throw, so the listing yields nothing, as `ListFailed` does. This case is not represented as `ListOk`.
- `Gen` covers exceptions thrown anywhere in an attempt by `Transport` or `OkBadJson` with their message. This includes a non-ok body that parses to `null`.
- `Client.Gen`: the summary text is a string. A truthy non-string value at that path, which the source would return, is not modelled.
- `Catalog.ListedModel`: the name is a string when present. A non-string truthy name, which would make `replace` throw, is not modelled.
- `Client.TryCandidates` takes the outcome of each generation attempt as a sequence as long as the candidate list. This requirement belongs to the model, not to the source. `Popup.GetGeminiSummary` takes a function from attempt number to outcome instead, so it has no such requirement.
- Lengths and prefixes count Dafny characters (Unicode scalar values). JavaScript counts UTF-16 code units, so texts containing characters outside the Basic Multilingual Plane are cut at a different place.
- The request's `temperature: 0.2` and the `Content-Type` header are fixed parts of every request body. They are not represented. The API key is concatenated into URLs without encoding, as in the source.
- `console.log` and `console.error` are left out because they have no effect on the result. The async control flow is left out because every await is sequential.
