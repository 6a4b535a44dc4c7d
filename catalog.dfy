/**
 * Model discovery of `getGeminiSummary` (popup.js): list the models of the
 * v1beta surface, and of the v1 surface only when v1beta gave nothing usable;
 * keep the entries that support `generateContent`; fall back to a fixed list
 * when both gave nothing. The network is replaced by one ListOutcome per
 * listing request.
 */
module Catalog {
  import opened Wrappers
  import Text

  /** The API surface versions the client talks to. */
  datatype ApiVersion = V1Beta | V1

  /** The path segment of a version. */
  function VersionName(v: ApiVersion): string {
    match v
    case V1Beta => "v1beta"
    case V1 => "v1"
  }

  const BaseUrl: string := "https://generativelanguage.googleapis.com/"

  /** The URL of the model listing of version `v`. */
  function ListUrl(v: ApiVersion, apiKey: string): (r: string)
    ensures BaseUrl + VersionName(v) + "/models?key=" <= r
    ensures |r| >= |apiKey| && r[|r| - |apiKey|..] == apiKey
  {
    BaseUrl + VersionName(v) + "/models?key=" + apiKey
  }

  /** One model the client may try: the version to call it under, its id, and the listed name it came from. */
  datatype Candidate = Candidate(version: ApiVersion, model: string, fullName: Option<string>)

  /** One entry of a listing body's `models` array; a missing property is None. */
  datatype ListedModel = ListedModel(name: Option<string>, supportedGenerationMethods: Option<seq<string>>)

  /**
   * What one listing request came to: it threw (transport failure, a body that
   * is not JSON or not an object), it answered with a non-ok status, or it
   * answered ok with a body whose `models` property may be missing.
   */
  datatype ListOutcome = ListFailed | ListNotOk | ListOk(models: Option<seq<ListedModel>>)

  /** The filter of the discovery: a non-empty name, and "generateContent" among the supported methods. */
  predicate Usable(m: ListedModel)
    ensures Usable(m) <==> m.name.GetOr("") != "" && "generateContent" in m.supportedGenerationMethods.GetOr([])
  {
    && m.name.Some? && m.name.value != ""
    && m.supportedGenerationMethods.Some? && "generateContent" in m.supportedGenerationMethods.value
  }

  /** The model id: the listed name with the first "models/" in it removed (not only a leading one). */
  function ModelId(name: string): (r: string)
    ensures (forall j :: 0 <= j <= |name| ==> !Text.OccursAt(name, "models/", j)) ==> r == name
    ensures |name| >= 7 && name[..7] == "models/" ==> r == name[7..]
    ensures |r| == |name| || |r| == |name| - 7
    ensures var k := Text.IndexOf(name, "models/", 0); k.Some? ==> r == name[..k.value] + name[k.value + 7..]
  {
    Text.ReplaceFirst(name, "models/", "")
  }

  /** The map of the discovery: a usable entry tagged with the version queried. */
  function ToCandidate(v: ApiVersion, m: ListedModel): (c: Candidate)
    requires Usable(m)
    ensures c.version == v && c.fullName == m.name
  {
    Candidate(v, ModelId(m.name.value), m.name)
  }

  /** The usable entries of a listing, in listing order. */
  function UsableModels(ms: seq<ListedModel>): (r: seq<ListedModel>)
    ensures |r| <= |ms|
    ensures forall m :: m in r <==> m in ms && Usable(m)
  {
    if ms == [] then []
    else (if Usable(ms[0]) then [ms[0]] else []) + UsableModels(ms[1..])
  }

  /** Filtering distributes over concatenation: the filter keeps the listing's order. */
  lemma {:induction false} UsableModelsAppend(a: seq<ListedModel>, b: seq<ListedModel>)
    ensures UsableModels(a + b) == UsableModels(a) + UsableModels(b)
  {
    if a == [] {
      assert a + b == b;
    } else {
      assert (a + b)[1..] == a[1..] + b;
      UsableModelsAppend(a[1..], b);
    }
  }

  /** The candidates of version `v` found in a listing's entries. */
  function Candidates(v: ApiVersion, ms: seq<ListedModel>): (r: seq<Candidate>)
    ensures |r| == |UsableModels(ms)|
    ensures forall k :: 0 <= k < |r| ==> r[k] == ToCandidate(v, UsableModels(ms)[k])
    ensures forall c :: c in r ==>
      c.version == v && c.fullName.Some? && c.model == ModelId(c.fullName.value)
  {
    var u := UsableModels(ms);
    var r := seq(|u|, k requires 0 <= k < |u| => ToCandidate(v, u[k]));
    assert forall k :: 0 <= k < |r| ==> u[k] in u && r[k] == ToCandidate(v, u[k]);
    r
  }

  /** The candidates a listing contributes; a failed or non-ok listing contributes none. */
  function Discover(v: ApiVersion, outcome: ListOutcome): (r: seq<Candidate>)
    ensures !outcome.ListOk? ==> r == []
    ensures forall c :: c in r ==>
      c.version == v && c.fullName.Some? && c.model == ModelId(c.fullName.value)
  {
    match outcome
    case ListOk(models) => Candidates(v, models.GetOr([]))
    case _ => []
  }

  /**
   * A listing contributes one candidate per usable entry, in listing order,
   * and nothing else: each candidate is a usable entry of the listing, and
   * every usable entry yields a candidate.
   */
  lemma DiscoverListing(v: ApiVersion, ms: seq<ListedModel>)
    ensures Discover(v, ListOk(Some(ms))) == Candidates(v, ms)
    ensures Discover(v, ListOk(None)) == []
    ensures forall c :: c in Discover(v, ListOk(Some(ms))) ==>
      exists m :: m in ms && Usable(m) && c == ToCandidate(v, m)
    ensures forall m :: m in ms && Usable(m) ==> ToCandidate(v, m) in Discover(v, ListOk(Some(ms)))
  {
  }

  /** The names tried when discovery finds nothing, in this order. */
  function StaticFallback(): (r: seq<Candidate>)
    ensures |r| == 6
    ensures forall k :: 0 <= k < 5 ==> r[k].version == V1Beta
    ensures r[5] == Candidate(V1, "gemini-pro", None)
  {
    [
      Candidate(V1Beta, "gemini-1.5-flash-latest", None),
      Candidate(V1Beta, "gemini-1.5-flash", None),
      Candidate(V1Beta, "gemini-1.5-pro-latest", None),
      Candidate(V1Beta, "gemini-1.5-pro", None),
      Candidate(V1Beta, "gemini-pro", None),
      Candidate(V1, "gemini-pro", None)
    ]
  }

  /** The candidate list the client walks: v1beta's, else v1's, else the fixed list. */
  function Resolve(beta: ListOutcome, v1: ListOutcome): (r: seq<Candidate>)
    ensures |r| > 0
  {
    var fromBeta := Discover(V1Beta, beta);
    if fromBeta != [] then fromBeta
    else
      var fromV1 := Discover(V1, v1);
      if fromV1 != [] then fromV1 else StaticFallback()
  }

  /**
   * Resolution as the source does it: assign the v1beta candidates, consult
   * v1 only when that left the list empty, and install the fixed list when it
   * is still empty. `listed` holds the listing URLs requested, in order.
   */
  method ResolveCandidates(apiKey: string, beta: ListOutcome, v1: ListOutcome)
    returns (candidates: seq<Candidate>, listed: seq<string>)
    ensures candidates == Resolve(beta, v1)
    ensures listed == if Discover(V1Beta, beta) == [] then [ListUrl(V1Beta, apiKey), ListUrl(V1, apiKey)]
                      else [ListUrl(V1Beta, apiKey)]
  {
    candidates := [];
    listed := [ListUrl(V1Beta, apiKey)];
    candidates := Discover(V1Beta, beta);
    if |candidates| == 0 {
      listed := listed + [ListUrl(V1, apiKey)];
      candidates := Discover(V1, v1);
    }
    if |candidates| == 0 {
      candidates := StaticFallback();
    }
  }

  /** When v1beta yields a usable model, the v1 listing is never consulted: its outcome cannot matter. */
  lemma ResolvePrefersBeta(beta: ListOutcome, v1: ListOutcome, v1': ListOutcome)
    requires Discover(V1Beta, beta) != []
    ensures Resolve(beta, v1) == Discover(V1Beta, beta)
    ensures Resolve(beta, v1) == Resolve(beta, v1')
  {
  }

  /** A v1beta listing that fails, is not ok, or lists nothing usable defers to v1 alone. */
  lemma ResolveFallsToV1(beta: ListOutcome, v1: ListOutcome)
    requires Discover(V1Beta, beta) == []
    ensures Discover(V1, v1) != [] ==> Resolve(beta, v1) == Discover(V1, v1)
    ensures Resolve(beta, v1) == Resolve(ListFailed, v1) == Resolve(ListNotOk, v1)
  {
  }

  /** When neither listing yields anything, the fixed six-entry list is used as is. */
  lemma ResolveStatic(beta: ListOutcome, v1: ListOutcome)
    requires Discover(V1Beta, beta) == [] && Discover(V1, v1) == []
    ensures Resolve(beta, v1) == StaticFallback()
    ensures Resolve(beta, v1)[4] == Candidate(V1Beta, "gemini-pro", None)
    ensures Resolve(beta, v1)[5] == Candidate(V1, "gemini-pro", None)
  {
  }

  /**
   * The first "models/" is removed wherever it stands, and everything around
   * it is kept: "foo/models/bar" gives "foo/bar".
   */
  lemma ModelIdFirstOccurrence(before: string, after: string)
    requires forall j :: 0 <= j < |before| ==> !Text.OccursAt(before + "models/" + after, "models/", j)
    ensures ModelId(before + "models/" + after) == before + after
  {
    var name := before + "models/" + after;
    assert Text.OccursAt(name, "models/", |before|);
    Text.ReplaceFirstAt(name, "models/", "", |before|);
    assert name[..|before|] == before && name[|before| + 7..] == after;
  }
}
