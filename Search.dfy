/** The `search_web` tool: from the SerpAPI key and the parsed JSON response
    to the text handed back to the agent. The HTTP request itself is not
    modelled: the response it would return is a parameter, and it is read only
    when a key is set. */
module Search {
  import opened Wrappers
  import opened Text

  /** One record of `organic_results`; a field is None when its key is absent.
      A field present with a null or non-string value is not modelled. */
  datatype OrganicResult = OrganicResult(title: Option<string>, link: Option<string>, snippet: Option<string>)

  /** The parsed response; None when it has no `organic_results` key. */
  datatype SearchResponse = SearchResponse(organicResults: Option<seq<OrganicResult>>)

  const MissingKeyMessage := "错误: SerpAPI Key 未设置。"
  const NoResultsMessage := "未找到相关信息。"

  /** How many results are reported at most. */
  const MaxResults := 5

  const NoTitle := "No title"
  const NoLink := "#"
  const NoSnippet := "No snippet available."

  /** `if not api_key`: the key is unset or empty. */
  predicate KeyMissing(apiKey: Option<string>) {
    apiKey.None? || |apiKey.value| == 0
  }

  /** The text reported for one result, with placeholders for missing fields. */
  function Entry(r: OrganicResult): string {
    "标题: " + r.title.GetOr(NoTitle) + "\n链接: " + r.link.GetOr(NoLink)
    + "\n摘要: " + r.snippet.GetOr(NoSnippet) + "\n---"
  }

  /** `results.get("organic_results", [])[:5]`. */
  function TopResults(response: SearchResponse): (top: seq<OrganicResult>)
    ensures |top| <= MaxResults && |top| <= |response.organicResults.GetOr([])|
    ensures top == response.organicResults.GetOr([])[..|top|]
    ensures |top| == MaxResults || top == response.organicResults.GetOr([])
  {
    var all := response.organicResults.GetOr([]);
    if |all| <= MaxResults then all else all[..MaxResults]
  }

  /** The entries for a list of results, one per result, in order. */
  function Entries(results: seq<OrganicResult>): (es: seq<string>)
    ensures |es| == |results|
    ensures forall k :: 0 <= k < |results| ==> es[k] == Entry(results[k])
  {
    seq(|results|, k requires 0 <= k < |results| => Entry(results[k]))
  }

  /** What `search_web` returns for a key and the response to its request. */
  function SearchText(apiKey: Option<string>, response: SearchResponse): (text: string)
    ensures |text| > 0
  {
    if KeyMissing(apiKey) then MissingKeyMessage
    else if |TopResults(response)| == 0 then NoResultsMessage
    else Join("\n", Entries(TopResults(response)))
  }

  /** `search_web` after the request: the key check, the loop that collects
      one snippet per result, and the join. */
  method SearchWeb(apiKey: Option<string>, response: SearchResponse) returns (text: string)
    ensures text == SearchText(apiKey, response)
  {
    if KeyMissing(apiKey) {
      return MissingKeyMessage;
    }
    var snippets: seq<string> := [];
    if response.organicResults.Some? {
      var results := response.organicResults.value;
      var top := if |results| <= MaxResults then results else results[..MaxResults];
      for k := 0 to |top|
        invariant |snippets| == k
        invariant forall j :: 0 <= j < k ==> snippets[j] == Entry(top[j])
      {
        var result := top[k];
        var snippet := result.snippet.GetOr(NoSnippet);
        var title := result.title.GetOr(NoTitle);
        var link := result.link.GetOr(NoLink);
        snippets := snippets + ["标题: " + title + "\n链接: " + link + "\n摘要: " + snippet + "\n---"];
      }
      assert snippets == Entries(TopResults(response));
    }
    if |snippets| == 0 {
      return NoResultsMessage;
    }
    return Join("\n", snippets);
  }

  /** Joined results start with the first result's title line. */
  lemma ResultsTextStartsWithTitle(results: seq<OrganicResult>)
    requires |results| > 0
    ensures Join("\n", Entries(results))[0] == '标'
  {
    var es := Entries(results);
    assert es[0] == Entry(results[0]);
    assert Join("\n", es)[..|es[0]|] == es[0];
    assert es[0][0] == '标';
  }

  /** The missing-key message is returned exactly when the key is unset or
      empty, whatever the response (no request is made). */
  lemma MissingKeyIff(apiKey: Option<string>, response: SearchResponse)
    ensures SearchText(apiKey, response) == MissingKeyMessage <==> KeyMissing(apiKey)
  {
    if !KeyMissing(apiKey) {
      assert NoResultsMessage[0] != MissingKeyMessage[0];
      if |TopResults(response)| > 0 {
        ResultsTextStartsWithTitle(TopResults(response));
        assert MissingKeyMessage[0] == '错';
      }
    }
  }

  /** With a key, the no-results message is returned exactly when the
      response has no `organic_results` or an empty list. */
  lemma NoResultsIff(apiKey: Option<string>, response: SearchResponse)
    requires !KeyMissing(apiKey)
    ensures SearchText(apiKey, response) == NoResultsMessage
        <==> response.organicResults.None? || |response.organicResults.value| == 0
  {
    if |TopResults(response)| > 0 {
      ResultsTextStartsWithTitle(TopResults(response));
      assert NoResultsMessage[0] == '未';
    }
  }

  /** With a key and results, the text is the entries of the first five
      results, in their order, separated by newlines. */
  lemma ReportsFirstFive(apiKey: Option<string>, results: seq<OrganicResult>)
    requires !KeyMissing(apiKey) && |results| > 0
    ensures var n := if |results| < MaxResults then |results| else MaxResults;
            SearchText(apiKey, SearchResponse(Some(results))) == Join("\n", Entries(results[..n]))
  {
    var n := if |results| < MaxResults then |results| else MaxResults;
    assert TopResults(SearchResponse(Some(results))) == results[..n];
  }

  /** Results after the fifth do not change the text. */
  lemma IgnoresBeyondFifth(apiKey: Option<string>, results: seq<OrganicResult>, more: seq<OrganicResult>)
    requires |results| == MaxResults
    ensures SearchText(apiKey, SearchResponse(Some(results + more)))
         == SearchText(apiKey, SearchResponse(Some(results)))
  {
    assert (results + more)[..MaxResults] == results;
  }

  /** A result without title, link and snippet gets the three placeholders. */
  lemma EmptyResultEntry()
    ensures Entry(OrganicResult(None, None, None))
         == "标题: No title" + "\n链接: #" + "\n摘要: No snippet available." + "\n---"
  {
    assert "标题: " + NoTitle == "标题: No title";
    assert "\n链接: " + NoLink == "\n链接: #";
    assert "\n摘要: " + NoSnippet == "\n摘要: No snippet available.";
  }
}
