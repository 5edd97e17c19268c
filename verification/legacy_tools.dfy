/** The earlier tool set of `backend/engine/tools.py`. Its compliance check
    and clause comparison are the same code as the current ones and are
    modelled by `Tools.ComplianceCheck` and `Tools.ClauseComparison`; the
    document search and the citation check differ and are modelled here. */
module LegacyTools {
  import opened Wrappers
  import opened Text
  import opened Retrieval
  import opened Tools

  const LEGACY_NO_RESULTS: string := "No relevant information found in the document."

  /** `rag_search_tool` (legacy): the de-duplicated texts joined by a blank
      line, with no numbering and no instruction block. The retriever here
      is a plain diversity search (k = 4, fetch_k = 20), opaque like the
      current one. */
  function LegacyRagSearch(query: string, retrieve: string -> seq<string>): (r: ToolRun)
    ensures r.calls == [Retrieve(query)]
    ensures !InvokesLlm(r)
    ensures |Dedup(retrieve(query))| == 0 ==> r.output == LEGACY_NO_RESULTS
    ensures |Dedup(retrieve(query))| == 1 ==> r.output == retrieve(query)[0]
  {
    var unique := Dedup(retrieve(query));
    if |unique| == 0 then ToolRun(LEGACY_NO_RESULTS, [Retrieve(query)])
    else
      assert |unique| == 1 ==> unique[0] == retrieve(query)[0] by {
        if |unique| == 1 {
          DedupFirstIsFirst(retrieve(query));
        }
      }
      ToolRun(Join(unique, BLOCK_SEPARATOR), [Retrieve(query)])
  }

  lemma {:induction false} DedupFirstIsFirst(xs: seq<string>)
    requires |xs| > 0
    ensures |Dedup(xs)| > 0 && Dedup(xs)[0] == xs[0]
  {
    if |xs| > 1 {
      var init := xs[..|xs| - 1];
      DedupFirstIsFirst(init);
      assert init[0] == xs[0];
    }
  }

  /** Every distinct retrieved text appears verbatim in the legacy output. */
  lemma {:induction false} LegacyRagSearchQuotesEveryChunk(query: string, retrieve: string -> seq<string>, k: nat)
    requires k < |Dedup(retrieve(query))|
    ensures IsSubstring(Dedup(retrieve(query))[k], LegacyRagSearch(query, retrieve).output)
  {
    JoinContainsEach(Dedup(retrieve(query)), BLOCK_SEPARATOR, k);
  }

  /** The exact layout of a non-empty legacy answer: the k-th kept text
      starts after every earlier text and its separator; a blank line
      separates neighbours; and the lengths add up, so the answer is the
      texts in retrieval order, joined, with nothing added. */
  lemma {:induction false} LegacyRagSearchTextAt(query: string, retrieve: string -> seq<string>, k: nat)
    requires k < |Dedup(retrieve(query))|
    ensures var unique := Dedup(retrieve(query));
            OccursAt(unique[k], LegacyRagSearch(query, retrieve).output,
                     JoinOffset(unique, |BLOCK_SEPARATOR|, k))
  {
    LegacyRagSearchShape(query, retrieve);
    JoinPieceAt(Dedup(retrieve(query)), BLOCK_SEPARATOR, k);
  }

  lemma {:induction false} LegacyRagSearchSeparatorAt(query: string, retrieve: string -> seq<string>, k: nat)
    requires k + 1 < |Dedup(retrieve(query))|
    ensures var unique := Dedup(retrieve(query));
            OccursAt(BLOCK_SEPARATOR, LegacyRagSearch(query, retrieve).output,
                     JoinOffset(unique, |BLOCK_SEPARATOR|, k) + |unique[k]|)
  {
    LegacyRagSearchShape(query, retrieve);
    JoinSeparatorAt(Dedup(retrieve(query)), BLOCK_SEPARATOR, k);
  }

  lemma {:induction false} LegacyRagSearchLength(query: string, retrieve: string -> seq<string>)
    requires |Dedup(retrieve(query))| > 0
    ensures var unique := Dedup(retrieve(query));
            |LegacyRagSearch(query, retrieve).output| + |BLOCK_SEPARATOR|
            == JoinOffset(unique, |BLOCK_SEPARATOR|, |unique|)
  {
    LegacyRagSearchShape(query, retrieve);
    JoinLength(Dedup(retrieve(query)), BLOCK_SEPARATOR);
  }

  lemma {:induction false} LegacyRagSearchShape(query: string, retrieve: string -> seq<string>)
    requires |Dedup(retrieve(query))| > 0
    ensures LegacyRagSearch(query, retrieve).output == Join(Dedup(retrieve(query)), BLOCK_SEPARATOR)
  {
  }

  /** Unlike the current sentinel, the legacy one can also be produced by a
      search that found something: a single stored chunk whose text is that
      very sentence. */
  lemma {:induction false} LegacySentinelIsAmbiguous()
    ensures var retrieve := (q: string) => [LEGACY_NO_RESULTS];
            && |Dedup(retrieve(""))| == 1
            && LegacyRagSearch("", retrieve).output == LEGACY_NO_RESULTS
  {
    var retrieve := (q: string) => [LEGACY_NO_RESULTS];
    assert Dedup(retrieve("")) == [LEGACY_NO_RESULTS];
  }

  const LEGACY_CITATION_NO_KEY: string := "Search API key missing. Cannot validate citation."

  /** The legacy citation check replaces any search exception by a fixed
      string, dropping its message. */
  function LegacySearchText(outcome: Result<string, string>): string {
    match outcome
    case Success(text) => text
    case Failure(_) => "Search unavailable."
  }

  function LegacyCitationPrompt(data: string, query: string): string {
    "Validate this legal citation using the search data:\nData: " + data + "\nCitation: " + query
  }

  /** `citation_validation_tool` (legacy). */
  function LegacyCitationValidation(query: string, apiKey: Option<string>,
                                    search: string -> Result<string, string>,
                                    llm: string -> string): (r: ToolRun)
    ensures !Configured(apiKey) ==> r.output == LEGACY_CITATION_NO_KEY && r.calls == []
    ensures Configured(apiKey) ==>
              && |r.calls| == 2
              && r.calls[0] == WebSearch(CitationQuery(query))
              && r.calls[1] == Llm(LegacyCitationPrompt(LegacySearchText(search(CitationQuery(query))), query))
              && r.output == llm(r.calls[1].prompt)
  {
    if !Configured(apiKey) then ToolRun(LEGACY_CITATION_NO_KEY, [])
    else
      var prompt := LegacyCitationPrompt(LegacySearchText(search(CitationQuery(query))), query);
      ToolRun(llm(prompt), [WebSearch(CitationQuery(query)), Llm(prompt)])
  }

  /** Two different search failures lead to the same prompt: the model is
      told only that the search was unavailable. */
  lemma {:induction false} LegacyCitationHidesSearchError(query: string, apiKey: Option<string>,
                                       s1: string -> Result<string, string>,
                                       s2: string -> Result<string, string>,
                                       llm: string -> string)
    requires Configured(apiKey)
    requires s1(CitationQuery(query)).Failure? && s2(CitationQuery(query)).Failure?
    ensures LegacyCitationValidation(query, apiKey, s1, llm) == LegacyCitationValidation(query, apiKey, s2, llm)
    ensures IsSubstring("Search unavailable.", LegacyCitationValidation(query, apiKey, s1, llm).calls[1].prompt)
  {
    var head := "Validate this legal citation using the search data:\nData: ";
    SubstringOfConcat(head, "Search unavailable.", "\nCitation: " + query);
    assert LegacyCitationPrompt("Search unavailable.", query)
        == head + "Search unavailable." + ("\nCitation: " + query);
  }
}
