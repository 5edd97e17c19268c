/** The four agent tools of `backend/src/tools.py`.

    The retriever, the web search, the embedding similarity and the language
    model are opaque: each is a function parameter, and every tool returns
    the sequence of calls it made to them alongside its text, so that "the
    LLM was never invoked" is a statement about that sequence. */
module Tools {
  import opened Wrappers
  import opened Text
  import opened Retrieval

  /** One call to an opaque collaborator, with its argument. `ExpandQuery`
      is the multi-query retriever asking the language model to rephrase the
      query (the wording of that request belongs to the library); `Retrieve`
      is the search over the vector store for the query and its variants. */
  datatype Call =
    | ExpandQuery(query: string)
    | Retrieve(query: string)
    | WebSearch(query: string)
    | Similarity(left: string, right: string)
    | Llm(prompt: string)

  /** What a tool returns to the agent, and what it asked of its
      collaborators on the way. */
  datatype ToolRun = ToolRun(output: string, calls: seq<Call>)

  /** The language model is asked something: directly, or by the retriever
      for query variants. */
  predicate InvokesLlm(run: ToolRun) {
    exists i :: 0 <= i < |run.calls| && (run.calls[i].Llm? || run.calls[i].ExpandQuery?)
  }

  predicate InvokesSearch(run: ToolRun) {
    exists i :: 0 <= i < |run.calls| && run.calls[i].WebSearch?
  }

  /** The search credential counts as configured when it is set and
      non-empty (`if SERPAPI_API_KEY:`). */
  predicate Configured(apiKey: Option<string>) {
    apiKey.Some? && |apiKey.value| > 0
  }

  /** The text a web search contributes: its result, or the failure
      message the `except` clause builds. */
  function SearchText(outcome: Result<string, string>): string {
    match outcome
    case Success(text) => text
    case Failure(e) => "Search failed: " + e
  }

  // ---------------------------------------------------------------------------
  // rag_search_tool
  // ---------------------------------------------------------------------------

  const NO_RESULTS: string :=
    "System Notification: "
    + "No relevant information found in the uploaded documents. Do not invent an answer."

  const STRICT_INSTRUCTION: string :=
    "STRICT INSTRUCTION:\n"
    + "- Only answer using the exact text above.\n"
    + "- Quote clauses verbatim.\n"
    + "- If the answer is not present, respond with: 'I cannot find that information in the document.'\n"
    + "- Do not paraphrase or add external context unless explicitly asked."

  const CONTEXT_HEADER: string := "DOCUMENT CONTEXT:\n"

  function ChunkLabel(n: nat): string {
    "Chunk " + NatToString(n) + ":\n"
  }

  /** The numbered blocks, `Chunk 1:` to `Chunk n:`, one per kept text. */
  function Blocks(unique: seq<string>): (bs: seq<string>)
    ensures |bs| == |unique|
  {
    seq(|unique|, i requires 0 <= i < |unique| => ChunkLabel(i + 1) + unique[i])
  }

  /** What separates two blocks, and the context from the instruction. */
  const BLOCK_SEPARATOR: string := "\n\n"

  const CONTEXT_TAIL: string := BLOCK_SEPARATOR + STRICT_INSTRUCTION

  /** The tool's answer for the de-duplicated texts. Together with
      `FormatContextLayout` this fixes every character of it. */
  function FormatContext(unique: seq<string>): (out: string)
    ensures |unique| == 0 ==> out == NO_RESULTS
    ensures |unique| > 0 ==>
              && StartsWith(out, CONTEXT_HEADER)
              && EndsWith(out, CONTEXT_TAIL)
              && out != NO_RESULTS
  {
    if |unique| == 0 then NO_RESULTS
    else
      var out := CONTEXT_HEADER + Join(Blocks(unique), BLOCK_SEPARATOR) + CONTEXT_TAIL;
      assert out[0] == CONTEXT_HEADER[0];
      assert CONTEXT_HEADER[0] == 'D';
      assert NO_RESULTS[0] == "System Notification: "[0] == 'S';
      assert out[|out| - |CONTEXT_TAIL|..] == CONTEXT_TAIL;
      out
  }

  /** `rag_search_tool`: the multi-query retriever first asks the model for
      variants of the query, then searches; repeated texts are dropped and
      the rest formatted. No web search is made. */
  function RagSearch(query: string, retrieve: string -> seq<string>): (r: ToolRun)
    ensures r.calls == [ExpandQuery(query), Retrieve(query)]
    ensures InvokesLlm(r) && !InvokesSearch(r)
    ensures r.output == NO_RESULTS <==> |Dedup(retrieve(query))| == 0
    ensures |Dedup(retrieve(query))| > 0 ==>
              StartsWith(r.output, CONTEXT_HEADER) && EndsWith(r.output, CONTEXT_TAIL)
  {
    var r := ToolRun(FormatContext(Dedup(retrieve(query))), [ExpandQuery(query), Retrieve(query)]);
    assert r.calls[0].ExpandQuery?;
    r
  }

  lemma {:induction false} JoinContainsEach(ws: seq<string>, sep: string, k: nat)
    requires k < |ws|
    ensures IsSubstring(ws[k], Join(ws, sep))
  {
    if |ws| == 1 {
      SubstringOfConcat("", ws[0], "");
      assert "" + ws[0] + "" == ws[0];
    } else if k == 0 {
      SubstringOfConcat("", ws[0], sep + Join(ws[1..], sep));
      assert "" + ws[0] + (sep + Join(ws[1..], sep)) == Join(ws, sep);
    } else {
      JoinContainsEach(ws[1..], sep, k - 1);
      SubstringInMiddle(ws[0] + sep, Join(ws[1..], sep), "", ws[k]);
      assert ws[0] + sep + Join(ws[1..], sep) + "" == Join(ws, sep);
    }
  }

  /** Every distinct retrieved text reaches the model verbatim, labelled
      with its 1-based position among the kept texts. */
  lemma {:induction false} RagSearchQuotesEveryChunk(query: string, retrieve: string -> seq<string>, k: nat)
    requires k < |Dedup(retrieve(query))|
    ensures IsSubstring(ChunkLabel(k + 1) + Dedup(retrieve(query))[k], RagSearch(query, retrieve).output)
  {
    var unique := Dedup(retrieve(query));
    var bs := Blocks(unique);
    JoinContainsEach(bs, BLOCK_SEPARATOR, k);
    SubstringInMiddle(CONTEXT_HEADER, Join(bs, BLOCK_SEPARATOR), CONTEXT_TAIL, bs[k]);
  }

  /** The labels are `Chunk 1` .. `Chunk n` and no two blocks share one:
      the number in each label reads back as its position. */
  lemma {:induction false} ChunkLabelsDistinct(i: nat, j: nat)
    requires i != j
    ensures ChunkLabel(i) != ChunkLabel(j)
  {
    if ChunkLabel(i) == ChunkLabel(j) {
      var a := NatToString(i);
      var b := NatToString(j);
      assert "Chunk " + a + ":\n" == "Chunk " + b + ":\n";
      assert |a| == |b|;
      assert a == ("Chunk " + a + ":\n")[6..6 + |a|];
      assert b == ("Chunk " + b + ":\n")[6..6 + |b|];
      ParseNatToString(i);
      ParseNatToString(j);
    }
  }

  // ---------------------------------------------------------------------------
  // compliance_check_tool
  // ---------------------------------------------------------------------------

  const COMPLIANCE_NO_KEY: string := "Search API key is missing. Cannot check external compliance."

  function ComplianceQuery(query: string): string {
    "current legal regulations " + query
  }

  function CompliancePrompt(searchText: string, query: string): string {
    "Check regulatory compliance based on these search results:\n" + searchText + "\n\nQuery: " + query
  }

  /** `compliance_check_tool`. Without a credential nothing is called; with
      one, the search runs once and the model is asked once, even when the
      search failed. */
  function ComplianceCheck(query: string, apiKey: Option<string>,
                           search: string -> Result<string, string>,
                           llm: string -> string): (r: ToolRun)
    ensures !Configured(apiKey) ==> r.output == COMPLIANCE_NO_KEY && r.calls == []
    ensures Configured(apiKey) ==>
              && |r.calls| == 2
              && r.calls[0] == WebSearch(ComplianceQuery(query))
              && r.calls[1] == Llm(CompliancePrompt(SearchText(search(ComplianceQuery(query))), query))
              && r.output == llm(r.calls[1].prompt)
  {
    if !Configured(apiKey) then ToolRun(COMPLIANCE_NO_KEY, [])
    else
      var data := SearchText(search(ComplianceQuery(query)));
      var prompt := CompliancePrompt(data, query);
      ToolRun(llm(prompt), [WebSearch(ComplianceQuery(query)), Llm(prompt)])
  }

  /** A failed search does not end the tool: the failure text and the query
      both reach the model. */
  lemma {:induction false} ComplianceSearchFailureReachesLlm(query: string, apiKey: Option<string>,
                                          search: string -> Result<string, string>,
                                          llm: string -> string, e: string)
    requires Configured(apiKey) && search(ComplianceQuery(query)) == Failure(e)
    ensures InvokesLlm(ComplianceCheck(query, apiKey, search, llm))
    ensures var p := ComplianceCheck(query, apiKey, search, llm).calls[1].prompt;
            IsSubstring("Search failed: " + e, p) && IsSubstring(query, p)
  {
    var r := ComplianceCheck(query, apiKey, search, llm);
    assert r.calls[1].Llm?;
    var head := "Check regulatory compliance based on these search results:\n";
    var p := r.calls[1].prompt;
    assert p == head + ("Search failed: " + e) + ("\n\nQuery: " + query);
    SubstringOfConcat(head, "Search failed: " + e, "\n\nQuery: " + query);
    assert p == (head + ("Search failed: " + e) + "\n\nQuery: ") + query + "";
    SubstringOfConcat(head + ("Search failed: " + e) + "\n\nQuery: ", query, "");
  }

  // ---------------------------------------------------------------------------
  // clause_comparison_tool
  // ---------------------------------------------------------------------------

  const PIPE_ERROR: string := "Error: Input must contain '|' to separate the two clauses."

  /** `query.split("|", 1)` on a query that contains `|`. */
  function SplitAtFirstPipe(query: string): (parts: (string, string))
    requires '|' in query
    ensures parts.0 + "|" + parts.1 == query
    ensures '|' !in parts.0
  {
    var i := Find(query, '|');
    assert query[..i] + "|" + query[i + 1..] == query;
    (query[..i], query[i + 1..])
  }

  /** The split is the only one whose first half has no `|`: the second
      clause keeps any further pipes. */
  lemma {:induction false} SplitAtFirstPipeUnique(query: string, c1: string, c2: string)
    requires c1 + "|" + c2 == query && '|' !in c1
    ensures '|' in query && SplitAtFirstPipe(query) == (c1, c2)
  {
    assert query[|c1|] == '|';
    var i := Find(query, '|');
    assert i == |c1|;
    assert query[..i] == c1;
    assert query[i + 1..] == c2;
  }

  function ComparePrompt(score: string, c1: string, c2: string): string {
    "Compare these two clauses.\n"
    + "    Cosine Similarity Score: " + score + "\n"
    + "    \n"
    + "    Clause 1: " + c1 + "\n"
    + "    Clause 2: " + c2 + "\n"
    + "    \n"
    + "    Provide a legal analysis of differences."
  }

  /** `clause_comparison_tool`. `score` is the cosine similarity of the two
      embeddings rendered with four decimals; it is computed on the stripped
      halves while the prompt quotes the halves as split. */
  function ClauseComparison(query: string, score: (string, string) -> string,
                            llm: string -> string): (r: ToolRun)
    ensures '|' !in query <==> r.output == PIPE_ERROR && r.calls == []
    ensures '|' !in query ==> !InvokesLlm(r)
    ensures '|' in query ==>
              var (c1, c2) := SplitAtFirstPipe(query);
              && |r.calls| == 2
              && r.calls[0] == Similarity(Strip(c1), Strip(c2))
              && r.calls[1] == Llm(ComparePrompt(score(Strip(c1), Strip(c2)), c1, c2))
              && r.output == llm(r.calls[1].prompt)
  {
    if '|' !in query then ToolRun(PIPE_ERROR, [])
    else
      var (c1, c2) := SplitAtFirstPipe(query);
      var prompt := ComparePrompt(score(Strip(c1), Strip(c2)), c1, c2);
      ToolRun(llm(prompt), [Similarity(Strip(c1), Strip(c2)), Llm(prompt)])
  }

  // ---------------------------------------------------------------------------
  // citation_validation_tool
  // ---------------------------------------------------------------------------

  const CITATION_NO_KEY: string := "Search API key missing. Cannot validate citation."

  function CitationQuery(query: string): string {
    "legal citation " + query
  }

  const CITATION_INSTRUCTION: string :=
    "STRICT INSTRUCTION:\n"
    + "- Confirm whether the citation exists and is valid.\n"
    + "- If the exact text of the citation is not found, say: \"I cannot find the exact wording, but the citation exists and is valid.\"\n"
    + "- Do not infer or paraphrase the content of the citation.\n"

  const CITATION_HEAD: string := "\nValidate this legal citation using the search data below.\nData: "

  const CITATION_TAIL: string := "\n\n" + CITATION_INSTRUCTION

  function CitationPrompt(data: string, query: string): string {
    CITATION_HEAD + data + "\nCitation: " + query + CITATION_TAIL
  }

  /** `citation_validation_tool`: same control flow as the compliance
      check, with its own query prefix, prompt and missing-key text. */
  function CitationValidation(query: string, apiKey: Option<string>,
                              search: string -> Result<string, string>,
                              llm: string -> string): (r: ToolRun)
    ensures !Configured(apiKey) ==> r.output == CITATION_NO_KEY && r.calls == []
    ensures Configured(apiKey) ==>
              && |r.calls| == 2
              && r.calls[0] == WebSearch(CitationQuery(query))
              && r.calls[1].Llm?
              && r.calls[1].prompt == CitationPrompt(SearchText(search(CitationQuery(query))), query)
              && r.output == llm(r.calls[1].prompt)
  {
    if !Configured(apiKey) then ToolRun(CITATION_NO_KEY, [])
    else
      var prompt := CitationPrompt(SearchText(search(CitationQuery(query))), query);
      ToolRun(llm(prompt), [WebSearch(CitationQuery(query)), Llm(prompt)])
  }

  /** As in the compliance check, a failed search is handed to the model:
      the failure text and the citation both reach the prompt. */
  lemma {:induction false} CitationSearchFailureReachesLlm(query: string, apiKey: Option<string>,
                                        search: string -> Result<string, string>,
                                        llm: string -> string, e: string)
    requires Configured(apiKey) && search(CitationQuery(query)) == Failure(e)
    ensures InvokesLlm(CitationValidation(query, apiKey, search, llm))
    ensures var p := CitationValidation(query, apiKey, search, llm).calls[1].prompt;
            IsSubstring("Search failed: " + e, p) && IsSubstring(query, p)
  {
    var r := CitationValidation(query, apiKey, search, llm);
    assert r.calls[1].Llm?;
    BothPartsOccur(CITATION_HEAD, "Search failed: " + e, "\nCitation: ", query, CITATION_TAIL);
  }

  /** A missing credential is decided before anything external is touched,
      for both search-backed tools. */
  lemma {:induction false} MissingKeyCallsNothing(query: string, apiKey: Option<string>,
                               search: string -> Result<string, string>,
                               llm: string -> string)
    requires !Configured(apiKey)
    ensures !InvokesSearch(ComplianceCheck(query, apiKey, search, llm))
    ensures !InvokesLlm(ComplianceCheck(query, apiKey, search, llm))
    ensures !InvokesSearch(CitationValidation(query, apiKey, search, llm))
    ensures !InvokesLlm(CitationValidation(query, apiKey, search, llm))
  {
  }
}
