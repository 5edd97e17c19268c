/** Document ingestion of `backend/src/document_processor.py`: dispatch on
    the file's extension, extraction of chunks (an LLM transcription for
    images, a structural loader followed by clause refinement for PDF and
    Word files), metadata cleaning, removal of blank chunks, the write to
    the vector store, and the removal of the uploaded file afterwards.

    The LLM, the loader, both text splitters and the vector store's write
    are opaque collaborators passed in as functions. */
module Ingestion {
  import opened Wrappers
  import opened Text

  // ---------------------------------------------------------------------------
  // Chunks and stores
  // ---------------------------------------------------------------------------

  /** A metadata value as the loaders produce it: a string, a number, a
      boolean, Python's `None`, or a list or dictionary. Only the first
      three kinds can be stored in the vector database. */
  datatype MetaValue =
    | Str(s: string)
    | Num(n: int)
    | Flag(b: bool)
    | Null
    | Composite(items: seq<MetaValue>)

  type Metadata = map<string, MetaValue>

  /** A text chunk with its metadata (a LangChain `Document`). */
  datatype Chunk = Chunk(content: string, metadata: Metadata)

  /** The file system (the set of existing paths) and the vector store (its
      chunks; their order carries no meaning). */
  datatype Stores = Stores(disk: set<string>, vectors: seq<Chunk>)

  /** The value types `filter_complex_metadata` lets through: `str`,
      `int`/`float` and `bool`. */
  predicate IsSimple(v: MetaValue) {
    v.Str? || v.Num? || v.Flag?
  }

  predicate SimpleMetadata(m: Metadata) {
    forall k :: k in m ==> IsSimple(m[k])
  }

  // ---------------------------------------------------------------------------
  // Collaborators
  // ---------------------------------------------------------------------------

  /** What the vision model returned: string content, or content of another
      shape (a list of parts). */
  datatype Transcript = TextContent(text: string) | OtherContent

  /** The opaque collaborators. A `Failure` or `Some(error)` is an exception
      carrying that message. */
  datatype Collaborators = Collaborators(
    /** Reads the image at the path and asks the LLM to transcribe it. */
    transcribe: string -> Result<Transcript, string>,
    /** The 1000/200 character splitter applied to a transcript. */
    windowSplit: string -> seq<string>,
    /** The structural loader (by-title chunking) for PDF and Word files. */
    load: string -> Result<seq<Chunk>, string>,
    /** The 800/100 splitter with the clause separators "\n(a)" … "\n(d)". */
    clauseSplit: string -> seq<string>,
    /** `add_documents`; `Some(error)` when the write raises. */
    add: seq<Chunk> -> Option<string>
  )

  // ---------------------------------------------------------------------------
  // Dispatch
  // ---------------------------------------------------------------------------

  datatype Kind = Image | Structural | Unsupported

  const IMAGE_EXTENSIONS: set<string> := {".png", ".jpg", ".jpeg"}
  const STRUCTURAL_EXTENSIONS: set<string> := {".pdf", ".docx", ".doc"}

  /** The file's final extension, lower-cased. */
  function Extension(path: string): string {
    Lower(SplitExt(path).1)
  }

  function KindOf(path: string): (k: Kind)
    ensures k == Image <==> Extension(path) in IMAGE_EXTENSIONS
    ensures k == Structural <==> Extension(path) in STRUCTURAL_EXTENSIONS
  {
    var ext := Extension(path);
    if ext in IMAGE_EXTENSIONS then Image
    else if ext in STRUCTURAL_EXTENSIONS then Structural
    else Unsupported
  }

  // ---------------------------------------------------------------------------
  // Refinement, cleaning and filtering
  // ---------------------------------------------------------------------------

  /** `create_documents(texts, metadatas=[m])`: one chunk per text, each with
      a copy of `m`. */
  function WithMetadata(texts: seq<string>, m: Metadata): (r: seq<Chunk>)
    ensures |r| == |texts|
    ensures forall j :: 0 <= j < |r| ==> r[j].content == texts[j] && r[j].metadata == m
  {
    seq(|texts|, j requires 0 <= j < |texts| => Chunk(texts[j], m))
  }

  /** `refine_chunks`: every document is split again by the clause splitter,
      and its pieces, carrying the document's metadata, are appended in
      order. */
  function Refine(docs: seq<Chunk>, clauseSplit: string -> seq<string>): seq<Chunk> {
    if |docs| == 0 then []
    else
      var last := docs[|docs| - 1];
      Refine(docs[..|docs| - 1], clauseSplit) + WithMetadata(clauseSplit(last.content), last.metadata)
  }

  /** Refining a concatenation refines each part: document order is kept. */
  lemma {:induction false} RefineAppend(a: seq<Chunk>, b: seq<Chunk>, clauseSplit: string -> seq<string>)
    ensures Refine(a + b, clauseSplit) == Refine(a, clauseSplit) + Refine(b, clauseSplit)
  {
    if |b| == 0 {
      assert a + b == a;
    } else {
      var b' := b[..|b| - 1];
      var last := b[|b| - 1];
      var pieces := WithMetadata(clauseSplit(last.content), last.metadata);
      RefineAppend(a, b', clauseSplit);
      assert (a + b)[..|a + b| - 1] == a + b';
      assert (a + b)[|a + b| - 1] == last;
      assert Refine(a + b, clauseSplit) == Refine(a + b', clauseSplit) + pieces;
      assert Refine(b, clauseSplit) == Refine(b', clauseSplit) + pieces;
      AppendAssoc(Refine(a, clauseSplit), Refine(b', clauseSplit), pieces);
    }
  }

  lemma {:induction false} AppendAssoc<T>(x: seq<T>, y: seq<T>, z: seq<T>)
    ensures x + y + z == x + (y + z)
  {
  }

  /** The pieces of document `i` sit between those of the earlier and the
      later documents, and each carries document `i`'s metadata. */
  lemma {:induction false} RefineCarriesParentMetadata(docs: seq<Chunk>, i: nat, clauseSplit: string -> seq<string>)
    requires i < |docs|
    ensures var pieces := WithMetadata(clauseSplit(docs[i].content), docs[i].metadata);
            && Refine(docs, clauseSplit)
               == Refine(docs[..i], clauseSplit) + pieces + Refine(docs[i + 1..], clauseSplit)
            && forall j :: 0 <= j < |pieces| ==> pieces[j].metadata == docs[i].metadata
  {
    RefineAppend(docs[..i + 1], docs[i + 1..], clauseSplit);
    assert docs[..i + 1] + docs[i + 1..] == docs;
    assert docs[..i + 1][..i] == docs[..i];
  }

  /** `filter_complex_metadata` on one document: `None` and composite
      values go, every other entry stays as it was. */
  function FilterMetadata(m: Metadata): (r: Metadata)
    ensures SimpleMetadata(r)
    ensures forall k :: k in m && IsSimple(m[k]) ==> k in r && r[k] == m[k]
    ensures forall k :: k in r ==> k in m && r[k] == m[k]
  {
    map k | k in m && IsSimple(m[k]) :: m[k]
  }

  /** Metadata that is already simple is left alone. */
  lemma {:induction false} FilterMetadataKeepsSimple(m: Metadata)
    requires SimpleMetadata(m)
    ensures FilterMetadata(m) == m
  {
  }

  /** `filter_complex_metadata` over the split documents: same documents,
      same order and text, each one's metadata filtered. */
  function FilterComplexMetadata(docs: seq<Chunk>): (r: seq<Chunk>)
    ensures |r| == |docs|
    ensures forall i :: 0 <= i < |r| ==>
              && r[i].content == docs[i].content
              && r[i].metadata == FilterMetadata(docs[i].metadata)
              && SimpleMetadata(r[i].metadata)
  {
    seq(|docs|, i requires 0 <= i < |docs| => Chunk(docs[i].content, FilterMetadata(docs[i].metadata)))
  }

  /** The list comprehension dropping chunks whose text is whitespace only. */
  function DropBlank(docs: seq<Chunk>): (r: seq<Chunk>)
    ensures |r| <= |docs|
  {
    if |docs| == 0 then []
    else
      var init := docs[..|docs| - 1];
      var last := docs[|docs| - 1];
      if IsBlank(last.content) then DropBlank(init) else DropBlank(init) + [last]
  }

  /** A chunk survives exactly when it was present and is not blank. */
  lemma {:induction false} DropBlankMembers(docs: seq<Chunk>)
    ensures forall c :: c in DropBlank(docs) <==> c in docs && !IsBlank(c.content)
  {
    if |docs| > 0 {
      var init := docs[..|docs| - 1];
      DropBlankMembers(init);
      assert forall c :: c in docs <==> c in init || c == docs[|docs| - 1];
    }
  }

  /** Filtering distributes over concatenation, so the survivors keep their
      relative order. */
  lemma {:induction false} DropBlankAppend(a: seq<Chunk>, b: seq<Chunk>)
    ensures DropBlank(a + b) == DropBlank(a) + DropBlank(b)
  {
    if |b| == 0 {
      assert a + b == a;
    } else {
      var b' := b[..|b| - 1];
      var last := b[|b| - 1];
      DropBlankAppend(a, b');
      assert (a + b)[..|a + b| - 1] == a + b';
      assert (a + b)[|a + b| - 1] == last;
    }
  }

  lemma {:induction false} DropBlankOfAllBlank(docs: seq<Chunk>)
    requires forall c :: c in docs ==> IsBlank(c.content)
    ensures DropBlank(docs) == []
  {
    if |docs| > 0 {
      DropBlankOfAllBlank(docs[..|docs| - 1]);
      assert docs[|docs| - 1] in docs;
    }
  }

  function BlankCount(docs: seq<Chunk>): nat {
    if |docs| == 0 then 0
    else BlankCount(docs[..|docs| - 1]) + (if IsBlank(docs[|docs| - 1].content) then 1 else 0)
  }

  /** Exactly the blank chunks are dropped: the survivors number the input
      less its blank chunks. */
  lemma {:induction false} DropBlankCount(docs: seq<Chunk>)
    ensures |DropBlank(docs)| == |docs| - BlankCount(docs)
  {
    if |docs| > 0 {
      DropBlankCount(docs[..|docs| - 1]);
    }
  }

  /** The chunks that survive cleaning and filtering. */
  function Clean(splits: seq<Chunk>): (r: seq<Chunk>)
    ensures |r| <= |splits|
    ensures forall c :: c in r ==> !IsBlank(c.content) && SimpleMetadata(c.metadata)
  {
    DropBlankMembers(FilterComplexMetadata(splits));
    DropBlank(FilterComplexMetadata(splits))
  }

  // ---------------------------------------------------------------------------
  // process_document
  // ---------------------------------------------------------------------------

  /** The chunks extracted before cleaning, or the exception raised while
      extracting them. An unsupported extension and a transcript that is
      not a non-blank string both extract nothing. */
  function Extract(path: string, c: Collaborators): (r: Result<seq<Chunk>, string>)
    ensures KindOf(path) == Unsupported ==> r == Success([])
    ensures KindOf(path) == Image ==>
              (c.transcribe(path).Failure? <==> r.Failure?)
    ensures KindOf(path) == Structural ==>
              (c.load(path).Failure? <==> r.Failure?)
  {
    match KindOf(path)
    case Image =>
      (match c.transcribe(path)
       case Failure(e) => Failure(e)
       case Success(t) =>
         if t.TextContent? && !IsBlank(t.text)
         then Success(WithMetadata(c.windowSplit(Strip(t.text)), map[]))
         else Success([]))
    case Structural =>
      (match c.load(path)
       case Failure(e) => Failure(e)
       case Success(splits) =>
         Success(if |splits| > 0 then Refine(splits, c.clauseSplit) else []))
    case Unsupported => Success([])
  }

  /** The outcome of `process_document` (the chunk count, or the exception
      it re-raises) and the stores afterwards. */
  datatype Processed = Processed(outcome: Result<nat, string>, after: Stores)

  /** Whether the `finally` block keeps the uploaded file: the environment
      variable DEBUG_MODE, defaulting to "false", equals "true" in any
      case. */
  predicate KeepsUploads(debugMode: Option<string>) {
    Lower(debugMode.GetOr("false")) == "true"
  }

  /** `process_document(file_path)`. */
  function ProcessDocument(path: string, debugMode: Option<string>, c: Collaborators,
                           st: Stores): (r: Processed)
    // the finally block: the file is removed on every exit path unless DEBUG_MODE is "true"
    ensures KeepsUploads(debugMode) ==> r.after.disk == st.disk
    ensures !KeepsUploads(debugMode) ==> r.after.disk == st.disk - {path}
    // the count is the number of chunks appended to the vector store
    ensures r.outcome.Success? ==>
              && |r.after.vectors| == |st.vectors| + r.outcome.value
              && r.after.vectors[..|st.vectors|] == st.vectors
    // everything written is non-blank with simple metadata
    ensures forall i :: |st.vectors| <= i < |r.after.vectors| ==>
              !IsBlank(r.after.vectors[i].content) && SimpleMetadata(r.after.vectors[i].metadata)
    // an exception writes nothing
    ensures r.outcome.Failure? ==> r.after.vectors == st.vectors
    ensures KindOf(path) == Unsupported ==> r.outcome == Success(0)
  {
    var disk := if KeepsUploads(debugMode) then st.disk else st.disk - {path};
    match Extract(path, c)
    case Failure(e) => Processed(Failure(e), Stores(disk, st.vectors))
    case Success(splits) =>
      var valid := Clean(splits);
      if |valid| == 0 then Processed(Success(0), Stores(disk, st.vectors))
      else
        match c.add(valid)
        case Some(e) => Processed(Failure(e), Stores(disk, st.vectors))
        case None => Processed(Success(|valid|), Stores(disk, st.vectors + valid))
  }

  // ---------------------------------------------------------------------------
  // Properties
  // ---------------------------------------------------------------------------

  /** The dispatch ignores letter case in the extension. */
  lemma {:induction false} DispatchIgnoresCase()
    ensures KindOf("contract.PDF") == Structural
    ensures KindOf("scan.JPeG") == Image
  {
    var p := "contract.PDF";
    assert p[8] == '.' && p[7] == 't';
    SplitExtAt(p, 8);
    assert p[8..] == ".PDF";
    assert Lower(".PDF") == ".pdf";
    var q := "scan.JPeG";
    assert q[4] == '.' && q[3] == 'n';
    SplitExtAt(q, 4);
    assert q[4..] == ".JPeG";
    assert Lower(".JPeG") == ".jpeg";
  }

  /** Only the final extension counts. */
  lemma {:induction false} DispatchUsesFinalExtension()
    ensures KindOf("notes.pdf.txt") == Unsupported
  {
    var p := "notes.pdf.txt";
    assert p[9] == '.' && p[8] == 'f';
    SplitExtAt(p, 9);
    assert p[9..] == ".txt";
    assert Lower(".txt") == ".txt";
  }

  /** On the image path, a transcript that is not a non-blank string returns
      0 and writes nothing; the vector store's write is never attempted, so
      its behaviour does not matter. */
  lemma {:induction false} BlankTranscriptWritesNothing(path: string, debugMode: Option<string>, c: Collaborators,
                                     st: Stores, otherAdd: seq<Chunk> -> Option<string>)
    requires KindOf(path) == Image
    requires c.transcribe(path).Success?
    requires var t := c.transcribe(path).value; !t.TextContent? || IsBlank(t.text)
    ensures ProcessDocument(path, debugMode, c, st).outcome == Success(0)
    ensures ProcessDocument(path, debugMode, c, st).after.vectors == st.vectors
    ensures ProcessDocument(path, debugMode, c, st) == ProcessDocument(path, debugMode, c.(add := otherAdd), st)
  {
  }

  /** An unsupported extension consults no collaborator at all. */
  lemma {:induction false} UnsupportedConsultsNothing(path: string, debugMode: Option<string>, c: Collaborators,
                                   c': Collaborators, st: Stores)
    requires KindOf(path) == Unsupported
    ensures ProcessDocument(path, debugMode, c, st) == ProcessDocument(path, debugMode, c', st)
    ensures ProcessDocument(path, debugMode, c, st).after.vectors == st.vectors
  {
  }

  /** When every extracted chunk is blank, 0 is returned and nothing is
      written. */
  lemma {:induction false} AllBlankWritesNothing(path: string, debugMode: Option<string>, c: Collaborators, st: Stores)
    requires Extract(path, c).Success?
    requires forall ch :: ch in Extract(path, c).value ==> IsBlank(ch.content)
    ensures ProcessDocument(path, debugMode, c, st).outcome == Success(0)
    ensures ProcessDocument(path, debugMode, c, st).after.vectors == st.vectors
  {
    var splits := Extract(path, c).value;
    var cleaned := FilterComplexMetadata(splits);
    forall ch | ch in cleaned ensures IsBlank(ch.content) {
      var i :| 0 <= i < |cleaned| && cleaned[i] == ch;
      assert splits[i] in splits;
    }
    DropBlankOfAllBlank(cleaned);
  }

  /** A successful run writes exactly the non-blank chunks extracted, in
      extraction order, and returns their number. */
  lemma {:induction false} WrittenAreTheNonBlankChunks(path: string, debugMode: Option<string>, c: Collaborators, st: Stores)
    requires ProcessDocument(path, debugMode, c, st).outcome.Success?
    ensures Extract(path, c).Success?
    ensures var r := ProcessDocument(path, debugMode, c, st);
            var written := r.after.vectors[|st.vectors|..];
            && written == Clean(Extract(path, c).value)
            && r.outcome.value == |FilterComplexMetadata(Extract(path, c).value)|
                                  - BlankCount(FilterComplexMetadata(Extract(path, c).value))
  {
    DropBlankCount(FilterComplexMetadata(Extract(path, c).value));
  }

  /** An exception from a collaborator is re-raised with its message
      unchanged, after the clean-up. */
  lemma {:induction false} ExceptionReraisedUnchanged(path: string, debugMode: Option<string>, c: Collaborators, st: Stores)
    ensures var r := ProcessDocument(path, debugMode, c, st);
            r.outcome.Failure? <==>
              (Extract(path, c).Failure? ||
               (Extract(path, c).Success? && |Clean(Extract(path, c).value)| > 0
                && c.add(Clean(Extract(path, c).value)).Some?))
    ensures KindOf(path) == Image && c.transcribe(path).Failure? ==>
              ProcessDocument(path, debugMode, c, st).outcome == Failure(c.transcribe(path).error)
    ensures KindOf(path) == Structural && c.load(path).Failure? ==>
              ProcessDocument(path, debugMode, c, st).outcome == Failure(c.load(path).error)
    ensures Extract(path, c).Success? && |Clean(Extract(path, c).value)| > 0
            && c.add(Clean(Extract(path, c).value)).Some? ==>
              ProcessDocument(path, debugMode, c, st).outcome == Failure(c.add(Clean(Extract(path, c).value)).value)
  {
  }

  /** Chunks from an image transcript carry no metadata, and cleaning keeps
      it that way: everything the image path writes has empty metadata. */
  lemma {:induction false} ImageWritesBareChunks(path: string, debugMode: Option<string>, c: Collaborators, st: Stores)
    requires KindOf(path) == Image
    requires ProcessDocument(path, debugMode, c, st).outcome.Success?
    ensures forall ch :: ch in ProcessDocument(path, debugMode, c, st).after.vectors[|st.vectors|..] ==>
              ch.metadata == map[]
  {
    WrittenAreTheNonBlankChunks(path, debugMode, c, st);
    var splits := Extract(path, c).value;
    assert forall ch :: ch in splits ==> ch.metadata == map[];
    CleanKeepsBareMetadata(splits);
  }

  lemma {:induction false} CleanKeepsBareMetadata(splits: seq<Chunk>)
    requires forall ch :: ch in splits ==> ch.metadata == map[]
    ensures forall ch :: ch in Clean(splits) ==> ch.metadata == map[]
  {
    var cleaned := FilterComplexMetadata(splits);
    forall ch | ch in cleaned ensures ch.metadata == map[] {
      var i :| 0 <= i < |cleaned| && cleaned[i] == ch;
      assert splits[i] in splits;
    }
    DropBlankMembers(cleaned);
  }
}
