/** The document routes of `backend/routers/documents.py`: the per-file
    upload loop (save under a fresh id, process, register, report) and the
    two-step delete (vector store, then the file record).

    The relational store is a map from file id to its record; the stores
    of `Ingestion` hold the file system and the vector chunks. The fresh
    ids (`uuid4`) are a parameter. */
module Documents {
  import opened Wrappers
  import opened Text
  import opened Ingestion

  const UPLOAD_DIR: string := "secure_uploads"

  /** A session's file record (`add_file_to_session_db`). */
  datatype FileRecord = FileRecord(sessionId: string, filename: string)

  /** The stores, the file records, and the record writes that fail:
      `add_file_to_session_db` raises, with the given message, for every
      file id in `recordFaults`, and `delete_file_db` for every file id in
      `deleteFaults`. */
  datatype World = World(stores: Stores, records: map<string, FileRecord>,
                         recordFaults: map<string, string>, deleteFaults: map<string, string>)

  /** One entry of the upload response. */
  datatype UploadEntry =
    | Uploaded(filename: string, fileId: string, chunks: nat)
    | UploadFailed(filename: string, detail: string)

  /** How the router invokes document processing on a saved path. */
  type Processor = (string, Stores) -> Processed

  /** `os.path.join(a, b)` for two components on POSIX. */
  function PathJoin(a: string, b: string): (r: string)
    ensures |b| > 0 && b[0] != '/' && |a| > 0 && a[|a| - 1] != '/' ==> r == a + "/" + b
  {
    if |b| > 0 && b[0] == '/' then b
    else if |a| == 0 || a[|a| - 1] == '/' then a + b
    else a + "/" + b
  }

  /** Where an upload is saved: the fresh id followed by the original
      extension, in the upload directory. */
  function StoredPath(fileId: string, filename: string): string {
    PathJoin(UPLOAD_DIR, fileId + SplitExt(filename).1)
  }

  /** The shape of a `uuid4` string as far as paths are concerned: not
      empty, with no dot and no separator. */
  predicate IsPlainId(id: string) {
    |id| > 0 && '.' !in id && '/' !in id
  }

  // ---------------------------------------------------------------------------
  // upload_docs
  // ---------------------------------------------------------------------------

  /** One iteration of the loop: save the file, process it, register it when
      it produced chunks, and report. An exception from processing or from
      the record write is reported and the saved file removed; chunks that
      processing already wrote stay in the vector store. */
  function UploadOne(process: Processor, sessionId: string, filename: string, fileId: string,
                     w: World): (UploadEntry, World)
  {
    var path := StoredPath(fileId, filename);
    var saved := w.stores.(disk := w.stores.disk + {path});
    var p := process(path, saved);
    match p.outcome
    case Success(n) =>
      if n > 0 && fileId in w.recordFaults then
        (UploadFailed(filename, w.recordFaults[fileId]), w.(stores := p.after.(disk := p.after.disk - {path})))
      else
        var records := if n > 0 then w.records[fileId := FileRecord(sessionId, filename)] else w.records;
        (Uploaded(filename, fileId, n), w.(stores := p.after, records := records))
    case Failure(e) =>
      (UploadFailed(filename, e), w.(stores := p.after.(disk := p.after.disk - {path})))
  }

  /** One iteration reports on its own file; it registers the file exactly
      when processing returned a positive count and the record write did
      not raise, and an exception leaves the records alone and the saved
      file removed. The failing record writes are a fixed part of the world. */
  lemma {:induction false} UploadOneEffects(process: Processor, sessionId: string, filename: string, fileId: string,
                         w: World)
    ensures var r := UploadOne(process, sessionId, filename, fileId, w);
            && r.0.filename == filename
            && (r.0.Uploaded? ==> r.0.fileId == fileId)
            && (r.0.UploadFailed? ==>
                  && r.1.records == w.records
                  && StoredPath(fileId, filename) !in r.1.stores.disk)
            && (r.0.Uploaded? ==>
                  r.1.records == (if r.0.chunks > 0 then w.records[fileId := FileRecord(sessionId, filename)]
                                  else w.records))
            && (r.0.Uploaded? && r.0.chunks > 0 ==> fileId !in w.recordFaults)
            && r.1.recordFaults == w.recordFaults
  {
  }

  /** One loop iteration: from a file name, its fresh id and the world, the
      response entry and the next world. */
  type Step = (string, string, World) -> (UploadEntry, World)

  /** `for file in files`: the iterations in order, each on the world the
      previous one left. */
  function Loop(step: Step, filenames: seq<string>, ids: seq<string>, w: World): (r: (seq<UploadEntry>, World))
    requires |ids| == |filenames|
    ensures |r.0| == |filenames|
    decreases |filenames|
  {
    if |filenames| == 0 then ([], w)
    else
      var first := step(filenames[0], ids[0], w);
      var rest := Loop(step, filenames[1..], ids[1..], first.1);
      ([first.0] + rest.0, rest.1)
  }

  /** `upload_docs`: the files in order, `ids[i]` being the fresh id drawn
      for `filenames[i]`. */
  function Upload(process: Processor, sessionId: string, filenames: seq<string>, ids: seq<string>,
                  w: World): (r: (seq<UploadEntry>, World))
    requires |ids| == |filenames|
    ensures |r.0| == |filenames|
  {
    Loop((f: string, id: string, v: World) => UploadOne(process, sessionId, f, id, v), filenames, ids, w)
  }

  /** Running the loop over a concatenation runs it over the first part,
      then over the second part from where the first left the world. */
  lemma {:induction false} LoopAppend(step: Step, f1: seq<string>, i1: seq<string>,
                                      f2: seq<string>, i2: seq<string>, w: World)
    requires |i1| == |f1| && |i2| == |f2|
    ensures var a := Loop(step, f1, i1, w);
            var b := Loop(step, f2, i2, a.1);
            Loop(step, f1 + f2, i1 + i2, w) == (a.0 + b.0, b.1)
    decreases |f1|
  {
    if |f1| == 0 {
      assert f1 + f2 == f2 && i1 + i2 == i2;
      var b := Loop(step, f2, i2, w);
      assert [] + b.0 == b.0;
    } else {
      var first := step(f1[0], i1[0], w);
      LoopAppend(step, f1[1..], i1[1..], f2, i2, first.1);
      assert (f1 + f2)[0] == f1[0] && (i1 + i2)[0] == i1[0];
      assert (f1 + f2)[1..] == f1[1..] + f2;
      assert (i1 + i2)[1..] == i1[1..] + i2;
      var tail1 := Loop(step, f1[1..], i1[1..], first.1);
      var b := Loop(step, f2, i2, tail1.1);
      assert [first.0] + (tail1.0 + b.0) == ([first.0] + tail1.0) + b.0;
    }
  }

  /** Every file is attempted whatever happened to the earlier ones: entry
      `i` is one iteration of the loop on the world the first `i` files
      left behind. */
  lemma {:induction false} EntryIsOneIteration(process: Processor, sessionId: string, filenames: seq<string>,
                            ids: seq<string>, w: World, i: nat)
    requires |ids| == |filenames| && i < |filenames|
    ensures var before := Upload(process, sessionId, filenames[..i], ids[..i], w).1;
            Upload(process, sessionId, filenames, ids, w).0[i]
              == UploadOne(process, sessionId, filenames[i], ids[i], before).0
  {
    var step := (f: string, id: string, v: World) => UploadOne(process, sessionId, f, id, v);
    LoopEntry(step, filenames, ids, w, i);
  }

  /** The `i`-th entry of the loop is the step on the `i`-th file, run on
      the world the first `i` iterations left. */
  lemma {:induction false} LoopEntry(step: Step, filenames: seq<string>, ids: seq<string>, w: World, i: nat)
    requires |ids| == |filenames| && i < |filenames|
    ensures var before := Loop(step, filenames[..i], ids[..i], w).1;
            Loop(step, filenames, ids, w).0[i] == step(filenames[i], ids[i], before).0
  {
    LoopAppend(step, filenames[..i], ids[..i], filenames[i..], ids[i..], w);
    assert filenames[..i] + filenames[i..] == filenames;
    assert ids[..i] + ids[i..] == ids;
    var before := Loop(step, filenames[..i], ids[..i], w);
    var after := Loop(step, filenames[i..], ids[i..], before.1);
    assert after.0[0] == step(filenames[i], ids[i], before.1).0;
  }

  /** The response has one entry per file, in input order, and a success
      entry carries the id drawn for that file. */
  lemma {:induction false} EntriesFollowFiles(process: Processor, sessionId: string,
                                              filenames: seq<string>, ids: seq<string>, w: World)
    requires |ids| == |filenames|
    ensures var r := Upload(process, sessionId, filenames, ids, w);
            && |r.0| == |filenames|
            && (forall i :: 0 <= i < |r.0| ==> r.0[i].filename == filenames[i])
            && (forall i :: 0 <= i < |r.0| && r.0[i].Uploaded? ==> r.0[i].fileId == ids[i])
    decreases |filenames|
  {
    if |filenames| > 0 {
      var first := UploadOne(process, sessionId, filenames[0], ids[0], w);
      var rest := Upload(process, sessionId, filenames[1..], ids[1..], first.1);
      EntriesFollowFiles(process, sessionId, filenames[1..], ids[1..], first.1);
      UploadOneEffects(process, sessionId, filenames[0], ids[0], w);
      var r := Upload(process, sessionId, filenames, ids, w);
      assert r.0 == [first.0] + rest.0;
      forall i | 0 <= i < |r.0|
        ensures r.0[i].filename == filenames[i]
        ensures r.0[i].Uploaded? ==> r.0[i].fileId == ids[i]
      {
        if i > 0 {
          assert r.0[i] == rest.0[i - 1];
        }
      }
    }
  }

  predicate Distinct(ids: seq<string>) {
    forall i, j :: 0 <= i < j < |ids| ==> ids[i] != ids[j]
  }

  /** With fresh, distinct ids, a record is added for file `i` exactly when
      its processing succeeded with more than 0 chunks, and it names the
      session and the original file name; existing records are untouched. */
  lemma {:induction false} RecordIffChunks(process: Processor, sessionId: string,
                                           filenames: seq<string>, ids: seq<string>, w: World)
    requires |ids| == |filenames| && Distinct(ids)
    requires forall i :: 0 <= i < |ids| ==> ids[i] !in w.records
    ensures var r := Upload(process, sessionId, filenames, ids, w);
            && (forall k :: k in w.records ==> k in r.1.records && r.1.records[k] == w.records[k])
            && (forall k :: k in r.1.records ==> k in w.records || k in ids)
            && (forall i :: 0 <= i < |ids| ==>
                  (ids[i] in r.1.records <==> r.0[i].Uploaded? && r.0[i].chunks > 0))
            && (forall i :: 0 <= i < |ids| && ids[i] in r.1.records ==>
                  r.1.records[ids[i]] == FileRecord(sessionId, filenames[i]))
    decreases |filenames|
  {
    var r := Upload(process, sessionId, filenames, ids, w);
    if |filenames| > 0 {
      var first := UploadOne(process, sessionId, filenames[0], ids[0], w);
      var rest := Upload(process, sessionId, filenames[1..], ids[1..], first.1);
      assert first.1.records == if first.0.Uploaded? && first.0.chunks > 0
                                then w.records[ids[0] := FileRecord(sessionId, filenames[0])] else w.records by {
        UploadOneEffects(process, sessionId, filenames[0], ids[0], w);
      }
      assert RecordsFollow(sessionId, filenames[1..], ids[1..], rest.0, first.1.records, rest.1.records) by {
        assert forall j :: 0 <= j < |ids[1..]| ==> ids[1..][j] == ids[j + 1];
        RecordIffChunks(process, sessionId, filenames[1..], ids[1..], first.1);
      }
      assert r.0 == [first.0] + rest.0 && r.1 == rest.1;
      assert r.0[0] == first.0 && r.0[1..] == rest.0;
      RecordsStep(sessionId, filenames, ids, r.0, w.records, first.1.records, r.1.records);
    }
    assert RecordsFollow(sessionId, filenames, ids, r.0, w.records, r.1.records);
  }

  /** How the records after the loop relate to those before it, entry by
      entry: the conclusion of `RecordIffChunks`. */
  predicate RecordsFollow(sessionId: string, filenames: seq<string>, ids: seq<string>,
                          entries: seq<UploadEntry>, before: map<string, FileRecord>,
                          after: map<string, FileRecord>)
    requires |ids| == |filenames| == |entries|
  {
    && (forall k :: k in before ==> k in after && after[k] == before[k])
    && (forall k :: k in after ==> k in before || k in ids)
    && (forall i :: 0 <= i < |ids| ==> (ids[i] in after <==> entries[i].Uploaded? && entries[i].chunks > 0))
    && (forall i :: 0 <= i < |ids| && ids[i] in after ==> after[ids[i]] == FileRecord(sessionId, filenames[i]))
  }

  /** The inductive step of `RecordIffChunks`: the first iteration adds its
      record or not, and the rest of the loop follows from there. */
  lemma {:induction false} RecordsStep(sessionId: string, filenames: seq<string>, ids: seq<string>,
                                       entries: seq<UploadEntry>, before: map<string, FileRecord>,
                                       mid: map<string, FileRecord>, after: map<string, FileRecord>)
    requires |ids| == |filenames| == |entries| > 0 && Distinct(ids)
    requires forall i :: 0 <= i < |ids| ==> ids[i] !in before
    requires mid == if entries[0].Uploaded? && entries[0].chunks > 0
                    then before[ids[0] := FileRecord(sessionId, filenames[0])] else before
    requires RecordsFollow(sessionId, filenames[1..], ids[1..], entries[1..], mid, after)
    ensures RecordsFollow(sessionId, filenames, ids, entries, before, after)
  {
    assert forall j :: 0 <= j < |ids[1..]| ==> ids[1..][j] == ids[j + 1];
    forall i | 0 <= i < |ids|
      ensures ids[i] in after <==> entries[i].Uploaded? && entries[i].chunks > 0
    {
      if i > 0 {
        assert entries[i] == entries[1..][i - 1];
        assert ids[i] == ids[1..][i - 1];
      }
    }
    forall k | k in after ensures k in before || k in ids {
      if k !in before && k in mid {
        assert k == ids[0];
      }
      if k !in mid {
        var j :| 0 <= j < |ids[1..]| && ids[1..][j] == k;
        assert ids[j + 1] == k;
      }
    }
    forall i | 0 <= i < |ids| && ids[i] in after
      ensures after[ids[i]] == FileRecord(sessionId, filenames[i])
    {
      if i > 0 {
        assert ids[i] == ids[1..][i - 1];
        assert filenames[i] == filenames[1..][i - 1];
      }
    }
  }

  /** The saved path keeps the upload's extension, so processing dispatches
      on the saved file exactly as it would on the original name. */
  lemma {:induction false} StoredPathKeepsExtension(fileId: string, filename: string)
    requires IsPlainId(fileId)
    ensures StoredPath(fileId, filename) == UPLOAD_DIR + "/" + fileId + SplitExt(filename).1
    ensures SplitExt(StoredPath(fileId, filename)).1 == SplitExt(filename).1
    ensures KindOf(StoredPath(fileId, filename)) == KindOf(filename)
  {
    var ext := SplitExt(filename).1;
    assert (fileId + ext)[0] == fileId[0];
    assert UPLOAD_DIR + "/" + (fileId + ext) == UPLOAD_DIR + "/" + fileId + ext;
    SplitExtAfterPlainName(UPLOAD_DIR, fileId, ext);
  }

  /** Distinct plain ids give distinct saved paths. */
  lemma {:induction false} StoredPathsDiffer(id1: string, f1: string, id2: string, f2: string)
    requires IsPlainId(id1) && IsPlainId(id2) && id1 != id2
    ensures StoredPath(id1, f1) != StoredPath(id2, f2)
  {
    var e1 := SplitExt(f1).1;
    var e2 := SplitExt(f2).1;
    PlainNamesDiffer(id1, e1, id2, e2);
    var dir := UPLOAD_DIR + "/";
    assert (id1 + e1)[0] == id1[0] && (id2 + e2)[0] == id2[0];
    assert StoredPath(id1, f1) == dir + (id1 + e1);
    assert StoredPath(id2, f2) == dir + (id2 + e2);
    assert (dir + (id1 + e1))[|dir|..] == id1 + e1;
    assert (dir + (id2 + e2))[|dir|..] == id2 + e2;
  }

  // ---------------------------------------------------------------------------
  // The processor as called, and as intended
  // ---------------------------------------------------------------------------

  /** The message of the TypeError raised by `process_document(path,
      file_uuid)` against the one-parameter definition. */
  const ARITY_ERROR: string := "process_document() takes 1 positional argument but 2 were given"

  /** The call as written: it raises before the body runs, so the
      processor's own clean-up never happens and nothing is touched. */
  function AsWrittenProcessor(): Processor {
    (path: string, st: Stores) => Processed(Failure(ARITY_ERROR), st)
  }

  /** The call as intended: `process_document(path)`. */
  function CorrectedProcessor(debugMode: Option<string>, c: Collaborators): Processor {
    (path: string, st: Stores) => ProcessDocument(path, debugMode, c, st)
  }

  function UploadAsWritten(sessionId: string, filenames: seq<string>, ids: seq<string>,
                           w: World): (r: (seq<UploadEntry>, World))
    requires |ids| == |filenames|
    ensures |r.0| == |filenames|
  {
    Upload(AsWrittenProcessor(), sessionId, filenames, ids, w)
  }

  function UploadCorrected(sessionId: string, filenames: seq<string>, ids: seq<string>,
                           debugMode: Option<string>, c: Collaborators,
                           w: World): (r: (seq<UploadEntry>, World))
    requires |ids| == |filenames|
    ensures |r.0| == |filenames|
  {
    Upload(CorrectedProcessor(debugMode, c), sessionId, filenames, ids, w)
  }

  /** As written, every upload fails with the TypeError: no record is
      added, no chunk is written, and the saved files are removed again. */
  lemma {:induction false} UploadAsWrittenAlwaysFails(sessionId: string, filenames: seq<string>,
                                                      ids: seq<string>, w: World)
    requires |ids| == |filenames|
    ensures var r := UploadAsWritten(sessionId, filenames, ids, w);
            && (forall i :: 0 <= i < |r.0| ==> r.0[i] == UploadFailed(filenames[i], ARITY_ERROR))
            && r.1.records == w.records
            && r.1.stores.vectors == w.stores.vectors
            && r.1.stores.disk <= w.stores.disk
    decreases |filenames|
  {
    if |filenames| > 0 {
      var first := UploadOne(AsWrittenProcessor(), sessionId, filenames[0], ids[0], w);
      UploadAsWrittenAlwaysFails(sessionId, filenames[1..], ids[1..], first.1);
      var r := UploadAsWritten(sessionId, filenames, ids, w);
      var rest := UploadAsWritten(sessionId, filenames[1..], ids[1..], first.1);
      assert r.0 == [first.0] + rest.0;
      forall i | 0 <= i < |r.0| ensures r.0[i] == UploadFailed(filenames[i], ARITY_ERROR) {
        if i > 0 {
          assert r.0[i] == rest.0[i - 1];
        }
      }
    }
  }

  /** With the intended call, a file of a supported type whose extracted
      chunks are not all blank, with a working vector store, is indexed and
      registered under its id when the record write works; and unless
      DEBUG_MODE keeps uploads, its saved file is gone afterwards. */
  lemma {:induction false} UploadCorrectedIndexesFile(sessionId: string, filename: string, fileId: string,
                                   debugMode: Option<string>, c: Collaborators, w: World)
    requires var path := StoredPath(fileId, filename);
             && Extract(path, c).Success?
             && |Clean(Extract(path, c).value)| > 0
             && c.add(Clean(Extract(path, c).value)).None?
    requires fileId !in w.recordFaults
    ensures var r := UploadCorrected(sessionId, [filename], [fileId], debugMode, c, w);
            && r.0[0] == Uploaded(filename, fileId, |Clean(Extract(StoredPath(fileId, filename), c).value)|)
            && fileId in r.1.records && r.1.records[fileId] == FileRecord(sessionId, filename)
            && (!KeepsUploads(debugMode) ==> StoredPath(fileId, filename) !in r.1.stores.disk)
  {
    var process := CorrectedProcessor(debugMode, c);
    var path := StoredPath(fileId, filename);
    var saved := w.stores.(disk := w.stores.disk + {path});
    var p := ProcessDocument(path, debugMode, c, saved);
    assert process(path, saved) == p;
    var n := |Clean(Extract(path, c).value)|;
    assert p.outcome == Success(n);
    var one := UploadOne(process, sessionId, filename, fileId, w);
    assert one == (Uploaded(filename, fileId, n),
                   w.(stores := p.after, records := w.records[fileId := FileRecord(sessionId, filename)]));
    UploadSingle(process, sessionId, filename, fileId, w);
  }

  /** When the record write raises after processing wrote the chunks, the
      file is reported as an error and its saved copy removed, but its
      chunks stay in the vector store with no record naming the file. */
  lemma {:induction false} UploadRecordFailureOrphansChunks(sessionId: string, filename: string, fileId: string,
                                         debugMode: Option<string>, c: Collaborators, w: World)
    requires var path := StoredPath(fileId, filename);
             && Extract(path, c).Success?
             && |Clean(Extract(path, c).value)| > 0
             && c.add(Clean(Extract(path, c).value)).None?
    requires fileId in w.recordFaults
    ensures var r := UploadCorrected(sessionId, [filename], [fileId], debugMode, c, w);
            && r.0[0] == UploadFailed(filename, w.recordFaults[fileId])
            && r.1.records == w.records
            && r.1.stores.vectors == w.stores.vectors + Clean(Extract(StoredPath(fileId, filename), c).value)
            && StoredPath(fileId, filename) !in r.1.stores.disk
  {
    var process := CorrectedProcessor(debugMode, c);
    var path := StoredPath(fileId, filename);
    var saved := w.stores.(disk := w.stores.disk + {path});
    var p := ProcessDocument(path, debugMode, c, saved);
    assert process(path, saved) == p;
    var n := |Clean(Extract(path, c).value)|;
    assert p.outcome == Success(n);
    WrittenAreTheNonBlankChunks(path, debugMode, c, saved);
    assert p.after.vectors == p.after.vectors[..|saved.vectors|] + p.after.vectors[|saved.vectors|..];
    UploadSingle(process, sessionId, filename, fileId, w);
  }

  /** Uploading a single file is one iteration. */
  lemma {:induction false} UploadSingle(process: Processor, sessionId: string, filename: string, fileId: string, w: World)
    ensures var one := UploadOne(process, sessionId, filename, fileId, w);
            Upload(process, sessionId, [filename], [fileId], w) == ([one.0], one.1)
  {
    var step := (f: string, id: string, v: World) => UploadOne(process, sessionId, f, id, v);
    assert [filename][1..] == [] && [fileId][1..] == [];
    var one := step(filename, fileId, w);
    assert Loop(step, [], [], one.1) == ([], one.1);
    assert Loop(step, [filename], [fileId], w) == ([one.0] + [], one.1);
    assert [one.0] + [] == [one.0];
  }

  // ---------------------------------------------------------------------------
  // delete_file
  // ---------------------------------------------------------------------------

  /** Whether a chunk carries `source_id` metadata equal to the id. */
  predicate TaggedWith(c: Chunk, fileId: string) {
    "source_id" in c.metadata && c.metadata["source_id"] == Str(fileId)
  }

  /** What can go wrong in the vector store during a delete: opening it
      (`get_vector_store()`, outside the `try`) or the delete itself (inside
      it). */
  datatype StoreFault = NoFault | OpenRaises(message: string) | DeleteRaises

  /** `delete_from_vector_store`: removes the chunks tagged with the id and
      reports true. An exception from the delete is caught: nothing is
      removed and false is reported. An exception from opening the store is
      not caught and escapes as the failure. */
  function DeleteFromVectorStore(vectors: seq<Chunk>, fileId: string, fault: StoreFault)
    : (r: Result<(seq<Chunk>, bool), string>)
    ensures r.Failure? <==> fault.OpenRaises?
    ensures r.Failure? ==> r.error == fault.message
    ensures r.Success? ==> (fault.DeleteRaises? <==> !r.value.1)
    ensures r.Success? && fault.DeleteRaises? ==> r.value.0 == vectors
    ensures r.Success? ==>
              forall c :: c in r.value.0 <==> c in vectors && (fault.DeleteRaises? || !TaggedWith(c, fileId))
    ensures r.Success? ==> |r.value.0| <= |vectors|
    ensures r.Success? ==>
              forall c :: multiset(r.value.0)[c]
                          == if fault.DeleteRaises? || !TaggedWith(c, fileId) then multiset(vectors)[c] else 0
  {
    match fault
    case OpenRaises(e) => Failure(e)
    case DeleteRaises => Success((vectors, false))
    case NoFault =>
      RemoveTaggedKeepsOthers(vectors, fileId);
      RemoveTaggedCounts(vectors, fileId);
      Success((RemoveTagged(vectors, fileId), true))
  }

  function RemoveTagged(vectors: seq<Chunk>, fileId: string): seq<Chunk> {
    if |vectors| == 0 then []
    else
      var rest := RemoveTagged(vectors[..|vectors| - 1], fileId);
      if TaggedWith(vectors[|vectors| - 1], fileId) then rest else rest + [vectors[|vectors| - 1]]
  }

  /** Exactly the tagged chunks go: every other chunk stays. */
  lemma {:induction false} RemoveTaggedKeepsOthers(vectors: seq<Chunk>, fileId: string)
    ensures forall c :: c in RemoveTagged(vectors, fileId) <==> c in vectors && !TaggedWith(c, fileId)
    ensures |RemoveTagged(vectors, fileId)| <= |vectors|
  {
    if |vectors| > 0 {
      var init := vectors[..|vectors| - 1];
      RemoveTaggedKeepsOthers(init, fileId);
      assert vectors == init + [vectors[|vectors| - 1]];
    }
  }

  /** Counted with multiplicity: every copy of a tagged chunk goes, and
      every other chunk keeps all its copies. */
  lemma {:induction false} RemoveTaggedCounts(vectors: seq<Chunk>, fileId: string)
    ensures forall c :: multiset(RemoveTagged(vectors, fileId))[c]
                        == if TaggedWith(c, fileId) then 0 else multiset(vectors)[c]
  {
    if |vectors| > 0 {
      var init := vectors[..|vectors| - 1];
      var last := vectors[|vectors| - 1];
      RemoveTaggedCounts(init, fileId);
      assert vectors == init + [last];
      assert multiset(vectors) == multiset(init) + multiset{last};
    }
  }

  /** The delete works chunk by chunk, so the chunks that remain keep their
      order: it distributes over concatenation. */
  lemma {:induction false} RemoveTaggedAppend(a: seq<Chunk>, b: seq<Chunk>, fileId: string)
    ensures RemoveTagged(a + b, fileId) == RemoveTagged(a, fileId) + RemoveTagged(b, fileId)
    decreases |b|
  {
    if |b| == 0 {
      assert a + b == a;
    } else {
      var init := b[..|b| - 1];
      RemoveTaggedAppend(a, init, fileId);
      assert (a + b)[..|a + b| - 1] == a + init;
      assert (a + b)[|a + b| - 1] == b[|b| - 1];
    }
  }

  /** Without a tagged chunk, the delete leaves the store as it was. */
  lemma {:induction false} RemoveUntaggedIsIdentity(vectors: seq<Chunk>, fileId: string)
    requires forall c :: c in vectors ==> !TaggedWith(c, fileId)
    ensures RemoveTagged(vectors, fileId) == vectors
    decreases |vectors|
  {
    if |vectors| > 0 {
      var init := vectors[..|vectors| - 1];
      assert forall c :: c in init ==> c in vectors;
      RemoveUntaggedIsIdentity(init, fileId);
      assert vectors == init + [vectors[|vectors| - 1]];
    }
  }

  const DELETED: string := "deleted"

  /** `delete_file`: the vector delete, then the record delete. An
      exception from the delete itself is caught inside the vector delete,
      so the record delete is reached; one from opening the store escapes
      the route before the record delete, and nothing changes. An exception
      from the record delete escapes too, after the vector delete has
      happened. The session id of the route plays no part. */
  function DeleteFile(sessionId: string, fileId: string, fault: StoreFault, w: World)
    : (r: (Result<string, string>, World))
    ensures fault.OpenRaises? ==> r.0 == Failure(fault.message) && r.1 == w
    ensures !fault.OpenRaises? ==>
              && r.1.stores.disk == w.stores.disk
              && r.1.recordFaults == w.recordFaults && r.1.deleteFaults == w.deleteFaults
              && (forall c :: c in r.1.stores.vectors <==>
                    c in w.stores.vectors && (fault.DeleteRaises? || !TaggedWith(c, fileId)))
              && (fileId in w.deleteFaults ==>
                    r.0 == Failure(w.deleteFaults[fileId]) && r.1.records == w.records)
              && (fileId !in w.deleteFaults ==>
                    r.0 == Success(DELETED) && r.1.records == w.records - {fileId})
  {
    match DeleteFromVectorStore(w.stores.vectors, fileId, fault)
    case Failure(e) => (Failure(e), w)
    case Success((vectors, _)) =>
      var cleared := w.(stores := w.stores.(vectors := vectors));
      if fileId in w.deleteFaults then (Failure(w.deleteFaults[fileId]), cleared)
      else (Success(DELETED), cleared.(records := w.records - {fileId}))
  }

  /** When the record delete raises after a working vector delete, the
      route fails with that message, the file's chunks are already gone,
      and its record stays, naming a file with nothing left to retrieve. */
  lemma {:induction false} RecordDeleteFailureKeepsRecord(sessionId: string, fileId: string, w: World)
    requires fileId in w.deleteFaults
    ensures var r := DeleteFile(sessionId, fileId, NoFault, w);
            && r.0 == Failure(w.deleteFaults[fileId])
            && r.1.records == w.records
            && (forall c :: c in r.1.stores.vectors ==> !TaggedWith(c, fileId))
            && (forall c :: c in w.stores.vectors && !TaggedWith(c, fileId) ==> c in r.1.stores.vectors)
  {
  }

  /** The outcome of the delete does not depend on the session in the route,
      and whether the delete itself failed changes neither the reported
      status nor the records. */
  lemma {:induction false} DeleteIgnoresSessionAndVectorOutcome(s1: string, s2: string, fileId: string,
                                             fault: StoreFault, w: World)
    ensures DeleteFile(s1, fileId, fault, w) == DeleteFile(s2, fileId, fault, w)
    ensures DeleteFile(s1, fileId, DeleteRaises, w).0 == DeleteFile(s1, fileId, NoFault, w).0
    ensures DeleteFile(s1, fileId, DeleteRaises, w).1.records
            == DeleteFile(s1, fileId, NoFault, w).1.records
  {
  }

  /** A stored file's record is gone after the delete exactly when neither
      opening the vector store nor the record delete raised, which is
      exactly when the route reports success. */
  lemma {:induction false} RecordRemovedUnlessARaiseEscapes(sessionId: string, fileId: string,
                                          fault: StoreFault, w: World)
    requires fileId in w.records
    ensures fileId !in DeleteFile(sessionId, fileId, fault, w).1.records
            <==> !fault.OpenRaises? && fileId !in w.deleteFaults
    ensures fileId !in DeleteFile(sessionId, fileId, fault, w).1.records
            <==> DeleteFile(sessionId, fileId, fault, w).0.Success?
  {
  }

  /** Chunks written for an image carry no metadata at all, so no delete by
      file id ever removes them. */
  lemma {:induction false} ImageChunksSurviveDelete(path: string, debugMode: Option<string>, c: Collaborators,
                                 st: Stores, fileId: string, fault: StoreFault)
    requires KindOf(path) == Image
    requires ProcessDocument(path, debugMode, c, st).outcome.Success?
    ensures var after := ProcessDocument(path, debugMode, c, st).after.vectors;
            var deleted := DeleteFromVectorStore(after, fileId, fault);
            forall ch :: ch in after[|st.vectors|..] ==>
              ch.metadata == map[] && (deleted.Failure? || ch in deleted.value.0)
  {
    var after := ProcessDocument(path, debugMode, c, st).after.vectors;
    ImageWritesBareChunks(path, debugMode, c, st);
    forall ch | ch in after[|st.vectors|..]
      ensures ch in after
    {
      var i :| 0 <= i < |after[|st.vectors|..]| && after[|st.vectors|..][i] == ch;
      assert after[|st.vectors| + i] == ch;
    }
  }
}
