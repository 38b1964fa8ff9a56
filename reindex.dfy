/**
 * Re-indexing a chapter's chosen version in the vector store
 * (backend/app/api/routers/writer.py:503-567): each chunk is embedded, the
 * embedded ones become records, the chapter's old records are replaced by
 * the new ones, and the request fails when nothing could be embedded.
 *
 * Splitting into chunks and the embedding service are oracles: `chunks` is
 * what `_split_into_chunks` returned and `embed(text)` the embedding of one
 * chunk, empty when the service returned nothing.
 */
module Reindex {
  import opened Wrappers
  import opened Text
  import opened JsonValues
  import opened Prompt

  datatype ChunkRecord = ChunkRecord(
    id: string, projectId: string, chapterNumber: int, chunkIndex: nat, chapterTitle: string,
    content: string, embedding: seq<real>, metadataChunkId: string, metadataLength: nat)

  /** Line 524. */
  function RecordId(projectId: string, chapterNumber: int, index: nat): string {
    projectId + ":" + IntToString(chapterNumber) + ":" + NatToString(index)
  }

  /** Lines 524-537 for the chunk at `index`, embedded as `embedding`. */
  function RecordFor(projectId: string, chapterNumber: int, chapterTitle: string, index: nat, text: string, embedding: seq<real>): (r: ChunkRecord)
    ensures r.id == RecordId(projectId, chapterNumber, index) && r.metadataChunkId == r.id
    ensures r.chunkIndex == index && r.content == text && r.metadataLength == |text| && r.embedding == embedding
    ensures r.projectId == projectId && r.chapterNumber == chapterNumber && r.chapterTitle == chapterTitle
  {
    ChunkRecord(RecordId(projectId, chapterNumber, index), projectId, chapterNumber, index, chapterTitle,
                text, embedding, RecordId(projectId, chapterNumber, index), |text|)
  }

  /** The records of the chunks from `from` on that were embedded, in chunk order. */
  function Records(projectId: string, chapterNumber: int, chapterTitle: string, chunks: seq<string>,
                   embed: string -> seq<real>, from: nat): (rs: seq<ChunkRecord>)
    requires from <= |chunks|
    ensures |rs| <= |chunks| - from
    decreases |chunks| - from
  {
    if from == |chunks| then []
    else
      var rest := Records(projectId, chapterNumber, chapterTitle, chunks, embed, from + 1);
      var e := embed(chunks[from]);
      if e != [] then [RecordFor(projectId, chapterNumber, chapterTitle, from, chunks[from], e)] + rest else rest
  }

  /** Every record belongs to an embedded chunk from `from` on and carries its index, text and embedding. */
  lemma {:induction false} RecordsSound(projectId: string, chapterNumber: int, chapterTitle: string, chunks: seq<string>,
                                        embed: string -> seq<real>, from: nat)
    requires from <= |chunks|
    ensures forall r :: r in Records(projectId, chapterNumber, chapterTitle, chunks, embed, from) ==>
      && from <= r.chunkIndex < |chunks| && embed(chunks[r.chunkIndex]) != []
      && r == RecordFor(projectId, chapterNumber, chapterTitle, r.chunkIndex, chunks[r.chunkIndex], embed(chunks[r.chunkIndex]))
    decreases |chunks| - from
  {
    if from < |chunks| {
      RecordsSound(projectId, chapterNumber, chapterTitle, chunks, embed, from + 1);
    }
  }

  /** Every embedded chunk from `from` on gets its record. */
  lemma {:induction false} RecordsComplete(projectId: string, chapterNumber: int, chapterTitle: string, chunks: seq<string>,
                                           embed: string -> seq<real>, from: nat)
    requires from <= |chunks|
    ensures forall i :: from <= i < |chunks| && embed(chunks[i]) != [] ==>
      RecordFor(projectId, chapterNumber, chapterTitle, i, chunks[i], embed(chunks[i]))
        in Records(projectId, chapterNumber, chapterTitle, chunks, embed, from)
    decreases |chunks| - from
  {
    if from < |chunks| {
      RecordsComplete(projectId, chapterNumber, chapterTitle, chunks, embed, from + 1);
    }
  }

  /** Every record from `from` on carries an index no smaller than `from`. */
  lemma RecordsStartAt(projectId: string, chapterNumber: int, chapterTitle: string, chunks: seq<string>,
                       embed: string -> seq<real>, from: nat)
    requires from <= |chunks|
    ensures forall r :: r in Records(projectId, chapterNumber, chapterTitle, chunks, embed, from) ==> from <= r.chunkIndex
  {
    RecordsSound(projectId, chapterNumber, chapterTitle, chunks, embed, from);
  }

  /** The records' chunk indices strictly increase along the sequence. */
  predicate IndicesIncreasing(rs: seq<ChunkRecord>) {
    forall a, b :: 0 <= a < b < |rs| ==> rs[a].chunkIndex < rs[b].chunkIndex
  }

  /** A record placed before records with larger indices keeps the order. */
  lemma IncreasingCons(head: ChunkRecord, rest: seq<ChunkRecord>)
    requires IndicesIncreasing(rest)
    requires forall r :: r in rest ==> head.chunkIndex < r.chunkIndex
    ensures IndicesIncreasing([head] + rest)
  {
    var rs := [head] + rest;
    forall a, b | 0 <= a < b < |rs|
      ensures rs[a].chunkIndex < rs[b].chunkIndex
    {
      assert rs[b] == rest[b - 1] && rest[b - 1] in rest;
      if a > 0 {
        assert rs[a] == rest[a - 1];
      }
    }
  }

  /** The records follow chunk order. */
  lemma {:induction false} RecordsOrdered(projectId: string, chapterNumber: int, chapterTitle: string, chunks: seq<string>,
                                          embed: string -> seq<real>, from: nat)
    requires from <= |chunks|
    ensures IndicesIncreasing(Records(projectId, chapterNumber, chapterTitle, chunks, embed, from))
    decreases |chunks| - from
  {
    if from < |chunks| {
      RecordsOrdered(projectId, chapterNumber, chapterTitle, chunks, embed, from + 1);
      RecordsStartAt(projectId, chapterNumber, chapterTitle, chunks, embed, from + 1);
      var rest := Records(projectId, chapterNumber, chapterTitle, chunks, embed, from + 1);
      var e := embed(chunks[from]);
      if e != [] {
        IncreasingCons(RecordFor(projectId, chapterNumber, chapterTitle, from, chunks[from], e), rest);
      }
    }
  }

  /** Different chunks of one chapter get different record ids. */
  lemma RecordIdsDistinct(projectId: string, chapterNumber: int, i: nat, j: nat)
    requires i != j
    ensures RecordId(projectId, chapterNumber, i) != RecordId(projectId, chapterNumber, j)
  {
    var prefix := projectId + ":" + IntToString(chapterNumber) + ":";
    assert (prefix + NatToString(i))[|prefix|..] == NatToString(i);
    assert (prefix + NatToString(j))[|prefix|..] == NatToString(j);
  }

  /** No two records written for one chapter share an id. */
  lemma RecordsHaveDistinctIds(projectId: string, chapterNumber: int, chapterTitle: string, chunks: seq<string>,
                               embed: string -> seq<real>)
    ensures var rs := Records(projectId, chapterNumber, chapterTitle, chunks, embed, 0);
      forall a, b :: 0 <= a < b < |rs| ==> rs[a].id != rs[b].id
  {
    var rs := Records(projectId, chapterNumber, chapterTitle, chunks, embed, 0);
    RecordsSound(projectId, chapterNumber, chapterTitle, chunks, embed, 0);
    RecordsOrdered(projectId, chapterNumber, chapterTitle, chunks, embed, 0);
    forall a, b | 0 <= a < b < |rs|
      ensures rs[a].id != rs[b].id
    {
      assert rs[a] in rs && rs[b] in rs;
      RecordIdsDistinct(projectId, chapterNumber, rs[a].chunkIndex, rs[b].chunkIndex);
    }
  }

  /**
   * Lines 512-540: every chunk is sent to the embedding service in order;
   * an embedded chunk counts as a success and yields its record, any other
   * as a failure.
   */
  method EmbedChunks(projectId: string, chapterNumber: int, chapterTitle: string, chunks: seq<string>,
                     embed: string -> seq<real>)
    returns (chunkRecords: seq<ChunkRecord>, successful: nat, failed: nat)
    ensures successful + failed == |chunks|
    ensures successful == |chunkRecords|
    ensures chunkRecords == Records(projectId, chapterNumber, chapterTitle, chunks, embed, 0)
  {
    chunkRecords := [];
    successful := 0;
    failed := 0;
    for index := 0 to |chunks|
      invariant successful + failed == index && successful == |chunkRecords|
      invariant chunkRecords + Records(projectId, chapterNumber, chapterTitle, chunks, embed, index)
             == Records(projectId, chapterNumber, chapterTitle, chunks, embed, 0)
    {
      var chunkText := chunks[index];
      var embedding := embed(chunkText);
      assert Records(projectId, chapterNumber, chapterTitle, chunks, embed, index)
          == (if embedding != [] then [RecordFor(projectId, chapterNumber, chapterTitle, index, chunkText, embedding)] else [])
             + Records(projectId, chapterNumber, chapterTitle, chunks, embed, index + 1);
      if embedding != [] {
        successful := successful + 1;
        var recordId := RecordId(projectId, chapterNumber, index);
        chunkRecords := chunkRecords + [ChunkRecord(recordId, projectId, chapterNumber, index, chapterTitle,
                                                    chunkText, embedding, recordId, |chunkText|)];
      } else {
        failed := failed + 1;
        continue;
      }
    }
  }

  /** A write to the vector store. */
  datatype VectorOp =
    | DeleteByChapters(projectId: string, chapterNumbers: seq<int>)
    | UpsertChunks(records: seq<ChunkRecord>)

  /** Lines 564-567. */
  const SyncFailedError: HttpError := HttpError(500, "章节向量同步失败，可能是 AI 服务余额不足或 API 速率限制")

  /** Lines 554-567: the sync fails exactly when there were chunks and none of them was embedded. */
  function SyncError(chunkCount: nat, successful: nat): Option<HttpError> {
    if successful == 0 && chunkCount > 0 then Some(SyncFailedError) else None
  }

  /** Line 504: the title recorded with each chunk, the outline's title or `第{n}章`. */
  function ChapterTitle(outlineTitle: Option<string>, chapterNumber: int): string {
    OutlineTitle(outlineTitle, chapterNumber)
  }

  /**
   * Lines 503-567: embeds the chunks, then replaces the chapter's records
   * when at least one chunk was embedded, and fails when there were chunks
   * and none was embedded. Returns the writes made, in order, and the
   * counters.
   */
  method SyncChapterVectors(projectId: string, chapterNumber: int, outlineTitle: Option<string>, chunks: seq<string>,
                            embed: string -> seq<real>)
    returns (ops: seq<VectorOp>, successful: nat, failed: nat, err: Option<HttpError>)
    ensures var rs := Records(projectId, chapterNumber, ChapterTitle(outlineTitle, chapterNumber), chunks, embed, 0);
      && successful + failed == |chunks| && successful == |rs|
      && ops == (if rs != [] then [DeleteByChapters(projectId, [chapterNumber]), UpsertChunks(rs)] else [])
      && err == SyncError(|chunks|, successful)
  {
    var chapterTitle := ChapterTitle(outlineTitle, chapterNumber);
    var chunkRecords;
    chunkRecords, successful, failed := EmbedChunks(projectId, chapterNumber, chapterTitle, chunks, embed);
    ops := [];
    if chunkRecords != [] {
      ops := ops + [DeleteByChapters(projectId, [chapterNumber])];
      ops := ops + [UpsertChunks(chunkRecords)];
    }
    err := None;
    if successful == 0 {
      if |chunks| > 0 {
        err := Some(SyncFailedError);
      }
    }
    assert err == SyncError(|chunks|, successful);
  }

  /**
   * The index writes happen exactly when some chunk was embedded, the
   * failure exactly when there were chunks and none was embedded; the two
   * never go together, and a chapter without chunks is neither written nor
   * an error.
   */
  lemma SyncWritesOrFails(projectId: string, chapterNumber: int, chapterTitle: string, chunks: seq<string>,
                          embed: string -> seq<real>)
    ensures var rs := Records(projectId, chapterNumber, chapterTitle, chunks, embed, 0);
      && (rs != [] <==> exists i :: 0 <= i < |chunks| && embed(chunks[i]) != [])
      && (rs == [] && |chunks| > 0 <==> |chunks| > 0 && forall i :: 0 <= i < |chunks| ==> embed(chunks[i]) == [])
  {
    var rs := Records(projectId, chapterNumber, chapterTitle, chunks, embed, 0);
    RecordsSound(projectId, chapterNumber, chapterTitle, chunks, embed, 0);
    RecordsComplete(projectId, chapterNumber, chapterTitle, chunks, embed, 0);
    if rs != [] {
      assert rs[0] in rs;
    }
  }

  // ------------------------------------------------------- store semantics

  /** The vector store: records by id. */
  type Store = map<string, ChunkRecord>

  /** `upsert_chunks`: each record is stored under its id, a later one replacing an earlier one. */
  function Upsert(store: Store, records: seq<ChunkRecord>): Store
    decreases |records|
  {
    if records == [] then store else Upsert(store[records[0].id := records[0]], records[1..])
  }

  /** `delete_by_chapters`: every record of the project in one of the chapters is removed. */
  function DeleteChapters(store: Store, projectId: string, chapterNumbers: seq<int>): (r: Store)
    ensures forall id :: id in r <==> id in store && !(store[id].projectId == projectId && store[id].chapterNumber in chapterNumbers)
    ensures forall id :: id in r ==> r[id] == store[id]
  {
    map id | id in store && !(store[id].projectId == projectId && store[id].chapterNumber in chapterNumbers) :: store[id]
  }

  function Apply(store: Store, op: VectorOp): Store {
    match op
    case DeleteByChapters(p, ns) => DeleteChapters(store, p, ns)
    case UpsertChunks(records) => Upsert(store, records)
  }

  function ApplyAll(store: Store, ops: seq<VectorOp>): Store
    decreases |ops|
  {
    if ops == [] then store else ApplyAll(Apply(store, ops[0]), ops[1..])
  }

  /** After an upsert every record is stored, and every other entry is what it was. */
  lemma {:induction false} UpsertStores(store: Store, records: seq<ChunkRecord>)
    ensures var after := Upsert(store, records);
      && (forall r :: r in records ==> r.id in after && after[r.id] in records && after[r.id].id == r.id)
      && (forall id :: id in after ==> after[id] in records || (id in store && after[id] == store[id]))
      && (forall id :: id in store && (forall r :: r in records ==> r.id != id) ==> id in after && after[id] == store[id])
    decreases |records|
  {
    if records != [] {
      var next := store[records[0].id := records[0]];
      UpsertStores(next, records[1..]);
      var after := Upsert(store, records);
      assert after == Upsert(next, records[1..]);
      forall r | r in records
        ensures r.id in after && after[r.id] in records && after[r.id].id == r.id
      {
        if r != records[0] {
          assert r in records[1..];
        } else if exists q :: q in records[1..] && q.id == r.id {
        } else {
          assert after[r.id] == next[r.id];
        }
      }
      forall id | id in after
        ensures after[id] in records || (id in store && after[id] == store[id])
      {
        if after[id] in records[1..] {
          assert after[id] in records;
        } else if id == records[0].id {
          assert after[id] == records[0];
        }
      }
      forall id | id in store && (forall r :: r in records ==> r.id != id)
        ensures id in after && after[id] == store[id]
      {
        assert records[0] in records;
        forall r | r in records[1..]
          ensures r.id != id
        {
          assert r in records;
        }
      }
    }
  }

  /**
   * After the writes of a sync that embedded something, the chapter's
   * records in the store are exactly the new ones: none of the old records
   * survives next to them, and the records of other chapters are untouched
   * unless a new record carries the same id.
   */
  lemma SyncReplacesChapter(store: Store, projectId: string, chapterNumber: int, records: seq<ChunkRecord>)
    requires forall r :: r in records ==> r.projectId == projectId && r.chapterNumber == chapterNumber
    ensures var after := ApplyAll(store, [DeleteByChapters(projectId, [chapterNumber]), UpsertChunks(records)]);
      && (forall r :: r in records ==> r.id in after && after[r.id] in records)
      && (forall id :: id in after && after[id].projectId == projectId && after[id].chapterNumber == chapterNumber ==>
            after[id] in records)
      && (forall id ::
            (id in store && !(store[id].projectId == projectId && store[id].chapterNumber == chapterNumber)
             && (forall r :: r in records ==> r.id != id)) ==> id in after && after[id] == store[id])
  {
    var ops := [DeleteByChapters(projectId, [chapterNumber]), UpsertChunks(records)];
    var deleted := DeleteChapters(store, projectId, [chapterNumber]);
    assert ops[1..] == [UpsertChunks(records)];
    assert ops[1..][1..] == [];
    assert Apply(store, ops[0]) == deleted;
    assert ApplyAll(store, ops) == ApplyAll(deleted, [UpsertChunks(records)]);
    assert ApplyAll(deleted, [UpsertChunks(records)]) == ApplyAll(Upsert(deleted, records), []);
    UpsertStores(deleted, records);
  }

  // ------------------------------------------------------ failure dispatch

  /** How a sync failure reaches the client. */
  datatype SyncFailure = Http(error: HttpError) | OpenaiNameError

  /**
   * Lines 579-625 as written: an exception raised in the block is matched
   * against `openai.RateLimitError` first, and evaluating that name fails
   * because `openai` is not imported (lines 1-32). Whatever the block
   * raised, the client gets the resulting `NameError`.
   */
  function SyncFailureAsWritten(err: Option<HttpError>): Option<SyncFailure> {
    if err.Some? then Some(OpenaiNameError) else None
  }

  /** As intended: the block's own error reaches the client. */
  function SyncFailureIntended(err: Option<HttpError>): (f: Option<SyncFailure>)
    ensures f.Some? <==> err.Some?
    ensures err.Some? ==> f == Some(Http(err.value))
  {
    if err.Some? then Some(Http(err.value)) else None
  }

  /** Whatever error the block raises, the code as written reports a different one than intended. */
  lemma EveryErrorLost(err: Option<HttpError>)
    requires err.Some?
    ensures SyncFailureIntended(err) == Some(Http(err.value))
    ensures SyncFailureAsWritten(err) == Some(OpenaiNameError) != SyncFailureIntended(err)
  {
  }

  /**
   * Whenever a chapter has chunks and none of them can be embedded, the
   * sync raises its designed 500, and the code as written turns it into the
   * `NameError`.
   */
  lemma NothingEmbeddedLosesDesignedError(projectId: string, chapterNumber: int, chapterTitle: string, chunks: seq<string>,
                                          embed: string -> seq<real>)
    requires |chunks| > 0 && forall i :: 0 <= i < |chunks| ==> embed(chunks[i]) == []
    ensures var err := SyncError(|chunks|, |Records(projectId, chapterNumber, chapterTitle, chunks, embed, 0)|);
      && err == Some(SyncFailedError)
      && SyncFailureIntended(err) == Some(Http(SyncFailedError))
      && SyncFailureAsWritten(err) == Some(OpenaiNameError)
  {
    SyncWritesOrFails(projectId, chapterNumber, chapterTitle, chunks, embed);
  }
}
