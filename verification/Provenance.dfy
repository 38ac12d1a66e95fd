/**
 What ingestion stores, told from its chunks and from what the encoder answered alone: each record put
 is one chunk with the vector answered for it, and after a success each chunk is found that way.
 */
module Provenance {
  import opened Basics
  import opened Ingestion
  import opened Linearization
  import opened Outcome
  import opened Text
  import opened Upserts
  import opened VectorStore

  // ---------------------------------------------------------------- which batch a chunk is in

  lemma SliceOfRest(chunks: seq<Chunk>, size: nat, offset: nat)
    requires size <= |chunks| && offset <= |chunks| - size
    ensures chunks[size..][offset..Min(offset + size, |chunks| - size)] == chunks[offset + size..Min(offset + size + size, |chunks|)]
  {}

  lemma OneMore(i: nat, size: nat)
    requires i > 0
    ensures i * size == (i - 1) * size + size
  {}

  /** Batch `i` is the chunks from `i` times the size on, as many as the size or as there are. */
  lemma {:induction false} BatchIsSlice(chunks: seq<Chunk>, size: nat, i: nat)
    requires 1 <= size
    ensures i < |Batches(chunks, size)| <==> i * size < |chunks|
    ensures i < |Batches(chunks, size)| ==>
              Batches(chunks, size)[i] == chunks[i * size..Min(i * size + size, |chunks|)]
    decreases |chunks|
  {
    if i > 0 { OneMore(i, size); }
    if |chunks| > size && i > 0 {
      BatchIsSlice(chunks[size..], size, i - 1);
      var offset := (i - 1) * size;
      assert Batches(chunks, size) == [chunks[..size]] + Batches(chunks[size..], size);
      if offset + size < |chunks| { SliceOfRest(chunks, size, offset); }
    }
  }

  /** The texts sent to the encoder with a batch. */
  ghost predicate AreTexts(plan: Plan, i: nat, texts: seq<string>) {
    && i * plan.batchSize + |texts| == Min(i * plan.batchSize + plan.batchSize, |plan.chunks|)
    && forall j :: 0 <= j < |texts| ==> texts[j] == plan.chunks[i * plan.batchSize + j].text
  }

  /** Chunk `c`, encoded with its batch. */
  ghost predicate IsRecordOf(plan: Plan, c: nat, r: Record)
    requires 1 <= plan.batchSize
  {
    && c < |plan.chunks|
    && r.id == Strip(plan.chunks[c].id)
    && r.text == plan.chunks[c].text
    && r.metadata == plan.chunks[c].metadata
    && r.source == Some(Strip(plan.chunks[c].source))
    && exists texts :: AreTexts(plan, c / plan.batchSize, texts)
         && c % plan.batchSize < |plan.encode(c / plan.batchSize, texts)|
         && r.vector == plan.encode(c / plan.batchSize, texts)[c % plan.batchSize]
  }

  lemma DivMod(i: nat, size: nat, k: nat)
    requires k < size
    ensures (i * size + k) / size == i && (i * size + k) % size == k
  {
    var n := i * size + k;
    assert (n / size - i) * size == k - n % size;
    AtLeastOne(n / size - i, size);
  }

  lemma AtLeastOne(d: int, size: nat)
    ensures d >= 1 ==> d * size >= size
    ensures d <= -1 ==> d * size + size <= 0
  {
    if d >= 1 { assert d * size == (d - 1) * size + size; }
    if d <= -1 { assert d * size == (d + 1) * size - size; }
  }

  /** A record of a batch is that of the chunk at its place. */
  lemma BatchRecord(plan: Plan, i: nat, k: nat) returns (c: nat)
    requires plan.Valid() && i < BatchCount(plan) && k < |RecordsOfBatch(plan, i)|
    ensures c == i * plan.batchSize + k && IsRecordOf(plan, c, RecordsOfBatch(plan, i)[k])
  {
    hide Batches, Strip, ToRecord, Texts, RecordsOfBatch;
    var texts, r := Texts(Batch(plan, i)), RecordsOfBatch(plan, i)[k];
    c := i * plan.batchSize + k;
    EncodedRecord(plan, i, k);
    BatchIsSlice(plan.chunks, plan.batchSize, i);
    DivMod(i, plan.batchSize, k);
    assert AreTexts(plan, i, texts) by { SentTexts(plan, i); }
    assert r == ToRecord(plan.chunks[c], plan.encode(i, texts)[k]);
    RecordTellsChunk(plan.chunks[c], plan.encode(i, texts)[k]);
  }

  lemma EncodedRecord(plan: Plan, i: nat, k: nat)
    requires plan.Valid() && i < BatchCount(plan) && k < |RecordsOfBatch(plan, i)|
    ensures |RecordsOfBatch(plan, i)| == |Batch(plan, i)| == |plan.encode(i, Texts(Batch(plan, i)))|
    ensures RecordsOfBatch(plan, i)[k] == ToRecord(Batch(plan, i)[k], plan.encode(i, Texts(Batch(plan, i)))[k])
  {
    hide Batches, ToRecord, Texts;
  }

  lemma SentTexts(plan: Plan, i: nat)
    requires plan.Valid() && i < BatchCount(plan)
    ensures AreTexts(plan, i, Texts(Batch(plan, i)))
  {
    hide Batches;
    BatchIsSlice(plan.chunks, plan.batchSize, i);
  }

  lemma RecordTellsChunk(chunk: Chunk, vector: seq<real>)
    ensures var r := ToRecord(chunk, vector);
            && r.id == Strip(chunk.id) && r.text == chunk.text && r.metadata == chunk.metadata
            && r.source == Some(Strip(chunk.source)) && r.vector == vector
  {}

  /** Every record a run puts, even one that fails, is the record of a chunk. */
  lemma {:induction false} EveryRecordIsAChunk(plan: Plan, base: Store, run: seq<State>, r: Record)
    requires plan.Valid() && WellFormed(base) && IsRun(plan, base, run) && r in run[|run| - 1].log
    ensures exists c: nat :: IsRecordOf(plan, c, r)
  {
    hide IsRecordOf, RecordsOfBatch, Batches, Encoded, Put, Init, StepAt;
    RunKeepsInv(plan, base, run);
    assert Intended(plan, r);
    var i: nat :| i < BatchCount(plan) && r in RecordsOfBatch(plan, i);
    var k :| 0 <= k < |RecordsOfBatch(plan, i)| && RecordsOfBatch(plan, i)[k] == r;
    var c := BatchRecord(plan, i, k);
  }

  /** So in every reachable state a stored record is an old one or that of a chunk under its own identifier. */
  lemma {:induction false} StoredIsOldOrAChunk(plan: Plan, base: Store, run: seq<State>, id: string)
    requires plan.Valid() && WellFormed(base) && IsRun(plan, base, run)
    requires id in RecordsOf(run[|run| - 1].store, plan.collection)
    ensures var (before, after) := (RecordsOf(base, plan.collection), RecordsOf(run[|run| - 1].store, plan.collection));
            || (id in before && after[id] == before[id])
            || (after[id].id == id && exists c: nat :: IsRecordOf(plan, c, after[id]))
  {
    hide IsRecordOf, RecordsOfBatch, Batches, Encoded, Put, LastOf, Init, StepAt;
    var s := run[|run| - 1];
    RunKeepsInv(plan, base, run);
    PutIsLast(RecordsOf(base, plan.collection), s.log, id);
    LastOfIn(s.log, id);
    if LastOf(s.log, id).Some? { EveryRecordIsAChunk(plan, base, run, LastOf(s.log, id).value); }
  }

  /** After a success with distinct stripped identifiers, each chunk is stored as itself. */
  lemma {:induction false} EveryChunkIsStored(plan: Plan, base: Store, run: seq<State>, c: nat)
    requires plan.Valid() && WellFormed(base) && DistinctIds(plan.chunks) && c < |plan.chunks|
    requires IsRun(plan, base, run) && run[|run| - 1].stage.Succeeded?
    ensures var records := RecordsOf(run[|run| - 1].store, plan.collection);
            Strip(plan.chunks[c].id) in records && IsRecordOf(plan, c, records[Strip(plan.chunks[c].id)])
  {
    hide IsRecordOf, RecordsOfBatch, Batches, Encoded, Put, LastOf, AllRecords, Init, StepAt, Strip, Distinct;
    var s, id := run[|run| - 1], Strip(plan.chunks[c].id);
    RunKeepsInv(plan, base, run);
    LogIsComplete(plan, base, s);
    var r, i := ChunkIsIntended(plan, c);
    assert Intended(plan, r) && r in s.log;
    LastOfIn(s.log, id);
    assert r.id == id by { IdOf(plan, c, r); }
    PutIsLast(RecordsOf(base, plan.collection), s.log, id);
    var last := LastOf(s.log, id).value;
    EveryRecordIsAChunk(plan, base, run, last);
    var d: nat :| IsRecordOf(plan, d, last);
    assert last.id == Strip(plan.chunks[d].id) && d < |plan.chunks| by { IdOf(plan, d, last); }
    assert d == c by { SameName(plan.chunks, c, d); }
  }

  lemma IdOf(plan: Plan, c: nat, r: Record)
    requires 1 <= plan.batchSize && IsRecordOf(plan, c, r)
    ensures c < |plan.chunks| && r.id == Strip(plan.chunks[c].id)
  {}

  lemma SameName(chunks: seq<Chunk>, c: nat, d: nat)
    requires DistinctIds(chunks) && c < |chunks| && d < |chunks| && Strip(chunks[c].id) == Strip(chunks[d].id)
    ensures c == d
  {
    assert Names(chunks)[c] == Names(chunks)[d];
  }

  lemma ChunkIsIntended(plan: Plan, c: nat) returns (r: Record, i: nat)
    requires plan.Valid() && AllEncoded(plan) && c < |plan.chunks|
    ensures i < BatchCount(plan) && r in RecordsOfBatch(plan, i) && IsRecordOf(plan, c, r)
  {
    hide Batches, IsRecordOf, Strip;
    var size := plan.batchSize;
    i := c / size;
    var k := c % size;
    assert c == i * size + k;
    BatchIsSlice(plan.chunks, size, i);
    assert |RecordsOfBatch(plan, i)| == |Batch(plan, i)|;
    r := RecordsOfBatch(plan, i)[k];
    var place := BatchRecord(plan, i, k);
  }
}
