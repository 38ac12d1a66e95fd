/**
 Taking chunks back from a foreign chunker and naming them.

 The chunker is handed each document's identity in two metadata fields and may return anything. The
 adapter removes those fields, numbers the chunks across the whole call, and names each by parent,
 number and text. Chunks named this way have the distinct identifiers that concurrent writing needs.
 */
module Chunking {
  import opened Basics
  import opened Text
  import opened Documents
  import opened Identity
  import opened Python
  import Ingestion
  import Outcome
  import VectorStore

  const PARENT_ID := "_docpipe_parent_id"
  const SOURCE_ID := "_docpipe_source_id"

  datatype LegacyChunk = LegacyChunk(content: string, metadata: Metadata)

  function Popped(metadata: Metadata, key: string): PyValue {
    if key in metadata then metadata[key] else PyStr("")
  }

  function ParentOf(chunk: LegacyChunk): PyValue {
    Popped(chunk.metadata, PARENT_ID)
  }

  function SourceOf(chunk: LegacyChunk): PyValue {
    Popped(chunk.metadata - {PARENT_ID}, SOURCE_ID)
  }

  /** The chunk at a position of the chunker's result, if it can be named. */
  function Normalized(chunk: LegacyChunk, ordinal: nat): Result<Document, IdentityError> {
    var (parent, source) := (ParentOf(chunk), SourceOf(chunk));
    if !parent.PyStr? || !source.PyStr? then Err(NotText)
    else if IsBlank(source.text) then Err(Blank)
    else if !IsMetadata(chunk.metadata - {PARENT_ID} - {SOURCE_ID}) then Err(Unsupported)
    else
      Ok(Document(ChunkId(parent.text, ordinal, chunk.content), chunk.content,
                  chunk.metadata - {PARENT_ID} - {SOURCE_ID}, source.text))
  }

  /** Every chunk is named, or the first that cannot be is reported. */
  method Split(chunks: seq<LegacyChunk>) returns (result: Result<seq<Document>, IdentityError>)
    ensures result.Ok? ==> |result.value| == |chunks|
    ensures result.Ok? ==> forall i :: 0 <= i < |chunks| ==> Normalized(chunks[i], i) == Ok(result.value[i])
    ensures result.Ok? ==> forall i :: 0 <= i < |chunks| ==> TellsChunk(result.value[i], i, chunks[i])
    ensures result.Err? ==> exists i :: 0 <= i < |chunks| && Normalized(chunks[i], i) == Err(result.error)
                                        && forall j :: 0 <= j < i ==> Normalized(chunks[j], j).Ok?
  {
    hide Framed, Utf8, HexDigest, IsBlank, Decimal, IsMetadata;
    var normalized: seq<Document> := [];
    for ordinal := 0 to |chunks|
      invariant |normalized| == ordinal
      invariant forall i :: 0 <= i < ordinal ==> Normalized(chunks[i], i) == Ok(normalized[i])
    {
      var chunk := chunks[ordinal];
      var metadata := chunk.metadata;
      var parent := Popped(metadata, PARENT_ID);
      metadata := metadata - {PARENT_ID};
      var source := Popped(metadata, SOURCE_ID);
      metadata := metadata - {SOURCE_ID};
      if !parent.PyStr? || !source.PyStr? {
        assert Normalized(chunks[ordinal], ordinal) == Err(NotText);
        return Err(NotText);
      }
      var id := DigestFields(ChunkFields(parent.text, ordinal, chunk.content));
      if IsBlank(source.text) {
        assert Normalized(chunks[ordinal], ordinal) == Err(Blank);
        return Err(Blank);
      }
      if !IsMetadata(metadata) {
        assert Normalized(chunks[ordinal], ordinal) == Err(Unsupported);
        return Err(Unsupported);
      }
      normalized := normalized + [Document(id, chunk.content, metadata, source.text)];
    }
    forall i | 0 <= i < |chunks| ensures TellsChunk(normalized[i], i, chunks[i]) { NormalizedTells(chunks[i], i); }
    result := Ok(normalized);
  }

  /** What a metadata field says, and nothing if it is missing. */
  ghost predicate Says(metadata: Metadata, key: string, text: string) {
    if key in metadata then metadata[key] == PyStr(text) else text == ""
  }

  /** The named chunk says what the chunker returned, without the two identity fields, and is named after them. */
  ghost predicate TellsChunk(d: Document, ordinal: nat, chunk: LegacyChunk) {
    && d.text == chunk.content
    && Says(chunk.metadata, "_docpipe_source_id", d.source) && !IsBlank(d.source)
    && (forall key :: key in d.metadata <==> key in chunk.metadata && key != "_docpipe_parent_id" && key != "_docpipe_source_id")
    && (forall key :: key in d.metadata ==> d.metadata[key] == chunk.metadata[key])
    && exists parent :: Says(chunk.metadata, "_docpipe_parent_id", parent) && d.id == Name([parent, Decimal(ordinal), chunk.content])
  }

  lemma NormalizedTells(chunk: LegacyChunk, ordinal: nat)
    requires Normalized(chunk, ordinal).Ok?
    ensures TellsChunk(Normalized(chunk, ordinal).value, ordinal, chunk)
  {
    hide Name, Decimal, IsBlank, IsMetadata;
    assert "_docpipe_parent_id"[9] != "_docpipe_source_id"[9];
    assert Says(chunk.metadata, "_docpipe_parent_id", ParentOf(chunk).text);
  }

  /** A chunk that cannot be named has an identity that is no text, a blank source, or metadata that is not JSON. */
  lemma {:induction false} RefusalsAreExact(chunk: LegacyChunk, ordinal: nat)
    ensures Normalized(chunk, ordinal) == Err(NotText) <==>
              || ("_docpipe_parent_id" in chunk.metadata && !chunk.metadata["_docpipe_parent_id"].PyStr?)
              || ("_docpipe_source_id" in chunk.metadata && !chunk.metadata["_docpipe_source_id"].PyStr?)
    ensures Normalized(chunk, ordinal).Err? && Normalized(chunk, ordinal) != Err(NotText) ==>
              (Normalized(chunk, ordinal) == Err(Blank) <==> exists source :: Says(chunk.metadata, "_docpipe_source_id", source) && IsBlank(source))
  {
    hide Name, Decimal, IsBlank, IsMetadata;
    assert "_docpipe_parent_id"[9] != "_docpipe_source_id"[9];
    if SourceOf(chunk).PyStr? { assert Says(chunk.metadata, "_docpipe_source_id", SourceOf(chunk).text); }
  }

  ghost predicate IsSplit(chunks: seq<LegacyChunk>, documents: seq<Document>) {
    && |documents| == |chunks|
    && forall i :: 0 <= i < |chunks| ==> Normalized(chunks[i], i) == Ok(documents[i])
  }

  /** No chunk's parent can be misread as another's parent and ordinal. */
  ghost predicate ParentsApart(chunks: seq<LegacyChunk>) {
    forall i, j :: 0 <= i < |chunks| && 0 <= j < |chunks| && ParentOf(chunks[i]).PyStr? && ParentOf(chunks[j]).PyStr? ==>
      !Extends(ParentOf(chunks[i]).text, ParentOf(chunks[j]).text)
  }

  /** Chunks get distinct identifiers even when their texts and parents repeat. */
  lemma ChunksAreDistinct(chunks: seq<LegacyChunk>, documents: seq<Document>)
    requires IsSplit(chunks, documents) && ParentsApart(chunks)
    ensures forall i, j :: 0 <= i < j < |documents| ==> documents[i].id != documents[j].id
  {
    hide Extends, IsBlank, ChunkId;
    forall i, j | 0 <= i < j < |documents| ensures documents[i].id != documents[j].id {
      assert Normalized(chunks[i], i).Ok? && Normalized(chunks[j], j).Ok?;
      ChunkNamesAreUniqueIff(ParentOf(chunks[i]).text, ParentOf(chunks[j]).text);
    }
  }

  /** The chunker passed on the identity it was given, or dropped it. */
  ghost predicate PassesIdentity(documents: seq<Document>, chunks: seq<LegacyChunk>) {
    forall chunk :: chunk in chunks ==> PassedOn(documents, chunk)
  }

  ghost predicate PassedOn(documents: seq<Document>, chunk: LegacyChunk) {
    ParentOf(chunk) == PyStr("") || exists d :: d in documents && ParentOf(chunk) == PyStr(d.id)
  }

  lemma NamesAreNulFree(fields: seq<string>)
    ensures '\0' !in Name(fields)
  {}

  /** A name has no white space for a record to strip. */
  lemma NamesAreStripped(fields: seq<string>)
    ensures Strip(Name(fields)) == Name(fields)
  {
    var name := Name(fields);
    assert forall i :: 0 <= i < |name| ==> IsHex(name[i]) && !IsSpace(name[i]);
  }

  lemma IdentityKeepsParentsApart(
      mode: Mode, parsed: ParsedDocument, extractions: seq<Extraction>, documents: seq<Document>, chunks: seq<LegacyChunk>)
    requires Build(mode, parsed, extractions) == Ok(documents) && PassesIdentity(documents, chunks)
    ensures ParentsApart(chunks)
  {
    hide Framed, Name, IsBlank, Extends, Utf8;
    forall i, j | 0 <= i < |chunks| && 0 <= j < |chunks| && ParentOf(chunks[i]).PyStr? && ParentOf(chunks[j]).PyStr?
      ensures !Extends(ParentOf(chunks[i]).text, ParentOf(chunks[j]).text)
    {
      var parent := ParentOf(chunks[j]).text;
      assert '\0' !in parent by {
        assert PassedOn(documents, chunks[j]);
        if parent != "" {
          var d :| d in documents && parent == d.id;
          var k :| 0 <= k < |documents| && documents[k] == d;
          var e := AllEntries(mode, parsed, extractions)[k];
          NamesAreNulFree(DocumentFields(parsed.source, e.kind, e.ordinal, e.text));
        }
      }
      NulFreeExtendsNothing(ParentOf(chunks[i]).text, parent);
    }
  }

  // ---------------------------------------------------------------- what writing gains

  /**
   * The plan writes the chunks of one parse under the names the adapter gave them, after any chunker
   * that passes identities on; metadata and text may have been added to since.
   */
  ghost predicate FromAdapter(parsed: ParsedDocument, documents: seq<Document>, chunks: seq<LegacyChunk>, plan: Ingestion.Plan) {
    && (exists mode, extractions :: Build(mode, parsed, extractions) == Ok(documents))
    && PassesIdentity(documents, chunks)
    && |plan.chunks| == |chunks|
    && forall i :: 0 <= i < |chunks| ==> Normalized(chunks[i], i).Ok? && plan.chunks[i].id == Normalized(chunks[i], i).value.id
  }

  lemma AdapterChunksAreDistinct(parsed: ParsedDocument, documents: seq<Document>, chunks: seq<LegacyChunk>, plan: Ingestion.Plan)
    requires FromAdapter(parsed, documents, chunks, plan)
    ensures Outcome.DistinctIds(plan.chunks)
  {
    hide Build, Normalized, PassesIdentity, ParentsApart, Strip;
    var mode, extractions :| Build(mode, parsed, extractions) == Ok(documents);
    IdentityKeepsParentsApart(mode, parsed, extractions, documents, chunks);
    var split := seq(|chunks|, i requires 0 <= i < |chunks| => Normalized(chunks[i], i).value);
    ChunksAreDistinct(chunks, split);
    forall i | 0 <= i < |chunks| ensures Outcome.Names(plan.chunks)[i] == split[i].id { AdapterNameIsStripped(chunks[i], i); }
  }

  lemma AdapterNameIsStripped(chunk: LegacyChunk, ordinal: nat)
    requires Normalized(chunk, ordinal).Ok?
    ensures Strip(Normalized(chunk, ordinal).value.id) == Normalized(chunk, ordinal).value.id
  {
    hide Strip, Name, IsBlank, IsMetadata;
    NamesAreStripped(ChunkFields(ParentOf(chunk).text, ordinal, chunk.content));
  }

  /**
   * End to end: when the chunks come from the adapter, every interleaving of the concurrent writes
   * that ends in success stores what upserting the chunks in order would, and counts them all; a new
   * collection gets one record for each.
   */
  lemma {:induction false} AdapterRunsAreConfluent(
      parsed: ParsedDocument, documents: seq<Document>, chunks: seq<LegacyChunk>,
      plan: Ingestion.Plan, base: VectorStore.Store, run: seq<Ingestion.State>)
    requires FromAdapter(parsed, documents, chunks, plan)
    requires plan.Valid() && VectorStore.WellFormed(base)
    requires Ingestion.IsRun(plan, base, run) && run[|run| - 1].stage.Succeeded?
    ensures run[|run| - 1].store == Outcome.InOrder(plan, base)
    ensures run[|run| - 1].stage.total == |chunks|
    ensures plan.collection !in base.collections ==>
              |VectorStore.RecordsOf(run[|run| - 1].store, plan.collection)| == |chunks|
  {
    hide FromAdapter, Outcome.InOrder, VectorStore.WellFormed, Ingestion.IsRun, Outcome.DistinctIds;
    AdapterChunksAreDistinct(parsed, documents, chunks, plan);
    Outcome.SuccessAgrees(plan, base, run);
    Outcome.Confluence(plan, base, run);
    Outcome.CountIsExactIff(plan, base, run);
    assert |plan.chunks| == |chunks| by { FromAdapterLength(parsed, documents, chunks, plan); }
  }

  lemma FromAdapterLength(parsed: ParsedDocument, documents: seq<Document>, chunks: seq<LegacyChunk>, plan: Ingestion.Plan)
    requires FromAdapter(parsed, documents, chunks, plan)
    ensures |plan.chunks| == |chunks|
  {}
}
