/**
 Content fingerprints: the digest of a tag, the exact bytes, a NUL and the canonical metadata.

 Content may itself contain NULs; the framing still holds because the canonical metadata contains
 none, so the last NUL is the separator.
 */
module Fingerprint {
  import opened Basics
  import opened Text
  import opened Documents
  import opened Json
  import opened Python

  const BLOCK: nat := 1024 * 1024

  /** The ASCII bytes of "docpipe-ingestion-v1" and a NUL. */
  const TAG: Bytes := [100, 111, 99, 112, 105, 112, 101, 45, 105, 110, 103, 101, 115, 116, 105, 111, 110, 45, 118, 49, 0]

  /** The canonical text of metadata, unless it is refused. */
  function Canonical(metadata: Metadata): Option<Bytes> {
    if !IsMetadata(metadata) then None
    else match Serialize(Named(metadata))
      case None => None
      case Some(value) => Some(Utf8(Dump(false, value)))
  }

  /** The tag is the text it stands for, and a NUL. */
  lemma {:induction false} TagIsItsText()
    ensures |TAG| == |"docpipe-ingestion-v1"| + 1 && TAG[|TAG| - 1] == 0
    ensures forall i :: 0 <= i < |TAG| - 1 ==> TAG[i] as int == "docpipe-ingestion-v1"[i] as int
  {}

  function Preimage(content: Bytes, canonical: Bytes): Bytes {
    TAG + (content + ([0] + canonical))
  }

  function ContentFingerprint(content: Bytes, metadata: Metadata): Option<string> {
    match Canonical(metadata)
    case None => None
    case Some(canonical) => Some(HexDigest(Preimage(content, canonical)))
  }

  function ParsedMetadata(parsed: ParsedDocument): Metadata {
    map["format" := PyStr(parsed.format), "metadata" := Named(parsed.metadata)]
  }

  /** What is fingerprinted: the local file's bytes, or the parsed text when there is no such file. */
  function Content(file: Option<Bytes>, parsed: ParsedDocument): Bytes {
    if file.Some? then file.value else Utf8(parsed.text)
  }

  /** A local file is read block by block; anything else is digested whole. */
  method ParsedFingerprint(file: Option<Bytes>, parsed: ParsedDocument) returns (fingerprint: Option<string>)
    ensures fingerprint == ContentFingerprint(Content(file, parsed), ParsedMetadata(parsed))
  {
    hide Utf8, Canonical, ParsedMetadata;
    if file.None? { return ContentFingerprint(Utf8(parsed.text), ParsedMetadata(parsed)); }
    var fed, offset := TAG, 0;
    var block := file.value[..Min(BLOCK, |file.value|)];
    while block != []
      invariant 0 <= offset <= |file.value|
      invariant block == file.value[offset..Min(offset + BLOCK, |file.value|)]
      invariant fed == TAG + file.value[..offset]
      decreases |file.value| - offset
    {
      fed := fed + block;
      assert file.value[..offset] + block == file.value[..offset + |block|];
      Associate(TAG, file.value[..offset], block);
      offset := offset + |block|;
      block := file.value[offset..Min(offset + BLOCK, |file.value|)];
    }
    assert file.value[..offset] == file.value;
    fed := fed + [0];
    var canonical := Canonical(ParsedMetadata(parsed));
    if canonical.None? { return None; }
    Associate(TAG, file.value, [0]);
    Associate(file.value, [0], canonical.value);
    Associate(TAG, file.value + [0], canonical.value);
    fed := fed + canonical.value;
    fingerprint := Some(HexDigest(fed));
  }

  lemma CanonicalFacts(a: Metadata, b: Metadata)
    ensures Canonical(a).Some? <==> IsMetadata(a)
    ensures Canonical(a).Some? ==> 0 !in Canonical(a).value
    ensures IsMetadata(a) && IsMetadata(b) ==> (Canonical(a) == Canonical(b) <==> a == b)
  {
    hide Utf8, Dump, Serialize, Named, IsMetadata;
    if IsMetadata(a) {
      MetadataIsTold(a, a);
      var x := Serialize(Named(a)).value;
      NoControlCharacters(false, x, '\0');
      Utf8NulFree(Dump(false, x));
      if IsMetadata(b) {
        MetadataIsTold(b, b);
        MetadataIsTold(a, b);
        var y := Serialize(Named(b)).value;
        Utf8Unique(Dump(false, x), Dump(false, y));
        TextIsCanonical(false, x, y);
      }
    }
  }

  /** The last NUL splits: what follows it has none. */
  lemma LastNul(a: Bytes, x: Bytes, b: Bytes, y: Bytes)
    requires a + ([0] + x) == b + ([0] + y) && 0 !in x && 0 !in y
    ensures a == b && x == y
  {
    var whole := a + ([0] + x);
    assert whole[|a|] == 0 && whole[|b|] == 0;
    assert forall i :: |a| < i < |whole| ==> whole[i] == x[i - |a| - 1];
    assert forall i :: |b| < i < |whole| ==> whole[i] == y[i - |b| - 1];
    assert |a| == |b|;
    Cut(a, [0] + x, b, [0] + y);
    assert b[|a|..] + ([0] + y) == [0] + y;
    assert ([0] + x)[1..] == x && ([0] + y)[1..] == y;
  }

  /**
   * There is a fingerprint exactly when the metadata is JSON, and two contents have one fingerprint
   * exactly when their bytes and their metadata are equal.
   */
  lemma {:induction false} FingerprintsAreExact(content: Bytes, metadata: Metadata, other: Bytes, values: Metadata)
    ensures ContentFingerprint(content, metadata).Some? <==> IsMetadata(metadata)
    ensures IsMetadata(metadata) && IsMetadata(values) ==>
              (ContentFingerprint(content, metadata) == ContentFingerprint(other, values)
               <==> content == other && metadata == values)
  {
    hide Canonical, TAG, HexDigest, IsMetadata;
    CanonicalFacts(metadata, values);
    CanonicalFacts(values, metadata);
    if IsMetadata(metadata) && IsMetadata(values) {
      var c, d := Canonical(metadata).value, Canonical(values).value;
      DigestUnique(Preimage(content, c), Preimage(other, d));
      if Preimage(content, c) == Preimage(other, d) {
        Cut(TAG, content + ([0] + c), TAG, other + ([0] + d));
        assert TAG[|TAG|..] + (other + ([0] + d)) == other + ([0] + d);
        LastNul(content, c, other, d);
      }
    }
  }

  lemma ParsedMetadataFacts(parsed: ParsedDocument, again: ParsedDocument)
    ensures IsMetadata(ParsedMetadata(parsed)) <==> IsMetadata(parsed.metadata)
    ensures IsMetadata(parsed.metadata) && IsMetadata(again.metadata) ==>
              (ParsedMetadata(parsed) == ParsedMetadata(again) <==>
               parsed.format == again.format && parsed.metadata == again.metadata)
  {
    NamedIsJson(parsed.metadata);
    hide Named, Serialize;
    var a, b := ParsedMetadata(parsed), ParsedMetadata(again);
    assert |"format"| != |"metadata"|;
    assert a["format"] == PyStr(parsed.format) && b["format"] == PyStr(again.format);
    assert a["metadata"] == Named(parsed.metadata) && b["metadata"] == Named(again.metadata);
    if IsMetadata(parsed.metadata) && IsMetadata(again.metadata) { MetadataIsTold(parsed.metadata, again.metadata); }
  }

  /**
   * Two parses have one fingerprint exactly when format, metadata and fingerprinted bytes agree; so a
   * local file and a text that is its decoding are recognised as the same content.
   */
  lemma {:induction false} ParsesAreTold(file: Option<Bytes>, parsed: ParsedDocument, other: Option<Bytes>, again: ParsedDocument)
    requires IsMetadata(parsed.metadata) && IsMetadata(again.metadata)
    ensures ContentFingerprint(Content(file, parsed), ParsedMetadata(parsed))
            == ContentFingerprint(Content(other, again), ParsedMetadata(again))
            <==> && Content(file, parsed) == Content(other, again)
                 && parsed.format == again.format && parsed.metadata == again.metadata
  {
    hide ContentFingerprint, Content, ParsedMetadata, IsMetadata;
    ParsedMetadataFacts(parsed, again);
    ParsedMetadataFacts(again, parsed);
    FingerprintsAreExact(Content(file, parsed), ParsedMetadata(parsed), Content(other, again), ParsedMetadata(again));
  }

  // ---------------------------------------------------------------- skipping duplicates

  datatype FailureMode = FailClosed | LegacyBestEffort

  datatype Lookup = Found(present: bool) | LookupFailed

  datatype Decision = Skip | Ingest | StateError

  function Decide(mode: FailureMode, lookup: Lookup): Decision {
    match lookup
    case Found(present) => if present then Skip else Ingest
    case LookupFailed => if mode.LegacyBestEffort? then Ingest else StateError
  }

  datatype Input = Input(content: Bytes, metadata: Metadata)

  function FingerprintOf(input: Input): Option<string> {
    ContentFingerprint(input.content, input.metadata)
  }

  /**
   * Against a store whose records carry the fingerprints of earlier inputs, an ingestion is skipped
   * exactly when the lookup worked and one of those inputs was equal. A failed lookup never skips.
   */
  lemma {:induction false} SkipMeansSameInput(mode: FailureMode, earlier: seq<Input>, stored: set<Option<string>>, input: Input, works: bool)
    requires stored == set i | 0 <= i < |earlier| :: FingerprintOf(earlier[i])
    requires IsMetadata(input.metadata) && forall i :: 0 <= i < |earlier| ==> IsMetadata(earlier[i].metadata)
    ensures var lookup := if works then Found(FingerprintOf(input) in stored) else LookupFailed;
            && (Decide(mode, lookup).Skip? <==> works && input in earlier)
            && (Decide(mode, lookup).StateError? <==> !works && mode.FailClosed?)
  {
    hide ContentFingerprint, IsMetadata;
    forall i | 0 <= i < |earlier| ensures FingerprintOf(earlier[i]) == FingerprintOf(input) <==> earlier[i] == input {
      FingerprintsAreExact(earlier[i].content, earlier[i].metadata, input.content, input.metadata);
    }
    if input in earlier {
      var i :| 0 <= i < |earlier| && earlier[i] == input;
      assert FingerprintOf(earlier[i]) in stored;
    }
  }
}
