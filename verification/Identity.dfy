/**
 How documents, chunks and contents are named.

 A record identifier is the digest of text fields, each followed by a NUL. The lemmas say exactly
 when that framing tells two records apart, that the documents and chunks of one ingestion are told
 apart, and that a content fingerprint is determined by, and determines, content and metadata.
 */
module Identity {
  import opened Basics
  import opened Text
  import opened Documents
  import opened Json
  import opened Python

  const NUL := "\0"

  // ---------------------------------------------------------------- framing

  function Framed(fields: seq<string>): string {
    if fields == [] then "" else fields[0] + (NUL + Framed(fields[1..]))
  }

  function Name(fields: seq<string>): string {
    HexDigest(Utf8(Framed(fields)))
  }

  /** The digest is fed each field's bytes and a NUL byte in turn. */
  method DigestFields(fields: seq<string>) returns (id: string)
    ensures id == Name(fields)
  {
    var fed: Bytes := [];
    for i := 0 to |fields|
      invariant fed + Utf8(Framed(fields[i..])) == Utf8(Framed(fields))
    {
      FrameBytes(fields[i..]);
      assert fields[i..][1..] == fields[i + 1..];
      Associate(fed, Utf8(fields[i]), [0 as byte] + Utf8(Framed(fields[i + 1..])));
      fed := fed + Utf8(fields[i]);
      Associate(fed, [0 as byte], Utf8(Framed(fields[i + 1..])));
      fed := fed + [0];
    }
    assert fed == Utf8(Framed(fields));
    id := HexDigest(fed);
  }

  lemma FrameBytes(fields: seq<string>)
    requires fields != []
    ensures Utf8(Framed(fields)) == Utf8(fields[0]) + ([0] + Utf8(Framed(fields[1..])))
  {
    EncodeConcat(Utf8Char, fields[0], NUL + Framed(fields[1..]));
    EncodeConcat(Utf8Char, NUL, Framed(fields[1..]));
    assert Utf8Char('\0') == [0];
    assert NUL[1..] == "";
    assert Encode(Utf8Char, NUL) == [0];
  }

  lemma NamesFrames(a: seq<string>, b: seq<string>)
    ensures Name(a) == Name(b) <==> Framed(a) == Framed(b)
  {
    DigestUnique(Utf8(Framed(a)), Utf8(Framed(b)));
    Utf8Unique(Framed(a), Framed(b));
  }

  /** A NUL-free field ends where the other does, or the other goes on past it. */
  lemma FieldSplit(a: string, x: string, b: string, y: string)
    requires '\0' !in a && a + (NUL + x) == b + (NUL + y)
    ensures (b == a && x == y) || (a + NUL <= b && x == b[|a| + 1..] + (NUL + y))
  {
    var whole := a + (NUL + x);
    assert whole[|b|] == '\0';
    assert |a| <= |b|;
    SkipCommon(a, x, b, y);
    if |a| < |b| { assert b == (a + NUL) + b[|a| + 1..]; }
  }

  lemma SkipCommon(p: string, x: string, q: string, y: string)
    requires |p| <= |q| && p + (NUL + x) == q + (NUL + y)
    ensures p <= q
    ensures |p| == |q| ==> x == y
    ensures |p| < |q| ==> q == p + (NUL + q[|p| + 1..]) && x == q[|p| + 1..] + (NUL + y)
  {
    Cut(p, NUL + x, q, NUL + y);
    assert (NUL + x)[1..] == x && (NUL + y)[1..] == y;
    if |p| == |q| {
      assert q[|p|..] + (NUL + y) == NUL + y;
    } else {
      assert (NUL + x)[0] == (q[|p|..] + (NUL + y))[0];
      assert (q[|p|..] + (NUL + y))[1..] == q[|p| + 1..] + (NUL + y);
    }
  }

  /** Of two NUL-free fields neither goes on past the other. */
  lemma FieldsEqual(a: string, x: string, b: string, y: string)
    requires '\0' !in a && '\0' !in b && a + (NUL + x) == b + (NUL + y)
    ensures a == b && x == y
  {
    FieldSplit(a, x, b, y);
    NotInside(a, "", b);
    assert NUL + "" == NUL;
  }

  lemma NotInside(p: string, x: string, q: string)
    requires '\0' !in q
    ensures !(p + (NUL + x) <= q)
  {
    assert (p + (NUL + x))[|p|] == '\0';
  }

  lemma NumeralIsNulFree(n: int)
    ensures '\0' !in Signed(n)
  {
    hide Decimal;
    var text := Signed(n);
    forall i | 0 <= i < |text| ensures text[i] != '\0' {
      if n < 0 && i > 0 { assert text[i] == Decimal(-n)[i - 1]; }
    }
  }

  // ---------------------------------------------------------------- chunk identifiers

  function ChunkFields(parent: string, ordinal: nat, text: string): seq<string> {
    [parent, Decimal(ordinal), text]
  }

  function ChunkId(parent: string, ordinal: nat, text: string): string {
    Name(ChunkFields(parent, ordinal, text))
  }

  lemma ChunkLine(p: string, n: nat, t: string)
    ensures Framed(ChunkFields(p, n, t)) == p + (NUL + (Decimal(n) + (NUL + (t + (NUL + "")))))
  {
    hide Decimal;
    var d := Decimal(n);
    assert [p, d, t][1..] == [d, t] && [d, t][1..] == [t] && [t][1..] == [];
    assert Framed([t]) == t + (NUL + "");
    assert Framed([d, t]) == d + (NUL + Framed([t]));
  }

  /** `q` is `p`, a NUL and a numeral, alone or with more fields after it. */
  ghost predicate Extends(p: string, q: string) {
    exists n: nat :: ExtendsWith(p, Decimal(n), q)
  }

  predicate ExtendsWith(p: string, middle: string, q: string) {
    p + (NUL + middle) == q || p + (NUL + (middle + NUL)) <= q
  }

  lemma NulFreeExtendsNothing(p: string, q: string)
    requires '\0' !in q
    ensures !Extends(p, q)
  {
    hide Decimal, ExtendsWith;
    forall n: nat ensures !ExtendsWith(p, Decimal(n), q) { NotExtended(p, Decimal(n), q); }
  }

  lemma NotExtended(p: string, middle: string, q: string)
    requires '\0' !in q || p == q
    ensures !ExtendsWith(p, middle, q)
  {
    assert |p + (NUL + middle)| > |p| && |p + (NUL + (middle + NUL))| > |p|;
    if '\0' !in q {
      NotInside(p, middle, q);
      NotInside(p, middle + NUL, q);
    }
  }

  /** Equal names of chunks whose first parent is no longer than the second. */
  lemma ShorterParent(p: string, n: nat, t: string, q: string, m: nat, u: string)
    requires |p| <= |q| && ChunkId(p, n, t) == ChunkId(q, m, u)
    ensures (p == q && n == m && t == u) || Extends(p, q)
  {
    hide Framed, Decimal, Utf8, HexDigest;
    NamesFrames(ChunkFields(p, n, t), ChunkFields(q, m, u));
    ChunkLine(p, n, t);
    ChunkLine(q, m, u);
    var x, y := Decimal(n) + (NUL + (t + (NUL + ""))), Decimal(m) + (NUL + (u + (NUL + "")));
    SkipCommon(p, x, q, y);
    NumeralIsNulFree(n);
    if p == q {
      NumeralIsNulFree(m);
      FieldsEqual(Decimal(n), t + (NUL + ""), Decimal(m), u + (NUL + ""));
      NumberOfDecimal(n);
      NumberOfDecimal(m);
      assert t == (t + (NUL + ""))[..|t|] && u == (u + (NUL + ""))[..|u|];
    } else {
      var w := q[|p| + 1..];
      FieldSplit(Decimal(n), t + (NUL + ""), w, y);
      assert q == p + (NUL + w);
      assert ExtendsWith(p, Decimal(n), q);
    }
  }

  /** Two different chunks with one name, whenever one parent extends the other. */
  lemma ExtendedParentCollides(p: string, q: string) returns (n: nat, t: string)
    requires Extends(p, q)
    ensures p != q && ChunkId(p, n, t) == ChunkId(q, 0, "")
  {
    hide Framed, Utf8, HexDigest, Decimal, ExtendsWith;
    n :| ExtendsWith(p, Decimal(n), q);
    t := Completing(p, Decimal(n), q, Decimal(0) + NUL);
    ChunkLine(p, n, t);
    ChunkLine(q, 0, "");
    NamesFrames(ChunkFields(p, n, t), ChunkFields(q, 0, ""));
  }

  /** A text that makes the shorter line read like the longer one. */
  lemma Completing(p: string, middle: string, q: string, tail: string) returns (t: string)
    requires ExtendsWith(p, middle, q)
    ensures p != q && p + (NUL + (middle + (NUL + (t + (NUL + ""))))) == q + (NUL + (tail + NUL))
  {
    if p + (NUL + middle) == q {
      t := tail;
    } else {
      var rest := q[|p| + 2 + |middle|..];
      assert q == p + (NUL + (middle + (NUL + rest)));
      t := rest + (NUL + tail);
    }
  }

  /**
   * Chunk names tell chunks of these two parents apart, whatever their ordinals and texts, exactly
   * when neither parent extends the other; NUL-free parents never do.
   */
  lemma ChunkNamesAreUniqueIff(p: string, q: string)
    ensures (forall n: nat, t, m: nat, u :: ChunkId(p, n, t) == ChunkId(q, m, u) ==> p == q && n == m && t == u)
            <==> !Extends(p, q) && !Extends(q, p)
    ensures '\0' !in p && '\0' !in q ==> !Extends(p, q) && !Extends(q, p)
  {
    hide ChunkId, Extends;
    forall n: nat, t, m: nat, u | ChunkId(p, n, t) == ChunkId(q, m, u)
      ensures (p == q && n == m && t == u) || Extends(p, q) || Extends(q, p)
    {
      if |p| <= |q| { ShorterParent(p, n, t, q, m, u); } else { ShorterParent(q, m, u, p, n, t); }
    }
    if Extends(p, q) { var n, t := ExtendedParentCollides(p, q); }
    if Extends(q, p) { var n, t := ExtendedParentCollides(q, p); }
    if '\0' !in p { NulFreeExtendsNothing(q, p); }
    if '\0' !in q { NulFreeExtendsNothing(p, q); }
  }

  // ---------------------------------------------------------------- document identifiers

  datatype Kind = Parsed | Extracted

  function KindName(kind: Kind): string {
    if kind.Parsed? then "parsed" else "extraction"
  }

  function DocumentFields(source: string, kind: Kind, ordinal: int, text: string): seq<string> {
    [source, KindName(kind), Signed(ordinal), text]
  }

  function DocumentId(source: string, kind: Kind, ordinal: int, text: string): string {
    Name(DocumentFields(source, kind, ordinal, text))
  }

  lemma DocumentLine(p: string, k: Kind, n: int, t: string)
    ensures Framed(DocumentFields(p, k, n, t)) == p + (NUL + (KindName(k) + (NUL + (Signed(n) + (NUL + (t + (NUL + "")))))))
  {
    hide Signed, KindName;
    var w, d := KindName(k), Signed(n);
    assert [p, w, d, t][1..] == [w, d, t] && [w, d, t][1..] == [d, t] && [d, t][1..] == [t] && [t][1..] == [];
    assert Framed([t]) == t + (NUL + "");
    assert Framed([d, t]) == d + (NUL + Framed([t]));
    assert Framed([w, d, t]) == w + (NUL + Framed([d, t]));
  }

  lemma KindFacts(k: Kind, l: Kind, n: int)
    ensures '\0' !in KindName(k)
    ensures KindName(k) == KindName(l) ==> k == l
    ensures Signed(n) != KindName(k)
  {
    hide Decimal;
    assert KindName(k)[0] in {'p', 'e'};
    assert Signed(n)[0] !in {'p', 'e'};
    assert "parsed"[0] == 'p' && "extraction"[0] == 'e';
  }

  /** `q` is `p`, a kind and a numeral as fields, alone or with more fields after them. */
  ghost predicate ExtendsSource(p: string, q: string) {
    exists k, n :: ExtendsWith(p, KindName(k) + (NUL + Signed(n)), q)
  }

  /** The fields after a source: what they say, given that some other fields have the same text. */
  lemma {:induction false} FieldsAfterSource(k: Kind, n: int, t: string, l: Kind, m: int, u: string)
    requires KindName(k) + (NUL + (Signed(n) + (NUL + (t + (NUL + ""))))) == KindName(l) + (NUL + (Signed(m) + (NUL + (u + (NUL + "")))))
    ensures k == l && n == m && t == u
  {
    hide KindName, Signed;
    KindFacts(k, l, n);
    KindFacts(l, k, m);
    FieldsEqual(KindName(k), Signed(n) + (NUL + (t + (NUL + ""))), KindName(l), Signed(m) + (NUL + (u + (NUL + ""))));
    NumeralIsNulFree(n);
    NumeralIsNulFree(m);
    FieldsEqual(Signed(n), t + (NUL + ""), Signed(m), u + (NUL + ""));
    SignedUnique(n, m);
    assert t == (t + (NUL + ""))[..|t|] && u == (u + (NUL + ""))[..|u|];
  }

  lemma FieldsInsideSource(k: Kind, n: int, x: string, w: string, l: Kind, y: string)
    requires KindName(k) + (NUL + (Signed(n) + (NUL + x))) == w + (NUL + (KindName(l) + (NUL + y)))
    ensures var middle := KindName(k) + (NUL + Signed(n)); w == middle || middle + NUL <= w
  {
    hide KindName, Signed;
    KindFacts(k, l, n);
    KindFacts(l, k, n);
    NumeralIsNulFree(n);
    FieldSplit(KindName(k), Signed(n) + (NUL + x), w, KindName(l) + (NUL + y));
    if w == KindName(k) {
      FieldsEqual(Signed(n), x, KindName(l), y);
    } else {
      var v := w[|KindName(k)| + 1..];
      FieldSplit(Signed(n), x, v, KindName(l) + (NUL + y));
      assert w == KindName(k) + (NUL + v);
    }
  }

  lemma ShorterSource(p: string, k: Kind, n: int, t: string, q: string, l: Kind, m: int, u: string)
    requires |p| <= |q| && DocumentId(p, k, n, t) == DocumentId(q, l, m, u)
    ensures (p == q && k == l && n == m && t == u) || ExtendsSource(p, q)
  {
    hide Framed, Signed, Utf8, HexDigest, KindName;
    NamesFrames(DocumentFields(p, k, n, t), DocumentFields(q, l, m, u));
    DocumentLine(p, k, n, t);
    DocumentLine(q, l, m, u);
    var x := KindName(k) + (NUL + (Signed(n) + (NUL + (t + (NUL + "")))));
    var y := KindName(l) + (NUL + (Signed(m) + (NUL + (u + (NUL + "")))));
    SkipCommon(p, x, q, y);
    if p == q {
      FieldsAfterSource(k, n, t, l, m, u);
    } else {
      FieldsInsideSource(k, n, t + (NUL + ""), q[|p| + 1..], l, Signed(m) + (NUL + (u + (NUL + ""))));
      assert ExtendsWith(p, KindName(k) + (NUL + Signed(n)), q);
    }
  }

  lemma ExtendedSourceCollides(p: string, q: string) returns (k: Kind, n: int, t: string)
    requires ExtendsSource(p, q)
    ensures p != q && DocumentId(p, k, n, t) == DocumentId(q, Parsed, 0, "")
  {
    hide Framed, Utf8, HexDigest, KindName, Signed, ExtendsWith;
    k, n :| ExtendsWith(p, KindName(k) + (NUL + Signed(n)), q);
    var w, d, v, z := KindName(k), Signed(n), KindName(Parsed), Signed(0);
    t := Completing(p, w + (NUL + d), q, v + (NUL + (z + NUL)));
    assert (w + (NUL + d)) + (NUL + (t + (NUL + ""))) == w + (NUL + (d + (NUL + (t + (NUL + "")))));
    assert (v + (NUL + (z + NUL))) + NUL == v + (NUL + (z + (NUL + ("" + (NUL + "")))));
    DocumentLine(p, k, n, t);
    DocumentLine(q, Parsed, 0, "");
    NamesFrames(DocumentFields(p, k, n, t), DocumentFields(q, Parsed, 0, ""));
  }

  lemma NulFreeExtendsNoSource(p: string, q: string)
    requires '\0' !in q || p == q
    ensures !ExtendsSource(p, q)
  {
    hide KindName, Signed, ExtendsWith;
    if ExtendsSource(p, q) {
      var k, n :| ExtendsWith(p, KindName(k) + (NUL + Signed(n)), q);
      NotExtended(p, KindName(k) + (NUL + Signed(n)), q);
    }
  }

  /**
   * Document names tell documents of these two sources apart exactly when neither source extends
   * the other; NUL-free sources never do, and a source never extends itself.
   */
  lemma DocumentNamesAreUniqueIff(p: string, q: string)
    ensures (forall k, n, t, l, m, u :: DocumentId(p, k, n, t) == DocumentId(q, l, m, u) ==> p == q && k == l && n == m && t == u)
            <==> !ExtendsSource(p, q) && !ExtendsSource(q, p)
    ensures ('\0' !in p && '\0' !in q) || p == q ==> !ExtendsSource(p, q) && !ExtendsSource(q, p)
  {
    hide DocumentId, ExtendsSource;
    forall k, n, t, l, m, u | DocumentId(p, k, n, t) == DocumentId(q, l, m, u)
      ensures (p == q && k == l && n == m && t == u) || ExtendsSource(p, q) || ExtendsSource(q, p)
    {
      if |p| <= |q| { ShorterSource(p, k, n, t, q, l, m, u); } else { ShorterSource(q, l, m, u, p, k, n, t); }
    }
    if ExtendsSource(p, q) { var k, n, t := ExtendedSourceCollides(p, q); }
    if ExtendsSource(q, p) { var k, n, t := ExtendedSourceCollides(q, p); }
    if '\0' !in q || p == q { NulFreeExtendsNoSource(p, q); }
    if '\0' !in p || p == q { NulFreeExtendsNoSource(q, p); }
  }

  // ---------------------------------------------------------------- the documents of one parse

  datatype Mode = Chunks | Extractions | Both

  datatype Document = Document(id: string, text: string, metadata: Metadata, source: string)

  datatype IdentityError = NotText | Blank | Unsupported

  /** What a document will be built from, besides its source. */
  datatype Entry = Entry(kind: Kind, ordinal: int, text: string, metadata: Metadata)

  function PageEntries(source: string, pages: seq<Page>): seq<Entry> {
    if pages == [] then []
    else
      var page := pages[|pages| - 1];
      PageEntries(source, pages[..|pages| - 1]) +
      if IsBlank(page.text) then []
      else
        [Entry(Parsed, page.number, page.text,
               map["source" := PyStr(source), "page" := PyNum(Numeral(page.number)), "source_type" := PyStr("parsed")])]
  }

  function Numeral(n: int): (literal: Literal) {
    var text := Signed(n);
    assert forall i :: 0 <= i < |text| ==> LiteralChar(text[i]) by {
      forall i | 0 <= i < |text| ensures LiteralChar(text[i]) {
        if n < 0 && i > 0 { assert text[i] == Decimal(-n)[i - 1]; }
      }
    }
    text
  }

  function ParsedEntries(parsed: ParsedDocument): seq<Entry> {
    var pages := PageEntries(parsed.source, parsed.pages);
    if pages != [] then pages
    else if IsBlank(parsed.text) then []
    else [Entry(Parsed, 0, parsed.text, map["source" := PyStr(parsed.source), "source_type" := PyStr("parsed")])]
  }

  function ExtractionEntries(source: string, extractions: seq<Extraction>): seq<Entry> {
    seq(|extractions|, i requires 0 <= i < |extractions| =>
      var e := extractions[i];
      Entry(Extracted, i, e.entityClass + ": " + e.text,
            map["source" := PyStr(source), "source_type" := PyStr("extraction"), "entity_class" := PyStr(e.entityClass)]
            + e.attributes))
  }

  function AllEntries(mode: Mode, parsed: ParsedDocument, extractions: seq<Extraction>): seq<Entry> {
    (if mode.Extractions? then [] else ParsedEntries(parsed))
    + (if mode.Chunks? then [] else ExtractionEntries(parsed.source, extractions))
  }

  function Build(mode: Mode, parsed: ParsedDocument, extractions: seq<Extraction>): Result<seq<Document>, IdentityError> {
    var entries := AllEntries(mode, parsed, extractions);
    if entries != [] && IsBlank(parsed.source) then Err(Blank)
    else if exists i :: 0 <= i < |entries| && !IsMetadata(entries[i].metadata) then Err(Unsupported)
    else
      Ok(seq(|entries|, i requires 0 <= i < |entries| =>
        var e := entries[i];
        Document(DocumentId(parsed.source, e.kind, e.ordinal, e.text), e.text, e.metadata, parsed.source)))
  }

  ghost predicate Alike(a: Entry, b: Entry) {
    a.kind == b.kind && a.ordinal == b.ordinal && a.text == b.text
  }

  ghost predicate NoneAlike(entries: seq<Entry>) {
    forall i, j :: 0 <= i < j < |entries| ==> !Alike(entries[i], entries[j])
  }

  ghost predicate DistinctPages(pages: seq<Page>) {
    forall i, j :: 0 <= i < j < |pages| && !IsBlank(pages[i].text) ==> pages[i] != pages[j]
  }

  ghost predicate HasPage(pages: seq<Page>, page: Page) {
    page in pages && !IsBlank(page.text)
  }

  ghost predicate HasAlike(entries: seq<Entry>, e: Entry) {
    exists i :: 0 <= i < |entries| && Alike(entries[i], e)
  }

  lemma AlikeAppend(entries: seq<Entry>, last: Entry, e: Entry)
    ensures HasAlike(entries + [last], e) <==> HasAlike(entries, e) || Alike(last, e)
    ensures NoneAlike(entries + [last]) <==> NoneAlike(entries) && !HasAlike(entries, last)
  {
    var longer := entries + [last];
    assert longer[|entries|] == last;
    assert forall i :: 0 <= i < |entries| ==> longer[i] == entries[i];
    if HasAlike(entries, e) {
      var i :| 0 <= i < |entries| && Alike(entries[i], e);
      assert Alike(longer[i], e);
    }
    if HasAlike(entries, last) {
      var i :| 0 <= i < |entries| && Alike(entries[i], last);
      assert Alike(longer[i], longer[|entries|]);
    }
    if !NoneAlike(entries) {
      var i, j :| 0 <= i < j < |entries| && Alike(entries[i], entries[j]);
      assert Alike(longer[i], longer[j]);
    }
  }

  lemma {:induction false} EntriesOfPages(source: string, pages: seq<Page>, e: Entry)
    requires e.kind.Parsed? && !IsBlank(e.text)
    ensures HasAlike(PageEntries(source, pages), e) <==> HasPage(pages, Page(e.ordinal, e.text))
  {
    hide IsBlank, Numeral, NoneAlike, HasAlike;
    if pages != [] {
      var init, last := pages[..|pages| - 1], pages[|pages| - 1];
      assert pages == init + [last];
      EntriesOfPages(source, init, e);
      var entries, before := PageEntries(source, pages), PageEntries(source, init);
      if !IsBlank(last.text) {
        var entry := entries[|before|];
        assert entries == before + [entry] && entry.kind.Parsed? && Page(entry.ordinal, entry.text) == last;
        AlikeAppend(before, entry, e);
      } else {
        assert entries == before;
      }
    } else {
      assert !HasAlike([], e) by { NothingIsAlike(e); }
    }
  }

  lemma NothingIsAlike(e: Entry)
    ensures !HasAlike([], e)
  {}

  lemma {:induction false} PagesAlike(source: string, pages: seq<Page>)
    ensures NoneAlike(PageEntries(source, pages)) <==> DistinctPages(pages)
  {
    hide IsBlank, Numeral, NoneAlike, Alike;
    if pages != [] {
      var init, last := pages[..|pages| - 1], pages[|pages| - 1];
      PagesAlike(source, init);
      var entries := PageEntries(source, pages);
      assert DistinctPages(pages) <==> DistinctPages(init) && !HasPage(init, last);
      if !IsBlank(last.text) {
        var e := entries[|entries| - 1];
        assert entries == PageEntries(source, init) + [e] && Page(e.ordinal, e.text) == last;
        AlikeAppend(PageEntries(source, init), e, e);
        EntriesOfPages(source, init, e);
      } else {
        assert entries == PageEntries(source, init);
      }
    } else {
      assert NoneAlike([]) by { NothingAlike(); }
    }
  }

  lemma NothingAlike()
    ensures NoneAlike([])
  {}

  lemma {:induction false} PagesAreParsed(source: string, pages: seq<Page>)
    ensures forall i :: 0 <= i < |PageEntries(source, pages)| ==> PageEntries(source, pages)[i].kind.Parsed?
  {
    hide IsBlank, Numeral;
    if pages != [] { PagesAreParsed(source, pages[..|pages| - 1]); }
  }

  /**
   * The documents of one parse have distinct identifiers, whatever the source, exactly when no two
   * of its non-blank pages share both number and text, or pages are not ingested at all.
   */
  lemma DocumentsAreDistinct(mode: Mode, parsed: ParsedDocument, extractions: seq<Extraction>)
    requires Build(mode, parsed, extractions).Ok?
    ensures var documents := Build(mode, parsed, extractions).value;
            (forall i, j :: 0 <= i < j < |documents| ==> documents[i].id != documents[j].id)
            <==> mode.Extractions? || DistinctPages(parsed.pages)
  {
    hide DocumentId, IsBlank, AllEntries, IsMetadata, Alike;
    var entries, documents := AllEntries(mode, parsed, extractions), Build(mode, parsed, extractions).value;
    forall i, j | 0 <= i < j < |documents| ensures documents[i].id == documents[j].id <==> Alike(entries[i], entries[j]) {
      SameNameIffAlike(parsed.source, entries[i], entries[j]);
    }
    EntriesAlike(mode, parsed, extractions);
  }

  lemma SameNameIffAlike(source: string, a: Entry, b: Entry)
    ensures DocumentId(source, a.kind, a.ordinal, a.text) == DocumentId(source, b.kind, b.ordinal, b.text) <==> Alike(a, b)
  {
    hide DocumentId;
    DocumentNamesAreUniqueIff(source, source);
  }

  lemma EntriesAlike(mode: Mode, parsed: ParsedDocument, extractions: seq<Extraction>)
    ensures NoneAlike(AllEntries(mode, parsed, extractions)) <==> mode.Extractions? || DistinctPages(parsed.pages)
  {
    hide IsBlank, PageEntries, Numeral;
    var entries, pages := AllEntries(mode, parsed, extractions), PageEntries(parsed.source, parsed.pages);
    if !mode.Extractions? {
      PagesAlike(parsed.source, parsed.pages);
      PagesAreParsed(parsed.source, parsed.pages);
      var first := ParsedEntries(parsed);
      assert forall i :: 0 <= i < |first| ==> entries[i] == first[i];
      assert NoneAlike(first) <==> NoneAlike(pages);
      if !NoneAlike(first) {
        var i, j :| 0 <= i < j < |first| && Alike(first[i], first[j]);
        assert Alike(entries[i], entries[j]);
      }
    }
  }
}
