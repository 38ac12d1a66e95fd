/**
 Which documents one parse gives, told from its pages, its text and its extractions: what each says and
 what it is named after.
 */
module DocumentLaws {
  import opened Basics
  import opened Text
  import opened Documents
  import opened Identity
  import opened Json
  import opened Python

  predicate HasText(page: Page) {
    !IsBlank(page.text)
  }

  /** The document of a page. */
  ghost predicate TellsPage(d: Document, source: string, page: Page) {
    && d.id == Name([source, "parsed", Signed(page.number), page.text])
    && d.text == page.text && d.source == source
    && d.metadata == map["source" := PyStr(source), "page" := PyNum(Numeral(page.number)), "source_type" := PyStr("parsed")]
  }

  /** The document of a whole text without pages. */
  ghost predicate TellsText(d: Document, source: string, text: string) {
    && d.id == Name([source, "parsed", "0", text])
    && d.text == text && d.source == source
    && d.metadata == map["source" := PyStr(source), "source_type" := PyStr("parsed")]
  }

  /** The document of the extraction at a place; its attributes go over the adapter's own. */
  ghost predicate TellsExtraction(d: Document, source: string, i: nat, e: Extraction) {
    && d.id == Name([source, "extraction", Signed(i), e.entityClass + ": " + e.text])
    && d.text == e.entityClass + ": " + e.text && d.source == source
    && d.metadata.Keys == {"source", "source_type", "entity_class"} + e.attributes.Keys
    && (forall k :: k in d.metadata ==>
          d.metadata[k] == if k in e.attributes then e.attributes[k]
                           else PyStr(if k == "source" then source else if k == "source_type" then "extraction" else e.entityClass))
  }

  ghost predicate IsEntryOf(e: Entry, source: string, page: Page) {
    && e.kind == Parsed && e.ordinal == page.number && e.text == page.text
    && e.metadata == map["source" := PyStr(source), "page" := PyNum(Numeral(page.number)), "source_type" := PyStr("parsed")]
  }

  lemma LastEntry(source: string, init: seq<Page>, last: Page)
    ensures var (before, after) := (PageEntries(source, init), PageEntries(source, init + [last]));
            if HasText(last) then |after| == |before| + 1 && after[..|before|] == before && IsEntryOf(after[|before|], source, last)
            else after == before
  {
    hide IsBlank, Numeral;
    assert (init + [last])[..|init|] == init;
  }

  ghost predicate AreEntriesOf(entries: seq<Entry>, source: string, pages: seq<Page>, positions: seq<nat>) {
    && |positions| == |entries|
    && forall i :: 0 <= i < |positions| ==> positions[i] < |pages| && IsEntryOf(entries[i], source, pages[positions[i]])
  }

  lemma MoreEntries(source: string, init: seq<Page>, last: Page, positions: seq<nat>)
    requires AreEntriesOf(PageEntries(source, init), source, init, positions)
    ensures AreEntriesOf(PageEntries(source, init + [last]), source, init + [last],
                         if HasText(last) then positions + [|init|] else positions)
  {
    hide HasText, IsEntryOf, PageEntries;
    LastEntry(source, init, last);
    var before, after, pages := PageEntries(source, init), PageEntries(source, init + [last]), init + [last];
    if HasText(last) {
      assert after == before + [after[|before|]];
      EntryAppended(before, source, init, positions, after[|before|], last);
    } else {
      forall i | 0 <= i < |positions| ensures pages[positions[i]] == init[positions[i]] {}
    }
  }

  lemma EntryAppended(before: seq<Entry>, source: string, init: seq<Page>, positions: seq<nat>, e: Entry, last: Page)
    requires AreEntriesOf(before, source, init, positions) && IsEntryOf(e, source, last)
    ensures AreEntriesOf(before + [e], source, init + [last], positions + [|init|])
  {
    hide IsEntryOf;
    var more := positions + [|init|];
    forall i | 0 <= i < |more| ensures more[i] < |init| + 1 && IsEntryOf((before + [e])[i], source, (init + [last])[more[i]]) {
      if i < |positions| { assert more[i] == positions[i]; }
    }
  }

  /** One entry for each page with text, in their order. */
  lemma {:induction false} EntriesOfTextPages(source: string, pages: seq<Page>) returns (positions: seq<nat>)
    ensures Selects(pages, positions, HasText) && AreEntriesOf(PageEntries(source, pages), source, pages, positions)
  {
    hide HasText, PageEntries, AreEntriesOf, Selects;
    if pages == [] {
      positions := [];
      NoEntries(source);
    } else {
      var init, last := pages[..|pages| - 1], pages[|pages| - 1];
      var before := EntriesOfTextPages(source, init);
      MoreEntries(source, init, last, before);
      assert pages == init + [last];
      positions := SelectsMore(init, last, before, HasText);
    }
  }

  lemma NoEntries(source: string)
    ensures Selects([], [], HasText) && AreEntriesOf(PageEntries(source, []), source, [], [])
  {}

  /** The parsed documents of a parse: one for each page with text, or one for the text if no page has any. */
  ghost predicate TellsParse(documents: seq<Document>, parsed: ParsedDocument, positions: seq<nat>) {
    && Selects(parsed.pages, positions, HasText)
    && (positions != [] ==>
          && |documents| == |positions|
          && forall i :: 0 <= i < |positions| ==> TellsPage(documents[i], parsed.source, parsed.pages[positions[i]]))
    && (positions == [] ==>
          if IsBlank(parsed.text) then documents == []
          else |documents| == 1 && TellsText(documents[0], parsed.source, parsed.text))
  }

  lemma PageIsTold(source: string, e: Entry, page: Page, d: Document)
    requires IsEntryOf(e, source, page)
    requires d == Document(DocumentId(source, e.kind, e.ordinal, e.text), e.text, e.metadata, source)
    ensures TellsPage(d, source, page)
  {
    hide Name, Signed, Numeral;
  }

  lemma TextIsTold(source: string, text: string)
    ensures TellsText(Document(DocumentId(source, Parsed, 0, text), text,
                               map["source" := PyStr(source), "source_type" := PyStr("parsed")], source), source, text)
  {
    hide Name;
    assert Signed(0) == "0";
  }

  lemma ExtractionIsTold(source: string, i: nat, e: Extraction, d: Document)
    requires d == Document(DocumentId(source, Extracted, i, e.entityClass + ": " + e.text), e.entityClass + ": " + e.text,
                           map["source" := PyStr(source), "source_type" := PyStr("extraction"), "entity_class" := PyStr(e.entityClass)]
                           + e.attributes, source)
    ensures TellsExtraction(d, source, i, e)
  {
    hide Name, Signed;
  }

  /**
   * Over all modes: the parsed documents come first unless only extractions are wanted, then one document
   * for each extraction unless only chunks are.
   */
  lemma {:induction false} DocumentsAreTold(mode: Mode, parsed: ParsedDocument, extractions: seq<Extraction>)
    returns (positions: seq<nat>, first: seq<Document>, second: seq<Document>)
    requires Build(mode, parsed, extractions).Ok?
    ensures Build(mode, parsed, extractions).value == first + second
    ensures if mode.Extractions? then first == [] else TellsParse(first, parsed, positions)
    ensures if mode.Chunks? then second == []
            else |second| == |extractions| && forall i :: 0 <= i < |second| ==> TellsExtraction(second[i], parsed.source, i, extractions[i])
  {
    hide IsBlank, PageEntries, Numeral, DocumentId, Selects, IsEntryOf, TellsPage, TellsText, TellsExtraction, IsMetadata;
    var documents, entries := Build(mode, parsed, extractions).value, AllEntries(mode, parsed, extractions);
    var count := if mode.Extractions? then 0 else |ParsedEntries(parsed)|;
    first, second := documents[..count], documents[count..];
    positions := EntriesOfTextPages(parsed.source, parsed.pages);
    if !mode.Extractions? {
      if positions != [] {
        forall i | 0 <= i < |positions| ensures TellsPage(first[i], parsed.source, parsed.pages[positions[i]]) {
          assert entries[i] == PageEntries(parsed.source, parsed.pages)[i];
          PageIsTold(parsed.source, entries[i], parsed.pages[positions[i]], first[i]);
        }
      } else if !IsBlank(parsed.text) {
        TextIsTold(parsed.source, parsed.text);
      }
    }
    if !mode.Chunks? {
      forall i | 0 <= i < |second| ensures TellsExtraction(second[i], parsed.source, i, extractions[i]) {
        assert entries[count + i] == ExtractionEntries(parsed.source, extractions)[i];
        ExtractionIsTold(parsed.source, i, extractions[i], second[i]);
      }
    }
  }

  /** There is something to ingest: a page with text or a text, or an extraction, as the mode asks. */
  ghost predicate HasContent(mode: Mode, parsed: ParsedDocument, extractions: seq<Extraction>) {
    || (!mode.Extractions? && ((exists page :: page in parsed.pages && HasText(page)) || !IsBlank(parsed.text)))
    || (!mode.Chunks? && extractions != [])
  }

  lemma PagesMakeEntries(source: string, pages: seq<Page>)
    ensures PageEntries(source, pages) != [] <==> exists page :: page in pages && HasText(page)
  {
    hide HasText, Selects, IsEntryOf;
    var positions := EntriesOfTextPages(source, pages);
    SelectsSome(pages, positions, HasText);
  }

  lemma SelectsSome<T>(xs: seq<T>, positions: seq<nat>, qualifies: T -> bool)
    requires Selects(xs, positions, qualifies)
    ensures positions != [] <==> exists x :: x in xs && qualifies(x)
  {
    if positions != [] { assert xs[positions[0]] in xs && qualifies(xs[positions[0]]); }
    if x :| x in xs && qualifies(x) {
      var p :| 0 <= p < |xs| && xs[p] == x;
      assert p in positions;
    }
  }

  lemma NumeralIsJson(n: int)
    ensures IsJson(PyNum(Numeral(n)))
  {
    hide Decimal;
    var text := Signed(n);
    assert n < 0 ==> text[1..] == Decimal(-n);
    assert text[0] == '-' || '0' <= text[0] <= '9';
    assert "NaN"[0] == 'N' && "Infinity"[0] == 'I' && "-Infinity"[1] == 'I';
  }

  /** The adapter's own metadata is JSON, so only attributes can be refused. */
  lemma ParsedEntriesAreJson(parsed: ParsedDocument)
    ensures forall i :: 0 <= i < |ParsedEntries(parsed)| ==> IsMetadata(ParsedEntries(parsed)[i].metadata)
  {
    hide IsBlank, PageEntries, Numeral, Selects;
    var positions := EntriesOfTextPages(parsed.source, parsed.pages);
    forall i | 0 <= i < |ParsedEntries(parsed)| ensures IsMetadata(ParsedEntries(parsed)[i].metadata) {
      if positions != [] { NumeralIsJson(parsed.pages[positions[i]].number); }
    }
  }

  lemma ExtractionEntriesAreJson(source: string, extractions: seq<Extraction>, i: nat)
    requires i < |extractions|
    ensures IsMetadata(ExtractionEntries(source, extractions)[i].metadata) <==> IsMetadata(extractions[i].attributes)
  {
    var metadata, attributes := ExtractionEntries(source, extractions)[i].metadata, extractions[i].attributes;
    assert forall name :: name in attributes ==> name in metadata && metadata[name] == attributes[name];
    assert forall name :: name in metadata && name !in attributes ==> metadata[name].PyStr?;
  }

  /** A parse is refused exactly when something is ingested under a blank source, or else when attributes are not JSON. */
  lemma {:induction false} RefusalsAreExact(mode: Mode, parsed: ParsedDocument, extractions: seq<Extraction>)
    ensures Build(mode, parsed, extractions) == Err(Blank) <==> HasContent(mode, parsed, extractions) && IsBlank(parsed.source)
    ensures Build(mode, parsed, extractions) == Err(Unsupported) <==>
              && !(HasContent(mode, parsed, extractions) && IsBlank(parsed.source))
              && !mode.Chunks? && exists i :: 0 <= i < |extractions| && !IsMetadata(extractions[i].attributes)
    ensures Build(mode, parsed, extractions) != Err(NotText)
  {
    hide IsBlank, PageEntries, Numeral, IsMetadata, HasText, ParsedEntries, ExtractionEntries;
    PagesMakeEntries(parsed.source, parsed.pages);
    ParsedEntriesAreJson(parsed);
    SomeParsed(parsed);
    var entries := AllEntries(mode, parsed, extractions);
    var first := if mode.Extractions? then [] else ParsedEntries(parsed);
    assert |ExtractionEntries(parsed.source, extractions)| == |extractions| by { AsManyEntries(parsed.source, extractions); }
    forall i | 0 <= i < |first| ensures IsMetadata(entries[i].metadata) { assert entries[i] == first[i]; }
    if !mode.Chunks? {
      forall i | 0 <= i < |extractions|
        ensures IsMetadata(entries[|first| + i].metadata) <==> IsMetadata(extractions[i].attributes)
      {
        ExtractionEntriesAreJson(parsed.source, extractions, i);
      }
      forall i | |first| <= i < |entries|
        ensures IsMetadata(entries[i].metadata) <==> IsMetadata(extractions[i - |first|].attributes)
      {
        assert entries[|first| + (i - |first|)] == entries[i];
      }
    }
  }

  lemma AsManyEntries(source: string, extractions: seq<Extraction>)
    ensures |ExtractionEntries(source, extractions)| == |extractions|
  {}

  lemma SomeParsed(parsed: ParsedDocument)
    ensures ParsedEntries(parsed) != [] <==> PageEntries(parsed.source, parsed.pages) != [] || !IsBlank(parsed.text)
  {
    hide IsBlank, PageEntries;
  }
}
