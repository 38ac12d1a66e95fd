/** What parsing yields: pages, extracted entities and loose metadata. */
module Documents {
  import opened Python

  type Metadata = map<string, PyValue>

  /** Metadata is frozen when a document or record is made; anything but JSON is refused. */
  predicate IsMetadata(metadata: Metadata) {
    forall name :: name in metadata ==> IsJson(metadata[name])
  }

  datatype Page = Page(number: int, text: string)

  datatype Extraction = Extraction(entityClass: string, text: string, attributes: Metadata)

  datatype ParsedDocument = ParsedDocument(source: string, text: string, pages: seq<Page>, format: string, metadata: Metadata)

  lemma NamedIsJson(metadata: Metadata)
    ensures IsMetadata(metadata) <==> IsJson(Named(metadata))
  {
    NamedFields(metadata);
    hide Named;
    var v := Named(metadata);
    if IsJson(v) {
      forall name | name in metadata ensures IsJson(metadata[name]) { assert StrKey(name) in v.fields; }
    }
    if IsMetadata(metadata) {
      forall k | k in v.fields ensures IsJson(v.fields[k]) { assert k == StrKey(k.text); }
    }
  }

  /** Two pieces of metadata are equal exactly when they are written alike. */
  lemma MetadataIsTold(a: Metadata, b: Metadata)
    requires IsMetadata(a) && IsMetadata(b)
    ensures Serialize(Named(a)).Some?
    ensures Serialize(Named(a)) == Serialize(Named(b)) <==> a == b
  {
    NamedFields(a);
    NamedFields(b);
    NamedIsJson(a);
    NamedIsJson(b);
    hide Named, Serialize, IsJson;
    JsonSerializes(Named(a));
    JsonIsTold(Named(a), Named(b));
    if Named(a) == Named(b) {
      forall name ensures name in a <==> name in b
                  ensures name in a ==> a[name] == b[name] {
        assert name in a <==> StrKey(name) in Named(a).fields;
      }
    }
  }
}
