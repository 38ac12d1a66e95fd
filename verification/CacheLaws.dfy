/**
 What the answer cache does, told from the settings by name, the options by their words and the
 backend's replies: which settings tell queries apart, what never leaves in the clear, and when the
 cache answers and is fed.
 */
module CacheLaws {
  import opened Basics
  import opened Text
  import opened Json
  import opened Python
  import opened RagCache

  // ---------------------------------------------------------------- what tells queries apart

  /** The settings by name that affect an answer. */
  const NAMED: set<string> := {
    "table_name", "embedding_provider", "embedding_model", "llm_provider", "llm_model", "strategy", "top_k",
    "max_chunks_per_source", "hyde_prompt", "multi_query_prompt", "auto_strategy_prompt", "multi_query_count",
    "parent_window_size", "hybrid_bm25_weight", "reranker", "reranker_model", "rerank_top_n",
    "lightrag_working_dir", "system_prompt", "history", "response_format", "filters", "vector_backend",
    "turbovec_bit_width" }

  ghost predicate SameNamed(a: Config, b: Config) {
    forall name :: name in NAMED ==> Serialize(a.attribute(name)) == Serialize(b.attribute(name))
  }

  ghost predicate SameUnnamed(lib: Library, a: Config, b: Config) {
    && Known(a.connection) == Known(b.connection)
    && Serialize(Redacted(lib, a.vectorStore)) == Serialize(Redacted(lib, b.vectorStore))
    && a.indexDir == b.indexDir
    && Known(a.embeddingKey) == Known(b.embeddingKey)
    && Known(a.llmKey) == Known(b.llmKey)
    && a.outputModel == b.outputModel
  }

  lemma NamedAreBehaviour()
    ensures NAMED == BEHAVIOR_FIELDS
  {}

  /**
   * Two queries share a key exactly when question, tenant, the named settings and the others agree, each
   * as it is written. So a different `system_prompt`, model or filter is a different key.
   */
  lemma {:induction false} KeysTellQueries(lib: Library, c: Config, p: string, t: Option<string>, d: Config, q: string, u: Option<string>)
    requires CacheKey(lib, c, p, t).Some? && CacheKey(lib, d, q, u).Some?
    ensures CacheKey(lib, c, p, t) == CacheKey(lib, d, q, u) <==>
            p == q && t == u && SameNamed(c, d) && SameUnnamed(lib, c, d)
  {
    hide KeyIn, CacheNamespace, BEHAVIOR_FIELDS, NAMED, Redacted, Known, Serialize;
    NamedAreBehaviour();
    NamespaceHasNoColon(lib, c, t);
    NamespaceHasNoColon(lib, d, u);
    KeysAreExact(CacheNamespace(lib, c, t).value, p, CacheNamespace(lib, d, u).value, q);
    NamespacesAreExact(lib, c, t, d, u);
  }

  /** What stands in a namespace, by name, besides the named settings and the store's options. */
  lemma {:induction false} UnnamedAreTold(lib: Library, c: Config, t: Option<string>, name: string)
    requires name in {"schema_version", "connection_key", "connection_credential", "turbovec_index_dir", "tenant_scope",
                      "embedding_credential", "llm_credential"} || (name == "output_model" && c.outputModel.Some?)
    ensures name in Payload(lib, c, t)
    ensures var v := Payload(lib, c, t)[name];
            match name
            case "connection_key" => v == PyStr(HexDigest(Utf8(lib.locate(if c.connection.Some? then c.connection.value else ""))))
            case "connection_credential" => IsFingerprint(v, if c.connection.Some? then c.connection.value else "")
            case "turbovec_index_dir" => v == if c.indexDir.None? then PyNone else PyStr(c.indexDir.value)
            case "tenant_scope" => v == if t.None? then PyNone else PyStr(t.value)
            case "embedding_credential" => IsFingerprint(v, if c.embeddingKey.Some? then c.embeddingKey.value else "")
            case "llm_credential" => IsFingerprint(v, if c.llmKey.Some? then c.llmKey.value else "")
            case "output_model" => v == PyStr(c.outputModel.value)
            case _ => v == PyNum("1")
  {
    OwnNames();
    PayloadFields(lib, c, t);
    hide HexDigest, Utf8, Redacted, Payload, BEHAVIOR_FIELDS, OWN_FIELDS;
    assert name in OWN_FIELDS;
  }

  lemma OwnNames()
    ensures OWN_FIELDS == {"schema_version", "connection_key", "connection_credential", "vector_store", "turbovec_index_dir",
                           "tenant_scope", "embedding_credential", "llm_credential", "output_model"}
  {}

  // ---------------------------------------------------------------- what does not leave in the clear

  /** A digest, or nothing for an empty text. */
  predicate IsFingerprint(v: PyValue, of: string) {
    if of == "" then v == PyNone else v == PyStr(HexDigest(Utf8(of)))
  }

  /** An option whose key holds one of these words enters the namespace as a digest of what it prints as. */
  lemma {:induction false} SecretsAreDigested(lib: Library, key: string, value: PyValue, word: string)
    requires word in {"secret", "password", "token", "api_key", "credential", "auth"}
    requires exists a, b :: Underscored(lib.fold(key)) == a + (word + b)
    ensures IsFingerprint(CacheOption(lib, key, value), lib.show(value))
  {
    hide Contains, Underscored, NamesTarget, HexDigest, Utf8;
    ContainsIsOccurrence(Underscored(lib.fold(key)), word);
  }

  /** A connection text under one of these keys enters as two digests. */
  lemma {:induction false} TargetsAreDigested(lib: Library, key: string, text: string)
    requires Underscored(lib.fold(key)) in {"url", "endpoint", "dsn", "connection_string"}
    requires !NamesSecret(Underscored(lib.fold(key)))
    ensures var v := CacheOption(lib, key, PyStr(text));
            && v.PyDict? && v.fields.Keys == {StrKey("target"), StrKey("credential")}
            && v.fields[StrKey("target")] == PyStr(HexDigest(Utf8(lib.locate(text))))
            && IsFingerprint(v.fields[StrKey("credential")], text)
  {
    hide NamesSecret, Underscored, HexDigest, Utf8, Named;
    var fields := map["target" := TargetKey(lib, text), "credential" := SecretFingerprint(Some(text))];
    NamedFields(fields);
    assert |"target"| != |"credential"|;
    assert "target" in fields && "credential" in fields;
    forall k ensures k in Named(fields).fields <==> k in {StrKey("target"), StrKey("credential")} {
      if k.StrKey? { assert k == StrKey(k.text); }
    }
  }

  /**
   * Inside an option that names neither, every item and every field is treated as an option of its own,
   * an item under the same key and a field under its own; a leaf enters as it is.
   */
  lemma {:induction false} InsidesAreRedacted(lib: Library, key: string, value: PyValue)
    requires !NamesSecret(Underscored(lib.fold(key))) && !(NamesTarget(Underscored(lib.fold(key))) && value.PyStr?)
    ensures value.PyList? ==>
              var v := CacheOption(lib, key, value);
              v.PyList? && |v.items| == |value.items|
              && forall i :: 0 <= i < |value.items| ==> v.items[i] == CacheOption(lib, key, value.items[i])
    ensures value.PyDict? && StrKeyed(value.fields.Keys) ==>
              var v := CacheOption(lib, key, value);
              v.PyDict? && v.fields.Keys == value.fields.Keys
              && forall k :: k in value.fields ==> v.fields[k] == CacheOption(lib, k.text, value.fields[k])
    ensures !value.PyList? && !value.PyDict? ==> CacheOption(lib, key, value) == value
  {
    hide NamesSecret, NamesTarget, Underscored;
    if value.PyDict? && StrKeyed(value.fields.Keys) {
      var v := CacheOption(lib, key, value);
      forall k | k in value.fields ensures k in v.fields && v.fields[k] == CacheOption(lib, k.text, value.fields[k]) {
        OnlyKeyNamed(lib, value.fields.Keys, k.text);
        assert k == StrKey(k.text) && KeyName(lib, k) == k.text;
      }
      forall k | k in v.fields ensures k in value.fields {
        OnlyKeyNamed(lib, value.fields.Keys, k.text);
      }
      assert v.fields.Keys == value.fields.Keys;
    }
  }

  function Options(lib: Library, store: VectorStoreConfig): map<string, PyValue> {
    map k | k in store.options :: CacheOption(lib, k, store.options[k])
  }

  lemma {:induction false} RedactedStore(lib: Library, store: VectorStoreConfig)
    ensures Redacted(lib, Some(store)) == Named(Both(PyStr(store.provider), Named(Options(lib, store))))
  {
    hide CacheOption, Named;
  }

  /** A provider and its options. */
  function Both(provider: PyValue, options: PyValue): map<string, PyValue> {
    map["provider" := provider, "options" := options]
  }

  /** A dictionary of two fields is told by what is written for each. */
  lemma TwoFieldsAreTold(p: string, o: string, a: map<string, PyValue>, b: map<string, PyValue>)
    requires p != o && a.Keys == {p, o} && b.Keys == {p, o}
    requires Serialize(Named(a)).Some? && Serialize(Named(b)).Some?
    ensures Serialize(a[o]).Some? && Serialize(b[o]).Some?
    ensures Serialize(Named(a)) == Serialize(Named(b)) <==> Serialize(a[p]) == Serialize(b[p]) && Serialize(a[o]) == Serialize(b[o])
  {
    hide Named, Serialize;
    NamedSerializes(a);
    NamedSerializes(b);
    NamedAreTold(a, b);
    forall name ensures name in a.Keys * b.Keys <==> name == p || name == o {}
  }

  lemma BothFields(x: PyValue, y: PyValue)
    ensures "provider" != "options" && Both(x, y).Keys == {"provider", "options"}
    ensures Both(x, y)["provider"] == x && Both(x, y)["options"] == y
  {
    assert |"provider"| != |"options"|;
  }

  /** Two vector stores are told apart by their providers, the names of their options and what enters for each. */
  lemma {:induction false} StoresAreTold(lib: Library, a: VectorStoreConfig, b: VectorStoreConfig)
    requires Serialize(Redacted(lib, Some(a))).Some? && Serialize(Redacted(lib, Some(b))).Some?
    ensures Serialize(Redacted(lib, Some(a))) == Serialize(Redacted(lib, Some(b))) <==>
            && a.provider == b.provider && a.options.Keys == b.options.Keys
            && forall k :: k in a.options.Keys * b.options.Keys ==>
                 Serialize(CacheOption(lib, k, a.options[k])) == Serialize(CacheOption(lib, k, b.options[k]))
  {
    hide CacheOption, Named, Redacted, SerializeFields, Both;
    var x, y := Options(lib, a), Options(lib, b);
    RedactedStore(lib, a);
    RedactedStore(lib, b);
    BothFields(PyStr(a.provider), Named(x));
    BothFields(PyStr(b.provider), Named(y));
    TwoFieldsAreTold("provider", "options", Both(PyStr(a.provider), Named(x)), Both(PyStr(b.provider), Named(y)));
    NamedAreTold(x, y);
    assert x.Keys == a.options.Keys && y.Keys == b.options.Keys;
  }

  // ---------------------------------------------------------------- when the cache answers and is fed

  /** The backend brought a payload of bearable size that can be read. */
  predicate Readable(codec: Codec, call: Call) {
    && call.read.Got? && call.read.payload.Some?
    && |call.read.payload.value| <= call.settings.maxPayload && codec.decode(call.read.payload.value).Some?
  }

  /** With caching on and a key, a readable payload is the answer, apart from its timing and usage; nothing is offered. */
  lemma {:induction false} ReadablePayloadIsServed(lib: Library, codec: Codec, call: Call)
    requires call.settings.enabled && KeyOf(lib, call).Some? && Readable(codec, call)
    ensures var answer := codec.decode(call.read.payload.value).value;
            && Respond(lib, codec, call) == Ok(answer.(timing := if call.elapsed < 0.0 then 0.0 else call.elapsed, usage := None))
            && Offered(lib, codec, call).None?
  {
    hide CacheKey;
  }

  /**
   * In every other case the coordinator answers: off, the result is its result and nothing is offered;
   * on, its result is offered exactly if it has a JSON form of bearable size.
   */
  lemma {:induction false} OthersAreProduced(lib: Library, codec: Codec, call: Call)
    requires !(call.settings.enabled && KeyOf(lib, call).Some? && Readable(codec, call))
    requires call.settings.enabled ==> KeyOf(lib, call).Some? && !call.read.ReadInterrupted?
    ensures call.produced.None? ==> Respond(lib, codec, call) == Err(CoordinatorFailed) && Offered(lib, codec, call).None?
    ensures !call.settings.enabled && call.produced.Some? ==>
              Respond(lib, codec, call) == Ok(call.produced.value) && Offered(lib, codec, call).None?
    ensures call.settings.enabled && call.produced.Some? ==>
              var payload := codec.encode(call.produced.value);
              && (forall p :: Offered(lib, codec, call) == Some(p) <==> payload == Some(p) && |p| <= call.settings.maxPayload)
              && (Respond(lib, codec, call) == Err(Unserializable) <==> payload.None?)
              && (Respond(lib, codec, call) == Err(Interrupted) <==>
                    Offered(lib, codec, call).Some? && call.write.WriteInterrupted?)
              && (Respond(lib, codec, call).Ok? ==> Respond(lib, codec, call) == Ok(call.produced.value))
              && (Respond(lib, codec, call).Ok? || Respond(lib, codec, call) in {Err(Unserializable), Err(Interrupted)})
  {
    hide CacheKey;
  }

  /** A query fails before asking the coordinator exactly without a key, or when the backend read is cut short. */
  lemma {:induction false} FailingLookups(lib: Library, codec: Codec, call: Call)
    requires call.settings.enabled && (KeyOf(lib, call).None? || call.read.ReadInterrupted?)
    ensures Respond(lib, codec, call) == Err(if KeyOf(lib, call).None? then KeyUnderivable else Interrupted)
    ensures Offered(lib, codec, call).None?
  {
    hide CacheKey;
  }

  /** The same result, with its loose metadata, and that of its chunks, reread. */
  ghost predicate SameButReread(codec: Codec, a: Body, b: Body) {
    && b.query == a.query && b.answer == a.answer && b.strategy == a.strategy && b.sources == a.sources
    && b.metadata == codec.reread(a.metadata) && |b.chunks| == |a.chunks|
    && forall i :: 0 <= i < |a.chunks| ==>
         && b.chunks[i].content == a.chunks[i].content && b.chunks[i].score == a.chunks[i].score
         && b.chunks[i].source == a.chunks[i].source && b.chunks[i].page == a.chunks[i].page
         && b.chunks[i].metadata == codec.reread(a.chunks[i].metadata)
  }

  /** What one query offered answers another for the same question in the same scope that reads it. */
  lemma {:induction false} OfferedAnswersNext(lib: Library, codec: Codec, first: Call, second: Call)
    requires codec.Valid() && first.settings.enabled && second.settings.enabled
    requires Offered(lib, codec, first).Some? && second.read == Got(Offered(lib, codec, first))
    requires KeyOf(lib, second).Some? && Readable(codec, second)
    ensures first.produced.Some?
    ensures Respond(lib, codec, second).Ok?
    ensures SameButReread(codec, first.produced.value.body, Respond(lib, codec, second).value.body)
    ensures Respond(lib, codec, second).value.structured.None?
  {
    hide CacheKey;
  }
}
