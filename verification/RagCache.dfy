/**
 The exact-question answer cache: what identifies an answer, and what a query returns when its cache
 is shared, unreliable and best-effort.

 The key is a digest of a namespace and of the question; the namespace is a digest of the JSON written
 for the settings that affect answers, with credentials replaced by digests. Settings are any Python
 values, so writing them may raise. Python's case folding and `str`, the URL library, the JSON codec of
 results and the coordinator are arbitrary functions.
 */
module RagCache {
  import opened Basics
  import opened Text
  import opened Documents
  import opened Json
  import opened Python
  import KVCache

  // ---------------------------------------------------------------- identity of a configuration

  const BEHAVIOR_FIELDS: set<string> := {
    "table_name", "embedding_provider", "embedding_model", "llm_provider", "llm_model", "strategy", "top_k",
    "max_chunks_per_source", "hyde_prompt", "multi_query_prompt", "auto_strategy_prompt", "multi_query_count",
    "parent_window_size", "hybrid_bm25_weight", "reranker", "reranker_model", "rerank_top_n",
    "lightrag_working_dir", "system_prompt", "history", "response_format", "filters", "vector_backend",
    "turbovec_bit_width" }

  datatype VectorStoreConfig = VectorStoreConfig(provider: string, options: map<string, PyValue>)

  /** `attribute` reads a behaviour field by name; the other settings are spelled out. */
  datatype Config = Config(
    attribute: string -> PyValue,
    connection: Option<string>,
    vectorStore: Option<VectorStoreConfig>,
    indexDir: Option<string>,
    embeddingKey: Option<string>,
    llmKey: Option<string>,
    outputModel: Option<string>)

  /** Foreign functions: case folding, `str` of a value and of a key, and a URL without credentials. */
  datatype Library = Library(
    fold: string -> string, show: PyValue -> string, showKey: Key -> string, locate: string -> string)

  function Optional(value: Option<string>): PyValue {
    if value.None? then PyNone else PyStr(value.value)
  }

  /** An empty credential is no credential. */
  function Known(value: Option<string>): Option<string> {
    if value == Some("") then None else value
  }

  function SecretFingerprint(value: Option<string>): PyValue {
    if Known(value).None? then PyNone else PyStr(HexDigest(Utf8(value.value)))
  }

  function TargetKey(lib: Library, value: string): PyValue {
    PyStr(HexDigest(Utf8(lib.locate(value))))
  }

  function Underscored(text: string): (r: string)
    ensures |r| == |text|
    ensures forall i :: 0 <= i < |text| ==> r[i] == if text[i] == '-' then '_' else text[i]
  {
    if text == "" then "" else [if text[0] == '-' then '_' else text[0]] + Underscored(text[1..])
  }

  predicate Contains(text: string, part: string) {
    part <= text || (text != "" && Contains(text[1..], part))
  }

  predicate NamesSecret(key: string) {
    || Contains(key, "secret") || Contains(key, "password") || Contains(key, "token")
    || Contains(key, "api_key") || Contains(key, "credential") || Contains(key, "auth")
  }

  predicate NamesTarget(key: string) {
    key in {"url", "endpoint", "dsn", "connection_string"}
  }

  function KeyName(lib: Library, k: Key): string {
    if k.StrKey? then k.text else lib.showKey(k)
  }

  /** The keys with this `str`; of several, the last inserted wins, which the model settles by their order. */
  function KeysNamed(lib: Library, keys: set<Key>, name: string): set<Key> {
    set k | k in keys && KeyName(lib, k) == name
  }

  function CacheOption(lib: Library, key: string, value: PyValue): PyValue
    decreases value
  {
    var normalized := Underscored(lib.fold(key));
    if NamesSecret(normalized) then SecretFingerprint(Some(lib.show(value)))
    else if NamesTarget(normalized) && value.PyStr? then
      Named(map["target" := TargetKey(lib, value.text), "credential" := SecretFingerprint(Some(value.text))])
    else if value.PyDict? then
      Named(map name | name in (set k | k in value.fields :: KeyName(lib, k)) && KeysNamed(lib, value.fields.Keys, name) != {} ::
              CacheOption(lib, name, value.fields[Least(KeysNamed(lib, value.fields.Keys, name))]))
    else if value.PyList? then
      PyList(seq(|value.items|, i requires 0 <= i < |value.items| => CacheOption(lib, key, value.items[i])))
    else value
  }

  function Redacted(lib: Library, store: Option<VectorStoreConfig>): PyValue {
    if store.None? then PyNone
    else
      Named(map["provider" := PyStr(store.value.provider),
                "options" := Named(map k | k in store.value.options :: CacheOption(lib, k, store.value.options[k]))])
  }

  const OWN_FIELDS: set<string> := {
    "schema_version", "connection_key", "connection_credential", "vector_store", "turbovec_index_dir",
    "tenant_scope", "embedding_credential", "llm_credential", "output_model" }

  function OwnField(lib: Library, config: Config, tenant: Option<string>, name: string): PyValue {
    match name
    case "connection_key" => TargetKey(lib, if config.connection.None? then "" else config.connection.value)
    case "connection_credential" => SecretFingerprint(config.connection)
    case "vector_store" => Redacted(lib, config.vectorStore)
    case "turbovec_index_dir" => Optional(config.indexDir)
    case "tenant_scope" => Optional(tenant)
    case "embedding_credential" => SecretFingerprint(config.embeddingKey)
    case "llm_credential" => SecretFingerprint(config.llmKey)
    case "output_model" => Optional(config.outputModel)
    case _ => PyNum("1")
  }

  /** Every field but `output_model` is always there. */
  function Payload(lib: Library, config: Config, tenant: Option<string>): map<string, PyValue> {
    (map name | name in BEHAVIOR_FIELDS :: config.attribute(name))
    + map name | name in OWN_FIELDS && (name == "output_model" ==> config.outputModel.Some?) :: OwnField(lib, config, tenant, name)
  }

  /** The namespace, if the settings can be written at all. */
  function CacheNamespace(lib: Library, config: Config, tenant: Option<string>): Option<string> {
    match Serialize(Named(Payload(lib, config, tenant)))
    case None => None
    case Some(value) => Some(HexDigest(Utf8(Dump(true, value))))
  }

  function KeyIn(namespace: string, question: string): string {
    HexDigest(Utf8(namespace + (":" + HexDigest(Utf8(question)))))
  }

  function CacheKey(lib: Library, config: Config, question: string, tenant: Option<string>): Option<string> {
    match CacheNamespace(lib, config, tenant)
    case None => None
    case Some(namespace) => Some(KeyIn(namespace, question))
  }

  /** Every setting that affects answers can be written. */
  ghost predicate Derivable(lib: Library, c: Config) {
    && (forall name :: name in BEHAVIOR_FIELDS ==> Serialize(c.attribute(name)).Some?)
    && Serialize(Redacted(lib, c.vectorStore)).Some?
  }

  /** The same answers are allowed: every setting that affects them is written alike, and the tenant agrees. */
  ghost predicate SameScope(lib: Library, a: Config, t: Option<string>, b: Config, u: Option<string>) {
    && t == u
    && (forall name :: name in BEHAVIOR_FIELDS ==> Serialize(a.attribute(name)) == Serialize(b.attribute(name)))
    && Known(a.connection) == Known(b.connection)
    && Serialize(Redacted(lib, a.vectorStore)) == Serialize(Redacted(lib, b.vectorStore))
    && a.indexDir == b.indexDir
    && Known(a.embeddingKey) == Known(b.embeddingKey)
    && Known(a.llmKey) == Known(b.llmKey)
    && a.outputModel == b.outputModel
  }

  /** `in` on strings: the part occurs somewhere. */
  lemma {:induction false} ContainsIsOccurrence(text: string, part: string)
    ensures Contains(text, part) <==> exists a, b :: text == a + (part + b)
  {
    if part <= text {
      assert text == "" + (part + text[|part|..]);
    } else if text != "" {
      ContainsIsOccurrence(text[1..], part);
      if Contains(text[1..], part) {
        var a, b :| text[1..] == a + (part + b);
        assert text == ([text[0]] + a) + (part + b);
      }
      if a, b :| text == a + (part + b) {
        assert a != "" ==> text[1..] == a[1..] + (part + b);
        assert a == "" ==> part <= text;
      }
    }
  }

  /** Neither the key nor, inside, any other key names a secret or a target, and all keys are texts. */
  ghost predicate Plain(lib: Library, key: string, value: PyValue)
    decreases value
  {
    var normalized := Underscored(lib.fold(key));
    && !NamesSecret(normalized) && !(NamesTarget(normalized) && value.PyStr?)
    && (value.PyDict? ==> forall k :: k in value.fields ==> k.StrKey? && Plain(lib, k.text, value.fields[k]))
    && (value.PyList? ==> forall i :: 0 <= i < |value.items| ==> Plain(lib, key, value.items[i]))
  }

  lemma OnlyKeyNamed(lib: Library, keys: set<Key>, name: string)
    requires StrKeyed(keys)
    ensures KeysNamed(lib, keys, name) == if StrKey(name) in keys then {StrKey(name)} else {}
    ensures StrKey(name) in keys ==> Least(KeysNamed(lib, keys, name)) == StrKey(name)
  {}

  /** An option without secrets or targets enters the namespace as it is, however deep. */
  lemma {:induction false} PlainOptionsAreKept(lib: Library, key: string, value: PyValue)
    requires Plain(lib, key, value)
    ensures CacheOption(lib, key, value) == value
    decreases value
  {
    hide NamesSecret, NamesTarget, Underscored;
    if value.PyDict? {
      var kept := CacheOption(lib, key, value);
      forall k | k in value.fields ensures k in kept.fields && kept.fields[k] == value.fields[k] {
        OnlyKeyNamed(lib, value.fields.Keys, k.text);
        assert k == StrKey(k.text) && KeyName(lib, k) == k.text;
        PlainOptionsAreKept(lib, k.text, value.fields[k]);
      }
      forall k | k in kept.fields ensures k in value.fields {
        OnlyKeyNamed(lib, value.fields.Keys, k.text);
      }
      assert kept.fields == value.fields;
    } else if value.PyList? {
      forall i | 0 <= i < |value.items| ensures CacheOption(lib, key, value.items[i]) == value.items[i] {
        PlainOptionsAreKept(lib, key, value.items[i]);
      }
      assert CacheOption(lib, key, value).items == value.items;
    }
  }

  /** A secret option is told by what it prints as, a target by its whole text. */
  lemma {:induction false} RedactedOptionsAreTold(lib: Library, key: string, a: PyValue, b: PyValue)
    ensures NamesSecret(Underscored(lib.fold(key))) ==>
              (CacheOption(lib, key, a) == CacheOption(lib, key, b) <==> lib.show(a) == lib.show(b))
    ensures !NamesSecret(Underscored(lib.fold(key))) && NamesTarget(Underscored(lib.fold(key))) && a.PyStr? && b.PyStr? ==>
              (CacheOption(lib, key, a) == CacheOption(lib, key, b) <==> a == b)
  {
    hide NamesSecret, NamesTarget, Underscored, SecretFingerprint, TargetKey, Named;
    SecretsAreTold(Some(lib.show(a)), Some(lib.show(b)));
    if a.PyStr? && b.PyStr? {
      SecretsAreTold(Some(a.text), Some(b.text));
      var x := map["target" := TargetKey(lib, a.text), "credential" := SecretFingerprint(Some(a.text))];
      var y := map["target" := TargetKey(lib, b.text), "credential" := SecretFingerprint(Some(b.text))];
      assert |"target"| != |"credential"|;
      assert x["credential"] == SecretFingerprint(Some(a.text)) && y["credential"] == SecretFingerprint(Some(b.text));
      NamedFields(x);
      NamedFields(y);
      assert "credential" in x && "credential" in y;
    }
  }

  lemma SecretsAreTold(a: Option<string>, b: Option<string>)
    ensures SecretFingerprint(a) == SecretFingerprint(b) <==> Known(a) == Known(b)
  {
    hide Utf8, HexDigest;
    if a.Some? && b.Some? {
      DigestUnique(Utf8(a.value), Utf8(b.value));
      Utf8Unique(a.value, b.value);
    }
  }

  lemma FieldsApart()
    ensures BEHAVIOR_FIELDS !! OWN_FIELDS
  {}

  /** A payload names its fields, so equal payloads have equal fields. */
  lemma PayloadFields(lib: Library, c: Config, t: Option<string>)
    ensures var p := Payload(lib, c, t);
            && (forall k :: k in BEHAVIOR_FIELDS ==> k in p && p[k] == c.attribute(k))
            && (forall k :: k in OWN_FIELDS ==>
                  (k in p <==> (k == "output_model" ==> c.outputModel.Some?)) && (k in p ==> p[k] == OwnField(lib, c, t, k)))
  {
    hide OwnField, BEHAVIOR_FIELDS, OWN_FIELDS;
    FieldsApart();
  }

  /** What is written for the fields that are not settings by name. */
  lemma OwnFieldsAgree(lib: Library, c: Config, t: Option<string>, d: Config, u: Option<string>)
    requires c.outputModel.Some? <==> d.outputModel.Some?
    ensures (forall k :: k in OWN_FIELDS && (k == "output_model" ==> c.outputModel.Some?) ==>
               Serialize(OwnField(lib, c, t, k)) == Serialize(OwnField(lib, d, u, k)))
            <==> && t == u && Known(c.connection) == Known(d.connection)
                 && Serialize(Redacted(lib, c.vectorStore)) == Serialize(Redacted(lib, d.vectorStore)) && c.indexDir == d.indexDir
                 && Known(c.embeddingKey) == Known(d.embeddingKey) && Known(c.llmKey) == Known(d.llmKey)
                 && c.outputModel == d.outputModel
  {
    hide Redacted, SecretFingerprint, TargetKey, BEHAVIOR_FIELDS, Serialize, Optional, Known;
    SecretsAreWritten(c.connection, d.connection);
    SecretsAreWritten(c.embeddingKey, d.embeddingKey);
    SecretsAreWritten(c.llmKey, d.llmKey);
    OptionalsAreWritten(c.indexDir, d.indexDir);
    OptionalsAreWritten(t, u);
    OptionalsAreWritten(c.outputModel, d.outputModel);
    SameTarget(lib, c.connection, d.connection);
    assert OwnField(lib, c, t, "connection_credential") == SecretFingerprint(c.connection);
    assert OwnField(lib, c, t, "embedding_credential") == SecretFingerprint(c.embeddingKey);
    assert OwnField(lib, c, t, "llm_credential") == SecretFingerprint(c.llmKey);
    assert OwnField(lib, c, t, "vector_store") == Redacted(lib, c.vectorStore);
    assert OwnField(lib, c, t, "turbovec_index_dir") == Optional(c.indexDir);
    assert OwnField(lib, c, t, "tenant_scope") == Optional(t);
    assert OwnField(lib, c, t, "output_model") == Optional(c.outputModel);
  }

  lemma SecretsAreWritten(a: Option<string>, b: Option<string>)
    ensures Serialize(SecretFingerprint(a)).Some?
    ensures Serialize(SecretFingerprint(a)) == Serialize(SecretFingerprint(b)) <==> Known(a) == Known(b)
  {
    hide Utf8, HexDigest;
    SecretsAreTold(a, b);
  }

  lemma OptionalsAreWritten(a: Option<string>, b: Option<string>)
    ensures Serialize(Optional(a)).Some?
    ensures Serialize(Optional(a)) == Serialize(Optional(b)) <==> a == b
  {}

  lemma SameTarget(lib: Library, a: Option<string>, b: Option<string>)
    ensures Known(a) == Known(b) ==> (if a.None? then "" else a.value) == (if b.None? then "" else b.value)
  {}

  lemma PayloadsAgree(lib: Library, c: Config, t: Option<string>, d: Config, u: Option<string>)
    ensures var (p, q) := (Payload(lib, c, t), Payload(lib, d, u));
            (p.Keys == q.Keys && forall k :: k in p.Keys * q.Keys ==> Serialize(p[k]) == Serialize(q[k]))
            <==> SameScope(lib, c, t, d, u)
  {
    hide OwnField, Redacted, Known, Payload, BEHAVIOR_FIELDS, OWN_FIELDS, Serialize;
    var p, q := Payload(lib, c, t), Payload(lib, d, u);
    PayloadFields(lib, c, t);
    PayloadFields(lib, d, u);
    PayloadKeys(lib, c, t);
    PayloadKeys(lib, d, u);
    OutputModelIsOwn();
    var alike := p.Keys == q.Keys && forall k :: k in p.Keys * q.Keys ==> Serialize(p[k]) == Serialize(q[k]);
    if alike || SameScope(lib, c, t, d, u) {
      assert "output_model" in p <==> c.outputModel.Some?;
      assert "output_model" in q <==> d.outputModel.Some?;
      OwnFieldsAgree(lib, c, t, d, u);
    }
    if alike {
      forall k | k in BEHAVIOR_FIELDS ensures Serialize(c.attribute(k)) == Serialize(d.attribute(k)) {
        assert k in p.Keys * q.Keys;
      }
      forall k | k in OWN_FIELDS && (k == "output_model" ==> c.outputModel.Some?)
        ensures Serialize(OwnField(lib, c, t, k)) == Serialize(OwnField(lib, d, u, k))
      {
        assert k in p.Keys * q.Keys;
      }
    }
  }

  lemma OutputModelIsOwn()
    ensures "output_model" in OWN_FIELDS && "vector_store" in OWN_FIELDS
  {}

  lemma PayloadKeys(lib: Library, c: Config, t: Option<string>)
    ensures forall k :: k in Payload(lib, c, t) ==> k in BEHAVIOR_FIELDS || k in OWN_FIELDS
  {
    hide OwnField, BEHAVIOR_FIELDS, OWN_FIELDS;
  }

  lemma OwnFieldsAreWritten(lib: Library, c: Config, t: Option<string>, name: string)
    requires name != "vector_store"
    ensures Serialize(OwnField(lib, c, t, name)).Some?
  {
    hide Redacted, HexDigest, Utf8;
  }

  /** There is a namespace exactly when every setting that enters it can be written. */
  lemma {:induction false} NamespaceExistsIff(lib: Library, c: Config, t: Option<string>)
    ensures CacheNamespace(lib, c, t).Some? <==> Derivable(lib, c)
  {
    hide Redacted, Payload, BEHAVIOR_FIELDS, OWN_FIELDS, Serialize, Named, OwnField;
    var p := Payload(lib, c, t);
    PayloadFields(lib, c, t);
    PayloadKeys(lib, c, t);
    OutputModelIsOwn();
    NamedSerializes(p);
    assert OwnField(lib, c, t, "vector_store") == Redacted(lib, c.vectorStore) by { VectorStoreField(lib, c, t); }
    assert "vector_store" in p && p["vector_store"] == Redacted(lib, c.vectorStore);
    forall k | k in p && k in OWN_FIELDS && k != "vector_store" ensures Serialize(p[k]).Some? { OwnFieldsAreWritten(lib, c, t, k); }
    forall k | k in BEHAVIOR_FIELDS ensures k in p && p[k] == c.attribute(k) {}
  }

  lemma VectorStoreField(lib: Library, c: Config, t: Option<string>)
    ensures OwnField(lib, c, t, "vector_store") == Redacted(lib, c.vectorStore) && "vector_store" != "output_model"
  {}

  /**
   * Two namespaces are equal exactly when every setting that affects answers is written alike and the
   * credentials behind them and the tenant agree.
   */
  lemma {:induction false} NamespacesAreExact(lib: Library, c: Config, t: Option<string>, d: Config, u: Option<string>)
    requires CacheNamespace(lib, c, t).Some? && CacheNamespace(lib, d, u).Some?
    ensures CacheNamespace(lib, c, t) == CacheNamespace(lib, d, u) <==> SameScope(lib, c, t, d, u)
  {
    hide HexDigest, Utf8, Dump, Payload, SameScope, Serialize, Named;
    var p, q := Payload(lib, c, t), Payload(lib, d, u);
    PayloadsAgree(lib, c, t, d, u);
    NamedAreTold(p, q);
    var v, w := Serialize(Named(p)).value, Serialize(Named(q)).value;
    TextIsCanonical(true, v, w);
    Utf8Unique(Dump(true, v), Dump(true, w));
    DigestUnique(Utf8(Dump(true, v)), Utf8(Dump(true, w)));
  }

  lemma ColonSplits(a: string, x: string, b: string, y: string)
    requires ':' !in a && ':' !in b && a + (":" + x) == b + (":" + y)
    ensures a == b && x == y
  {
    var whole := a + (":" + x);
    assert whole[|a|] == ':' && whole[|b|] == ':';
    assert |a| == |b|;
    Cut(a, ":" + x, b, ":" + y);
    assert b[|a|..] + (":" + y) == ":" + y;
    assert (":" + x)[1..] == x && (":" + y)[1..] == y;
  }

  lemma DigestsHaveNoColon(bytes: Bytes)
    ensures ':' !in HexDigest(bytes)
  {}

  /** Two cache keys are equal exactly when question and namespace are, a namespace being hexadecimal. */
  lemma {:induction false} KeysAreExact(m: string, p: string, n: string, q: string)
    requires ':' !in m && ':' !in n
    ensures KeyIn(m, p) == KeyIn(n, q) <==> m == n && p == q
  {
    hide HexDigest, Utf8;
    var x, y := HexDigest(Utf8(p)), HexDigest(Utf8(q));
    Utf8Unique(p, q);
    DigestUnique(Utf8(p), Utf8(q));
    Utf8Unique(m + (":" + x), n + (":" + y));
    DigestUnique(Utf8(m + (":" + x)), Utf8(n + (":" + y)));
    if KeyIn(m, p) == KeyIn(n, q) { ColonSplits(m, x, n, y); }
  }

  lemma NamespaceHasNoColon(lib: Library, c: Config, t: Option<string>)
    ensures CacheNamespace(lib, c, t).Some? ==> ':' !in CacheNamespace(lib, c, t).value
  {
    hide Serialize, Named, Payload;
    var written := Serialize(Named(Payload(lib, c, t)));
    if written.Some? { DigestsHaveNoColon(Utf8(Dump(true, written.value))); }
  }

  // ---------------------------------------------------------------- one query

  datatype Chunk = Chunk(content: string, score: real, source: string, page: Option<int>, metadata: Metadata)

  /** Everything a result says about the answer, apart from how it was obtained. */
  datatype Body = Body(query: string, answer: string, strategy: string, chunks: seq<Chunk>, sources: seq<string>, metadata: Metadata)

  datatype Answer = Answer(body: Body, timing: real, usage: Option<nat>, structured: Option<string>)

  /**
   * The JSON form of results: it may fail to be produced or to be read back, leaves out the structured
   * answer, and rereads loose metadata in its own way (a tuple comes back as a list).
   */
  datatype Codec = Codec(encode: Answer -> Option<Bytes>, decode: Bytes -> Option<Answer>, reread: Metadata -> Metadata)
  {
    function Reread(body: Body): Body {
      body.(chunks := seq(|body.chunks|, i requires 0 <= i < |body.chunks| =>
                        body.chunks[i].(metadata := reread(body.chunks[i].metadata))),
            metadata := reread(body.metadata))
    }

    ghost predicate Valid() {
      forall a :: encode(a).Some? && decode(encode(a).value).Some? ==>
        decode(encode(a).value).value == a.(body := Reread(a.body), structured := None)
    }
  }

  datatype Settings = Settings(config: Config, tenant: Option<string>, enabled: bool, maxPayload: nat)

  /** What reading the backend brings: an error, a cancellation or exit that is no `Exception`, or perhaps a payload. */
  datatype Read = ReadFailed | ReadInterrupted | Got(payload: Option<Bytes>)

  datatype Write = Written | WriteFailed | WriteInterrupted

  datatype Failure = KeyUnderivable | Interrupted | CoordinatorFailed | Unserializable

  /** One call: the backend's replies, what the coordinator gives if asked, and the time a hit took. */
  datatype Call = Call(settings: Settings, question: string, read: Read, produced: Option<Answer>, write: Write, elapsed: real)

  function KeyOf(lib: Library, call: Call): Option<string> {
    CacheKey(lib, call.settings.config, call.question, call.settings.tenant)
  }

  function Lookup(codec: Codec, read: Read, maxPayload: nat): Option<Answer> {
    if !read.Got? || read.payload.None? || |read.payload.value| > maxPayload then None
    else codec.decode(read.payload.value)
  }

  function CachedAnswer(lib: Library, codec: Codec, call: Call): Option<Answer> {
    if call.settings.enabled && KeyOf(lib, call).Some? then Lookup(codec, call.read, call.settings.maxPayload) else None
  }

  /** The key is derived, and the backend read, before anything else. */
  predicate LookupFails(lib: Library, call: Call) {
    call.settings.enabled && (KeyOf(lib, call).None? || call.read.ReadInterrupted?)
  }

  function MaxReal(a: real, b: real): real {
    if a < b then b else a
  }

  /** The payload offered to the backend, whether or not it takes it. */
  function Offered(lib: Library, codec: Codec, call: Call): Option<Bytes> {
    if !call.settings.enabled || LookupFails(lib, call) || CachedAnswer(lib, codec, call).Some? || call.produced.None? then None
    else
      match codec.encode(call.produced.value)
      case None => None
      case Some(payload) => if |payload| > call.settings.maxPayload then None else Some(payload)
  }

  function Respond(lib: Library, codec: Codec, call: Call): Result<Answer, Failure> {
    if LookupFails(lib, call) then Err(if KeyOf(lib, call).None? then KeyUnderivable else Interrupted)
    else if CachedAnswer(lib, codec, call).Some? then
      Ok(CachedAnswer(lib, codec, call).value.(timing := MaxReal(0.0, call.elapsed), usage := None))
    else if call.produced.None? then Err(CoordinatorFailed)
    else if call.settings.enabled && codec.encode(call.produced.value).None? then Err(Unserializable)
    else if Offered(lib, codec, call).Some? && call.write.WriteInterrupted? then Err(Interrupted)
    else Ok(call.produced.value)
  }

  class RAGPipeline {
    const lib: Library
    const codec: Codec
    const settings: Settings
    var lastUsage: Option<nat>

    constructor (lib: Library, codec: Codec, settings: Settings)
      ensures this.lib == lib && this.codec == codec && this.settings == settings && lastUsage == None
    {
      this.lib, this.codec, this.settings := lib, codec, settings;
      lastUsage := None;
    }

    /** `produced` is consulted only when the cache does not answer, `write` only when something is offered. */
    method QueryWithRuntime(question: string, read: Read, produced: Option<Answer>, write: Write, elapsed: real)
      returns (result: Result<Answer, Failure>, offered: Option<(string, Bytes)>)
      modifies this
      ensures var call := Call(settings, question, read, produced, write, elapsed);
              && result == Respond(lib, codec, call)
              && (offered.Some? <==> Offered(lib, codec, call).Some?)
              && (offered.Some? ==> KeyOf(lib, call) == Some(offered.value.0) && Offered(lib, codec, call) == Some(offered.value.1))
              && lastUsage == (if LookupFails(lib, call) then old(lastUsage)
                               else if CachedAnswer(lib, codec, call).Some? then None
                               else if produced.None? then old(lastUsage) else produced.value.usage)
    {
      hide CacheKey;
      offered := None;
      var key := CacheKey(lib, settings.config, question, settings.tenant);
      if settings.enabled {
        if key.None? { return Err(KeyUnderivable), None; }
        if read.ReadInterrupted? { return Err(Interrupted), None; }
        var cached := Lookup(codec, read, settings.maxPayload);
        if cached.Some? {
          lastUsage := None;
          return Ok(cached.value.(timing := MaxReal(0.0, elapsed), usage := None)), None;
        }
      }
      if produced.None? { return Err(CoordinatorFailed), None; }
      lastUsage := produced.value.usage;
      if settings.enabled {
        var payload := codec.encode(produced.value);
        if payload.None? { return Err(Unserializable), None; }
        if |payload.value| <= settings.maxPayload {
          offered := Some((key.value, payload.value));
          if write.WriteInterrupted? { return Err(Interrupted), offered; }
        }
      }
      result := Ok(produced.value);
    }
  }

  // ---------------------------------------------------------------- runs over a shared backend

  ghost predicate OfferedBy(lib: Library, codec: Codec, call: Call, key: string, payload: Bytes) {
    Offered(lib, codec, call) == Some(payload) && KeyOf(lib, call) == Some(key)
  }

  /** Some call offered what this one read, under the key it read. */
  ghost predicate HonestRead(lib: Library, codec: Codec, calls: seq<Call>, call: Call) {
    call.settings.enabled && KeyOf(lib, call).Some? && call.read.Got? && call.read.payload.Some? ==>
      exists j :: 0 <= j < |calls| && OfferedBy(lib, codec, calls[j], KeyOf(lib, call).value, call.read.payload.value)
  }

  /**
   * All that is asked of a backend, whichever calls overlap: a payload read under a key was offered
   * under that key by some call. It may fail, forget, refuse, or return stale payloads.
   */
  ghost predicate Honest(lib: Library, codec: Codec, calls: seq<Call>) {
    forall i :: 0 <= i < |calls| ==> HonestRead(lib, codec, calls, calls[i])
  }

  /** `j`'s coordinator produced what `i` returned, for the same question in the same scope. */
  ghost predicate ProducedFor(lib: Library, codec: Codec, calls: seq<Call>, j: nat, i: nat, answer: Answer)
    requires i < |calls| && j < |calls|
  {
    && calls[j].produced.Some?
    && answer.body == (if i == j then calls[j].produced.value.body else codec.Reread(calls[j].produced.value.body))
    && calls[j].question == calls[i].question
    && SameScope(lib, calls[j].settings.config, calls[j].settings.tenant, calls[i].settings.config, calls[i].settings.tenant)
  }

  lemma {:induction false} SameKeySameScope(lib: Library, a: Call, b: Call)
    ensures KeyOf(lib, a).Some? && KeyOf(lib, b).Some? ==>
              (KeyOf(lib, a) == KeyOf(lib, b) <==>
               && a.question == b.question
               && SameScope(lib, a.settings.config, a.settings.tenant, b.settings.config, b.settings.tenant))
  {
    hide KeyIn, CacheNamespace, SameScope;
    var c, d := a.settings, b.settings;
    if KeyOf(lib, a).Some? && KeyOf(lib, b).Some? {
      NamespaceHasNoColon(lib, c.config, c.tenant);
      NamespaceHasNoColon(lib, d.config, d.tenant);
      KeysAreExact(CacheNamespace(lib, c.config, c.tenant).value, a.question, CacheNamespace(lib, d.config, d.tenant).value, b.question);
      NamespacesAreExact(lib, c.config, c.tenant, d.config, d.tenant);
    }
  }

  /**
   * Cache transparency. However many pipelines share a backend and however it misbehaves, every
   * returned answer, with its chunks and sources, was produced by a coordinator for the same question
   * in the same scope, tenant included; what came from the cache has had its loose metadata reread.
   */
  lemma {:induction false} AnswersAreProduced(lib: Library, codec: Codec, calls: seq<Call>, i: nat) returns (j: nat)
    requires codec.Valid() && Honest(lib, codec, calls)
    requires i < |calls| && Respond(lib, codec, calls[i]).Ok?
    ensures j < |calls| && ProducedFor(lib, codec, calls, j, i, Respond(lib, codec, calls[i]).value)
    ensures j != i <==> CachedAnswer(lib, codec, calls[i]).Some?
    ensures CachedAnswer(lib, codec, calls[j]).None?
  {
    hide CacheKey, SameScope;
    j := i;
    if CachedAnswer(lib, codec, calls[i]).Some? {
      assert HonestRead(lib, codec, calls, calls[i]);
      j :| 0 <= j < |calls| && OfferedBy(lib, codec, calls[j], KeyOf(lib, calls[i]).value, calls[i].read.payload.value);
      SameKeySameScope(lib, calls[j], calls[i]);
    } else {
      ScopeIsReflexive(lib, calls[i].settings.config, calls[i].settings.tenant);
    }
  }

  lemma ScopeIsReflexive(lib: Library, c: Config, t: Option<string>)
    ensures SameScope(lib, c, t, c, t)
  {}

  /**
   * When the cache does not answer, the query gives what it would give with caching off exactly when
   * the settings can be written, the backend's failures are ordinary exceptions, and a produced result
   * has a JSON form.
   */
  lemma {:induction false} BackendFailureIsInvisibleIff(lib: Library, codec: Codec, call: Call)
    requires call.settings.enabled && CachedAnswer(lib, codec, call).None?
    ensures Respond(lib, codec, call) == Respond(lib, codec, call.(settings := call.settings.(enabled := false))) <==>
            && Derivable(lib, call.settings.config)
            && !call.read.ReadInterrupted?
            && (call.produced.Some? ==>
                  && codec.encode(call.produced.value).Some?
                  && (|codec.encode(call.produced.value).value| <= call.settings.maxPayload ==> !call.write.WriteInterrupted?))
  {
    hide CacheNamespace, Derivable;
    NamespaceExistsIff(lib, call.settings.config, call.settings.tenant);
  }

  /** Among the settings that cannot be written: a field with a dictionary of text and number keys inside. */
  lemma {:induction false} MixedSettingFails(lib: Library, codec: Codec, call: Call, field: string, inner: PyValue, a: Key, b: Key)
    requires call.settings.enabled && field in BEHAVIOR_FIELDS
    requires call.settings.config.attribute(field) == Named(map["meta" := inner])
    requires inner.PyDict? && a in inner.fields && b in inner.fields && a.NumKey? && b.StrKey?
    ensures Respond(lib, codec, call) == Err(KeyUnderivable)
  {
    hide CacheNamespace, Serialize, Named, BEHAVIOR_FIELDS, Redacted;
    MixedKeysRaise(inner, a, b);
    NamedSerializes(map["meta" := inner]);
    assert "meta" in map["meta" := inner];
    NamespaceExistsIff(lib, call.settings.config, call.settings.tenant);
  }

  /** A hit on its own question differs from the produced answer only in timing, usage, reread metadata and the structured answer. */
  lemma {:induction false} HitLosesStructure(lib: Library, codec: Codec, call: Call)
    requires codec.Valid() && call.produced.Some? && codec.encode(call.produced.value).Some?
    requires CachedAnswer(lib, codec, call).Some? && call.read.payload == codec.encode(call.produced.value)
    ensures var (hit, produced) := (Respond(lib, codec, call), call.produced.value);
            && hit.Ok? && hit.value == Answer(codec.Reread(produced.body), MaxReal(0.0, call.elapsed), None, None)
            && (hit.value.structured == produced.structured <==> produced.structured.None?)
  {
    hide CacheKey;
  }

  // ---------------------------------------------------------------- the process-local backend

  /** The script holds only what the calls offered. */
  ghost predicate IsTraffic(lib: Library, codec: Codec, calls: seq<Call>, script: seq<KVCache.Event>) {
    forall n :: 0 <= n < |script| && script[n].op.Set? ==>
      exists j :: 0 <= j < |calls| && OfferedBy(lib, codec, calls[j], script[n].op.key, script[n].op.value)
  }

  /** The read was answered by the cache at some point of the script. */
  ghost predicate ReadFrom(lib: Library, capacity: nat, script: seq<KVCache.Event>, call: Call, n: nat, now: real) {
    && n <= |script|
    && call.read.Got?
    && (KeyOf(lib, call).Some? ==>
          KVCache.Answer(capacity, script[..n], KVCache.Event(now, KVCache.Get(KeyOf(lib, call).value)))
          == (if call.read.payload.Some? then KVCache.Hit(call.read.payload.value) else KVCache.Miss))
  }

  lemma {:induction false} StoresAreTraffic(script: seq<KVCache.Event>, key: string)
    requires KVCache.LastStore(script, key).Some?
    ensures exists n :: 0 <= n < |script| && script[n].op.Set? && script[n].op.key == key
                        && script[n].op.value == KVCache.LastStore(script, key).value.value
  {
    var before, last := script[..|script| - 1], script[|script| - 1];
    if !(last.op.Set? && last.op.key == key && 1 <= last.op.ttlSeconds) {
      StoresAreTraffic(before, key);
      var n :| 0 <= n < |before| && before[n].op.Set? && before[n].op.key == key
               && before[n].op.value == KVCache.LastStore(before, key).value.value;
      assert script[n] == before[n];
    }
  }

  /** The in-memory cache is such a backend, at any capacity and however the calls overlap. */
  lemma {:induction false} InMemoryBackendIsHonest(
      lib: Library, codec: Codec, calls: seq<Call>, capacity: nat, script: seq<KVCache.Event>, at: seq<(nat, real)>)
    requires IsTraffic(lib, codec, calls, script) && |at| == |calls|
    requires forall i :: 0 <= i < |calls| ==> ReadFrom(lib, capacity, script, calls[i], at[i].0, at[i].1)
    ensures Honest(lib, codec, calls)
  {
    hide CacheKey, Offered;
    forall i | 0 <= i < |calls| ensures HonestRead(lib, codec, calls, calls[i]) {
      var call := calls[i];
      if KeyOf(lib, call).Some? && call.read.Got? && call.read.payload.Some? {
        var key := KeyOf(lib, call).value;
        var before := script[..at[i].0];
        assert ReadFrom(lib, capacity, script, call, at[i].0, at[i].1);
        KVCache.HitIsLatestStore(capacity, before, at[i].1, key);
        StoresAreTraffic(before, key);
        var n :| 0 <= n < |before| && before[n].op.Set? && before[n].op.key == key
                 && before[n].op.value == call.read.payload.value;
        assert script[n] == before[n];
      }
    }
  }
}
