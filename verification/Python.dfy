/**
 Python values as `json.dumps(sort_keys=True, default=str)` writes them.

 A dictionary is sorted by its keys before it is written, so keys that Python cannot compare with each
 other raise; number, boolean and `None` keys become text; and what JSON has no form for is written
 as its `str`. Lists and tuples are written alike.
 */
module Python {
  import opened Basics
  import opened Text
  import opened Json

  /** A boolean key is the number it equals, printed its own way; other hashable keys have a `str`. */
  datatype Key = StrKey(text: string) | NumKey(value: real, literal: string) | NoneKey | OtherKey(shown: string)

  datatype PyValue =
    | PyNone
    | PyBool(flag: bool)
    | PyNum(literal: Literal)
    | PyStr(text: string)
    | PyList(items: seq<PyValue>)
    | PyDict(fields: map<Key, PyValue>)
    | PyObject(shown: string)

  // ---------------------------------------------------------------- the order of keys

  function Rank(k: Key): nat {
    match k
    case StrKey(_) => 0
    case NumKey(_, _) => 1
    case NoneKey => 2
    case OtherKey(_) => 3
  }

  /** Python's order on texts and on numbers, made total. */
  predicate KeyLess(a: Key, b: Key) {
    if Rank(a) != Rank(b) then Rank(a) < Rank(b)
    else match a
      case StrKey(text) => Less(text, b.text)
      case NumKey(value, literal) => value < b.value || (value == b.value && Less(literal, b.literal))
      case NoneKey => false
      case OtherKey(shown) => Less(shown, b.shown)
  }

  lemma KeyLessTotal(a: Key, b: Key)
    ensures a == b || KeyLess(a, b) || KeyLess(b, a)
    ensures !(KeyLess(a, b) && KeyLess(b, a)) && !KeyLess(a, a)
  {
    match a
    case StrKey(text) => if b.StrKey? { LessTotal(text, b.text); } LessIrreflexive(text);
    case NumKey(_, literal) => if b.NumKey? { LessTotal(literal, b.literal); } LessIrreflexive(literal);
    case NoneKey =>
    case OtherKey(shown) => if b.OtherKey? { LessTotal(shown, b.shown); } LessIrreflexive(shown);
  }

  lemma KeyLessTransitive(a: Key, b: Key, c: Key)
    requires KeyLess(a, b) && KeyLess(b, c)
    ensures KeyLess(a, c)
  {
    hide Less;
    if Rank(a) == Rank(b) == Rank(c) {
      match a
      case StrKey(text) => LessTransitive(text, b.text, c.text);
      case NumKey(value, literal) =>
        if value == b.value == c.value { LessTransitive(literal, b.literal, c.literal); }
      case NoneKey =>
      case OtherKey(shown) => LessTransitive(shown, b.shown, c.shown);
    }
  }

  predicate IsLeast(k: Key, keys: set<Key>) {
    k in keys && forall j :: j in keys ==> j == k || KeyLess(k, j)
  }

  lemma LeastOfMore(x: Key, k: Key, keys: set<Key>)
    requires IsLeast(k, keys) && x !in keys && KeyLess(x, k)
    ensures IsLeast(x, keys + {x})
  {
    hide KeyLess;
    forall j | j in keys ensures KeyLess(x, j) {
      if j != k { KeyLessTransitive(x, k, j); }
    }
  }

  lemma {:induction false} LeastExists(keys: set<Key>)
    requires keys != {}
    ensures exists k :: IsLeast(k, keys)
  {
    hide KeyLess;
    var x :| x in keys;
    var others := keys - {x};
    assert keys == others + {x};
    if others == {} {
      assert IsLeast(x, keys);
    } else {
      LeastExists(others);
      var k :| IsLeast(k, others);
      KeyLessTotal(x, k);
      if KeyLess(x, k) { LeastOfMore(x, k, others); } else { assert IsLeast(k, keys); }
    }
  }

  lemma LeastIsUnique(keys: set<Key>, a: Key, b: Key)
    requires IsLeast(a, keys) && IsLeast(b, keys)
    ensures a == b
  {
    KeyLessTotal(a, b);
  }

  function Least(keys: set<Key>): (k: Key)
    requires keys != {}
    ensures IsLeast(k, keys)
  {
    LeastExists(keys);
    assert forall a, b :: IsLeast(a, keys) && IsLeast(b, keys) ==> a == b by {
      forall a, b | IsLeast(a, keys) && IsLeast(b, keys) ensures a == b { LeastIsUnique(keys, a, b); }
    }
    var k :| k in keys && IsLeast(k, keys);
    k
  }

  // ---------------------------------------------------------------- writing

  /** Can these keys be compared with each other, and each be written? */
  predicate Sortable(keys: set<Key>) {
    && (forall k :: k in keys ==> !k.OtherKey?)
    && (|keys| <= 1 || (forall k :: k in keys ==> k.StrKey?) || (forall k :: k in keys ==> k.NumKey?))
  }

  function KeyText(k: Key): string {
    match k
    case StrKey(text) => text
    case NumKey(_, literal) => literal
    case NoneKey => "null"
    case OtherKey(shown) => shown
  }

  /** What is written for a value; nothing if writing it raises. */
  function Serialize(v: PyValue): Option<Value>
    decreases v, 1, 0
  {
    match v
    case PyNone => Some(Null)
    case PyBool(flag) => Some(Bool(flag))
    case PyNum(literal) => Some(Num(literal))
    case PyStr(text) => Some(Str(text))
    case PyObject(shown) => Some(Str(shown))
    case PyList(items) => (
      match SerializeItems(items)
      case None => None
      case Some(values) => Some(Arr(values)))
    case PyDict(fields) =>
      if !Sortable(fields.Keys) then None
      else match SerializeFields(v, fields.Keys)
        case None => None
        case Some(members) => Some(Obj(members))
  }

  function SerializeItems(items: seq<PyValue>): Option<seq<Value>>
    decreases items
  {
    if items == [] then Some([])
    else
      var (first, rest) := (Serialize(items[0]), SerializeItems(items[1..]));
      if first.None? || rest.None? then None else Some([first.value] + rest.value)
  }

  /** The named fields, by key. */
  function SerializeFields(v: PyValue, keys: set<Key>): Option<seq<(string, Value)>>
    requires v.PyDict? && keys <= v.fields.Keys
    decreases v, 0, |keys|
  {
    if keys == {} then Some([])
    else
      var k := Least(keys);
      var (first, rest) := (Serialize(v.fields[k]), SerializeFields(v, keys - {k}));
      if first.None? || rest.None? then None else Some([(KeyText(k), first.value)] + rest.value)
  }

  // ---------------------------------------------------------------- what is told apart

  /** `IsJson` values are those that metadata may hold: text keys, finite numbers, no foreign objects. */
  predicate IsJson(v: PyValue)
    decreases v
  {
    match v
    case PyNum(literal) => literal !in {"NaN", "Infinity", "-Infinity"}
    case PyList(items) => forall i :: 0 <= i < |items| ==> IsJson(items[i])
    case PyDict(fields) => forall k :: k in fields ==> k.StrKey? && IsJson(fields[k])
    case PyObject(_) => false
    case _ => true
  }

  ghost predicate StrKeyed(keys: set<Key>) {
    forall k :: k in keys ==> k.StrKey?
  }

  /** Writing some fields works exactly when writing each of them does. */
  lemma {:induction false} FieldsSerialize(v: PyValue, keys: set<Key>)
    requires v.PyDict? && keys <= v.fields.Keys
    ensures SerializeFields(v, keys).Some? <==> forall k :: k in keys ==> Serialize(v.fields[k]).Some?
    decreases |keys|
  {
    hide Serialize;
    if keys != {} {
      FieldsSerialize(v, keys - {Least(keys)});
      assert keys == (keys - {Least(keys)}) + {Least(keys)};
    }
  }

  /** Two dictionaries with text keys are written alike exactly when their keys agree and each field is written alike. */
  lemma {:induction false} FieldsAreTold(v: PyValue, ks: set<Key>, w: PyValue, ls: set<Key>)
    requires v.PyDict? && ks <= v.fields.Keys && StrKeyed(ks) && SerializeFields(v, ks).Some?
    requires w.PyDict? && ls <= w.fields.Keys && StrKeyed(ls) && SerializeFields(w, ls).Some?
    ensures SerializeFields(v, ks) == SerializeFields(w, ls) <==>
            ks == ls && forall k :: k in ks ==> Serialize(v.fields[k]) == Serialize(w.fields[k])
    decreases |ks|
  {
    hide Serialize;
    if ks != {} && ls != {} {
      var k, l := Least(ks), Least(ls);
      FieldsAreTold(v, ks - {k}, w, ls - {l});
      assert ks == (ks - {k}) + {k} && ls == (ls - {l}) + {l};
      FirstField(v, ks);
      FirstField(w, ls);
    }
  }

  lemma FirstField(v: PyValue, keys: set<Key>)
    requires v.PyDict? && keys <= v.fields.Keys && keys != {} && SerializeFields(v, keys).Some?
    ensures var k, members := Least(keys), SerializeFields(v, keys).value;
            && members != [] && Serialize(v.fields[k]) == Some(members[0].1) && members[0].0 == KeyText(k)
            && SerializeFields(v, keys - {k}) == Some(members[1..])
  {
    hide Serialize;
  }

  /** A dictionary with text keys. */
  function Named(fields: map<string, PyValue>): (v: PyValue)
    ensures v.PyDict?
  {
    PyDict(map k | k in (set name | name in fields :: StrKey(name)) :: fields[k.text])
  }

  lemma NamedFields(fields: map<string, PyValue>)
    ensures StrKeyed(Named(fields).fields.Keys)
    ensures forall name :: name in fields <==> StrKey(name) in Named(fields).fields
    ensures forall name :: name in fields ==> Named(fields).fields[StrKey(name)] == fields[name]
  {}

  /** ... can be written exactly when each field can. */
  lemma {:induction false} NamedSerializes(fields: map<string, PyValue>)
    ensures Serialize(Named(fields)).Some? <==> forall name :: name in fields ==> Serialize(fields[name]).Some?
  {
    NamedFields(fields);
    var v := Named(fields);
    hide Named, SerializeFields;
    FieldsSerialize(v, v.fields.Keys);
    if forall name :: name in fields ==> Serialize(fields[name]).Some? {
      forall k | k in v.fields ensures Serialize(v.fields[k]).Some? {
        assert k == StrKey(k.text) && k.text in fields;
      }
    }
  }

  /** ... and is told by its names and by what is written for each. */
  lemma {:induction false} NamedAreTold(a: map<string, PyValue>, b: map<string, PyValue>)
    requires Serialize(Named(a)).Some? && Serialize(Named(b)).Some?
    ensures Serialize(Named(a)) == Serialize(Named(b)) <==>
            a.Keys == b.Keys && forall name :: name in a.Keys * b.Keys ==> Serialize(a[name]) == Serialize(b[name])
  {
    NamedFields(a);
    NamedFields(b);
    var v, w := Named(a), Named(b);
    hide Named, SerializeFields;
    FieldsAreTold(v, v.fields.Keys, w, w.fields.Keys);
    if v.fields.Keys == w.fields.Keys {
      forall name ensures name in a <==> name in b { assert name in a <==> StrKey(name) in v.fields; }
    }
    if a.Keys == b.Keys {
      forall k ensures k in v.fields <==> k in w.fields {
        assert k.StrKey? ==> k == StrKey(k.text);
      }
    }
  }

  /** A JSON value can always be written. */
  lemma {:induction false} JsonSerializes(v: PyValue)
    requires IsJson(v)
    ensures Serialize(v).Some?
    decreases v
  {
    hide SerializeItems, SerializeFields;
    match v
    case PyList(items) => JsonItemsSerialize(items);
    case PyDict(fields) =>
      forall k | k in fields ensures Serialize(fields[k]).Some? { JsonSerializes(fields[k]); }
      FieldsSerialize(v, fields.Keys);
    case _ =>
  }

  lemma {:induction false} JsonItemsSerialize(items: seq<PyValue>)
    requires forall i :: 0 <= i < |items| ==> IsJson(items[i])
    ensures SerializeItems(items).Some?
    decreases items
  {
    hide IsJson, Serialize;
    if items != [] {
      JsonSerializes(items[0]);
      JsonItemsSerialize(items[1..]);
    }
  }

  /** JSON values are equal exactly when they are written alike, whatever order their dictionaries are in. */
  lemma {:induction false} JsonIsTold(a: PyValue, b: PyValue)
    requires IsJson(a) && IsJson(b)
    ensures Serialize(a) == Serialize(b) <==> a == b
    decreases a
  {
    hide SerializeItems, SerializeFields;
    JsonSerializes(a);
    JsonSerializes(b);
    if a.PyList? && b.PyList? {
      ItemsAreTold(a.items, b.items);
    } else if a.PyDict? && b.PyDict? {
      DictsAreTold(a, b);
    }
  }

  lemma {:induction false} DictsAreTold(a: PyValue, b: PyValue)
    requires a.PyDict? && b.PyDict? && IsJson(a) && IsJson(b)
    ensures Serialize(a) == Serialize(b) <==> a == b
    decreases a, 0
  {
    hide SerializeItems, SerializeFields;
    JsonSerializes(a);
    JsonSerializes(b);
    FieldsAreTold(a, a.fields.Keys, b, b.fields.Keys);
    if a.fields.Keys == b.fields.Keys {
      forall k | k in a.fields ensures Serialize(a.fields[k]) == Serialize(b.fields[k]) <==> a.fields[k] == b.fields[k] {
        JsonIsTold(a.fields[k], b.fields[k]);
      }
      assert a.fields == b.fields <==> forall k :: k in a.fields ==> a.fields[k] == b.fields[k];
    }
  }

  lemma {:induction false} ItemsAreTold(xs: seq<PyValue>, ys: seq<PyValue>)
    requires forall i :: 0 <= i < |xs| ==> IsJson(xs[i])
    requires forall i :: 0 <= i < |ys| ==> IsJson(ys[i])
    ensures SerializeItems(xs) == SerializeItems(ys) <==> xs == ys
    decreases xs
  {
    hide IsJson, Serialize;
    JsonItemsSerialize(xs);
    JsonItemsSerialize(ys);
    if xs != [] && ys != [] {
      JsonIsTold(xs[0], ys[0]);
      ItemsAreTold(xs[1..], ys[1..]);
      assert xs == [xs[0]] + xs[1..] && ys == [ys[0]] + ys[1..];
      assert SerializeItems(xs).value[1..] == SerializeItems(xs[1..]).value;
      assert SerializeItems(ys).value[1..] == SerializeItems(ys[1..]).value;
    }
  }

  /** Other values may be written alike: a number key like the text it prints as, a foreign object like its `str`. */
  lemma ForeignValuesMerge(x: PyValue, value: real, literal: string)
    ensures Serialize(PyDict(map[NumKey(value, literal) := x])) == Serialize(PyDict(map[StrKey(literal) := x]))
    ensures Serialize(PyObject(literal)) == Serialize(PyStr(literal))
    ensures Serialize(PyDict(map[NoneKey := x])) == Serialize(PyDict(map[StrKey("null") := x]))
  {
    hide SerializeFields;
    var (n, t) := (PyDict(map[NumKey(value, literal) := x]), PyDict(map[StrKey(literal) := x]));
    assert n.fields.Keys == {NumKey(value, literal)} && t.fields.Keys == {StrKey(literal)};
    OneField(n, NumKey(value, literal));
    OneField(t, StrKey(literal));
    var (m, u) := (PyDict(map[NoneKey := x]), PyDict(map[StrKey("null") := x]));
    assert m.fields.Keys == {NoneKey} && u.fields.Keys == {StrKey("null")};
    OneField(m, NoneKey);
    OneField(u, StrKey("null"));
  }

  /** Keys of two kinds in one dictionary cannot be sorted, nor a key of no JSON kind written. */
  lemma MixedKeysRaise(v: PyValue, a: Key, b: Key)
    requires v.PyDict? && a in v.fields && b in v.fields && (Rank(a) != Rank(b) || a.OtherKey?)
    ensures Serialize(v).None?
  {
    hide SerializeFields;
    SubsetCardinality({a, b}, v.fields.Keys);
  }

  lemma OneField(v: PyValue, k: Key)
    requires v.PyDict? && v.fields.Keys == {k}
    ensures SerializeFields(v, {k}) ==
            match Serialize(v.fields[k])
            case None => None
            case Some(first) => Some([(KeyText(k), first)])
  {
    hide Serialize;
    var keys := {k};
    assert k in keys && Least(keys) == k && keys - {k} == {};
    assert SerializeFields(v, {}) == Some([]);
    if Serialize(v.fields[k]).Some? {
      var first := (KeyText(k), Serialize(v.fields[k]).value);
      assert [first] + [] == [first];
    }
  }
}
