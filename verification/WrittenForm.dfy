/**
 The form in which values are written: arrays and objects as section 4 and 5 of RFC 8259 lay them out,
 characters as section 7 escapes them, and dictionaries sorted by key.
 */
module WrittenForm {
  import opened Basics
  import opened Text
  import opened Json
  import opened Python

  // ---------------------------------------------------------------- white space

  /** The white space that Python strips, one by one. */
  lemma {:induction false} SpacesAreThese(c: char)
    ensures IsSpace(c) <==> c as int in {
              0x9, 0xA, 0xB, 0xC, 0xD, 0x1C, 0x1D, 0x1E, 0x1F, 0x20, 0x85, 0xA0, 0x1680,
              0x2000, 0x2001, 0x2002, 0x2003, 0x2004, 0x2005, 0x2006, 0x2007, 0x2008, 0x2009, 0x200A,
              0x2028, 0x2029, 0x202F, 0x205F, 0x3000}
  {}

  // ---------------------------------------------------------------- arrays and objects

  function Joined(parts: seq<string>): string {
    if parts == [] then "" else if |parts| == 1 then parts[0] else parts[0] + ("," + Joined(parts[1..]))
  }

  function Dumps(ascii: bool, items: seq<Value>): seq<string> {
    seq(|items|, i requires 0 <= i < |items| => Dump(ascii, items[i]))
  }

  /** A name, a colon and a value each. */
  function Pairs(ascii: bool, members: seq<(string, Value)>): seq<string> {
    seq(|members|, i requires 0 <= i < |members| => Quote(ascii, members[i].0) + (":" + Dump(ascii, members[i].1)))
  }

  lemma {:induction false} ItemsAreJoined(ascii: bool, items: seq<Value>)
    requires items != []
    ensures Dump(ascii, items[0]) + Items(ascii, items[1..]) == Joined(Dumps(ascii, items)) + "]"
  {
    hide Dump;
    var first, rest := Dump(ascii, items[0]), items[1..];
    if rest != [] {
      ItemsAreJoined(ascii, rest);
      assert Dumps(ascii, items)[1..] == Dumps(ascii, rest);
      Associate(",", Joined(Dumps(ascii, rest)), "]");
      Associate(first, "," + Joined(Dumps(ascii, rest)), "]");
    } else {
      assert Joined(Dumps(ascii, items)) == first;
    }
  }

  lemma {:induction false} MembersAreJoined(ascii: bool, members: seq<(string, Value)>)
    requires members != []
    ensures Member(ascii, members[0]) + More(ascii, members[1..]) == Joined(Pairs(ascii, members)) + "}"
  {
    hide Dump, Quote;
    var first, rest := Member(ascii, members[0]), members[1..];
    if rest != [] {
      MembersAreJoined(ascii, rest);
      assert Pairs(ascii, members)[1..] == Pairs(ascii, rest);
      Associate(",", Joined(Pairs(ascii, rest)), "}");
      Associate(first, "," + Joined(Pairs(ascii, rest)), "}");
    } else {
      assert Joined(Pairs(ascii, members)) == first;
    }
  }

  /** Literals as they are named, strings quoted, arrays and objects with commas between their parts. */
  lemma {:induction false} TextsAreJson(ascii: bool, v: Value)
    ensures match v
            case Null => Dump(ascii, v) == "null"
            case Bool(flag) => Dump(ascii, v) == if flag then "true" else "false"
            case Num(literal) => Dump(ascii, v) == literal
            case Str(text) => Dump(ascii, v) == "\"" + (Encode(Escape(ascii), text) + "\"")
            case Arr(items) => Dump(ascii, v) == "[" + (Joined(Dumps(ascii, items)) + "]")
            case Obj(members) => Dump(ascii, v) == "{" + (Joined(Pairs(ascii, members)) + "}")
  {
    match v
    case Arr(items) => if items != [] { ItemsAreJoined(ascii, items); }
    case Obj(members) => if members != [] { MembersAreJoined(ascii, members); }
    case _ =>
  }

  // ---------------------------------------------------------------- characters

  function HexValue(c: char): int {
    if '0' <= c <= '9' then c as int - '0' as int else if 'a' <= c <= 'f' then c as int - 'a' as int + 10 else -1
  }

  /** A backslash, `u` and four hexadecimal digits of a number. */
  predicate IsUnicode(text: string, n: int) {
    && |text| == 6 && text[0] == '\\' && text[1] == 'u'
    && HexValue(text[2]) * 4096 + HexValue(text[3]) * 256 + HexValue(text[4]) * 16 + HexValue(text[5]) == n
  }

  /** The escapes with a letter, and what they stand for. */
  predicate IsShort(text: string, c: char) {
    |text| == 2 && text[0] == '\\'
    && (text[1], c as int) in {('"', 0x22), ('\\', 0x5C), ('b', 8), ('f', 12), ('n', 10), ('r', 13), ('t', 9)}
  }

  lemma UnicodeIsRead(n: int)
    requires 0 <= n < 0x10000
    ensures IsUnicode(Unicode(n), n)
  {
    var hex := Hex4(n);
    assert HexValue(hex[0]) == n / 16 / 16 / 16 && HexValue(hex[1]) == n / 16 / 16 % 16;
    assert HexValue(hex[2]) == n / 16 % 16 && HexValue(hex[3]) == n % 16;
  }

  /** The numbers of a high and a low surrogate, which stand for one character. */
  ghost predicate AreSurrogates(text: string, high: int, low: int, n: int) {
    && |text| == 12 && IsUnicode(text[..6], high) && IsUnicode(text[6..], low)
    && 0xD800 <= high < 0xDC00 <= low < 0xE000 && (high - 0xD800) * 1024 + (low - 0xDC00) + 0x10000 == n
  }

  /** The characters that are escaped with a letter. */
  predicate HasShort(c: char) {
    c as int in {0x22, 0x5C, 8, 12, 10, 13, 9}
  }

  /**
   * The characters with a letter are escaped with it; others stand for themselves, if they are no control
   * character and, in the ASCII form, below DEL; the rest are escaped with their number, beyond the basic
   * plane with those of their two surrogates.
   */
  lemma {:induction false} EscapesAreStandard(ascii: bool, c: char)
    ensures var text, n := Escape(ascii)(c), c as int;
            if HasShort(c) then IsShort(text, c)
            else if n >= 0x20 && (ascii ==> n < 0x7F) then text == [c]
            else if n < 0x10000 then IsUnicode(text, n)
            else exists high, low :: AreSurrogates(text, high, low, n)
  {
    hide Unicode;
    var n := c as int;
    assert HasShort(c) <==> Short(c).Some?;
    if HasShort(c) {
    } else if n < 0x20 || (ascii && 0x7F <= n < 0x10000) {
      UnicodeIsRead(n);
    } else if ascii && n >= 0x10000 {
      var high, low := 0xD800 + (n - 0x10000) / 1024, 0xDC00 + (n - 0x10000) % 1024;
      UnicodeIsRead(high);
      UnicodeIsRead(low);
      var text := Escape(ascii)(c);
      assert text[..6] == Unicode(high) && text[6..] == Unicode(low);
      assert AreSurrogates(text, high, low, n);
    }
  }

  // ---------------------------------------------------------------- what is written for a value

  /** Values with a JSON form are written in it, foreign objects as their `str`; not all of them are metadata. */
  lemma {:induction false} ScalarsAreWritten(v: PyValue)
    ensures match v
            case PyNone => Serialize(v) == Some(Null) && IsJson(v)
            case PyBool(flag) => Serialize(v) == Some(Bool(flag)) && IsJson(v)
            case PyNum(literal) => Serialize(v) == Some(Num(literal)) && (IsJson(v) <==> literal !in {"NaN", "Infinity", "-Infinity"})
            case PyStr(text) => Serialize(v) == Some(Str(text)) && IsJson(v)
            case PyObject(shown) => Serialize(v) == Some(Str(shown)) && !IsJson(v)
            case PyList(items) => IsJson(v) <==> forall i :: 0 <= i < |items| ==> IsJson(items[i])
            case PyDict(fields) => IsJson(v) <==> StrKeyed(fields.Keys) && forall k :: k in fields ==> IsJson(fields[k])
  {}

  // ---------------------------------------------------------------- dictionaries

  lemma {:induction false} FieldsAreSorted(v: PyValue, keys: set<Key>)
    requires v.PyDict? && keys <= v.fields.Keys && StrKeyed(keys) && SerializeFields(v, keys).Some?
    ensures var members := SerializeFields(v, keys).value;
            && (forall i :: 0 <= i < |members| ==>
                  StrKey(members[i].0) in keys && Serialize(v.fields[StrKey(members[i].0)]) == Some(members[i].1))
            && (forall i, j :: 0 <= i < j < |members| ==> Less(members[i].0, members[j].0))
            && (forall k :: k in keys ==> exists i :: 0 <= i < |members| && members[i].0 == k.text)
    decreases |keys|
  {
    hide Serialize, Less;
    if keys != {} {
      var k := Least(keys);
      var members := SerializeFields(v, keys).value;
      FieldsAreSorted(v, keys - {k});
      FirstField(v, keys);
      assert k == StrKey(k.text) && members[0].0 == k.text;
      forall j | 1 <= j < |members| ensures Less(k.text, members[j].0) {
        assert members[j] == members[1..][j - 1];
        assert KeyLess(k, StrKey(members[j].0));
      }
      forall l | l in keys ensures exists i :: 0 <= i < |members| && members[i].0 == l.text {
        if l != k {
          var i :| 0 <= i < |members[1..]| && members[1..][i].0 == l.text;
          assert members[i + 1].0 == l.text;
        }
      }
    }
  }

  /** A dictionary with text keys is written with its fields in the order of their keys, each once. */
  lemma {:induction false} DictionariesAreSorted(v: PyValue)
    requires v.PyDict? && StrKeyed(v.fields.Keys) && Serialize(v).Some?
    ensures Serialize(v).value.Obj?
    ensures var members := Serialize(v).value.members;
            && (forall i :: 0 <= i < |members| ==>
                  StrKey(members[i].0) in v.fields && Serialize(v.fields[StrKey(members[i].0)]) == Some(members[i].1))
            && (forall i, j :: 0 <= i < j < |members| ==> Less(members[i].0, members[j].0))
            && (forall k :: k in v.fields ==> exists i :: 0 <= i < |members| && members[i].0 == k.text)
  {
    hide SerializeFields;
    FieldsAreSorted(v, v.fields.Keys);
  }

  /** A list is written item by item. */
  lemma {:induction false} ListsAreWritten(items: seq<PyValue>)
    ensures SerializeItems(items).Some? <==> forall i :: 0 <= i < |items| ==> Serialize(items[i]).Some?
    ensures SerializeItems(items).Some? ==>
              && |SerializeItems(items).value| == |items|
              && forall i :: 0 <= i < |items| ==> Serialize(items[i]) == Some(SerializeItems(items).value[i])
  {
    hide Serialize;
    if items != [] {
      ListsAreWritten(items[1..]);
      assert forall i :: 1 <= i < |items| ==> items[i] == items[1..][i - 1];
    }
  }

  /** A digest has two digits for each byte, the higher one first. */
  lemma {:induction false} DigestsAreHexadecimal(bytes: Bytes)
    ensures |HexDigest(bytes)| == 2 * |bytes|
    ensures forall i :: 0 <= i < |bytes| ==>
              HexValue(HexDigest(bytes)[2 * i]) * 16 + HexValue(HexDigest(bytes)[2 * i + 1]) == bytes[i] as int
  {
    if bytes != [] {
      DigestsAreHexadecimal(bytes[1..]);
      var rest := HexDigest(bytes[1..]);
      assert HexDigest(bytes) == [HexDigit(bytes[0] as int / 16), HexDigit(bytes[0] as int % 16)] + rest;
      forall i | 0 <= i < |bytes|
        ensures HexValue(HexDigest(bytes)[2 * i]) * 16 + HexValue(HexDigest(bytes)[2 * i + 1]) == bytes[i] as int
      {
        if i > 0 {
          assert HexDigest(bytes)[2 * i] == rest[2 * (i - 1)] && HexDigest(bytes)[2 * i + 1] == rest[2 * (i - 1) + 1];
        }
      }
    }
  }
}
