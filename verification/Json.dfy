/**
 The compact JSON text that Python's `json.dumps(separators=(",", ":"))` produces, in the form that
 keeps non-ASCII characters and in the form that escapes them. A value here is what is written, its
 objects being the members in the order they are written.

 Distinct values have distinct texts: the text is a canonical name for the value. Characters are
 escaped as section 7 of RFC 8259 requires, so no text contains a control character.
 */
module Json {
  import opened Basics
  import opened Text

  /** The first character tells the constructors apart. */
  function Kind(c: char): nat {
    match c
    case 'n' => 0
    case 't' => 1
    case 'f' => 2
    case '"' => 3
    case '[' => 4
    case '{' => 5
    case _ => 6
  }

  /** A number as it is printed, `NaN` and `-Infinity` included. Nothing that may follow a value is in it. */
  predicate IsLiteral(text: string) {
    text != "" && Kind(text[0]) == 6 && forall i :: 0 <= i < |text| ==> LiteralChar(text[i])
  }

  predicate LiteralChar(c: char) {
    c >= ' ' && c !in {',', ']', '}'}
  }

  type Literal = text: string | IsLiteral(text) witness "0"

  datatype Value =
    | Null
    | Bool(flag: bool)
    | Num(literal: Literal)
    | Str(text: string)
    | Arr(items: seq<Value>)
    | Obj(members: seq<(string, Value)>)

  // ---------------------------------------------------------------- strings

  function Hex4(n: int): (hex: string)
    requires 0 <= n < 0x10000
    ensures |hex| == 4
  {
    [HexDigit(n / 16 / 16 / 16), HexDigit(n / 16 / 16 % 16), HexDigit(n / 16 % 16), HexDigit(n % 16)]
  }

  /** The escapes with a letter of their own. */
  function Short(c: char): Option<char> {
    match c
    case '"' => Some('"')
    case '\\' => Some('\\')
    case '\n' => Some('n')
    case '\r' => Some('r')
    case '\t' => Some('t')
    case '\U{8}' => Some('b')
    case '\U{c}' => Some('f')
    case _ => None
  }

  function Unicode(n: int): string
    requires 0 <= n < 0x10000
  {
    "\\u" + Hex4(n)
  }

  function EscapeRaw(c: char): string {
    if Short(c).Some? then ['\\', Short(c).value]
    else if c as int < 0x20 then Unicode(c as int)
    else [c]
  }

  function EscapeAscii(c: char): string {
    var n := c as int;
    if Short(c).Some? then ['\\', Short(c).value]
    else if 0x20 <= n < 0x7f then [c]
    else if n < 0x10000 then Unicode(n)
    else Unicode(0xD800 + (n - 0x10000) / 1024) + Unicode(0xDC00 + (n - 0x10000) % 1024)
  }

  function Escape(ascii: bool): char -> string {
    if ascii then EscapeAscii else EscapeRaw
  }

  function Quote(ascii: bool, text: string): string {
    "\"" + (Encode(Escape(ascii), text) + "\"")
  }

  // ---------------------------------------------------------------- values

  function Dump(ascii: bool, v: Value): string
    decreases v
  {
    match v
    case Null => "null"
    case Bool(flag) => if flag then "true" else "false"
    case Num(literal) => literal
    case Str(text) => Quote(ascii, text)
    case Arr(items) => "[" + Elements(ascii, items)
    case Obj(members) => "{" + Members(ascii, members)
  }

  function Elements(ascii: bool, items: seq<Value>): string
    decreases items
  {
    if items == [] then "]" else Dump(ascii, items[0]) + Items(ascii, items[1..])
  }

  /** What follows an element of an array. */
  function Items(ascii: bool, items: seq<Value>): string
    decreases items
  {
    if items == [] then "]" else "," + (Dump(ascii, items[0]) + Items(ascii, items[1..]))
  }

  function Member(ascii: bool, member: (string, Value)): string
    decreases member
  {
    Quote(ascii, member.0) + (":" + Dump(ascii, member.1))
  }

  function Members(ascii: bool, members: seq<(string, Value)>): string
    decreases members
  {
    if members == [] then "}" else Member(ascii, members[0]) + More(ascii, members[1..])
  }

  /** What follows a member of an object. */
  function More(ascii: bool, members: seq<(string, Value)>): string
    decreases members
  {
    if members == [] then "}" else "," + (Member(ascii, members[0]) + More(ascii, members[1..]))
  }

  // ---------------------------------------------------------------- escapes determine characters

  lemma HexDigitUnique(a: int, b: int)
    requires 0 <= a < 16 && 0 <= b < 16 && HexDigit(a) == HexDigit(b)
    ensures a == b
  {}

  lemma Hex4Unique(n: int, m: int)
    requires 0 <= n < 0x10000 && 0 <= m < 0x10000 && Hex4(n) == Hex4(m)
    ensures n == m
  {
    hide HexDigit;
    var x, y := Hex4(n), Hex4(m);
    assert x[0] == y[0] && x[1] == y[1] && x[2] == y[2] && x[3] == y[3];
    HexDigitUnique(n / 16 / 16 / 16, m / 16 / 16 / 16);
    HexDigitUnique(n / 16 / 16 % 16, m / 16 / 16 % 16);
    HexDigitUnique(n / 16 % 16, m / 16 % 16);
    HexDigitUnique(n % 16, m % 16);
  }

  lemma UnicodePrefix(n: int, x: string, m: int, y: string)
    requires 0 <= n < 0x10000 && 0 <= m < 0x10000
    requires Unicode(n) + x <= Unicode(m) + y
    ensures n == m && x <= y
  {
    hide Hex4;
    var a, b := Unicode(n) + x, Unicode(m) + y;
    assert a[2..6] == Hex4(n) && b[2..6] == Hex4(m) && a[2..6] == b[2..6];
    Hex4Unique(n, m);
    assert a[6..] == x && b[6..] == y;
  }

  /** The escape that starts with `\\u`, if the character has one: its first number and the rest. */
  function Long(ascii: bool, c: char): Option<(int, string)> {
    var n := c as int;
    if Short(c).Some? || (0x20 <= n && (!ascii || n < 0x7f)) then None
    else if n < 0x10000 then Some((n, ""))
    else Some((0xD800 + (n - 0x10000) / 1024, Unicode(0xDC00 + (n - 0x10000) % 1024)))
  }

  lemma EscapeForm(ascii: bool, c: char)
    ensures Escape(ascii)(c) ==
            if Short(c).Some? then ['\\', Short(c).value]
            else if Long(ascii, c).Some? then Unicode(Long(ascii, c).value.0) + Long(ascii, c).value.1
            else [c]
    ensures Short(c) != Some('u') && (c == '\\' ==> Short(c).Some?)
  {
    hide Unicode;
    if Long(ascii, c) == Some((c as int, "")) { assert Unicode(c as int) + "" == Unicode(c as int); }
  }

  lemma ShortUnique(c: char, d: char)
    requires Short(c).Some? && Short(c) == Short(d)
    ensures c == d
  {}

  lemma LongUnique(ascii: bool, c: char, d: char)
    requires Long(ascii, c).Some? && Long(ascii, d).Some?
    requires Unicode(Long(ascii, c).value.0) + Long(ascii, c).value.1 <= Unicode(Long(ascii, d).value.0) + Long(ascii, d).value.1
    ensures c == d
  {
    hide Short, Unicode;
    var (n, x) := Long(ascii, c).value;
    var (m, y) := Long(ascii, d).value;
    UnicodePrefix(n, x, m, y);
    if c as int >= 0x10000 {
      assert d as int >= 0x10000;
      var i, j := 0xDC00 + (c as int - 0x10000) % 1024, 0xDC00 + (d as int - 0x10000) % 1024;
      assert Unicode(i) + "" == Unicode(i) && Unicode(j) + "" == Unicode(j);
      UnicodePrefix(i, "", j, "");
    }
  }

  /** No escape begins another: a lone scalar value is never half of a surrogate pair. */
  lemma EscapePrefixFree(ascii: bool)
    ensures PrefixFree(Escape(ascii))
  {
    forall c ensures Escape(ascii)(c) != [] { EscapeForm(ascii, c); }
    forall c, d | Escape(ascii)(c) <= Escape(ascii)(d) ensures c == d { EscapesDiffer(ascii, c, d); }
  }

  lemma EscapesDiffer(ascii: bool, c: char, d: char)
    requires Escape(ascii)(c) <= Escape(ascii)(d)
    ensures c == d
  {
    hide Short, Long, Hex4, Escape;
    var x, y := Escape(ascii)(c), Escape(ascii)(d);
    EscapeForm(ascii, c);
    EscapeForm(ascii, d);
    assert x[0] == y[0];
    if x[0] == '\\' {
      assert x[1] == y[1];
      if Short(c).Some? { ShortUnique(c, d); } else { LongUnique(ascii, c, d); }
    }
  }

  /** A quote inside a string is escaped, so the first bare one ends it. */
  lemma QuoteStops(ascii: bool, rest: string)
    ensures Stops(Escape(ascii), "\"" + rest)
  {
    forall c ensures Escape(ascii)(c) != [] ==> Escape(ascii)(c)[0] != '"' { EscapeForm(ascii, c); }
  }

  lemma QuoteUnique(ascii: bool, a: string, r: string, b: string, s: string)
    requires Quote(ascii, a) + r == Quote(ascii, b) + s
    ensures a == b && r == s
  {
    hide PrefixFree, Stops, Escape;
    EscapePrefixFree(ascii);
    QuoteStops(ascii, r);
    QuoteStops(ascii, s);
    var x, y := Encode(Escape(ascii), a), Encode(Escape(ascii), b);
    assert (Quote(ascii, a) + r)[1..] == x + ("\"" + r);
    assert (Quote(ascii, b) + s)[1..] == y + ("\"" + s);
    EncodeUnique(Escape(ascii), a, "\"" + r, b, "\"" + s);
    assert ("\"" + r)[1..] == r && ("\"" + s)[1..] == s;
  }

  // ---------------------------------------------------------------- texts determine values

  /** What may follow a value inside a larger text. */
  ghost predicate Ends(rest: string) {
    rest != "" ==> rest[0] in {',', ']', '}'}
  }

  function KindOf(v: Value): nat {
    match v
    case Null => 0
    case Bool(flag) => if flag then 1 else 2
    case Str(_) => 3
    case Arr(_) => 4
    case Obj(_) => 5
    case Num(_) => 6
  }

  lemma FirstCharacter(ascii: bool, v: Value)
    ensures Dump(ascii, v) != "" && Kind(Dump(ascii, v)[0]) == KindOf(v) && Dump(ascii, v)[0] !in {',', ']', '}'}
  {
    hide Encode, Elements, Members;
  }

  lemma {:induction false} LiteralUnique(a: string, r: string, b: string, s: string)
    requires (forall i :: 0 <= i < |a| ==> LiteralChar(a[i])) && (forall i :: 0 <= i < |b| ==> LiteralChar(b[i]))
    requires Ends(r) && Ends(s) && a + r == b + s
    ensures a == b && r == s
  {
    if |a| <= |b| { Cut(a, r, b, s); } else { Cut(b, s, a, r); }
  }

  lemma SameFirst(p: string, r: string, q: string, s: string)
    requires p != "" && q != "" && p + r == q + s
    ensures p[0] == q[0]
  {
    assert (p + r)[0] == p[0] && (q + s)[0] == q[0];
  }

  lemma TailsEqual(head: string, x: string, y: string)
    requires head + x == head + y
    ensures x == y
  {
    Cut(head, x, head, y);
    assert head[|head|..] + y == y;
  }

  /** A value's text followed by a delimiter splits in one way, and names one value. */
  lemma {:induction false} DumpUnique(ascii: bool, a: Value, r: string, b: Value, s: string)
    requires Ends(r) && Ends(s)
    requires Dump(ascii, a) + r == Dump(ascii, b) + s
    ensures a == b && r == s
    decreases a
  {
    hide Quote, Elements, Members;
    FirstCharacter(ascii, a);
    FirstCharacter(ascii, b);
    SameFirst(Dump(ascii, a), r, Dump(ascii, b), s);
    match a
    case Null => TailsEqual("null", r, s);
    case Bool(flag) => TailsEqual(Dump(ascii, a), r, s);
    case Num(literal) => LiteralUnique(literal, r, b.literal, s);
    case Str(text) => QuoteUnique(ascii, text, r, b.text, s);
    case Arr(items) =>
      assert Dump(ascii, a) + r == "[" + (Elements(ascii, items) + r) && Dump(ascii, b) + s == "[" + (Elements(ascii, b.items) + s);
      TailsEqual("[", Elements(ascii, items) + r, Elements(ascii, b.items) + s);
      ElementsUnique(ascii, items, r, b.items, s);
    case Obj(members) =>
      assert Dump(ascii, a) + r == "{" + (Members(ascii, members) + r) && Dump(ascii, b) + s == "{" + (Members(ascii, b.members) + s);
      TailsEqual("{", Members(ascii, members) + r, Members(ascii, b.members) + s);
      MembersUnique(ascii, members, r, b.members, s);
  }

  lemma FirstElement(ascii: bool, items: seq<Value>)
    ensures Elements(ascii, items) != "" && (Elements(ascii, items)[0] == ']' <==> items == [])
  {
    hide Dump, Items;
    if items != [] { FirstCharacter(ascii, items[0]); }
  }

  lemma {:induction false} ElementsUnique(ascii: bool, xs: seq<Value>, r: string, ys: seq<Value>, s: string)
    requires Elements(ascii, xs) + r == Elements(ascii, ys) + s
    ensures xs == ys && r == s
    decreases xs
  {
    hide Dump, Items;
    FirstElement(ascii, xs);
    FirstElement(ascii, ys);
    SameFirst(Elements(ascii, xs), r, Elements(ascii, ys), s);
    if xs == [] {
      TailsEqual("]", r, s);
    } else {
      ElementUnique(ascii, xs, r, ys, s);
    }
  }

  /** The first element, and then the rest. */
  lemma {:induction false} ElementUnique(ascii: bool, xs: seq<Value>, r: string, ys: seq<Value>, s: string)
    requires xs != [] && ys != []
    requires Dump(ascii, xs[0]) + Items(ascii, xs[1..]) + r == Dump(ascii, ys[0]) + Items(ascii, ys[1..]) + s
    ensures xs == ys && r == s
    decreases xs, 0
  {
    hide Dump, Items;
    var p, q := Items(ascii, xs[1..]) + r, Items(ascii, ys[1..]) + s;
    Associate(Dump(ascii, xs[0]), Items(ascii, xs[1..]), r);
    Associate(Dump(ascii, ys[0]), Items(ascii, ys[1..]), s);
    ItemsEnd(ascii, xs[1..], r);
    ItemsEnd(ascii, ys[1..], s);
    DumpUnique(ascii, xs[0], p, ys[0], q);
    ItemsUnique(ascii, xs[1..], r, ys[1..], s);
    assert xs == [xs[0]] + xs[1..] && ys == [ys[0]] + ys[1..];
  }

  lemma ItemsEnd(ascii: bool, items: seq<Value>, r: string)
    ensures Ends(Items(ascii, items) + r)
  {}

  lemma {:induction false} ItemsUnique(ascii: bool, xs: seq<Value>, r: string, ys: seq<Value>, s: string)
    requires Items(ascii, xs) + r == Items(ascii, ys) + s
    ensures xs == ys && r == s
    decreases xs, 1
  {
    hide Dump;
    SameFirst(Items(ascii, xs), r, Items(ascii, ys), s);
    if xs == [] {
      TailsEqual("]", r, s);
    } else {
      ItemsSplit(ascii, xs, r);
      ItemsSplit(ascii, ys, s);
      var p, q := Dump(ascii, xs[0]) + Items(ascii, xs[1..]), Dump(ascii, ys[0]) + Items(ascii, ys[1..]);
      TailsEqual(",", p + r, q + s);
      ElementUnique(ascii, xs, r, ys, s);
    }
  }

  lemma ItemsSplit(ascii: bool, xs: seq<Value>, r: string)
    requires xs != []
    ensures Items(ascii, xs) + r == "," + (Dump(ascii, xs[0]) + Items(ascii, xs[1..]) + r)
  {
    Associate(",", Dump(ascii, xs[0]) + Items(ascii, xs[1..]), r);
  }

  lemma FirstMember(ascii: bool, members: seq<(string, Value)>)
    ensures Members(ascii, members) != "" && (Members(ascii, members)[0] == '}' <==> members == [])
  {
    hide Dump, More, Encode;
    if members != [] { assert Member(ascii, members[0])[0] == '"'; }
  }

  lemma {:induction false} MembersUnique(ascii: bool, xs: seq<(string, Value)>, r: string, ys: seq<(string, Value)>, s: string)
    requires Members(ascii, xs) + r == Members(ascii, ys) + s
    ensures xs == ys && r == s
    decreases xs
  {
    hide Member, More;
    FirstMember(ascii, xs);
    FirstMember(ascii, ys);
    SameFirst(Members(ascii, xs), r, Members(ascii, ys), s);
    if xs == [] {
      TailsEqual("}", r, s);
    } else {
      MemberUnique(ascii, xs, r, ys, s);
    }
  }

  /** The first member, and then the rest. */
  lemma {:induction false} MemberUnique(ascii: bool, xs: seq<(string, Value)>, r: string, ys: seq<(string, Value)>, s: string)
    requires xs != [] && ys != []
    requires Member(ascii, xs[0]) + More(ascii, xs[1..]) + r == Member(ascii, ys[0]) + More(ascii, ys[1..]) + s
    ensures xs == ys && r == s
    decreases xs, 0
  {
    hide Member, Dump, More, Quote;
    var p, q := More(ascii, xs[1..]) + r, More(ascii, ys[1..]) + s;
    Associate(Member(ascii, xs[0]), More(ascii, xs[1..]), r);
    Associate(Member(ascii, ys[0]), More(ascii, ys[1..]), s);
    MemberSplit(ascii, xs[0], p);
    MemberSplit(ascii, ys[0], q);
    QuoteUnique(ascii, xs[0].0, ":" + (Dump(ascii, xs[0].1) + p), ys[0].0, ":" + (Dump(ascii, ys[0].1) + q));
    TailsEqual(":", Dump(ascii, xs[0].1) + p, Dump(ascii, ys[0].1) + q);
    MoreEnds(ascii, xs[1..], r);
    MoreEnds(ascii, ys[1..], s);
    SameValue(ascii, xs[0], p, ys[0], q);
    MoreUnique(ascii, xs[1..], r, ys[1..], s);
    assert xs == [xs[0]] + xs[1..] && ys == [ys[0]] + ys[1..];
  }

  lemma {:induction false} SameValue(ascii: bool, x: (string, Value), r: string, y: (string, Value), s: string)
    requires Ends(r) && Ends(s) && Dump(ascii, x.1) + r == Dump(ascii, y.1) + s
    ensures x.1 == y.1 && r == s
    decreases x
  {
    DumpUnique(ascii, x.1, r, y.1, s);
  }

  lemma MemberSplit(ascii: bool, member: (string, Value), r: string)
    ensures Member(ascii, member) + r == Quote(ascii, member.0) + (":" + (Dump(ascii, member.1) + r))
  {
    hide Dump, Quote;
    Associate(Quote(ascii, member.0), ":" + Dump(ascii, member.1), r);
    Associate(":", Dump(ascii, member.1), r);
  }

  lemma MoreEnds(ascii: bool, members: seq<(string, Value)>, r: string)
    ensures Ends(More(ascii, members) + r)
  {}

  lemma {:induction false} MoreUnique(ascii: bool, xs: seq<(string, Value)>, r: string, ys: seq<(string, Value)>, s: string)
    requires More(ascii, xs) + r == More(ascii, ys) + s
    ensures xs == ys && r == s
    decreases xs, 1
  {
    hide Member;
    SameFirst(More(ascii, xs), r, More(ascii, ys), s);
    if xs == [] {
      TailsEqual("}", r, s);
    } else {
      var p, q := Member(ascii, xs[0]) + More(ascii, xs[1..]), Member(ascii, ys[0]) + More(ascii, ys[1..]);
      Associate(",", p, r);
      Associate(",", q, s);
      TailsEqual(",", p + r, q + s);
      MemberUnique(ascii, xs, r, ys, s);
    }
  }

  /** Two values are equal exactly when their texts are. */
  lemma TextIsCanonical(ascii: bool, a: Value, b: Value)
    ensures Dump(ascii, a) == Dump(ascii, b) <==> a == b
  {
    if Dump(ascii, a) == Dump(ascii, b) { DumpUnique(ascii, a, "", b, ""); }
  }

  // ---------------------------------------------------------------- no control characters

  lemma EscapeIsPrintable(ascii: bool, c: char, symbol: char)
    requires symbol < ' '
    ensures symbol !in Escape(ascii)(c)
  {
    var n := c as int;
    if Short(c).None? && n >= 0x10000 {
      UnicodeIsPrintable(0xD800 + (n - 0x10000) / 1024, symbol);
      UnicodeIsPrintable(0xDC00 + (n - 0x10000) % 1024, symbol);
    } else if Short(c).None? {
      UnicodeIsPrintable(n, symbol);
    }
  }

  lemma UnicodeIsPrintable(n: int, symbol: char)
    requires 0 <= n < 0x10000 && symbol < ' '
    ensures symbol !in Unicode(n)
  {}

  lemma QuoteIsPrintable(ascii: bool, text: string, symbol: char)
    requires symbol < ' '
    ensures symbol !in Quote(ascii, text)
  {
    hide Escape;
    forall c | c in text ensures symbol !in Escape(ascii)(c) { EscapeIsPrintable(ascii, c, symbol); }
    EncodeAvoids(Escape(ascii), text, symbol);
  }

  /** A control character is always escaped: none appears in any value's text. */
  lemma {:induction false} NoControlCharacters(ascii: bool, v: Value, symbol: char)
    requires symbol < ' '
    ensures symbol !in Dump(ascii, v)
    decreases v
  {
    hide Quote, Elements, Members;
    match v
    case Str(text) => QuoteIsPrintable(ascii, text, symbol);
    case Arr(items) => ElementsPrintable(ascii, items, symbol);
    case Obj(members) => MembersPrintable(ascii, members, symbol);
    case _ =>
  }

  lemma {:induction false} ElementsPrintable(ascii: bool, items: seq<Value>, symbol: char)
    requires symbol < ' '
    ensures symbol !in Elements(ascii, items) && symbol !in Items(ascii, items)
    decreases items
  {
    hide Dump;
    if items != [] {
      NoControlCharacters(ascii, items[0], symbol);
      ElementsPrintable(ascii, items[1..], symbol);
    }
  }

  lemma {:induction false} MemberIsPrintable(ascii: bool, member: (string, Value), symbol: char)
    requires symbol < ' '
    ensures symbol !in Member(ascii, member)
    decreases member
  {
    hide Dump, Quote;
    QuoteIsPrintable(ascii, member.0, symbol);
    NoControlCharacters(ascii, member.1, symbol);
  }

  lemma {:induction false} MembersPrintable(ascii: bool, members: seq<(string, Value)>, symbol: char)
    requires symbol < ' '
    ensures symbol !in Members(ascii, members) && symbol !in More(ascii, members)
    decreases members
  {
    hide Member;
    if members != [] {
      MemberIsPrintable(ascii, members[0], symbol);
      MembersPrintable(ascii, members[1..], symbol);
    }
  }
}
