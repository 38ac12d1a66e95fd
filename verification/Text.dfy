/**
 Text as the program handles it: code-point order, decimal numerals, UTF-8 and hexadecimal digests.

 A `char` is a Unicode scalar value. A digest is taken as ideal: a lowercase hexadecimal rendering
 that determines its input, with the alphabet of the real one but not its fixed length.
 */
module Text {
  import opened Basics

  type Bytes = seq<byte>

  // ---------------------------------------------------------------- order

  /** Lexicographic order on code points. */
  predicate Less(a: string, b: string) {
    b != [] && (a == [] || a[0] < b[0] || (a[0] == b[0] && Less(a[1..], b[1..])))
  }

  lemma {:induction false} LessTotal(a: string, b: string)
    ensures a == b || Less(a, b) || Less(b, a)
    ensures !(Less(a, b) && Less(b, a)) && !Less(a, a)
  {
    if a != [] && b != [] && a[0] == b[0] {
      LessTotal(a[1..], b[1..]);
      assert a == [a[0]] + a[1..] && b == [b[0]] + b[1..];
    }
    if a != [] && (b == [] || a[0] != b[0]) { LessTotal(a[1..], []); }
    if a != [] { LessIrreflexive(a); }
  }

  lemma {:induction false} LessIrreflexive(a: string)
    ensures !Less(a, a)
  {
    if a != [] { LessIrreflexive(a[1..]); }
  }

  lemma {:induction false} LessTransitive(a: string, b: string, c: string)
    requires Less(a, b) && Less(b, c)
    ensures Less(a, c)
  {
    if a != [] && a[0] == b[0] && b[0] == c[0] { LessTransitive(a[1..], b[1..], c[1..]); }
  }

  /** The shorter of two texts with a common beginning comes first, else the one whose next code point is lower. */
  ghost predicate Precedes(a: string, b: string, common: nat) {
    && common <= |a| && common <= |b| && a[..common] == b[..common]
    && common < |b| && (common < |a| ==> a[common] < b[common])
  }

  lemma {:induction false} PrecedesIsLess(a: string, b: string, common: nat)
    requires Precedes(a, b, common)
    ensures Less(a, b)
    decreases common
  {
    if common > 0 {
      assert a[..common][0] == b[..common][0];
      assert a[1..][..common - 1] == a[..common][1..] && b[1..][..common - 1] == b[..common][1..];
      PrecedesIsLess(a[1..], b[1..], common - 1);
    }
  }

  lemma {:induction false} LessPrecedes(a: string, b: string) returns (common: nat)
    requires Less(a, b)
    ensures Precedes(a, b, common)
  {
    common := 0;
    if a != [] && a[0] == b[0] {
      common := LessPrecedes(a[1..], b[1..]);
      assert a[..common + 1] == [a[0]] + a[1..][..common] && b[..common + 1] == [b[0]] + b[1..][..common];
      common := common + 1;
    }
  }

  lemma LessIsLexicographic(a: string, b: string)
    ensures Less(a, b) <==> exists common: nat :: Precedes(a, b, common)
  {
    hide Less, Precedes;
    if Less(a, b) { var common := LessPrecedes(a, b); }
    if common: nat :| Precedes(a, b, common) { PrecedesIsLess(a, b, common); }
  }

  // ---------------------------------------------------------------- white space

  /** White space as `str.strip` understands it. */
  predicate IsSpace(c: char) {
    var n := c as int;
    || 9 <= n <= 13 || 28 <= n <= 32 || n in {0x85, 0xA0, 0x1680, 0x2028, 0x2029, 0x202F, 0x205F, 0x3000}
    || 0x2000 <= n <= 0x200A
  }

  predicate IsBlank(text: string) {
    forall i :: 0 <= i < |text| ==> IsSpace(text[i])
  }

  /** The text without white space at its ends. */
  function Strip(text: string): string
    decreases |text|
  {
    if text == "" then ""
    else if IsSpace(text[0]) then Strip(text[1..])
    else if IsSpace(text[|text| - 1]) then Strip(text[..|text| - 1])
    else text
  }

  /** The text has this middle between white space, and no middle exactly when it is blank. */
  ghost predicate IsMiddle(text: string, before: string, middle: string, after: string) {
    && text == before + (middle + after) && IsBlank(before) && IsBlank(after)
    && (middle != "" ==> !IsSpace(middle[0]) && !IsSpace(middle[|middle| - 1]))
    && (middle == "" <==> IsBlank(text))
  }

  lemma WiderFront(c: char, text: string, before: string, middle: string, after: string)
    requires IsMiddle(text, before, middle, after) && IsSpace(c)
    ensures IsMiddle([c] + text, [c] + before, middle, after)
  {
    hide IsSpace;
    Associate([c], before, middle + after);
    assert forall i :: 0 <= i < |text| ==> ([c] + text)[i + 1] == text[i];
  }

  lemma WiderBack(text: string, c: char, before: string, middle: string, after: string)
    requires IsMiddle(text, before, middle, after) && IsSpace(c)
    ensures IsMiddle(text + [c], before, middle, after + [c])
  {
    hide IsSpace;
    Associate(before, middle + after, [c]);
    Associate(middle, after, [c]);
    assert forall i :: 0 <= i < |text| ==> (text + [c])[i] == text[i];
  }

  lemma WholeIsMiddle(text: string)
    requires text != "" ==> !IsSpace(text[0]) && !IsSpace(text[|text| - 1])
    ensures IsMiddle(text, "", text, "")
  {
    hide IsSpace;
    assert text == "" + (text + "");
  }

  /** Stripping leaves what is between white space, and nothing exactly of a blank text. */
  lemma {:induction false} StripIsBetween(text: string) returns (before: string, after: string)
    ensures IsMiddle(text, before, Strip(text), after)
    decreases |text|
  {
    hide IsSpace, IsMiddle;
    if text != "" && IsSpace(text[0]) {
      before, after := StripIsBetween(text[1..]);
      WiderFront(text[0], text[1..], before, Strip(text[1..]), after);
      assert [text[0]] + text[1..] == text;
      before := [text[0]] + before;
    } else if text != "" && IsSpace(text[|text| - 1]) {
      var shorter, last := text[..|text| - 1], text[|text| - 1];
      before, after := StripIsBetween(shorter);
      WiderBack(shorter, last, before, Strip(shorter), after);
      assert shorter + [last] == text;
      after := after + [last];
    } else {
      WholeIsMiddle(text);
      before, after := "", "";
    }
  }

  lemma Associate<T>(x: seq<T>, y: seq<T>, z: seq<T>)
    ensures x + (y + z) == (x + y) + z
  {}

  // ---------------------------------------------------------------- numerals

  predicate AllDigits(text: string) {
    forall i :: 0 <= i < |text| ==> '0' <= text[i] <= '9'
  }

  predicate IsDigits(text: string) {
    text != "" && AllDigits(text)
  }

  /** Digits as they are printed: no leading zero unless the number is zero. */
  predicate IsCanonical(text: string) {
    IsDigits(text) && (text[0] == '0' ==> |text| == 1)
  }

  function Number(text: string): nat
    requires AllDigits(text)
  {
    if text == "" then 0 else Number(text[..|text| - 1]) * 10 + (text[|text| - 1] as int - '0' as int)
  }

  function Decimal(n: nat): (text: string)
    ensures IsCanonical(text) && (n > 0 ==> text[0] != '0')
  {
    var digit := [('0' as int + n % 10) as char];
    if n < 10 then digit else Decimal(n / 10) + digit
  }

  function Signed(n: int): string {
    if n < 0 then "-" + Decimal(-n) else Decimal(n)
  }

  lemma {:induction false} NumberOfDecimal(n: nat)
    ensures Number(Decimal(n)) == n
  {
    var text := Decimal(n);
    if n >= 10 {
      NumberOfDecimal(n / 10);
      assert text[..|text| - 1] == Decimal(n / 10);
    } else {
      assert text[..|text| - 1] == "";
    }
  }

  lemma {:induction false} NumberIsPositive(text: string)
    requires IsDigits(text) && text[0] != '0'
    ensures Number(text) > 0
  {
    if |text| > 1 { NumberIsPositive(text[..|text| - 1]); }
  }

  lemma DecimalAppends(n: nat, digit: nat)
    requires n > 0 && digit < 10
    ensures Decimal(n * 10 + digit) == Decimal(n) + [('0' as int + digit) as char]
  {}

  lemma DecimalOfDigit(c: char)
    requires '0' <= c <= '9'
    ensures Decimal(c as int - '0' as int) == [c]
  {}

  /** A numeral without a leading zero is the one the number is printed as. */
  lemma {:induction false} DecimalOfNumber(text: string)
    requires IsCanonical(text)
    ensures Decimal(Number(text)) == text
  {
    hide Decimal;
    var init, last := text[..|text| - 1], text[|text| - 1];
    assert text == init + [last];
    if |text| > 1 {
      DecimalOfNumber(init);
      NumberIsPositive(init);
      DecimalAppends(Number(init), last as int - '0' as int);
    } else {
      assert Number(init) == 0;
      DecimalOfDigit(last);
    }
  }

  lemma SignedUnique(n: int, m: int)
    requires Signed(n) == Signed(m)
    ensures n == m
  {
    hide Decimal, Number;
    var x, y := Signed(n), Signed(m);
    assert n >= 0 ==> '0' <= x[0] <= '9';
    assert m >= 0 ==> '0' <= y[0] <= '9';
    if n >= 0 {
      NumberOfDecimal(n);
      NumberOfDecimal(m);
    } else {
      assert x[1..] == Decimal(-n) && y[1..] == Decimal(-m);
      NumberOfDecimal(-n);
      NumberOfDecimal(-m);
    }
  }

  // ---------------------------------------------------------------- character codes

  function Encode<T>(code: char -> seq<T>, text: string): seq<T> {
    if text == "" then [] else code(text[0]) + Encode(code, text[1..])
  }

  /** No character's code begins another's, so a concatenation of codes splits in one way. */
  ghost predicate PrefixFree<T(!new)>(code: char -> seq<T>) {
    && (forall c :: code(c) != [])
    && (forall c, d :: code(c) <= code(d) ==> c == d)
  }

  /** What follows an encoded text and cannot be mistaken for more of it. */
  ghost predicate Stops<T(!new)>(code: char -> seq<T>, rest: seq<T>) {
    rest != [] ==> forall c :: code(c) != [] ==> code(c)[0] != rest[0]
  }

  lemma Cut<T>(p: seq<T>, x: seq<T>, q: seq<T>, y: seq<T>)
    requires p + x == q + y && |p| <= |q|
    ensures p <= q && x == q[|p|..] + y
  {
    assert (p + x)[..|p|] == p && (q + y)[..|p|] == q[..|p|];
    assert (p + x)[|p|..] == x && (q + y)[|p|..] == q[|p|..] + y;
  }

  lemma OnlyEmptyStops<T(!new)>(code: char -> seq<T>, b: string, r: seq<T>, s: seq<T>)
    requires PrefixFree(code) && Stops(code, r)
    requires r == Encode(code, b) + s
    ensures b == "" && r == s
  {
    if b != "" { assert false; }
  }

  lemma SameHead<T(!new)>(code: char -> seq<T>, c: char, x: seq<T>, d: char, y: seq<T>)
    requires PrefixFree(code)
    requires code(c) + x == code(d) + y
    ensures c == d && x == y
  {
    if |code(c)| <= |code(d)| { Cut(code(c), x, code(d), y); } else { Cut(code(d), y, code(c), x); }
    assert code(d)[|code(c)|..] == [];
  }

  lemma {:induction false} EncodeUnique<T(!new)>(code: char -> seq<T>, a: string, r: seq<T>, b: string, s: seq<T>)
    requires PrefixFree(code) && Stops(code, r) && Stops(code, s)
    requires Encode(code, a) + r == Encode(code, b) + s
    ensures a == b && r == s
  {
    hide PrefixFree, Stops;
    if a == "" {
      assert Encode(code, a) + r == r;
      OnlyEmptyStops(code, b, r, s);
    } else if b == "" {
      assert Encode(code, b) + s == s;
      OnlyEmptyStops(code, a, s, r);
    } else {
      var x, y := Encode(code, a[1..]) + r, Encode(code, b[1..]) + s;
      assert code(a[0]) + x == Encode(code, a) + r;
      assert code(b[0]) + y == Encode(code, b) + s;
      SameHead(code, a[0], x, b[0], y);
      EncodeUnique(code, a[1..], r, b[1..], s);
    }
  }

  lemma {:induction false} EncodeConcat<T>(code: char -> seq<T>, a: string, b: string)
    ensures Encode(code, a + b) == Encode(code, a) + Encode(code, b)
  {
    if a == "" {
      assert a + b == b;
    } else {
      EncodeConcat(code, a[1..], b);
      assert (a + b)[0] == a[0] && (a + b)[1..] == a[1..] + b;
      Associate(code(a[0]), Encode(code, a[1..]), Encode(code, b));
    }
  }

  lemma {:induction false} EncodeAvoids<T(!new)>(code: char -> seq<T>, text: string, symbol: T)
    requires forall c :: c in text ==> symbol !in code(c)
    ensures symbol !in Encode(code, text)
  {
    if text != "" { EncodeAvoids(code, text[1..], symbol); }
  }

  // ---------------------------------------------------------------- UTF-8 (RFC 3629, section 3)

  function Utf8Char(c: char): Bytes {
    var n := c as int;
    if n < 0x80 then [n as byte]
    else if n < 0x800 then [(0xC0 + n / 64) as byte, (0x80 + n % 64) as byte]
    else if n < 0x10000 then
      [(0xE0 + n / 64 / 64) as byte, (0x80 + n / 64 % 64) as byte, (0x80 + n % 64) as byte]
    else
      [(0xF0 + n / 64 / 64 / 64) as byte, (0x80 + n / 64 / 64 % 64) as byte, (0x80 + n / 64 % 64) as byte,
       (0x80 + n % 64) as byte]
  }

  function Utf8(text: string): Bytes {
    Encode(Utf8Char, text)
  }

  predicate Continues(b: byte) {
    0x80 <= b <= 0xBF
  }

  /** Each sequence has the standard's lead and continuation bytes, and their bits spell the character. */
  lemma Utf8CharIsStandard(c: char)
    ensures var b, n := Utf8Char(c), c as int;
            match |b|
            case 1 => b[0] < 0x80 && b[0] as int == n
            case 2 => 0xC2 <= b[0] <= 0xDF && Continues(b[1]) && (b[0] as int - 0xC0) * 64 + (b[1] as int - 0x80) == n
            case 3 => 0xE0 <= b[0] <= 0xEF && Continues(b[1]) && Continues(b[2])
                      && (b[0] as int - 0xE0) * 4096 + (b[1] as int - 0x80) * 64 + (b[2] as int - 0x80) == n
            case 4 => 0xF0 <= b[0] <= 0xF4 && Continues(b[1]) && Continues(b[2]) && Continues(b[3])
                      && (b[0] as int - 0xF0) * 262144 + (b[1] as int - 0x80) * 4096 + (b[2] as int - 0x80) * 64
                         + (b[3] as int - 0x80) == n
            case _ => false
  {}

  lemma Utf8PrefixFree()
    ensures PrefixFree(Utf8Char)
  {
    forall c, d | Utf8Char(c) <= Utf8Char(d) ensures c == d {
      assert Utf8Char(c)[0] == Utf8Char(d)[0];
      assert |Utf8Char(c)| == |Utf8Char(d)|;
      assert Utf8Char(c) == Utf8Char(d);
      Utf8CharUnique(c, d);
    }
  }

  lemma Utf8CharUnique(c: char, d: char)
    requires Utf8Char(c) == Utf8Char(d)
    ensures c == d
  {
    var x, y := Utf8Char(c), Utf8Char(d);
    assert |x| == |y| && x[0] == y[0];
    if |x| > 1 { assert x[1] == y[1]; }
    if |x| > 2 { assert x[2] == y[2]; }
    if |x| > 3 { assert x[3] == y[3]; }
  }

  /** Texts are equal exactly when their UTF-8 bytes are. */
  lemma Utf8Unique(a: string, b: string)
    ensures Utf8(a) == Utf8(b) <==> a == b
  {
    if Utf8(a) == Utf8(b) {
      Utf8PrefixFree();
      EncodeUnique(Utf8Char, a, [], b, []);
    }
  }

  /** A NUL byte comes only from a NUL character. */
  lemma Utf8NulFree(text: string)
    requires '\0' !in text
    ensures 0 !in Utf8(text)
  {
    forall c | c in text ensures 0 !in Utf8Char(c) {}
    EncodeAvoids(Utf8Char, text, 0);
  }

  // ---------------------------------------------------------------- ideal digests

  function HexDigit(n: int): char
    requires 0 <= n < 16
  {
    if n < 10 then ('0' as int + n) as char else ('a' as int + n - 10) as char
  }

  predicate IsHex(c: char) {
    '0' <= c <= '9' || 'a' <= c <= 'f'
  }

  function HexDigest(bytes: Bytes): (digest: string)
    ensures |digest| == 2 * |bytes|
    ensures forall i :: 0 <= i < |digest| ==> IsHex(digest[i])
  {
    if bytes == [] then ""
    else [HexDigit(bytes[0] as int / 16), HexDigit(bytes[0] as int % 16)] + HexDigest(bytes[1..])
  }

  lemma {:induction false} DigestUnique(a: Bytes, b: Bytes)
    ensures HexDigest(a) == HexDigest(b) <==> a == b
  {
    var x, y := HexDigest(a), HexDigest(b);
    if x == y && a != [] {
      assert x[0] == y[0] && x[1] == y[1];
      assert x[2..] == HexDigest(a[1..]) && y[2..] == HexDigest(b[1..]);
      DigestUnique(a[1..], b[1..]);
      assert a == [a[0]] + a[1..] && b == [b[0]] + b[1..];
    }
  }
}
