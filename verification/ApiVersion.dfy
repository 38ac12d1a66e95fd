/**
 Plugin API versions: parsing, printing, ordering, and the range a manifest entry declares.

 The reference for parsing is the regular expression itself: three canonical numerals joined by dots.
 The reference for ordering is section 11 of Semantic Versioning 2.0.0: the first difference decides.
 */
module ApiVersion {
  import opened Basics
  import opened Text

  datatype Version = Version(major: nat, minor: nat, patch: nat)

  const DOT := "."

  function Render(v: Version): string {
    Decimal(v.major) + (DOT + (Decimal(v.minor) + (DOT + Decimal(v.patch))))
  }

  // ---------------------------------------------------------------- parsing

  function FirstDot(text: string): (i: nat)
    ensures i <= |text| && (i < |text| ==> text[i] == '.')
  {
    if text == "" || text[0] == '.' then 0 else 1 + FirstDot(text[1..])
  }

  /** The text before the first dot and the text after it, if there is one. */
  function Partition(text: string): Option<(string, string)> {
    var i := FirstDot(text);
    if i == |text| then None else Some((text[..i], text[i + 1..]))
  }

  function Parse(text: string): Option<Version> {
    match Partition(text)
    case None => None
    case Some((major, rest)) =>
      match Partition(rest)
      case None => None
      case Some((minor, patch)) =>
        if IsCanonical(major) && IsCanonical(minor) && IsCanonical(patch)
        then Some(Version(Number(major), Number(minor), Number(patch)))
        else None
  }

  /** What the regular expression matches in full, group by group. */
  predicate Matches(text: string, major: string, minor: string, patch: string) {
    && IsCanonical(major) && IsCanonical(minor) && IsCanonical(patch)
    && text == major + (DOT + (minor + (DOT + patch)))
  }

  lemma {:induction false} FirstDotAfter(head: string, rest: string)
    requires '.' !in head
    ensures FirstDot(head + (DOT + rest)) == |head|
  {
    var text := head + (DOT + rest);
    if head != "" {
      FirstDotAfter(head[1..], rest);
      assert text[1..] == head[1..] + (DOT + rest);
    }
  }

  lemma PartitionAfter(head: string, rest: string)
    requires '.' !in head
    ensures Partition(head + (DOT + rest)) == Some((head, rest))
  {
    hide FirstDot;
    var text := head + (DOT + rest);
    FirstDotAfter(head, rest);
    assert text[..|head|] == head && text[|head| + 1..] == rest;
  }

  lemma PartitionJoins(text: string)
    requires Partition(text).Some?
    ensures text == Partition(text).value.0 + (DOT + Partition(text).value.1)
  {
    hide FirstDot;
    var i := FirstDot(text);
    assert text == text[..i] + ([text[i]] + text[i + 1..]);
  }

  /** A text is accepted exactly when the expression matches it, and then stands for those numbers. */
  lemma ParseMatches(text: string, v: Version)
    ensures Parse(text) == Some(v) <==>
            exists a, b, c :: Matches(text, a, b, c) && v == Version(Number(a), Number(b), Number(c))
  {
    hide FirstDot, Number;
    if Parse(text) == Some(v) {
      PartitionJoins(text);
      PartitionJoins(Partition(text).value.1);
      var (a, rest) := Partition(text).value;
      var (b, c) := Partition(rest).value;
      assert Matches(text, a, b, c);
    }
    forall a, b, c | Matches(text, a, b, c) ensures Parse(text) == Some(Version(Number(a), Number(b), Number(c))) {
      PartitionAfter(a, b + (DOT + c));
      PartitionAfter(b, c);
    }
  }

  /** Printing then parsing gives the version back. */
  lemma ParseRendered(v: Version)
    ensures Parse(Render(v)) == Some(v)
  {
    hide Parse, Number, Decimal;
    var a, b, c := Decimal(v.major), Decimal(v.minor), Decimal(v.patch);
    NumberOfDecimal(v.major);
    NumberOfDecimal(v.minor);
    NumberOfDecimal(v.patch);
    assert Matches(Render(v), a, b, c);
    ParseMatches(Render(v), v);
  }

  /** Parsing then printing gives the text back: a version has one spelling. */
  lemma RenderParsed(text: string, v: Version)
    requires Parse(text) == Some(v)
    ensures Render(v) == text
  {
    hide Parse, Number, Decimal;
    ParseMatches(text, v);
    var a, b, c :| Matches(text, a, b, c) && v == Version(Number(a), Number(b), Number(c));
    DecimalOfNumber(a);
    DecimalOfNumber(b);
    DecimalOfNumber(c);
  }

  // ---------------------------------------------------------------- order

  /** Comparison of the field tuples. */
  predicate Below(a: Version, b: Version) {
    a.major < b.major
    || (a.major == b.major && (a.minor < b.minor || (a.minor == b.minor && a.patch < b.patch)))
  }

  predicate AtMost(a: Version, b: Version) {
    a == b || Below(a, b)
  }

  function Identifiers(v: Version): seq<nat> {
    [v.major, v.minor, v.patch]
  }

  /** Precedence is decided by the first identifier in which the versions differ. */
  ghost predicate Precedes(a: Version, b: Version) {
    exists i :: 0 <= i < 3 && Identifiers(a)[..i] == Identifiers(b)[..i] && Identifiers(a)[i] < Identifiers(b)[i]
  }

  lemma OrderIsPrecedence(a: Version, b: Version)
    ensures Below(a, b) <==> Precedes(a, b)
  {
    var x, y := Identifiers(a), Identifiers(b);
    if a.major < b.major {
      assert x[..0] == y[..0] && x[0] < y[0];
    } else if Below(a, b) && a.minor < b.minor {
      assert x[..1] == y[..1] && x[1] < y[1];
    } else if Below(a, b) {
      assert x[..2] == y[..2] && x[2] < y[2];
    }
    if i :| 0 <= i < 3 && x[..i] == y[..i] && x[i] < y[i] {
      assert i >= 1 ==> x[..i][0] == y[..i][0];
      assert i >= 2 ==> x[..i][1] == y[..i][1];
    }
  }

  /** A total order, so a range is what it looks like. */
  lemma OrderIsTotal(a: Version, b: Version, c: Version)
    ensures AtMost(a, b) || AtMost(b, a)
    ensures AtMost(a, b) && AtMost(b, a) ==> a == b
    ensures AtMost(a, b) && AtMost(b, c) ==> AtMost(a, c)
  {}

  // ---------------------------------------------------------------- the range of a manifest entry

  datatype Range = Range(min: Version, max: Version)

  const DEFAULT_MIN := Version(1, 0, 0)

  function Accept(min: Version, max: Version): Option<Range> {
    if Below(max, min) then None else Some(Range(min, max))
  }

  /** Missing and empty bounds are defaulted; an unreadable or inverted range is refused. */
  function DeclaredRange(apiMin: Option<string>, apiMax: Option<string>): Option<Range> {
    match if apiMin.None? || apiMin.value == "" then Some(DEFAULT_MIN) else Parse(apiMin.value)
    case None => None
    case Some(min) =>
      match Parse(if apiMax.None? || apiMax.value == "" then Render(min) else apiMax.value)
      case None => None
      case Some(max) => Accept(min, max)
  }

  predicate Supports(range: Range, v: Version) {
    AtMost(range.min, v) && AtMost(v, range.max)
  }

  lemma RenderedIsNotEmpty(v: Version)
    ensures Render(v) != ""
  {}

  /** Bounds are read as printed, and a missing upper bound is the lower one. */
  lemma {:induction false} BoundsAreRead(low: Version, high: Version)
    ensures DeclaredRange(Some(Render(low)), Some(Render(high))) == Accept(low, high)
    ensures DeclaredRange(Some(Render(low)), None) == DeclaredRange(Some(Render(low)), Some("")) == Accept(low, low)
  {
    hide Parse, Render;
    ParseRendered(low);
    ParseRendered(high);
    RenderedIsNotEmpty(low);
    RenderedIsNotEmpty(high);
  }

  /** Without a lower bound it is version 1.0.0; a bound that cannot be read is no range. */
  lemma {:induction false} DefaultsAndErrors(apiMin: Option<string>, apiMax: Option<string>)
    ensures apiMin.None? || apiMin == Some("") ==>
              DeclaredRange(apiMin, apiMax) == DeclaredRange(Some(Render(Version(1, 0, 0))), apiMax)
    ensures apiMin.Some? && apiMin != Some("") && Parse(apiMin.value).None? ==> DeclaredRange(apiMin, apiMax).None?
    ensures apiMax.Some? && apiMax != Some("") && Parse(apiMax.value).None? ==> DeclaredRange(apiMin, apiMax).None?
  {
    hide Parse, Render;
    ParseRendered(Version(1, 0, 0));
    RenderedIsNotEmpty(Version(1, 0, 0));
  }

  /**
   * A range is accepted exactly when its bounds are not inverted, and supports exactly what precedes
   * neither bound the wrong way; the range of one version supports that version only.
   */
  lemma {:induction false} RangesFollowPrecedence(low: Version, high: Version, v: Version)
    ensures Accept(low, high).Some? <==> !Precedes(high, low)
    ensures Accept(low, high).Some? ==>
              (Supports(Accept(low, high).value, v) <==> !Precedes(v, low) && !Precedes(high, v))
    ensures Accept(low, low).Some? && (Supports(Accept(low, low).value, v) <==> v == low)
  {
    hide Precedes;
    OrderIsPrecedence(high, low);
    OrderIsPrecedence(v, low);
    OrderIsPrecedence(high, v);
  }
}
