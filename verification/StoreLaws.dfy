/**
 What the reference store's operations mean: the score is the one bilinear form that reads coordinates,
 and each write changes the collection it names and nothing else.
 */
module StoreLaws {
  import opened Basics
  import opened Text
  import opened Upserts
  import opened VectorStore

  // ---------------------------------------------------------------- the score

  /** The vector with a one at place `k` and zeros elsewhere. */
  function Unit(width: nat, k: nat): seq<real> {
    seq(width, i => if i == k then 1.0 else 0.0)
  }

  function Added(a: seq<real>, b: seq<real>): seq<real>
    requires |a| == |b|
  {
    seq(|a|, i requires 0 <= i < |a| => a[i] + b[i])
  }

  function Times(x: real, y: real): real {
    x * y
  }

  function Scaled(x: real, a: seq<real>): seq<real> {
    seq(|a|, i requires 0 <= i < |a| => Times(x, a[i]))
  }

  lemma {:induction false} DotZero(a: seq<real>, b: seq<real>)
    requires |a| == |b| && forall i :: 0 <= i < |b| ==> b[i] == 0.0
    ensures Dot(a, b) == 0.0
  {
    if a != [] { DotZero(a[1..], b[1..]); }
  }

  /** A unit vector reads a coordinate. */
  lemma {:induction false} DotReads(a: seq<real>, k: nat)
    requires k < |a|
    ensures Dot(a, Unit(|a|, k)) == a[k]
  {
    var rest := Unit(|a|, k)[1..];
    if k == 0 {
      DotZero(a[1..], rest);
    } else {
      assert rest == Unit(|a| - 1, k - 1);
      DotReads(a[1..], k - 1);
    }
  }

  lemma {:induction false} DotAdds(a: seq<real>, b: seq<real>, c: seq<real>)
    requires |a| == |b| == |c|
    ensures Dot(a, Added(b, c)) == Dot(a, b) + Dot(a, c)
  {
    if a != [] {
      assert Added(b, c)[1..] == Added(b[1..], c[1..]);
      DotAdds(a[1..], b[1..], c[1..]);
      assert a[0] * (b[0] + c[0]) == a[0] * b[0] + a[0] * c[0];
    }
  }

  lemma {:induction false} DotScales(a: seq<real>, x: real, b: seq<real>)
    requires |a| == |b|
    ensures Dot(a, Scaled(x, b)) == Times(x, Dot(a, b))
  {
    if a != [] {
      assert Scaled(x, b)[1..] == Scaled(x, b[1..]) by { ScaledRest(x, b); }
      DotScales(a[1..], x, b[1..]);
      Distribute(x, a[0], b[0], Dot(a[1..], b[1..]));
    }
  }

  lemma ScaledRest(x: real, b: seq<real>)
    requires b != []
    ensures Scaled(x, b)[1..] == Scaled(x, b[1..])
  {
    hide Times;
  }

  lemma Distribute(x: real, p: real, q: real, rest: real)
    ensures p * Times(x, q) + Times(x, rest) == Times(x, p * q + rest)
  {}

  lemma {:induction false} DotIsSymmetric(a: seq<real>, b: seq<real>)
    requires |a| == |b|
    ensures Dot(a, b) == Dot(b, a)
  {
    if a != [] { DotIsSymmetric(a[1..], b[1..]); }
  }

  ghost predicate Adds(width: nat, f: seq<real> -> real) {
    forall b, c :: |b| == width && |c| == width ==> f(Added(b, c)) == f(b) + f(c)
  }

  ghost predicate Scales(width: nat, f: seq<real> -> real) {
    forall x, b :: |b| == width ==> f(Scaled(x, b)) == Times(x, f(b))
  }

  /** It reads the coordinates of `a`. */
  ghost predicate Reads(a: seq<real>, f: seq<real> -> real) {
    forall k: nat :: k < |a| ==> f(Unit(|a|, k)) == a[k]
  }

  /** The first coordinates of a vector, the others zero. */
  function Upto(b: seq<real>, n: nat): seq<real> {
    seq(|b|, i requires 0 <= i < |b| => if i < n then b[i] else 0.0)
  }

  lemma UptoStep(b: seq<real>, n: nat)
    requires 1 <= n <= |b|
    ensures Upto(b, n) == Added(Upto(b, n - 1), Scaled(b[n - 1], Unit(|b|, n - 1)))
  {
    var step, unit := Scaled(b[n - 1], Unit(|b|, n - 1)), Unit(|b|, n - 1);
    forall i | 0 <= i < |b| ensures step[i] == if i == n - 1 then b[n - 1] else 0.0 {
      assert step[i] == Times(b[n - 1], unit[i]);
    }
  }

  lemma UptoNothing(b: seq<real>)
    ensures Upto(b, 0) == Scaled(0.0, b)
  {}

  lemma {:induction false} AgreeUpto(a: seq<real>, f: seq<real> -> real, b: seq<real>, n: nat)
    requires Adds(|a|, f) && Scales(|a|, f) && Reads(a, f) && |b| == |a| && n <= |b|
    ensures f(Upto(b, n)) == Dot(a, Upto(b, n))
  {
    hide Dot, Times;
    if n == 0 {
      UptoNothing(b);
      assert f(Upto(b, 0)) == 0.0 by { TimesZero(f(b)); }
      DotZero(a, Upto(b, 0));
    } else {
      AgreeUpto(a, f, b, n - 1);
      UptoStep(b, n);
      DotAdds(a, Upto(b, n - 1), Scaled(b[n - 1], Unit(|a|, n - 1)));
      DotScales(a, b[n - 1], Unit(|a|, n - 1));
      DotReads(a, n - 1);
    }
  }

  lemma TimesZero(x: real)
    ensures Times(0.0, x) == 0.0
  {}

  /** The score is determined: nothing else adds, scales and reads each coordinate of a record's vector. */
  lemma {:induction false} DotIsDetermined(a: seq<real>, f: seq<real> -> real)
    requires Adds(|a|, f) && Scales(|a|, f) && Reads(a, f)
    ensures forall b :: |b| == |a| ==> f(b) == Dot(a, b)
  {
    hide Dot, Adds, Scales, Reads;
    forall b | |b| == |a| ensures f(b) == Dot(a, b) {
      AgreeUpto(a, f, b, |b|);
      assert Upto(b, |b|) == b;
    }
  }

  /** And the score does all that. */
  lemma {:induction false} DotIsLinear(a: seq<real>)
    ensures var dot := (b: seq<real>) => if |b| == |a| then Dot(a, b) else 0.0;
            Adds(|a|, dot) && Scales(|a|, dot) && Reads(a, dot)
  {
    hide Dot, Times;
    forall b, c | |b| == |a| && |c| == |a| ensures Dot(a, Added(b, c)) == Dot(a, b) + Dot(a, c) { DotAdds(a, b, c); }
    forall x, b | |b| == |a| ensures Dot(a, Scaled(x, b)) == Times(x, Dot(a, b)) { DotScales(a, x, b); }
    forall k: nat | k < |a| ensures Dot(a, Unit(|a|, k)) == a[k] { DotReads(a, k); }
  }

  // ---------------------------------------------------------------- what each write changes

  /** Only the named collection may differ. */
  ghost predicate OnlyTouches(before: Store, after: Store, name: string) {
    before.collections - {name} == after.collections - {name} && before.dimensions - {name} == after.dimensions - {name}
  }

  /**
   * Ensuring a collection is refused exactly for a width below one or another width than it has, and then
   * changes nothing; otherwise the collection is there with that width and the records it had.
   */
  lemma {:induction false} EnsuringIsExact(store: Store, name: string, width: int)
    requires WellFormed(store)
    ensures var (after, error) := Ensure(store, name, width);
            && (error == Some(NonPositiveDimensions) <==> width < 1)
            && (error == Some(DimensionsDiffer) <==> width >= 1 && name in store.dimensions && store.dimensions[name] != width)
            && (error.None? || error == Some(NonPositiveDimensions) || error == Some(DimensionsDiffer))
            && (error.Some? ==> after == store)
            && (error.None? ==>
                  && name in after.collections && name in after.dimensions && after.dimensions[name] == width
                  && RecordsOf(after, name) == RecordsOf(store, name) && OnlyTouches(store, after, name))
  {}

  /** Dropping a collection forgets it whole, and the next one of that name starts empty with any width. */
  lemma {:induction false} DroppingIsExact(store: Store, name: string, width: int)
    requires WellFormed(store) && 1 <= width
    ensures var after := Drop(store, name);
            && name !in after.collections && name !in after.dimensions && OnlyTouches(store, after, name)
            && Ensure(after, name, width).1.None? && RecordsOf(Ensure(after, name, width).0, name) == map[]
  {}

  /** An upsert reaches one existing collection and leaves its width; it counts the batch or says why it stopped. */
  lemma {:induction false} UpsertingIsLocal(store: Store, name: string, batch: seq<Record>)
    requires WellFormed(store)
    ensures var (after, accepted) := Upsert(store, name, batch);
            && OnlyTouches(store, after, name) && after.dimensions == store.dimensions
            && (accepted == Err(NoSuchCollection) <==> name !in store.collections)
            && (accepted.Ok? <==> name in store.collections && forall r :: r in batch ==> |r.vector| == store.dimensions[name])
            && (accepted.Ok? ==> accepted.value == |batch|)
            && (accepted.Err? ==> accepted.error in {NoSuchCollection, WidthDiffers})
  {
    if name in store.collections { WritesWhileFitting(store.collections[name], store.dimensions[name], batch); }
  }

  lemma {:induction false} WritesWhileFitting(records: Records, width: int, batch: seq<Record>)
    ensures PutWhileFits(records, width, batch).1 <==> forall r :: r in batch ==> |r.vector| == width
    decreases |batch|
  {
    if batch != [] {
      assert batch == [batch[0]] + batch[1..];
      if |batch[0].vector| == width { WritesWhileFitting(records[batch[0].id := batch[0]], width, batch[1..]); }
    }
  }

  /** Deleting a source touches neither other collections nor the width. */
  lemma {:induction false} DeletionIsLocal(store: Store, name: string, source: string)
    ensures var after := DropSource(store, name, source);
            && OnlyTouches(store, after, name) && after.dimensions == store.dimensions
            && after.collections.Keys == store.collections.Keys
  {}

  // ---------------------------------------------------------------- the store, told from its history

  /** The width of a collection: the first valid one it was ensured with since it was last dropped. */
  ghost function WidthTold(script: seq<Command>, name: string): Option<int> {
    if script == [] then None
    else
      var before := WidthTold(script[..|script| - 1], name);
      match script[|script| - 1]
      case EnsureCommand(n, width) => if n == name && width >= 1 && before.None? then Some(width) else before
      case DropCommand(n) => if n == name then None else before
      case _ => before
  }

  /** The record last written under an identifier, unless its collection or its source has been removed since. */
  ghost function Told(script: seq<Command>, name: string, id: string): Option<Record> {
    if script == [] then None
    else
      var init := script[..|script| - 1];
      var before := Told(init, name, id);
      match script[|script| - 1]
      case EnsureCommand(_, _) => before
      case DropCommand(n) => if n == name then None else before
      case UpsertCommand(n, batch) =>
        var width := WidthTold(init, name);
        if n == name && width.Some? && LastOf(FittingPrefix(batch, width.value), id).Some? then
          LastOf(FittingPrefix(batch, width.value), id)
        else before
      case DropSourceCommand(n, source) =>
        if n == name && before.Some? && before.value.source == Some(source) then None else before
  }

  ghost predicate TellsWidth(store: Store, name: string, width: Option<int>) {
    && (name in store.collections <==> width.Some?) && (name in store.dimensions <==> width.Some?)
    && (width.Some? ==> store.dimensions[name] == width.value)
  }

  ghost predicate TellsRecord(store: Store, name: string, id: string, record: Option<Record>) {
    && (id in RecordsOf(store, name) <==> record.Some?)
    && (record.Some? ==> RecordsOf(store, name)[id] == record.value)
  }

  /** What is written of a batch is its longest part, from the start, that has the width. */
  lemma {:induction false} WrittenIsPrefix(batch: seq<Record>, width: int)
    ensures var written := FittingPrefix(batch, width);
            && written <= batch && AllWide(written, width)
            && (|written| < |batch| ==> |batch[|written|].vector| != width)
    decreases |batch|
  {
    if batch != [] && |batch[0].vector| == width {
      WrittenIsPrefix(batch[1..], width);
      assert batch == [batch[0]] + batch[1..];
    }
  }

  lemma UpsertTells(store: Store, name: string, batch: seq<Record>, id: string)
    requires name in store.collections && name in store.dimensions
    ensures var last := LastOf(FittingPrefix(batch, store.dimensions[name]), id);
            TellsRecord(Upsert(store, name, batch).0, name, id,
                        if last.Some? then last
                        else if id in RecordsOf(store, name) then Some(RecordsOf(store, name)[id]) else None)
  {
    UpsertPutsPrefix(store.collections[name], store.dimensions[name], batch);
    PutIsLast(store.collections[name], FittingPrefix(batch, store.dimensions[name]), id);
  }

  lemma StepTells(store: Store, command: Command, name: string, id: string, width: Option<int>, record: Option<Record>)
    requires TellsWidth(store, name, width) && TellsRecord(store, name, id, record)
    requires !command.UpsertCommand?
    ensures var after := Apply(store, command);
            match command
            case EnsureCommand(n, w) =>
              && TellsWidth(after, name, if n == name && w >= 1 && width.None? then Some(w) else width)
              && TellsRecord(after, name, id, record)
            case DropCommand(n) =>
              && TellsWidth(after, name, if n == name then None else width)
              && TellsRecord(after, name, id, if n == name then None else record)
            case DropSourceCommand(n, source) =>
              && TellsWidth(after, name, width)
              && TellsRecord(after, name, id,
                             if n == name && record.Some? && record.value.source == Some(source) then None else record)
  {}

  /**
   * Over all command sequences, failing commands included: which collections there are and how wide, and
   * what is stored under each identifier, is what the history tells.
   */
  lemma {:induction false} HistoryTellsStore(script: seq<Command>, name: string, id: string)
    ensures TellsWidth(Run(script), name, WidthTold(script, name))
    ensures TellsRecord(Run(script), name, id, Told(script, name, id))
  {
    if script != [] {
      var init, last := script[..|script| - 1], script[|script| - 1];
      HistoryTellsStore(init, name, id);
      var store := Run(init);
      if last.UpsertCommand? {
        hide PutWhileFits;
        if last.name == name && name in store.collections { UpsertTells(store, name, last.batch, id); }
      } else {
        hide FittingPrefix, LastOf, Drop, DropSource, Ensure;
        StepTells(store, last, name, id, WidthTold(init, name), Told(init, name, id));
      }
    }
  }
}
