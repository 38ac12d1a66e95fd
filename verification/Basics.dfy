/** Small vocabulary shared by the component models. */
module Basics {

  datatype Option<+T> = None | Some(value: T)

  datatype Result<+T, +E> = Ok(value: T) | Err(error: E)

  newtype byte = x: int | 0 <= x < 256

  /** The values of a sequence, without order or multiplicity. */
  ghost function Elements<T>(xs: seq<T>): set<T> {
    set x | x in xs
  }

  function Min(a: int, b: int): int {
    if a <= b then a else b
  }

  function Max(a: int, b: int): int {
    if a <= b then b else a
  }

  /** The parts, one after the other. */
  function Flatten<T>(parts: seq<seq<T>>): seq<T> {
    if parts == [] then [] else Flatten(parts[..|parts| - 1]) + parts[|parts| - 1]
  }

  ghost predicate Distinct<T>(xs: seq<T>) {
    forall i, j :: 0 <= i < j < |xs| ==> xs[i] != xs[j]
  }

  /** A sequence has as many values as positions exactly when nothing in it repeats. */
  lemma {:induction false} DistinctCardinality<T>(xs: seq<T>)
    ensures |Elements(xs)| <= |xs|
    ensures |Elements(xs)| == |xs| <==> Distinct(xs)
  {
    if xs != [] {
      var init, last := xs[..|xs| - 1], xs[|xs| - 1];
      DistinctCardinality(init);
      assert xs == init + [last];
      assert Elements(xs) == Elements(init) + {last};
      if last in init {
        var i :| 0 <= i < |init| && init[i] == last;
        assert xs[i] == xs[|xs| - 1];
        assert Elements(xs) == Elements(init);
      }
    } else {
      assert Elements(xs) == {};
    }
  }

  /** A finite subset is no larger than the set that contains it. */
  lemma {:induction false} SubsetCardinality<T>(small: set<T>, large: set<T>)
    requires small <= large
    ensures |small| <= |large|
    ensures |small| == |large| ==> small == large
  {
    if small != {} {
      var x :| x in small;
      SubsetCardinality(small - {x}, large - {x});
    }
  }

  /** Positions in increasing order, which are exactly those of the elements that qualify. */
  ghost predicate Selects<T>(xs: seq<T>, positions: seq<nat>, qualifies: T -> bool) {
    && (forall i, j :: 0 <= i < j < |positions| ==> positions[i] < positions[j])
    && (forall i :: 0 <= i < |positions| ==> positions[i] < |xs| && qualifies(xs[positions[i]]))
    && (forall p :: 0 <= p < |xs| && qualifies(xs[p]) ==> p in positions)
  }

  lemma SelectsMore<T>(init: seq<T>, last: T, positions: seq<nat>, qualifies: T -> bool) returns (more: seq<nat>)
    requires Selects(init, positions, qualifies)
    ensures Selects(init + [last], more, qualifies)
    ensures more == if qualifies(last) then positions + [|init|] else positions
  {
    more := if qualifies(last) then positions + [|init|] else positions;
    var xs := init + [last];
    forall p | 0 <= p < |xs| && qualifies(xs[p]) ensures p in more {
      if p < |init| {
        assert xs[p] == init[p] && p in positions;
      } else {
        assert more[|positions|] == p;
      }
    }
  }
}
