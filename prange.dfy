/**
 * The data model of the `prange` helper library: closed ranges of token
 * identifiers (`id_pair`), ordered vectors of them (`interval_set`), and the
 * 2-D grid-cell count `points_range_length`.
 *
 * Identifiers are `uint64` in the library; they are modelled as `nat`, and the
 * operations that could overflow say in their preconditions how far they are
 * bounded.
 */
module Prange {

  const TWO_64: int := 0x1_0000_0000_0000_0000
  const INT64_MIN: int := -0x8000_0000_0000_0000
  const INT64_MAX: int := 0x7fff_ffff_ffff_ffff

  type Int64 = x: int | INT64_MIN <= x <= INT64_MAX

  // ---------------------------------------------------------------------------
  // Points and points_range_length
  // ---------------------------------------------------------------------------

  /** `struct point` of prange.hpp: two signed 64-bit coordinates. */
  datatype Point = Point(latitude: Int64, longitude: Int64)

  /** `points_pair`: the two corners of a rectangle of grid cells. */
  datatype PointsPair = PointsPair(first: Point, second: Point)

  /** `std::minmax(a, b)` followed by `max - min`: the distance between a and b. */
  function Distance(a: Int64, b: Int64): nat
  {
    if a <= b then b - a else a - b
  }

  /**
   * points_range_length: the number of grid cells spanned by the rectangle.
   * The distances are stored in `size_t`, so the two `< 0` tests of the
   * library can never fire and are left out; the final product is a `size_t`
   * and wraps modulo 2^64.
   */
  function PointsRangeLength(range: PointsPair): (r: nat)
    ensures r < TWO_64
  {
    var first := Distance(range.first.latitude, range.second.latitude);
    var second := Distance(range.first.longitude, range.second.longitude);
    ((first + 1) * (second + 1)) % TWO_64
  }

  /** The grid cells of the rectangle, as an independent reference for the count. */
  ghost function GridCells(range: PointsPair): set<(int, int)>
  {
    var (x0, x1) := (Min(range.first.latitude, range.second.latitude), Max(range.first.latitude, range.second.latitude));
    var (y0, y1) := (Min(range.first.longitude, range.second.longitude), Max(range.first.longitude, range.second.longitude));
    Cells(x0, x1, y0, y1)
  }

  function Min(a: int, b: int): int { if a <= b then a else b }
  function Max(a: int, b: int): int { if a <= b then b else a }

  ghost function Cells(x0: int, x1: int, y0: int, y1: int): set<(int, int)>
  {
    set x: int, y: int | x0 <= x <= x1 && y0 <= y <= y1 :: (x, y)
  }

  ghost function Column(x: int, y0: int, y1: int): set<(int, int)>
  {
    set y: int | y0 <= y <= y1 :: (x, y)
  }

  lemma {:induction false} ColumnSize(x: int, y0: int, y1: int)
    requires y0 <= y1 + 1
    ensures |Column(x, y0, y1)| == y1 - y0 + 1
    decreases y1 - y0
  {
    if y0 == y1 + 1 {
      assert Column(x, y0, y1) == {};
    } else {
      ColumnSize(x, y0, y1 - 1);
      assert Column(x, y0, y1) == Column(x, y0, y1 - 1) + {(x, y1)};
    }
  }

  lemma {:induction false} CellsSize(x0: int, x1: int, y0: int, y1: int)
    requires x0 <= x1 + 1 && y0 <= y1 + 1
    ensures |Cells(x0, x1, y0, y1)| == (x1 - x0 + 1) * (y1 - y0 + 1)
    decreases x1 - x0
  {
    if x0 == x1 + 1 {
      assert Cells(x0, x1, y0, y1) == {};
    } else {
      var rest, column := Cells(x0, x1 - 1, y0, y1), Column(x1, y0, y1);
      CellsSize(x0, x1 - 1, y0, y1);
      ColumnSize(x1, y0, y1);
      forall c | c in Cells(x0, x1, y0, y1) ensures c in rest + column {
        if c.0 < x1 { assert c in rest; } else { assert c in column; }
      }
      assert Cells(x0, x1, y0, y1) == rest + column;
      assert rest !! column;
      var n, m := x1 - x0, y1 - y0 + 1;
      assert (n + 1) * m == n * m + m;
    }
  }

  /**
   * When the product fits in `size_t`, points_range_length is exactly the number
   * of grid cells of the rectangle, whatever the order of the two corners.
   */
  lemma PointsRangeLengthCountsCells(range: PointsPair)
    requires (Distance(range.first.latitude, range.second.latitude) + 1)
           * (Distance(range.first.longitude, range.second.longitude) + 1) < TWO_64
    ensures PointsRangeLength(range) == |GridCells(range)|
    ensures PointsRangeLength(range) >= 1
  {
    var x0, x1 := Min(range.first.latitude, range.second.latitude), Max(range.first.latitude, range.second.latitude);
    var y0, y1 := Min(range.first.longitude, range.second.longitude), Max(range.first.longitude, range.second.longitude);
    CellsSize(x0, x1, y0, y1);
    assert Distance(range.first.latitude, range.second.latitude) == x1 - x0;
    assert Distance(range.first.longitude, range.second.longitude) == y1 - y0;
  }

  /** Swapping the two corners of the pair does not change the count. */
  lemma PointsRangeLengthSymmetric(range: PointsPair)
    ensures PointsRangeLength(PointsPair(range.second, range.first)) == PointsRangeLength(range)
    ensures GridCells(PointsPair(range.second, range.first)) == GridCells(range)
  {
  }

  // ---------------------------------------------------------------------------
  // Ranges of identifiers and interval sets
  // ---------------------------------------------------------------------------

  /** `id_pair`: the closed range [first, second] of identifiers. */
  datatype IdPair = IdPair(first: nat, second: nat)

  /** `interval_set`: a vector of ranges. */
  type IntervalSet = seq<IdPair>

  /** Number of identifiers in a range; a reversed range holds none. */
  function Size(p: IdPair): nat
  {
    if p.second < p.first then 0 else p.second - p.first + 1
  }

  /** The identifiers of a range. */
  ghost function Span(p: IdPair): set<nat>
  {
    set x: nat | p.first <= x <= p.second && Within(p, x)
  }

  /** x is one of the identifiers of the range p. */
  predicate Within(p: IdPair, x: nat)
  {
    p.first <= x <= p.second
  }

  /** The identifiers covered by a set of ranges. */
  ghost function Ids(s: IntervalSet): set<nat>
  {
    if s == [] then {} else Ids(s[..|s| - 1]) + Span(s[|s| - 1])
  }

  /** The sum of the sizes of the ranges. */
  function TotalLength(s: IntervalSet): nat
  {
    if s == [] then 0 else TotalLength(s[..|s| - 1]) + Size(s[|s| - 1])
  }

  /** Every range well formed, and each range ends before any later one begins. */
  predicate IsIntervalSet(s: IntervalSet)
  {
    && (forall i | 0 <= i < |s| :: s[i].first <= s[i].second)
    && (forall i, j | 0 <= i < j < |s| :: s[i].second < s[j].first)
  }

  /** No two neighbouring ranges are exactly adjacent (`a.second + 1 == b.first`). */
  predicate NoAdjacent(s: IntervalSet)
  {
    forall i | 0 <= i < |s| - 1 :: s[i].second + 1 != s[i + 1].first
  }

  /** Two ranges share at least one identifier. */
  predicate Overlaps(p: IdPair, q: IdPair)
  {
    p.first <= q.second && q.first <= p.second
  }

  // ---------------------------------------------------------------------------
  // Lemmas about Ids and TotalLength
  // ---------------------------------------------------------------------------

  lemma {:induction false} IdsConcat(a: IntervalSet, b: IntervalSet)
    ensures Ids(a + b) == Ids(a) + Ids(b)
    decreases |b|
  {
    if b == [] {
      assert a + b == a;
    } else {
      var b' := b[..|b| - 1];
      assert (a + b)[..|a + b| - 1] == a + b';
      IdsConcat(a, b');
    }
  }

  lemma {:induction false} TotalLengthConcat(a: IntervalSet, b: IntervalSet)
    ensures TotalLength(a + b) == TotalLength(a) + TotalLength(b)
    decreases |b|
  {
    if b == [] {
      assert a + b == a;
    } else {
      var b' := b[..|b| - 1];
      assert (a + b)[..|a + b| - 1] == a + b';
      TotalLengthConcat(a, b');
    }
  }

  lemma IdsSingle(p: IdPair)
    ensures Ids([p]) == Span(p)
    ensures TotalLength([p]) == Size(p)
  {
    assert [p][..0] == [];
  }

  lemma IdsAppend(s: IntervalSet, p: IdPair)
    ensures Ids(s + [p]) == Ids(s) + Span(p)
    ensures TotalLength(s + [p]) == TotalLength(s) + Size(p)
  {
    assert (s + [p])[..|s|] == s;
  }

  /** Every range of the set contributes its identifiers. */
  lemma {:induction false} SpanInIds(s: IntervalSet, k: nat)
    requires k < |s|
    ensures Span(s[k]) <= Ids(s)
    decreases |s|
  {
    if k < |s| - 1 {
      SpanInIds(s[..|s| - 1], k);
    }
  }

  /** Every identifier of the set lies in one of its ranges. */
  lemma {:induction false} IdsWitness(s: IntervalSet, x: nat) returns (k: nat)
    requires x in Ids(s)
    ensures k < |s| && s[k].first <= x <= s[k].second
    decreases |s|
  {
    if x in Span(s[|s| - 1]) {
      k := |s| - 1;
    } else {
      k := IdsWitness(s[..|s| - 1], x);
    }
  }

  /** A well-formed range's size is the number of its identifiers. */
  lemma {:induction false} SpanSize(p: IdPair)
    ensures |Span(p)| == Size(p)
    decreases p.second - p.first
  {
    if p.second < p.first {
      assert Span(p) == {};
    } else if p.second == p.first {
      assert Span(p) == {p.first};
    } else {
      var q := IdPair(p.first, p.second - 1);
      SpanSize(q);
      assert Span(p) == Span(q) + {p.second};
    }
  }

  /** Identifiers all lie below `bound` when every range ends below it. */
  lemma {:induction false} IdsBelow(s: IntervalSet, bound: nat)
    requires forall i | 0 <= i < |s| :: s[i].second < bound
    ensures forall x | x in Ids(s) :: x < bound
    decreases |s|
  {
    if s != [] {
      IdsBelow(s[..|s| - 1], bound);
    }
  }

  /** Identifiers all lie above `bound` when every range begins above it. */
  lemma {:induction false} IdsAbove(s: IntervalSet, bound: int)
    requires forall i | 0 <= i < |s| :: bound < s[i].first
    ensures forall x | x in Ids(s) :: bound < x
    decreases |s|
  {
    if s != [] {
      IdsAbove(s[..|s| - 1], bound);
    }
  }

  /**
   * For an interval set the total length is the number of identifiers it
   * covers: the ranges are pairwise disjoint.
   */
  lemma {:induction false} TotalLengthCountsIds(s: IntervalSet)
    requires IsIntervalSet(s)
    ensures |Ids(s)| == TotalLength(s)
    decreases |s|
  {
    if s != [] {
      var init := s[..|s| - 1];
      var last := s[|s| - 1];
      TotalLengthCountsIds(init);
      IdsBelow(init, last.first);
      SpanSize(last);
      assert Ids(init) !! Span(last);
    }
  }

  /** Two ranges that touch or overlap, the first starting no later, fuse into one. */
  lemma SpanFuse(p: IdPair, q: IdPair)
    requires p.first <= q.first <= p.second + 1
    ensures Span(p) + Span(q) == Span(IdPair(p.first, Max(p.second, q.second)))
  {
  }

  // ---------------------------------------------------------------------------
  // Sequence identities, stated once so that proofs need not rediscover them
  // ---------------------------------------------------------------------------

  lemma PrefixSnoc<T>(s: seq<T>, i: nat)
    requires i < |s|
    ensures s[..i + 1] == s[..i] + [s[i]]
  {
  }

  lemma SplitAt<T>(s: seq<T>, i: nat)
    requires i <= |s|
    ensures s == s[..i] + s[i..]
  {
  }

  lemma InitLast<T>(s: seq<T>)
    requires s != []
    ensures s == s[..|s| - 1] + [s[|s| - 1]]
  {
  }

  lemma UpdateLast<T>(s: seq<T>, x: T)
    requires s != []
    ensures s[|s| - 1 := x] == s[..|s| - 1] + [x]
  {
  }

  lemma UnionAssoc<T>(a: set<T>, b: set<T>, c: set<T>)
    ensures (a + b) + c == a + (b + c)
  {
  }

  lemma ConcatAssoc<T>(a: seq<T>, b: seq<T>, c: seq<T>)
    ensures (a + b) + c == a + (b + c)
  {
  }
}
