/**
 * insert_interval of prange.cpp: locate the ranges a new range overlaps with
 * two upper_bound searches, then either insert the range or widen the first
 * overlapped range to cover the run and erase the rest of the run.
 *
 * The library's guard is inverted (it returns at once for every well-formed
 * range); `InsertIntervalAsWritten` models that guard, `InsertInterval` the
 * evident one, and both share `Place`, the code that follows the guard.
 */
module PrangeInsert {
  import opened Prange

  /**
   * std::upper_bound with the comparator `key < e.first`: the first position
   * whose range begins after `key`. For a sorted set every range from there
   * on begins after `key` (lemma UpperBoundSorted).
   */
  function UpperBound(s: IntervalSet, key: nat): (k: nat)
    ensures k <= |s|
    ensures forall i | 0 <= i < k :: s[i].first <= key
    ensures k < |s| ==> key < s[k].first
  {
    if s == [] then 0
    else if key < s[0].first then 0
    else
      var k' := UpperBound(s[1..], key);
      assert forall i | 1 <= i < k' + 1 :: s[i] == s[1..][i - 1];
      1 + k'
  }

  lemma UpperBoundSorted(s: IntervalSet, key: nat)
    requires IsIntervalSet(s)
    ensures forall i | UpperBound(s, key) <= i < |s| :: key < s[i].first
  {
    var k := UpperBound(s, key);
    forall i | k <= i < |s| ensures key < s[i].first {
      if k < i { assert s[k].second < s[i].first; }
    }
  }

  /**
   * The shape insert_interval leaves behind: the ranges before `pos` end
   * before the new range, those from `stop` on begin after it, those in
   * between all overlap it, and they are replaced by one range covering the
   * run and the new range (the new range itself when the run is empty).
   * Merely adjacent ranges are not part of the run.
   */
  ghost predicate Run(idSet: IntervalSet, range: IdPair, pos: nat, stop: nat)
  {
    && pos <= stop <= |idSet|
    && (forall k | 0 <= k < pos :: idSet[k].second < range.first)
    && (forall k | pos <= k < stop :: Overlaps(idSet[k], range))
    && (forall k | stop <= k < |idSet| :: range.second < idSet[k].first)
  }

  ghost predicate Spliced(idSet: IntervalSet, range: IdPair, pos: nat, stop: nat, result: IntervalSet)
  {
    Run(idSet, range, pos, stop) && result == Splice(idSet, range, pos, stop)
  }

  /** The run idSet[pos..stop] replaced by its covering range. */
  function Splice(idSet: IntervalSet, range: IdPair, pos: nat, stop: nat): IntervalSet
    requires pos <= stop <= |idSet|
  {
    idSet[..pos] + [Covering(idSet, range, pos, stop)] + idSet[stop..]
  }

  /** The range that replaces the run idSet[pos..stop] once `range` is added to it. */
  function Covering(idSet: IntervalSet, range: IdPair, pos: nat, stop: nat): IdPair
    requires pos <= stop <= |idSet|
  {
    if pos == stop then range
    else IdPair(Min(idSet[pos].first, range.first), Max(idSet[stop - 1].second, range.second))
  }

  /**
   * The code of insert_interval after its guard. `defined` is false exactly
   * when the erase would be handed a reversed iterator pair, which only a
   * reversed range can cause.
   */
  method Place(idSet: IntervalSet, range: IdPair) returns (defined: bool, pos: nat, result: IntervalSet, ghost stop: nat)
    requires IsIntervalSet(idSet)
    ensures range.first <= range.second ==> defined && Spliced(idSet, range, pos, stop, result)
    ensures range.first <= range.second ==>
              && IsIntervalSet(result)
              && Ids(result) == Ids(idSet) + Span(range)
              && pos < |result| && Span(range) <= Span(result[pos])
    ensures idSet == [] ==> defined && pos == 0 && result == [range]
  {
    var start := UpperBound(idSet, range.first);
    var end := UpperBound(idSet, range.second);
    ghost var first := start;
    if start > 0 && idSet[start - 1].second >= range.first {
      start := start - 1;
    }
    if idSet == [] {
      // Both searches return begin() == end(), and the range goes in there.
      defined, pos, result, stop := true, 0, [range], 0;
      assert result == idSet[..start] + [range] + idSet[start..];
    } else if start == end {
      defined, pos, result, stop := true, start, idSet[..start] + [range] + idSet[start..], start;
    } else if start < end {
      var covering := IdPair(Min(idSet[start].first, range.first), Max(idSet[end - 1].second, range.second));
      defined, pos, result, stop := true, start, idSet[..start] + [covering] + idSet[end..], end;
    } else {
      defined, pos, result, stop := false, start, idSet, start;
    }
    if range.first <= range.second {
      PlaceRun(idSet, range, first, end, start);
      assert result == Splice(idSet, range, pos, stop);
      SplicedFacts(idSet, range, pos, stop, result);
    }
  }

  /** The two searches and the step back locate exactly the overlapped run. */
  lemma PlaceRun(idSet: IntervalSet, range: IdPair, first: nat, end: nat, start: nat)
    requires IsIntervalSet(idSet) && range.first <= range.second
    requires first == UpperBound(idSet, range.first) && end == UpperBound(idSet, range.second)
    requires start == if 0 < first && idSet[first - 1].second >= range.first then first - 1 else first
    ensures start <= end && Run(idSet, range, start, end)
  {
    UpperBoundSorted(idSet, range.first);
    UpperBoundSorted(idSet, range.second);
    forall k | 0 <= k < start ensures idSet[k].second < range.first {
      if k < first - 1 { assert idSet[k].second < idSet[first - 1].first; }
    }
  }

  /** insert_interval as the library writes it: the guard returns `end()` for every well-formed range. */
  method InsertIntervalAsWritten(idSet: IntervalSet, range: IdPair) returns (defined: bool, pos: nat, result: IntervalSet)
    requires IsIntervalSet(idSet)
    ensures range.first <= range.second ==> defined && pos == |idSet| && result == idSet
    ensures range.second < range.first && idSet == [] ==> defined && result == [range] && !IsIntervalSet(result)
  {
    if range.first <= range.second {
      return true, |idSet|, idSet;
    }
    ghost var stop;
    defined, pos, result, stop := Place(idSet, range);
    if idSet == [] {
      assert result[0] == range;
    }
  }

  /** With the guard as intended: a reversed range is refused and a well-formed one is added. */
  method InsertInterval(idSet: IntervalSet, range: IdPair) returns (pos: nat, result: IntervalSet)
    requires IsIntervalSet(idSet)
    ensures range.second < range.first ==> pos == |idSet| && result == idSet
    ensures range.first <= range.second ==>
              && IsIntervalSet(result)
              && Ids(result) == Ids(idSet) + Span(range)
              && pos < |result| && Span(range) <= Span(result[pos])
    ensures range.first <= range.second ==> exists stop :: Spliced(idSet, range, pos, stop, result)
  {
    if range.first > range.second {
      return |idSet|, idSet;
    }
    var defined;
    ghost var stop;
    defined, pos, result, stop := Place(idSet, range);
  }

  /** The library's guard loses the identifiers of any well-formed range added to an empty set. */
  method InsertIntoEmptyAsWritten() returns (result: IntervalSet)
    ensures result == [] && Ids(result) != Ids([]) + Span(IdPair(1, 1))
  {
    var defined, pos;
    defined, pos, result := InsertIntervalAsWritten([], IdPair(1, 1));
    assert Within(IdPair(1, 1), 1);
    assert 1 in Span(IdPair(1, 1));
  }

  // ---------------------------------------------------------------------------
  // Properties of the splice
  // ---------------------------------------------------------------------------

  /** A splice of a well-formed range keeps the set an interval set and adds exactly the range's identifiers. */
  lemma SplicedFacts(idSet: IntervalSet, range: IdPair, pos: nat, stop: nat, result: IntervalSet)
    requires IsIntervalSet(idSet) && range.first <= range.second
    requires Spliced(idSet, range, pos, stop, result)
    ensures IsIntervalSet(result)
    ensures Ids(result) == Ids(idSet) + Span(range)
    ensures pos < |result| && Span(range) <= Span(result[pos])
  {
    var m := Covering(idSet, range, pos, stop);
    assert result[pos] == m;
    SplicedSorted(idSet, range, pos, stop);
    SplicedIds(idSet, range, pos, stop);
  }

  lemma SplicedIds(idSet: IntervalSet, range: IdPair, pos: nat, stop: nat)
    requires IsIntervalSet(idSet) && range.first <= range.second
    requires Run(idSet, range, pos, stop)
    ensures Ids(Splice(idSet, range, pos, stop)) == Ids(idSet) + Span(range)
  {
    var m := Covering(idSet, range, pos, stop);
    var pre, mid, post := idSet[..pos], idSet[pos..stop], idSet[stop..];
    SpliceIds(idSet, pos, stop, m);
    PartsIds(idSet, pos, stop);
    if pos < stop {
      RunCovering(idSet, range, pos, stop);
    } else {
      assert mid == [];
    }
    UnionSwap3(Ids(pre), Ids(mid), Ids(post), Span(range), Span(m));
  }

  /** The overlapped run, with the new range, is covered exactly by the covering range. */
  lemma RunCovering(idSet: IntervalSet, range: IdPair, pos: nat, stop: nat)
    requires IsIntervalSet(idSet) && range.first <= range.second
    requires pos < stop <= |idSet|
    requires forall k | pos <= k < stop :: Overlaps(idSet[k], range)
    ensures Ids(idSet[pos..stop]) + Span(range) == Span(Covering(idSet, range, pos, stop))
  {
    var mid := idSet[pos..stop];
    assert mid[0] == idSet[pos] && mid[|mid| - 1] == idSet[stop - 1];
    assert forall k | 0 <= k < |mid| :: mid[k] == idSet[pos + k];
    SuffixOrder(idSet, pos, stop);
    RunUnion(mid, range);
  }

  lemma SuffixOrder(s: IntervalSet, lo: nat, hi: nat)
    requires IsIntervalSet(s) && lo <= hi <= |s|
    ensures IsIntervalSet(s[lo..hi])
  {
    var t := s[lo..hi];
    assert forall k | 0 <= k < |t| :: t[k] == s[lo + k];
  }

  lemma UnionSwap3<T>(a: set<T>, b: set<T>, c: set<T>, r: set<T>, m: set<T>)
    requires b + r == m
    ensures a + m + c == (a + b + c) + r
  {
  }

  /** The spliced sequence is sorted: everything before the covering range ends before it, everything after begins after it. */
  lemma SplicedSorted(idSet: IntervalSet, range: IdPair, pos: nat, stop: nat)
    requires IsIntervalSet(idSet) && range.first <= range.second
    requires pos <= stop <= |idSet|
    requires forall k | 0 <= k < pos :: idSet[k].second < range.first
    requires forall k | stop <= k < |idSet| :: range.second < idSet[k].first
    ensures IsIntervalSet(Splice(idSet, range, pos, stop))
  {
    var m := Covering(idSet, range, pos, stop);
    assert m.first <= m.second by {
      if pos < stop { assert idSet[pos].first <= idSet[pos].second <= idSet[stop - 1].second; }
    }
    forall k | 0 <= k < pos ensures idSet[k].second < m.first {
      if pos < stop { assert idSet[k].second < idSet[pos].first; }
    }
    forall k | stop <= k < |idSet| ensures m.second < idSet[k].first {
      if pos < stop { assert idSet[stop - 1].second < idSet[k].first; }
    }
    SpliceLayout(idSet, pos, stop, m);
    SortedAround(idSet, pos, stop, m, Splice(idSet, range, pos, stop));
  }

  /** Where each element of `s` lands once s[pos..stop] is replaced by m. */
  lemma SpliceLayout<T>(s: seq<T>, pos: nat, stop: nat, m: T)
    requires pos <= stop <= |s|
    ensures |s[..pos] + [m] + s[stop..]| == pos + 1 + |s| - stop
    ensures (s[..pos] + [m] + s[stop..])[pos] == m
    ensures forall k | 0 <= k < pos :: (s[..pos] + [m] + s[stop..])[k] == s[k]
    ensures forall k | pos < k <= pos + |s| - stop :: (s[..pos] + [m] + s[stop..])[k] == s[k - pos - 1 + stop]
  {
  }

  lemma SpliceSame<T>(s: seq<T>, k: nat)
    requires k < |s|
    ensures s[..k] + [s[k]] + s[k + 1..] == s
  {
  }

  /** A range placed between the ranges it ends above and those it starts below keeps the set sorted. */
  lemma SortedAround(s: IntervalSet, pos: nat, stop: nat, m: IdPair, r: IntervalSet)
    requires IsIntervalSet(s) && pos <= stop <= |s| && m.first <= m.second
    requires forall k | 0 <= k < pos :: s[k].second < m.first
    requires forall k | stop <= k < |s| :: m.second < s[k].first
    requires |r| == pos + 1 + |s| - stop && r[pos] == m
    requires forall k | 0 <= k < pos :: r[k] == s[k]
    requires forall k | pos < k <= pos + |s| - stop :: r[k] == s[k - pos - 1 + stop]
    ensures IsIntervalSet(r)
  {
    forall x | 0 <= x < |r| ensures r[x].first <= r[x].second {
      if x < pos { assert r[x] == s[x]; } else if pos < x { assert r[x] == s[x - pos - 1 + stop]; }
    }
    forall x, y | 0 <= x < y < |r| ensures r[x].second < r[y].first {
      if x < pos { assert r[x] == s[x]; } else if pos < x { assert r[x] == s[x - pos - 1 + stop]; }
      if y < pos { assert r[y] == s[y]; } else if pos < y { assert r[y] == s[y - pos - 1 + stop]; }
    }
  }

  /** The identifiers of a splice, piece by piece. */
  lemma SpliceIds(s: IntervalSet, pos: nat, stop: nat, m: IdPair)
    requires pos <= stop <= |s|
    ensures Ids(s[..pos] + [m] + s[stop..]) == Ids(s[..pos]) + Span(m) + Ids(s[stop..])
  {
    var pre, post := s[..pos], s[stop..];
    IdsConcat(pre + [m], post);
    IdsAppend(pre, m);
  }

  lemma PartsIds(s: IntervalSet, pos: nat, stop: nat)
    requires pos <= stop <= |s|
    ensures Ids(s) == Ids(s[..pos]) + Ids(s[pos..stop]) + Ids(s[stop..])
  {
    var pre, mid, post := s[..pos], s[pos..stop], s[stop..];
    assert s == pre + mid + post;
    IdsConcat(pre + mid, post);
    IdsConcat(pre, mid);
  }

  /**
   * A sorted run of ranges that all overlap `range` covers, together with
   * `range`, exactly one range: from the lesser start to the greater end.
   */
  lemma RunUnion(run: IntervalSet, range: IdPair)
    requires IsIntervalSet(run) && run != [] && range.first <= range.second
    requires forall k | 0 <= k < |run| :: Overlaps(run[k], range)
    ensures Ids(run) + Span(range) == Span(IdPair(Min(run[0].first, range.first), Max(run[|run| - 1].second, range.second)))
  {
    var first, last := run[0], run[|run| - 1];
    var m := IdPair(Min(first.first, range.first), Max(last.second, range.second));
    forall x | x in Span(m) ensures x in Ids(run) + Span(range) {
      if x < range.first {
        SpanInIds(run, 0);
        assert Within(first, x);
      } else if x > range.second {
        SpanInIds(run, |run| - 1);
        assert Within(last, x);
      } else {
        assert Within(range, x);
      }
    }
    forall x | x in Ids(run) ensures x in Span(m) {
      var k := IdsWitness(run, x);
      if 0 < k { assert first.first < run[k].first; }
      if k < |run| - 1 { assert run[k].second < last.first; }
      assert Within(m, x);
    }
  }

  /**
   * The splice is determined by its inputs: two results that both have the
   * shape are the same sequence.
   */
  lemma SplicedUnique(idSet: IntervalSet, range: IdPair, pos1: nat, stop1: nat, r1: IntervalSet,
                      pos2: nat, stop2: nat, r2: IntervalSet)
    requires IsIntervalSet(idSet) && range.first <= range.second
    requires Spliced(idSet, range, pos1, stop1, r1) && Spliced(idSet, range, pos2, stop2, r2)
    ensures pos1 == pos2 && r1 == r2
  {
    RunBounds(idSet, range, pos1, stop1, pos2, stop2);
    RunBounds(idSet, range, pos2, stop2, pos1, stop1);
  }

  lemma RunBounds(idSet: IntervalSet, range: IdPair, pos1: nat, stop1: nat, pos2: nat, stop2: nat)
    requires IsIntervalSet(idSet) && range.first <= range.second
    requires Run(idSet, range, pos1, stop1) && Run(idSet, range, pos2, stop2)
    ensures pos1 <= pos2 && stop1 <= stop2
  {
    assert pos2 < |idSet| ==> idSet[pos2].first <= idSet[pos2].second;
    assert stop2 < |idSet| ==> idSet[stop2].first <= idSet[stop2].second;
  }

  /**
   * Adding a range that an existing range already contains changes nothing,
   * and the returned position is that range.
   */
  lemma SplicedContained(idSet: IntervalSet, range: IdPair, k: nat, pos: nat, stop: nat, result: IntervalSet)
    requires IsIntervalSet(idSet) && range.first <= range.second
    requires k < |idSet| && idSet[k].first <= range.first && range.second <= idSet[k].second
    requires Spliced(idSet, range, pos, stop, result)
    ensures pos == k && result == idSet
  {
    assert Run(idSet, range, k, k + 1) by {
      forall i | 0 <= i < k ensures idSet[i].second < range.first {
        assert idSet[i].second < idSet[k].first;
      }
      forall i | k + 1 <= i < |idSet| ensures range.second < idSet[i].first {
        assert idSet[k].second < idSet[i].first;
      }
    }
    SplicedUnique(idSet, range, pos, stop, result, k, k + 1, Splice(idSet, range, k, k + 1));
    assert Covering(idSet, range, k, k + 1) == idSet[k];
    SpliceSame(idSet, k);
  }

  /** Adding the same range twice is the same as adding it once. */
  lemma SplicedIdempotent(idSet: IntervalSet, range: IdPair, pos: nat, stop: nat, result: IntervalSet,
                          pos': nat, stop': nat, result': IntervalSet)
    requires IsIntervalSet(idSet) && range.first <= range.second
    requires Spliced(idSet, range, pos, stop, result)
    requires Spliced(result, range, pos', stop', result')
    ensures pos' == pos && result' == result
  {
    SplicedFacts(idSet, range, pos, stop, result);
    var m := Covering(idSet, range, pos, stop);
    SpliceLayout(idSet, pos, stop, m);
    assert result[pos] == m;
    assert m.first <= range.first && range.second <= m.second;
    SplicedContained(result, range, pos, pos', stop', result');
  }
}
