/**
 * merge_sets of prange.cpp: a two-pointer union of two interval sets that
 * fuses a range into the previous output range only when it starts exactly
 * one past it.
 */
module PrangeMerge {
  import opened Prange

  /** The inputs merge_sets is written for: two interval sets with no identifier in common. */
  ghost predicate Mergeable(set1: IntervalSet, set2: IntervalSet)
  {
    IsIntervalSet(set1) && IsIntervalSet(set2) && Ids(set1) !! Ids(set2)
  }

  /**
   * What the output holds once set1[..i] and set2[..j] have been consumed:
   * an interval set with exactly their identifiers and total length, whose
   * last range ends before everything not yet consumed.
   */
  ghost predicate MergeState(set1: IntervalSet, set2: IntervalSet, i: nat, j: nat, newset: IntervalSet)
  {
    && i <= |set1| && j <= |set2|
    && newset != []
    && IsIntervalSet(newset)
    && Ids(newset) == Ids(set1[..i]) + Ids(set2[..j])
    && TotalLength(newset) == TotalLength(set1[..i]) + TotalLength(set2[..j])
    && (forall k | i <= k < |set1| :: newset[|newset| - 1].second < set1[k].first)
    && (forall k | j <= k < |set2| :: newset[|newset| - 1].second < set2[k].first)
  }

  /** One output step: fold `val` into the last range when exactly adjacent, else append it. */
  ghost function Emit(newset: IntervalSet, val: IdPair): IntervalSet
    requires newset != []
  {
    var out := |newset| - 1;
    if val.first == newset[out].second + 1 then newset[out := IdPair(newset[out].first, val.second)]
    else newset + [val]
  }

  /** Of two disjoint interval sets, a range that starts no later than another ends before it. */
  lemma CrossOrder(a: IntervalSet, b: IntervalSet, i: nat, j: nat)
    requires IsIntervalSet(a) && IsIntervalSet(b) && Ids(a) !! Ids(b)
    requires i < |a| && j < |b| && a[i].first <= b[j].first
    ensures a[i].second < b[j].first
  {
    SpanInIds(a, i);
    SpanInIds(b, j);
    assert Within(b[j], b[j].first);
    assert b[j].first in Ids(b);
    assert b[j].first !in Span(a[i]);
  }

  /** Emitting a range that begins after the output keeps the output an interval set. */
  lemma EmitKeeps(newset: IntervalSet, val: IdPair)
    requires newset != [] && IsIntervalSet(newset)
    requires val.first <= val.second && newset[|newset| - 1].second < val.first
    ensures Emit(newset, val) != []
    ensures IsIntervalSet(Emit(newset, val))
    ensures Ids(Emit(newset, val)) == Ids(newset) + Span(val)
    ensures TotalLength(Emit(newset, val)) == TotalLength(newset) + Size(val)
    ensures Emit(newset, val)[|Emit(newset, val)| - 1].second == val.second
    ensures NoAdjacent(newset) ==> NoAdjacent(Emit(newset, val))
  {
    var init, last := newset[..|newset| - 1], newset[|newset| - 1];
    if val.first == last.second + 1 {
      assert init + [last] == newset;
      var fused := IdPair(last.first, val.second);
      assert Emit(newset, val) == init + [fused];
      FuseKeeps(init, last, val);
    } else {
      PushKeeps(newset, val);
    }
  }

  lemma FuseKeeps(init: IntervalSet, last: IdPair, val: IdPair)
    requires IsIntervalSet(init + [last])
    requires val.first <= val.second && val.first == last.second + 1
    ensures IsIntervalSet(init + [IdPair(last.first, val.second)])
    ensures Ids(init + [IdPair(last.first, val.second)]) == Ids(init + [last]) + Span(val)
    ensures TotalLength(init + [IdPair(last.first, val.second)]) == TotalLength(init + [last]) + Size(val)
    ensures NoAdjacent(init + [last]) ==> NoAdjacent(init + [IdPair(last.first, val.second)])
  {
    var fused := IdPair(last.first, val.second);
    assert (init + [last])[|init|] == last;
    FuseSorted(init, last, fused);
    IdsAppend(init, last);
    IdsAppend(init, fused);
    assert Span(last) + Span(val) == Span(fused) by {
      SpanFuse(last, val);
    }
    UnionAssoc(Ids(init), Span(last), Span(val));
  }

  /** Widening the last range of an interval set at its top keeps it sorted, and keeps the gaps below it. */
  lemma FuseSorted(init: IntervalSet, last: IdPair, fused: IdPair)
    requires IsIntervalSet(init + [last])
    requires fused.first == last.first <= last.second <= fused.second
    ensures IsIntervalSet(init + [fused])
    ensures NoAdjacent(init + [last]) ==> NoAdjacent(init + [fused])
  {
    var s, t := init + [last], init + [fused];
    assert forall k | 0 <= k < |init| :: s[k] == t[k] == init[k];
    assert s[|init|] == last && t[|init|] == fused;
    assert forall k | 0 <= k < |init| :: init[k].second < last.first by {
      forall k | 0 <= k < |init| ensures init[k].second < last.first { assert s[k].second < s[|init|].first; }
    }
  }

  lemma PushKeeps(newset: IntervalSet, val: IdPair)
    requires newset != [] && IsIntervalSet(newset)
    requires val.first <= val.second && newset[|newset| - 1].second < val.first
    ensures IsIntervalSet(newset + [val])
    ensures Ids(newset + [val]) == Ids(newset) + Span(val)
    ensures TotalLength(newset + [val]) == TotalLength(newset) + Size(val)
    ensures val.first != newset[|newset| - 1].second + 1 && NoAdjacent(newset) ==> NoAdjacent(newset + [val])
  {
    IdsAppend(newset, val);
    var s := newset + [val];
    forall x, y | 0 <= x < y < |s| ensures s[x].second < s[y].first {
      if y == |newset| && x < |newset| - 1 {
        assert newset[x].second < newset[|newset| - 1].first;
      }
    }
  }

  /** Consuming a[i], which starts no later than the next range of b, keeps the merge state. */
  lemma StepKeeps(a: IntervalSet, b: IntervalSet, i: nat, j: nat, newset: IntervalSet)
    requires Mergeable(a, b)
    requires MergeState(a, b, i, j, newset)
    requires i < |a| && (j < |b| ==> a[i].first <= b[j].first)
    ensures MergeState(a, b, i + 1, j, Emit(newset, a[i]))
    ensures Emit(newset, a[i])[|Emit(newset, a[i])| - 1].second == a[i].second
    ensures NoAdjacent(newset) ==> NoAdjacent(Emit(newset, a[i]))
  {
    EmitKeeps(newset, a[i]);
    PrefixSnoc(a, i);
    IdsAppend(a[..i], a[i]);
    var out := Emit(newset, a[i]);
    forall k | j <= k < |b| ensures out[|out| - 1].second < b[k].first {
      CrossOrder(a, b, i, j);
    }
  }

  lemma MergeStateSwap(a: IntervalSet, b: IntervalSet, i: nat, j: nat, newset: IntervalSet)
    requires MergeState(a, b, i, j, newset)
    ensures MergeState(b, a, j, i, newset)
  {
  }

  /** The first range output is the one of the two that starts first. */
  lemma StartKeeps(a: IntervalSet, b: IntervalSet)
    requires Mergeable(a, b) && a != [] && b != [] && a[0].first <= b[0].first
    ensures MergeState(a, b, 1, 0, [a[0]])
  {
    IdsSingle(a[0]);
    assert a[..1] == [a[0]];
    assert b[..0] == [];
    CrossOrder(a, b, 0, 0);
  }

  /** Once b is used up, appending the rest of a completes the union. */
  lemma TailKeeps(a: IntervalSet, b: IntervalSet, i: nat, newset: IntervalSet)
    requires Mergeable(a, b)
    requires MergeState(a, b, i, |b|, newset)
    ensures IsIntervalSet(newset + a[i..])
    ensures Ids(newset + a[i..]) == Ids(a) + Ids(b)
    ensures TotalLength(newset + a[i..]) == TotalLength(a) + TotalLength(b)
    ensures NoAdjacent(newset) && NoAdjacent(a) && (i < |a| ==> 0 < i && newset[|newset| - 1].second == a[i - 1].second)
            ==> NoAdjacent(newset + a[i..])
  {
    assert b[..|b|] == b;
    TailIds(a, b, i, newset);
    TailSorted(a, i, newset);
    if NoAdjacent(newset) && NoAdjacent(a) && (i < |a| ==> 0 < i && newset[|newset| - 1].second == a[i - 1].second) {
      ConcatNoAdjacent(newset, a, i);
    }
  }

  lemma TailIds(a: IntervalSet, b: IntervalSet, i: nat, newset: IntervalSet)
    requires i <= |a|
    requires Ids(newset) == Ids(a[..i]) + Ids(b)
    requires TotalLength(newset) == TotalLength(a[..i]) + TotalLength(b)
    ensures Ids(newset + a[i..]) == Ids(a) + Ids(b)
    ensures TotalLength(newset + a[i..]) == TotalLength(a) + TotalLength(b)
  {
    var front, back := a[..i], a[i..];
    SplitAt(a, i);
    assert TotalLength(newset + back) == TotalLength(newset) + TotalLength(back) by {
      TotalLengthConcat(newset, back);
    }
    assert TotalLength(a) == TotalLength(front) + TotalLength(back) by {
      TotalLengthConcat(front, back);
    }
    var x, y, z := Ids(front), Ids(b), Ids(back);
    assert Ids(newset + back) == x + y + z by { IdsConcat(newset, back); }
    assert Ids(a) == x + z by { IdsConcat(front, back); }
    UnionSwap(x, y, z);
  }

  lemma UnionSwap<T>(x: set<T>, y: set<T>, z: set<T>)
    ensures x + y + z == (x + z) + y
  {
  }

  lemma TailSorted(a: IntervalSet, i: nat, newset: IntervalSet)
    requires IsIntervalSet(a) && IsIntervalSet(newset) && newset != [] && i <= |a|
    requires forall k | i <= k < |a| :: newset[|newset| - 1].second < a[k].first
    ensures IsIntervalSet(newset + a[i..])
  {
    SuffixSorted(a, i);
    assert forall k | 0 <= k < |a[i..]| :: newset[|newset| - 1].second < a[i..][k].first by {
      forall k | 0 <= k < |a[i..]| ensures newset[|newset| - 1].second < a[i..][k].first {
        assert a[i..][k] == a[i + k];
      }
    }
    ConcatSorted(newset, a[i..]);
  }

  lemma SuffixSorted(a: IntervalSet, i: nat)
    requires IsIntervalSet(a) && i <= |a|
    ensures IsIntervalSet(a[i..])
  {
    var t := a[i..];
    assert forall k | 0 <= k < |t| :: t[k] == a[i + k];
  }

  /** Two interval sets, the first ending before the second begins, concatenate to one. */
  lemma ConcatSorted(s: IntervalSet, t: IntervalSet)
    requires IsIntervalSet(s) && IsIntervalSet(t) && s != []
    requires forall k | 0 <= k < |t| :: s[|s| - 1].second < t[k].first
    ensures IsIntervalSet(s + t)
  {
    var r := s + t;
    forall x, y | 0 <= x < y < |r| ensures r[x].second < r[y].first {
      if x < |s| <= y {
        assert r[x].second <= s[|s| - 1].second;
      }
    }
  }

  lemma ConcatNoAdjacent(s: IntervalSet, a: IntervalSet, i: nat)
    requires NoAdjacent(s) && NoAdjacent(a) && s != [] && i <= |a|
    requires i < |a| ==> 0 < i && s[|s| - 1].second == a[i - 1].second
    ensures NoAdjacent(s + a[i..])
  {
    var r := s + a[i..];
    forall k | 0 <= k < |r| - 1 ensures r[k].second + 1 != r[k + 1].first {
      if k == |s| - 1 {
        assert r[k + 1] == a[i];
      } else if k >= |s| {
        assert r[k] == a[i + k - |s|] && r[k + 1] == a[i + k - |s| + 1];
      }
    }
  }

  /** One turn of the main loop: the range of the two that starts first is emitted. */
  lemma Advance(set1: IntervalSet, set2: IntervalSet, i: nat, j: nat, before: IntervalSet,
                i': nat, j': nat, val: IdPair, newset: IntervalSet)
    requires Mergeable(set1, set2) && MergeState(set1, set2, i, j, before)
    requires i < |set1| && j < |set2|
    requires set2[j].first < set1[i].first ==> val == set2[j] && i' == i && j' == j + 1
    requires !(set2[j].first < set1[i].first) ==> val == set1[i] && i' == i + 1 && j' == j
    requires newset == Emit(before, val)
    ensures MergeState(set1, set2, i', j', newset)
    ensures NoAdjacent(before) ==> NoAdjacent(newset)
  {
    if set2[j].first < set1[i].first {
      MergeStateSwap(set1, set2, i, j, before);
      StepKeeps(set2, set1, j, i, before);
      MergeStateSwap(set2, set1, j + 1, i, newset);
    } else {
      StepKeeps(set1, set2, i, j, before);
    }
  }

  /** What the two tail blocks produce once one of the inputs is used up. */
  ghost function Finished(set1: IntervalSet, set2: IntervalSet, i: nat, j: nat, rest: IntervalSet): IntervalSet
    requires rest != [] && i <= |set1| && j <= |set2|
  {
    if i < |set1| then Emit(rest, set1[i]) + set1[i + 1..]
    else if j < |set2| then Emit(rest, set2[j]) + set2[j + 1..]
    else rest
  }

  /** The tail blocks turn the state left by the loop into the union of the two sets. */
  lemma FinishKeeps(set1: IntervalSet, set2: IntervalSet, i: nat, j: nat, rest: IntervalSet)
    requires Mergeable(set1, set2) && MergeState(set1, set2, i, j, rest)
    requires i == |set1| || j == |set2|
    ensures IsIntervalSet(Finished(set1, set2, i, j, rest))
    ensures Ids(Finished(set1, set2, i, j, rest)) == Ids(set1) + Ids(set2)
    ensures TotalLength(Finished(set1, set2, i, j, rest)) == TotalLength(set1) + TotalLength(set2)
    ensures NoAdjacent(rest) && NoAdjacent(set1) && NoAdjacent(set2) ==> NoAdjacent(Finished(set1, set2, i, j, rest))
  {
    if i < |set1| {
      LastTail(set1, set2, i, rest);
    } else if j < |set2| {
      MergeStateSwap(set1, set2, i, j, rest);
      LastTail(set2, set1, j, rest);
      assert Ids(set2) + Ids(set1) == Ids(set1) + Ids(set2);
    } else {
      TailKeeps(set1, set2, i, rest);
      assert rest + set1[i..] == rest;
    }
  }

  /** b used up and a not: a[i] is emitted, then the rest of a is appended. */
  lemma LastTail(a: IntervalSet, b: IntervalSet, i: nat, rest: IntervalSet)
    requires Mergeable(a, b) && MergeState(a, b, i, |b|, rest) && i < |a|
    ensures IsIntervalSet(Emit(rest, a[i]) + a[i + 1..])
    ensures Ids(Emit(rest, a[i]) + a[i + 1..]) == Ids(a) + Ids(b)
    ensures TotalLength(Emit(rest, a[i]) + a[i + 1..]) == TotalLength(a) + TotalLength(b)
    ensures NoAdjacent(rest) && NoAdjacent(a) ==> NoAdjacent(Emit(rest, a[i]) + a[i + 1..])
  {
    StepKeeps(a, b, i, |b|, rest);
    TailKeeps(a, b, i + 1, Emit(rest, a[i]));
  }

  /**
   * merge_sets(set1, set2.begin(), set2.end()). `merged` is the boolean the
   * library returns and `result` the value set1 holds afterwards.
   */
  method MergeSets(set1: IntervalSet, set2: IntervalSet) returns (merged: bool, result: IntervalSet)
    ensures merged <==> set1 != [] && set2 != []
    ensures !merged ==> result == set1
    ensures merged && Mergeable(set1, set2) ==>
              && IsIntervalSet(result)
              && Ids(result) == Ids(set1) + Ids(set2)
              && TotalLength(result) == TotalLength(set1) + TotalLength(set2)
    ensures merged && Mergeable(set1, set2) && NoAdjacent(set1) && NoAdjacent(set2) ==> NoAdjacent(result)
  {
    if set1 == [] || |set2| == 0 {
      return false, set1;
    }
    ghost var valid := Mergeable(set1, set2);
    ghost var coalesced := valid && NoAdjacent(set1) && NoAdjacent(set2);

    var newset: IntervalSet;
    var i, j := 0, 0;
    if set1[0].first < set2[0].first {
      newset := [set1[0]];
      i := i + 1;
      if valid { StartKeeps(set1, set2); }
    } else {
      newset := [set2[0]];
      j := j + 1;
      if valid { StartKeeps(set2, set1); MergeStateSwap(set2, set1, 1, 0, newset); }
    }
    var out;
    i, j, newset, out := Interleave(set1, set2, i, j, newset);

    // The library tests `it1` against the end of set2 here; the evident `set1.end()` is modelled.
    ghost var rest := newset;
    newset := AppendRest(newset, out, set1, i);
    newset := AppendRest(newset, out, set2, j);
    assert newset == Finished(set1, set2, i, j, rest);
    if valid { FinishKeeps(set1, set2, i, j, rest); }
    return true, newset;
  }

  /**
   * The main loop of merge_sets: the range of the two that starts first is
   * consumed, folded into the last output range when exactly adjacent to it
   * and appended otherwise, until one of the inputs is used up.
   */
  method Interleave(set1: IntervalSet, set2: IntervalSet, i: nat, j: nat, newset: IntervalSet)
    returns (i': nat, j': nat, r: IntervalSet, out: nat)
    requires i <= |set1| && j <= |set2| && newset != []
    ensures i <= i' <= |set1| && j <= j' <= |set2| && (i' == |set1| || j' == |set2|)
    ensures r != [] && out == |r| - 1
    ensures Mergeable(set1, set2) && MergeState(set1, set2, i, j, newset) ==> MergeState(set1, set2, i', j', r)
    ensures Mergeable(set1, set2) && MergeState(set1, set2, i, j, newset) && NoAdjacent(newset) ==> NoAdjacent(r)
  {
    ghost var valid := Mergeable(set1, set2) && MergeState(set1, set2, i, j, newset);
    ghost var coalesced := valid && NoAdjacent(newset);
    i', j', r, out := i, j, newset, |newset| - 1;
    while i' < |set1| && j' < |set2|
      invariant i <= i' <= |set1| && j <= j' <= |set2|
      invariant r != [] && out == |r| - 1
      invariant valid ==> MergeState(set1, set2, i', j', r)
      invariant coalesced ==> NoAdjacent(r)
      decreases |set1| - i' + |set2| - j'
    {
      ghost var i0, j0, before := i', j', r;
      var val := set2[j'];
      if set2[j'].first < set1[i'].first {
        j' := j' + 1;
      } else {
        val := set1[i'];
        i' := i' + 1;
      }
      if val.first == r[out].second + 1 {
        r := r[out := IdPair(r[out].first, val.second)];
      } else {
        r := r + [val];
        out := out + 1;
      }
      assert r == Emit(before, val);
      if valid { Advance(set1, set2, i0, j0, before, i', j', val, r); }
    }
  }

  /**
   * One of the two blocks after the loop: the next range of `s` is folded
   * into the last output range when exactly adjacent, and the ranges left
   * in `s` are appended.
   */
  method AppendRest(newset: IntervalSet, out: nat, s: IntervalSet, k: nat) returns (r: IntervalSet)
    requires newset != [] && (k < |s| ==> out == |newset| - 1)
    ensures k < |s| ==> r == Emit(newset, s[k]) + s[k + 1..]
    ensures |s| <= k ==> r == newset
  {
    r := newset;
    if k < |s| {
      var k' := k;
      if s[k].first == r[out].second + 1 {
        r := r[out := IdPair(r[out].first, s[k].second)];
        k' := k + 1;
      }
      r := r + s[k'..];
    }
  }
}
