/**
 * substract_amount of prange.cpp: take `amount` identifiers off the top of an
 * interval set. Ranges are examined from the highest down; each one that
 * still fits in what is left to take is moved out whole, each one that does
 * not is skipped. When the whole ranges do not add up to `amount`, the
 * highest skipped range gives up its top part for the remainder.
 *
 * `Select` and `SubtractAmount` specify the operation on values; the method
 * `SubstractAmount` follows the library's loop, its rotations and its final
 * insert-and-reverse, and is proved to compute `SubtractAmount`.
 */
module PrangeSubtract {
  import opened Prange

  /** Every range of the sequence is well formed. */
  predicate WellFormed(s: IntervalSet)
  {
    forall i | 0 <= i < |s| :: s[i].first <= s[i].second
  }

  /** The ranges moved out (in the order the loop meets them) and the ranges left in place. */
  datatype Selection = Selection(taken: IntervalSet, kept: IntervalSet)

  /** The outcome: the ranges returned, and what the caller's set holds afterwards. */
  datatype Subtraction = Subtraction(taken: IntervalSet, remaining: IntervalSet)

  /**
   * The loop of substract_amount, from the top of `s` down, with `need`
   * identifiers still to take: a range is taken when its size fits, skipped
   * otherwise, and the walk stops as soon as nothing more is needed.
   */
  function Select(s: IntervalSet, need: int): Selection
    decreases |s|
  {
    if s == [] || need <= 0 then Selection([], s)
    else
      var last := s[|s| - 1];
      if Size(last) <= need then
        var r := Select(s[..|s| - 1], need - Size(last));
        Selection([last] + r.taken, r.kept)
      else
        var r := Select(s[..|s| - 1], need);
        Selection(r.taken, r.kept + [last])
  }

  /** std::reverse. */
  function Reverse<T>(s: seq<T>): (r: seq<T>)
    ensures |r| == |s|
    ensures forall i | 0 <= i < |s| :: r[i] == s[|s| - 1 - i]
  {
    if s == [] then [] else Reverse(s[1..]) + [s[0]]
  }

  /**
   * std::upper_bound with the comparator `a > e.first`, as used on the
   * descending vector of taken ranges: the first position whose range begins
   * before `key`.
   */
  function UpperBoundDesc(r: IntervalSet, key: nat): (k: nat)
    ensures k <= |r|
    ensures forall i | 0 <= i < k :: key <= r[i].first
    ensures k < |r| ==> r[k].first < key
  {
    if r == [] then 0
    else if key > r[0].first then 0
    else
      var k' := UpperBoundDesc(r[1..], key);
      assert forall i | 1 <= i < k' + 1 :: r[i] == r[1..][i - 1];
      1 + k'
  }

  /**
   * What substract_amount returns and leaves behind. An empty set, and an
   * amount larger than the set holds, give nothing and leave the set as it
   * was; an amount of zero or less gives nothing either.
   */
  function SubtractAmount(s: IntervalSet, amount: int): Subtraction
  {
    if s == [] then Subtraction([], s)
    else
      SelectSplits(s, amount);
      Settle(s, amount, Select(s, amount))
  }

  /**
   * What the code after the loop makes of the selection: a refusal when
   * everything was taken and still fell short, otherwise the taken ranges
   * in ascending order, the highest kept range giving up its top part for
   * any remainder.
   */
  function Settle(s: IntervalSet, amount: int, sel: Selection): Subtraction
    requires Splittable(sel, amount)
  {
    var acc := TotalLength(sel.taken);
    if sel.kept == [] && acc < amount then Subtraction([], s)
    else if acc < amount then Cut(sel, amount)
    else Subtraction(Reverse(sel.taken), sel.kept)
  }

  /**
   * The interval split: the top `amount - acc` identifiers of the highest
   * kept range go, as one range, into the taken ones at their upper_bound;
   * the rest of that range stays.
   */
  function Cut(sel: Selection, amount: int): Subtraction
    requires sel.kept != [] && TotalLength(sel.taken) < amount && Splittable(sel, amount)
  {
    var tail := CutTail(sel, amount);
    Subtraction(Reverse(Grown(sel.taken, tail)), Trimmed(sel.kept, tail))
  }

  /** The top `amount - acc` identifiers of the highest kept range. */
  function CutTail(sel: Selection, amount: int): IdPair
    requires sel.kept != [] && TotalLength(sel.taken) < amount && Splittable(sel, amount)
  {
    var top := sel.kept[|sel.kept| - 1];
    IdPair(top.second - (amount - TotalLength(sel.taken)) + 1, top.second)
  }

  /** The descending taken ranges with `tail` inserted at its upper_bound. */
  function Grown(taken: IntervalSet, tail: IdPair): IntervalSet
  {
    var k := UpperBoundDesc(taken, tail.first);
    taken[..k] + [tail] + taken[k..]
  }

  /** The kept ranges with the highest one ending just below `tail`. */
  function Trimmed(kept: IntervalSet, tail: IdPair): IntervalSet
    requires kept != [] && 0 < tail.first
  {
    kept[|kept| - 1 := IdPair(kept[|kept| - 1].first, tail.first - 1)]
  }

  /** When whole ranges fall short, the highest kept range can give up the remainder and keep a range. */
  predicate Splittable(sel: Selection, amount: int)
  {
    sel.kept != [] && TotalLength(sel.taken) < amount ==>
      sel.kept[|sel.kept| - 1].first <= sel.kept[|sel.kept| - 1].second - (amount - TotalLength(sel.taken))
  }

  // ---------------------------------------------------------------------------
  // The library's loop
  // ---------------------------------------------------------------------------

  /** The loop's state: idSet[..lim] still to examine, then the skipped ranges, then the taken ones. */
  ghost predicate LoopState(idSet: IntervalSet, amount: int, lim: nat, ids: IntervalSet, nend: nat,
                            result: IntervalSet, accumulated: int, skipped: IntervalSet)
  {
    && lim <= |idSet|
    && nend == lim + |skipped| <= |ids|
    && ids == idSet[..lim] + skipped + Reverse(result)
    && accumulated == TotalLength(result)
    && Select(idSet, amount) == Joined(result, Select(idSet[..lim], amount - accumulated), skipped)
  }

  /** The selection made so far, followed by the one still to be made on the unexamined prefix. */
  function Joined(done: IntervalSet, rest: Selection, skipped: IntervalSet): Selection
  {
    Selection(done + rest.taken, rest.kept + skipped)
  }

  /**
   * substract_amount(id_set, amount): `result` is the vector returned and
   * `remaining` what id_set holds afterwards. The loop is `TakeFromTop`;
   * here follow the refusal, the erase of the taken ranges and the split.
   */
  method SubstractAmount(idSet: IntervalSet, amount: Int64) returns (result: IntervalSet, remaining: IntervalSet)
    requires WellFormed(idSet)
    ensures Subtraction(result, remaining) == SubtractAmount(idSet, amount)
  {
    if idSet == [] {
      return [], idSet;
    }
    var ids, nend, accumulated;
    ids, nend, result, accumulated := TakeFromTop(idSet, amount);
    ghost var sel := Select(idSet, amount);
    SelectSplits(idSet, amount);
    assert SubtractAmount(idSet, amount) == Settle(idSet, amount, sel);
    if nend == 0 && accumulated < amount {
      SelectAllTaken(idSet, amount);
      return [], ids;
    }
    ids := ids[..nend];
    assert sel == Selection(result, ids);
    var remainder := amount - accumulated;
    if remainder > 0 {
      assert Splittable(Selection(result, ids), amount);
      assert ids[nend - 1].first <= ids[nend - 1].second - remainder;
      var split := ids[nend - 1].second - remainder;
      var tail := IdPair(split + 1, ids[nend - 1].second);
      ghost var kept, taken := ids, result;
      ids := ids[nend - 1 := IdPair(ids[nend - 1].first, split)];
      var k := UpperBoundDesc(result, tail.first);
      result := result[..k] + [tail] + result[k..];
      assert tail == CutTail(sel, amount);
      assert result == Grown(taken, tail) && ids == Trimmed(kept, tail);
      assert Settle(idSet, amount, sel) == Subtraction(Reverse(result), ids);
    } else {
      assert Settle(idSet, amount, sel) == Subtraction(Reverse(result), ids);
    }
    result := Reverse(result);
    remaining := ids;
  }

  /**
   * The loop of substract_amount. From the top down each range that fits in
   * what is still needed is appended to `taken` and rotated to just below
   * the ranges taken before it; the walk ends when the amount is reached or
   * the bottom range has been examined. Afterwards ids[..nend] holds the
   * ranges left in place, in order.
   */
  method TakeFromTop(idSet: IntervalSet, amount: Int64) returns (ids: IntervalSet, nend: nat, taken: IntervalSet, accumulated: int)
    requires WellFormed(idSet) && idSet != []
    ensures nend <= |ids|
    ensures Select(idSet, amount) == Selection(taken, ids[..nend])
    ensures accumulated == TotalLength(taken)
    ensures nend == 0 ==> ids == Reverse(taken)
  {
    ids := idSet;
    taken := [];
    var it := |ids| - 1;
    nend := |ids|;
    accumulated := 0;
    ghost var lim := |ids|;
    ghost var skipped: IntervalSet := [];
    assert idSet[..lim] == idSet;
    while accumulated < amount
      invariant 0 < lim && it == lim - 1
      invariant LoopState(idSet, amount, lim, ids, nend, taken, accumulated, skipped)
      decreases lim
    {
      ids, nend, taken, accumulated, skipped := Examine(idSet, amount, it, ids, nend, taken, accumulated, skipped);
      lim := lim - 1;
      if it == 0 {
        break;
      }
      it := it - 1;
    }
    LoopDone(idSet, amount, lim, ids, nend, taken, accumulated, skipped);
  }

  /**
   * One turn of the loop on the range at position `it`, the top of the part
   * not yet examined: taken and rotated below the ranges taken before when
   * its size still fits in the amount, skipped otherwise.
   */
  method Examine(ghost idSet: IntervalSet, amount: Int64, it: nat, ids: IntervalSet, nend: nat,
                 taken: IntervalSet, accumulated: int, ghost skipped: IntervalSet)
    returns (ids': IntervalSet, nend': nat, taken': IntervalSet, accumulated': int, ghost skipped': IntervalSet)
    requires WellFormed(idSet) && accumulated < amount
    requires LoopState(idSet, amount, it + 1, ids, nend, taken, accumulated, skipped)
    ensures LoopState(idSet, amount, it, ids', nend', taken', accumulated', skipped')
  {
    TakeLayout(idSet, it + 1, ids, nend, taken, skipped);
    var intervalSize := ids[it].second - ids[it].first + 1;
    if accumulated + intervalSize <= amount {
      accumulated' := accumulated + intervalSize;
      taken' := taken + [ids[it]];
      ids' := ids[..it] + ids[it + 1..nend] + [ids[it]] + ids[nend..];
      nend' := nend - 1;
      skipped' := skipped;
      TakeKeeps(idSet, amount, it + 1, ids, nend, taken, accumulated, skipped, ids', taken', accumulated');
    } else {
      ids', nend', taken', accumulated' := ids, nend, taken, accumulated;
      skipped' := [ids[it]] + skipped;
      SkipKeeps(idSet, amount, it + 1, ids, nend, taken, accumulated, skipped, skipped');
    }
  }

  /** Taking the range at the top of the unexamined part: it is rotated to just below the ranges taken before. */
  lemma TakeKeeps(idSet: IntervalSet, amount: int, lim: nat, ids: IntervalSet, nend: nat,
                  result: IntervalSet, accumulated: int, skipped: IntervalSet,
                  ids': IntervalSet, result': IntervalSet, accumulated': int)
    requires 0 < lim && accumulated < amount
    requires LoopState(idSet, amount, lim, ids, nend, result, accumulated, skipped)
    requires ids[lim - 1].first <= ids[lim - 1].second
    requires accumulated' == accumulated + (ids[lim - 1].second - ids[lim - 1].first + 1) <= amount
    requires result' == result + [ids[lim - 1]]
    requires ids' == ids[..lim - 1] + ids[lim..nend] + [ids[lim - 1]] + ids[nend..]
    ensures LoopState(idSet, amount, lim - 1, ids', nend - 1, result', accumulated', skipped)
  {
    var x := idSet[lim - 1];
    TakeLayout(idSet, lim, ids, nend, result, skipped);
    assert ids' == idSet[..lim - 1] + skipped + Reverse(result') by {
      ReverseSnoc(result, x);
      ConcatAssoc(idSet[..lim - 1] + skipped, [x], Reverse(result));
    }
    assert accumulated' == TotalLength(result') by {
      IdsAppend(result, x);
    }
    var need := amount - accumulated;
    assert amount - accumulated' == need - Size(x);
    var r := Select(idSet[..lim - 1], need - Size(x));
    assert Select(idSet[..lim], need) == Selection([x] + r.taken, r.kept) by {
      TakeSelect(idSet, lim, need);
    }
    assert result + ([x] + r.taken) == result' + r.taken by {
      ConcatAssoc(result, [x], r.taken);
    }
    assert Joined(result, Select(idSet[..lim], need), skipped) == Joined(result', r, skipped);
  }

  lemma TakeLayout(idSet: IntervalSet, lim: nat, ids: IntervalSet, nend: nat, result: IntervalSet, skipped: IntervalSet)
    requires 0 < lim <= |idSet| && nend == lim + |skipped| <= |ids|
    requires ids == idSet[..lim] + skipped + Reverse(result)
    ensures ids[lim - 1] == idSet[lim - 1]
    ensures ids[..lim - 1] == idSet[..lim - 1]
    ensures ids[lim..nend] == skipped
    ensures ids[nend..] == Reverse(result)
  {
  }

  /** Select, one step down: the top of idSet[..lim] is taken when it fits. */
  lemma TakeSelect(idSet: IntervalSet, lim: nat, need: int)
    requires 0 < lim <= |idSet| && 0 < need && Size(idSet[lim - 1]) <= need
    ensures Select(idSet[..lim], need)
         == Selection([idSet[lim - 1]] + Select(idSet[..lim - 1], need - Size(idSet[lim - 1])).taken,
                      Select(idSet[..lim - 1], need - Size(idSet[lim - 1])).kept)
  {
    var prefix := idSet[..lim];
    assert prefix[..lim - 1] == idSet[..lim - 1];
    assert prefix[lim - 1] == idSet[lim - 1];
  }

  /** Select, one step down: the top of idSet[..lim] is skipped when it does not fit. */
  lemma SkipSelect(idSet: IntervalSet, lim: nat, need: int)
    requires 0 < lim <= |idSet| && 0 < need && need < Size(idSet[lim - 1])
    ensures Select(idSet[..lim], need)
         == Selection(Select(idSet[..lim - 1], need).taken, Select(idSet[..lim - 1], need).kept + [idSet[lim - 1]])
  {
    var prefix := idSet[..lim];
    assert prefix[..lim - 1] == idSet[..lim - 1];
    assert prefix[lim - 1] == idSet[lim - 1];
  }

  /** Skipping a range too large for what is still needed. */
  lemma SkipKeeps(idSet: IntervalSet, amount: int, lim: nat, ids: IntervalSet, nend: nat,
                  result: IntervalSet, accumulated: int, skipped: IntervalSet, skipped': IntervalSet)
    requires 0 < lim && accumulated < amount
    requires LoopState(idSet, amount, lim, ids, nend, result, accumulated, skipped)
    requires ids[lim - 1].first <= ids[lim - 1].second
    requires amount < accumulated + (ids[lim - 1].second - ids[lim - 1].first + 1)
    requires skipped' == [ids[lim - 1]] + skipped
    ensures LoopState(idSet, amount, lim - 1, ids, nend, result, accumulated, skipped')
  {
    var x := idSet[lim - 1];
    TakeLayout(idSet, lim, ids, nend, result, skipped);
    SkipSelect(idSet, lim, amount - accumulated);
    PrefixSnoc(idSet, lim - 1);
    assert idSet[..lim - 1] + skipped' == idSet[..lim] + skipped;
    assert Select(idSet[..lim - 1], amount - accumulated).kept + skipped'
        == Select(idSet[..lim - 1], amount - accumulated).kept + [x] + skipped;
  }

  /** When the loop ends, the taken ranges are `result` and the kept ones lie below `nend`. */
  lemma LoopDone(idSet: IntervalSet, amount: int, lim: nat, ids: IntervalSet, nend: nat,
                 result: IntervalSet, accumulated: int, skipped: IntervalSet)
    requires LoopState(idSet, amount, lim, ids, nend, result, accumulated, skipped)
    requires lim == 0 || amount <= accumulated
    ensures nend <= |ids|
    ensures Select(idSet, amount) == Selection(result, ids[..nend])
    ensures nend == 0 ==> ids == Reverse(result)
  {
    assert ids[..nend] == idSet[..lim] + skipped;
    if lim == 0 {
      assert idSet[..0] == [];
    }
  }

  // ---------------------------------------------------------------------------
  // Reverse
  // ---------------------------------------------------------------------------

  lemma ReverseSnoc<T>(s: seq<T>, x: T)
    ensures Reverse(s + [x]) == [x] + Reverse(s)
  {
  }

  lemma ReverseCons<T>(x: T, s: seq<T>)
    ensures Reverse([x] + s) == Reverse(s) + [x]
  {
    assert ([x] + s)[1..] == s;
  }

  lemma {:induction false} ReverseIds(s: IntervalSet)
    ensures Ids(Reverse(s)) == Ids(s)
    ensures TotalLength(Reverse(s)) == TotalLength(s)
    decreases |s|
  {
    if s != [] {
      ReverseIds(s[1..]);
      IdsAppend(Reverse(s[1..]), s[0]);
      IdsCons(s[0], s[1..]);
      assert [s[0]] + s[1..] == s;
    }
  }

  lemma IdsCons(x: IdPair, s: IntervalSet)
    ensures Ids([x] + s) == Span(x) + Ids(s)
    ensures TotalLength([x] + s) == Size(x) + TotalLength(s)
  {
    IdsConcat([x], s);
    TotalLengthConcat([x], s);
    IdsSingle(x);
  }

  /** Ranges each beginning after every later one's end: a sorted set read backwards. */
  predicate Descending(t: IntervalSet)
  {
    && (forall i | 0 <= i < |t| :: t[i].first <= t[i].second)
    && (forall i, j | 0 <= i < j < |t| :: t[j].second < t[i].first)
  }

  lemma ReverseDescending(t: IntervalSet)
    requires Descending(t)
    ensures IsIntervalSet(Reverse(t))
  {
    var r := Reverse(t);
    forall i, j | 0 <= i < j < |r| ensures r[i].second < r[j].first {
      assert r[i] == t[|t| - 1 - i] && r[j] == t[|t| - 1 - j];
    }
  }

  // ---------------------------------------------------------------------------
  // Properties of Select
  // ---------------------------------------------------------------------------

  /** The taken and the kept ranges together hold exactly the identifiers, and the length, of `s`. */
  lemma {:induction false} SelectParts(s: IntervalSet, need: int)
    ensures Ids(Select(s, need).taken) + Ids(Select(s, need).kept) == Ids(s)
    ensures TotalLength(Select(s, need).taken) + TotalLength(Select(s, need).kept) == TotalLength(s)
    decreases |s|
  {
    if s != [] && need > 0 {
      var init, last := s[..|s| - 1], s[|s| - 1];
      assert Ids(s) == Ids(init) + Span(last);
      assert TotalLength(s) == TotalLength(init) + Size(last);
      if Size(last) <= need {
        var r := Select(init, need - Size(last));
        assert Select(s, need) == Selection([last] + r.taken, r.kept);
        SelectParts(init, need - Size(last));
        IdsCons(last, r.taken);
        UnionAssoc(Span(last), Ids(r.taken), Ids(r.kept));
      } else {
        var r := Select(init, need);
        assert Select(s, need) == Selection(r.taken, r.kept + [last]);
        SelectParts(init, need);
        IdsAppend(r.kept, last);
        UnionAssoc(Ids(r.taken), Ids(r.kept), Span(last));
      }
    }
  }

  /** The whole ranges taken never exceed what is asked for; nothing is taken for an amount of zero or less. */
  lemma {:induction false} SelectFits(s: IntervalSet, need: int)
    ensures need <= 0 ==> Select(s, need) == Selection([], s)
    ensures 0 < need ==> TotalLength(Select(s, need).taken) <= need
    decreases |s|
  {
    if s != [] && need > 0 {
      var init, last := s[..|s| - 1], s[|s| - 1];
      if Size(last) <= need {
        var r := Select(init, need - Size(last));
        SelectFits(init, need - Size(last));
        IdsCons(last, r.taken);
      } else {
        SelectFits(init, need);
      }
    }
  }

  /**
   * When whole ranges leave a remainder and something was kept, the highest
   * kept range is larger than the remainder: it can give the remainder from
   * its top and keep at least one identifier.
   */
  lemma {:induction false} SelectSplits(s: IntervalSet, need: int)
    ensures Splittable(Select(s, need), need)
    decreases |s|
  {
    if s != [] && need > 0 {
      var init, last := s[..|s| - 1], s[|s| - 1];
      if Size(last) <= need {
        var r := Select(init, need - Size(last));
        SelectSplits(init, need - Size(last));
        IdsCons(last, r.taken);
      } else {
        SelectSplits(init, need);
      }
    }
  }

  /** Asking for at least everything takes every range. */
  lemma {:induction false} SelectTakesAll(s: IntervalSet, need: int)
    requires WellFormed(s) && TotalLength(s) <= need
    ensures Select(s, need).kept == []
    decreases |s|
  {
    if s != [] {
      var init, last := s[..|s| - 1], s[|s| - 1];
      assert Size(last) >= 1;
      SelectTakesAll(init, need - Size(last));
    }
  }

  /** When nothing is kept, the ranges were taken from the top down: reversed, they are `s`. */
  lemma {:induction false} SelectAllTaken(s: IntervalSet, need: int)
    ensures Select(s, need).kept == [] ==> Reverse(Select(s, need).taken) == s
    decreases |s|
  {
    if s != [] && need > 0 {
      var init, last := s[..|s| - 1], s[|s| - 1];
      if Size(last) <= need {
        var r := Select(init, need - Size(last));
        SelectAllTaken(init, need - Size(last));
        ReverseCons(last, r.taken);
        assert init + [last] == s;
      }
    }
  }

  /** In a sorted set every range below the top ends before the top begins. */
  lemma InitBelow(s: IntervalSet)
    requires IsIntervalSet(s) && s != []
    ensures forall x | x in s[..|s| - 1] :: x.second < s[|s| - 1].first
  {
    forall x | x in s[..|s| - 1] ensures x.second < s[|s| - 1].first {
      var k :| 0 <= k < |s| - 1 && s[..|s| - 1][k] == x;
      assert s[k] == x;
    }
  }

  /** Two ranges with no identifier in common. */
  predicate Apart(x: IdPair, y: IdPair)
  {
    x.second < y.first || y.second < x.first
  }

  /**
   * On a sorted set, the kept ranges stay sorted, the taken ones come out in
   * descending order, every range comes from `s`, and no taken range meets a
   * kept one.
   */
  lemma {:induction false} SelectShape(s: IntervalSet, need: int)
    requires IsIntervalSet(s)
    ensures forall x | x in Select(s, need).taken :: x in s
    ensures forall x | x in Select(s, need).kept :: x in s
    ensures IsIntervalSet(Select(s, need).kept)
    ensures Descending(Select(s, need).taken)
    ensures forall x, y | x in Select(s, need).taken && y in Select(s, need).kept :: Apart(x, y)
    decreases |s|
  {
    if s != [] && need > 0 {
      var init, last := s[..|s| - 1], s[|s| - 1];
      assert IsIntervalSet(init) by {
        assert forall k | 0 <= k < |init| :: init[k] == s[k];
      }
      InitBelow(s);
      assert forall x | x in init :: x in s;
      if Size(last) <= need {
        SelectShape(init, need - Size(last));
        var r := Select(init, need - Size(last));
        PrependBelow(last, r.taken);
      } else {
        SelectShape(init, need);
        var r := Select(init, need);
        AppendAbove(r.kept, last);
      }
    }
  }

  lemma PrependBelow(last: IdPair, t: IntervalSet)
    requires Descending(t) && last.first <= last.second
    requires forall x | x in t :: x.second < last.first
    ensures Descending([last] + t)
  {
    var r := [last] + t;
    forall i, j | 0 <= i < j < |r| ensures r[j].second < r[i].first {
      assert r[j] == t[j - 1];
      if 0 < i { assert r[i] == t[i - 1]; } else { assert t[j - 1] in t; }
    }
  }

  lemma AppendAbove(k: IntervalSet, last: IdPair)
    requires IsIntervalSet(k) && last.first <= last.second
    requires forall x | x in k :: x.second < last.first
    ensures IsIntervalSet(k + [last])
  {
    var r := k + [last];
    forall i, j | 0 <= i < j < |r| ensures r[i].second < r[j].first {
      assert r[i] == k[i];
      assert k[i] in k;
    }
  }

  // ---------------------------------------------------------------------------
  // Properties of SubtractAmount
  // ---------------------------------------------------------------------------

  /** Nothing is returned and the set is untouched for an amount of zero or less, or more than the set holds. */
  lemma SubtractRefuses(s: IntervalSet, amount: int)
    requires WellFormed(s)
    requires amount <= 0 || TotalLength(s) < amount
    ensures SubtractAmount(s, amount) == Subtraction([], s)
  {
    if s != [] {
      SelectFits(s, amount);
      if TotalLength(s) < amount {
        SelectTakesAll(s, amount);
        SelectParts(s, amount);
      }
    }
  }

  /**
   * For an amount within what a sorted set holds, substract_amount returns a
   * sorted set of exactly `amount` identifiers, and what stays behind is a
   * sorted set holding the other identifiers.
   */
  lemma SubtractSplits(s: IntervalSet, amount: int)
    requires IsIntervalSet(s) && 0 < amount <= TotalLength(s)
    ensures var r := SubtractAmount(s, amount);
            && IsIntervalSet(r.taken) && IsIntervalSet(r.remaining)
            && TotalLength(r.taken) == amount
            && TotalLength(r.remaining) == TotalLength(s) - amount
            && Ids(r.taken) + Ids(r.remaining) == Ids(s)
            && Ids(r.taken) !! Ids(r.remaining)
  {
    var sel := Select(s, amount);
    var acc := TotalLength(sel.taken);
    SelectParts(s, amount);
    SelectFits(s, amount);
    SelectShape(s, amount);
    SelectSplits(s, amount);
    ReverseIds(sel.taken);
    ReverseDescending(sel.taken);
    if acc < amount {
      assert TotalLength(sel.kept) > 0;
      SplitCase(s, amount);
    } else {
      ApartIds(sel.taken, sel.kept);
    }
  }

  /** The case where the highest kept range is cut in two. */
  lemma SplitCase(s: IntervalSet, amount: int)
    requires IsIntervalSet(s) && 0 < amount
    requires Select(s, amount).kept != [] && TotalLength(Select(s, amount).taken) < amount
    ensures var r := SubtractAmount(s, amount);
            var sel := Select(s, amount);
            && IsIntervalSet(r.taken) && IsIntervalSet(r.remaining)
            && TotalLength(r.taken) == amount
            && TotalLength(r.taken) + TotalLength(r.remaining) == TotalLength(sel.taken) + TotalLength(sel.kept)
            && Ids(r.taken) + Ids(r.remaining) == Ids(sel.taken) + Ids(sel.kept)
            && Ids(r.taken) !! Ids(r.remaining)
  {
    var sel := Select(s, amount);
    SelectSplits(s, amount);
    SelectShape(s, amount);
    assert SubtractAmount(s, amount) == Cut(sel, amount);
    CutFacts(sel, amount);
  }

  /** The split keeps both parts sorted and apart and moves exactly the amount asked for. */
  lemma CutFacts(sel: Selection, amount: int)
    requires sel.kept != [] && TotalLength(sel.taken) < amount && Splittable(sel, amount)
    requires IsIntervalSet(sel.kept) && Descending(sel.taken)
    requires forall x, y | x in sel.taken && y in sel.kept :: Apart(x, y)
    ensures var r := Cut(sel, amount);
            && IsIntervalSet(r.taken) && IsIntervalSet(r.remaining)
            && TotalLength(r.taken) == amount
            && TotalLength(r.taken) + TotalLength(r.remaining) == TotalLength(sel.taken) + TotalLength(sel.kept)
            && Ids(r.taken) + Ids(r.remaining) == Ids(sel.taken) + Ids(sel.kept)
            && Ids(r.taken) !! Ids(r.remaining)
  {
    var kept := sel.kept;
    var top := kept[|kept| - 1];
    var tail := CutTail(sel, amount);
    assert top in kept;
    assert top.first <= top.second - (amount - TotalLength(sel.taken));
    assert top.first < tail.first <= tail.second == top.second;
    assert Size(tail) == amount - TotalLength(sel.taken);
    assert Cut(sel, amount) == Subtraction(Reverse(Grown(sel.taken, tail)), Trimmed(kept, tail));
    GrownFacts(sel.taken, kept, top, tail);
    TrimmedSorted(kept, tail);
    TrimTop(kept, tail);
    ApartIds(sel.taken, kept);
    TailClear(kept, tail);
    UnionDisjoint(Ids(sel.taken), Span(tail), Ids(Trimmed(kept, tail)), Ids(kept));
    UnionMove(Ids(sel.taken), Span(tail), Ids(Trimmed(kept, tail)), Ids(kept));
    var t := Reverse(Grown(sel.taken, tail));
    assert TotalLength(t) == TotalLength(sel.taken) + Size(tail);
    assert TotalLength(t) == amount;
  }

  /** The taken ranges with the tail inserted at its upper_bound, reversed: sorted, and holding the tail's identifiers besides. */
  lemma GrownFacts(taken: IntervalSet, kept: IntervalSet, top: IdPair, tail: IdPair)
    requires Descending(taken) && top in kept
    requires forall x, y | x in taken && y in kept :: Apart(x, y)
    requires top.first <= tail.first <= tail.second == top.second
    ensures IsIntervalSet(Reverse(Grown(taken, tail)))
    ensures Ids(Reverse(Grown(taken, tail))) == Ids(taken) + Span(tail)
    ensures TotalLength(Reverse(Grown(taken, tail))) == TotalLength(taken) + Size(tail)
  {
    var k := UpperBoundDesc(taken, tail.first);
    var grown := taken[..k] + [tail] + taken[k..];
    TailApart(taken, kept, top, tail);
    InsertDescending(taken, tail, k);
    ReverseDescending(grown);
    ReverseIds(grown);
    GrownIds(taken, tail, k);
  }

  lemma UnionMove<T>(a: set<T>, t: set<T>, l: set<T>, k: set<T>)
    requires l + t == k
    ensures (a + t) + l == a + k
  {
  }

  /** The top part of a kept range is apart from every taken range. */
  lemma TailApart(taken: IntervalSet, kept: IntervalSet, top: IdPair, tail: IdPair)
    requires forall x, y | x in taken && y in kept :: Apart(x, y)
    requires top in kept && top.first <= tail.first && tail.second == top.second
    ensures forall x | x in taken :: Apart(x, tail)
  {
    forall x | x in taken ensures Apart(x, tail) {
      assert Apart(x, top);
    }
  }

  /** Inserting a range apart from all of a descending sequence at its upper_bound keeps it descending. */
  lemma InsertDescending(t: IntervalSet, tail: IdPair, k: nat)
    requires Descending(t) && tail.first <= tail.second
    requires forall x | x in t :: Apart(x, tail)
    requires k == UpperBoundDesc(t, tail.first)
    ensures Descending(t[..k] + [tail] + t[k..])
  {
    InsertLayout(t, tail, k);
    forall i | 0 <= i < |t| ensures if i < k then tail.second < t[i].first else t[i].second < tail.first {
      assert Apart(t[i], tail) by { assert t[i] in t; }
      if k < i { assert t[i].second < t[k].first; }
    }
    InsertedDescending(t, tail, k, t[..k] + [tail] + t[k..]);
  }

  /** Where each element of `t` lands once `x` is inserted at position k. */
  lemma InsertLayout<T>(t: seq<T>, x: T, k: nat)
    requires k <= |t|
    ensures |t[..k] + [x] + t[k..]| == |t| + 1
    ensures forall i | 0 <= i < k :: (t[..k] + [x] + t[k..])[i] == t[i]
    ensures (t[..k] + [x] + t[k..])[k] == x
    ensures forall i | k < i <= |t| :: (t[..k] + [x] + t[k..])[i] == t[i - 1]
  {
  }

  lemma InsertedDescending(t: IntervalSet, tail: IdPair, k: nat, r: IntervalSet)
    requires Descending(t) && tail.first <= tail.second && k <= |t|
    requires forall i | 0 <= i < |t| :: if i < k then tail.second < t[i].first else t[i].second < tail.first
    requires |r| == |t| + 1 && r[k] == tail
    requires forall i | 0 <= i < k :: r[i] == t[i]
    requires forall i | k < i <= |t| :: r[i] == t[i - 1]
    ensures Descending(r)
  {
    forall i | 0 <= i < |r| ensures r[i].first <= r[i].second {
      if i < k { assert r[i] == t[i]; } else if k < i { assert r[i] == t[i - 1]; }
    }
    forall i, j | 0 <= i < j < |r| ensures r[j].second < r[i].first {
      if i < k { assert r[i] == t[i]; } else if k < i { assert r[i] == t[i - 1]; }
      if j < k { assert r[j] == t[j]; } else if k < j { assert r[j] == t[j - 1]; }
    }
  }

  lemma GrownIds(t: IntervalSet, tail: IdPair, k: nat)
    requires k <= |t|
    ensures Ids(t[..k] + [tail] + t[k..]) == Ids(t) + Span(tail)
    ensures TotalLength(t[..k] + [tail] + t[k..]) == TotalLength(t) + Size(tail)
  {
    var pre, post := t[..k], t[k..];
    assert t == pre + post;
    IdsConcat(pre + [tail], post);
    IdsAppend(pre, tail);
    IdsConcat(pre, post);
    TotalLengthConcat(pre + [tail], post);
    TotalLengthConcat(pre, post);
  }

  /** Cutting the top range of a sorted set in two: the lower part stays, the tail goes. */
  lemma TrimTop(kept: IntervalSet, tail: IdPair)
    requires kept != []
    requires kept[|kept| - 1].first < tail.first <= tail.second == kept[|kept| - 1].second
    ensures Ids(Trimmed(kept, tail)) + Span(tail) == Ids(kept)
    ensures TotalLength(Trimmed(kept, tail)) + Size(tail) == TotalLength(kept)
  {
    var init, top := kept[..|kept| - 1], kept[|kept| - 1];
    var lower := IdPair(top.first, tail.first - 1);
    UpdateLast(kept, lower);
    assert Trimmed(kept, tail) == init + [lower];
    IdsAppend(init, lower);
    assert Ids(kept) == Ids(init) + Span(top);
    assert TotalLength(kept) == TotalLength(init) + Size(top);
    assert Span(lower) + Span(tail) == Span(top) by {
      SpanFuse(lower, tail);
      assert IdPair(lower.first, Max(lower.second, tail.second)) == top;
    }
    UnionAssoc(Ids(init), Span(lower), Span(tail));
  }

  lemma TrimmedSorted(kept: IntervalSet, tail: IdPair)
    requires IsIntervalSet(kept) && kept != []
    requires kept[|kept| - 1].first < tail.first
    ensures IsIntervalSet(Trimmed(kept, tail))
  {
    var t := Trimmed(kept, tail);
    assert |t| == |kept|;
    assert forall i | 0 <= i < |t| - 1 :: t[i] == kept[i];
    assert t[|t| - 1].first == kept[|t| - 1].first;
  }

  /** Two sequences whose ranges are pairwise apart have no identifier in common. */
  lemma ApartIds(t: IntervalSet, u: IntervalSet)
    requires forall x, y | x in t && y in u :: Apart(x, y)
    ensures Ids(t) !! Ids(u)
  {
    forall v | v in Ids(t) ensures v !in Ids(u) {
      var i := IdsWitness(t, v);
      forall j | 0 <= j < |u| ensures !(u[j].first <= v <= u[j].second) {
        assert t[i] in t && u[j] in u;
      }
      OutsideIds(u, v);
    }
  }

  /** An identifier in none of the ranges is not among the identifiers. */
  lemma {:induction false} OutsideIds(u: IntervalSet, v: nat)
    requires forall j | 0 <= j < |u| :: !(u[j].first <= v <= u[j].second)
    ensures v !in Ids(u)
    decreases |u|
  {
    if u != [] {
      OutsideIds(u[..|u| - 1], v);
    }
  }

  /** The tail lies above everything the trimmed kept ranges still hold. */
  lemma TailClear(kept: IntervalSet, tail: IdPair)
    requires IsIntervalSet(kept) && kept != []
    requires kept[|kept| - 1].first < tail.first
    ensures Span(tail) !! Ids(Trimmed(kept, tail))
  {
    var init, top := kept[..|kept| - 1], kept[|kept| - 1];
    var lower := IdPair(top.first, tail.first - 1);
    UpdateLast(kept, lower);
    assert Trimmed(kept, tail) == init + [lower];
    IdsAppend(init, lower);
    assert forall i | 0 <= i < |init| :: init[i].second < tail.first by {
      forall i | 0 <= i < |init| ensures init[i].second < tail.first {
        assert init[i] == kept[i];
      }
    }
    IdsBelow(init, tail.first);
  }

  lemma UnionDisjoint<T>(a: set<T>, t: set<T>, l: set<T>, k: set<T>)
    requires a !! k && t !! l && l + t == k
    ensures (a + t) !! l
  {
  }

  /** A small set: two identifiers come off the top range. */
  lemma SubtractExampleTop()
    ensures SubtractAmount([IdPair(1, 5)], 2) == Subtraction([IdPair(4, 5)], [IdPair(1, 3)])
  {
    assert [IdPair(1, 5)][..0] == [];
  }

  /** A top range too large to fit is skipped and a lower one that fits is taken whole. */
  lemma SubtractExampleSkip()
    ensures SubtractAmount([IdPair(1, 2), IdPair(10, 20)], 2) == Subtraction([IdPair(1, 2)], [IdPair(10, 20)])
  {
    var s := [IdPair(1, 2), IdPair(10, 20)];
    assert s[..1] == [IdPair(1, 2)];
    assert s[..1][..0] == [];
  }
}
