/**
 * What `Reader` does with indices before it reads anything: Python's
 * `range`, the defaults `_slice` fills in, the list comprehension that reads
 * one item per index and stops at the first exception, and the `__iter__`
 * generator. `MultiReader` inherits all of these and supplies its own
 * `_getitem`, so they are stated here over any item reader `get`.
 */
module Slicing {
  import opened Common

  /** Reading the item at one index: `_getitem`, or the exception it raises. */
  type Getter = int -> Result<Json>

  /** `range(start, stop, step)` for a non-zero step. */
  function Range(start: int, stop: int, step: int): seq<int>
    requires step != 0
    decreases if step > 0 then stop - start else start - stop
  {
    if (step > 0 && start >= stop) || (step < 0 && start <= stop) then []
    else [start] + Range(start + step, stop, step)
  }

  /**
   * The contents of `range(start, stop, step)` as Python defines them:
   * element i is `start + step * i`, every element lies before `stop` in
   * the direction of the step, and the next one would not.
   */
  lemma {:induction false} RangeMembers(start: int, stop: int, step: int)
    requires step != 0
    ensures forall i :: 0 <= i < |Range(start, stop, step)| ==> Range(start, stop, step)[i] == start + step * i
    ensures forall i :: 0 <= i < |Range(start, stop, step)| ==>
              if step > 0 then Range(start, stop, step)[i] < stop else Range(start, stop, step)[i] > stop
    ensures if step > 0 then start + step * |Range(start, stop, step)| >= stop
            else start + step * |Range(start, stop, step)| <= stop
    decreases if step > 0 then stop - start else start - stop
  {
    if !((step > 0 && start >= stop) || (step < 0 && start <= stop)) {
      var rest := Range(start + step, stop, step);
      RangeMembers(start + step, stop, step);
      assert Range(start, stop, step) == [start] + rest;
      forall i | 1 <= i <= |rest|
        ensures start + step + step * (i - 1) == start + step * i
      {
        assert step * (i - 1) == step * i - step;
      }
      assert step * (|rest| + 1) == step * |rest| + step;
    }
  }

  /** `range(0, n)` is 0, 1, ..., n - 1, and empty when n is not positive. */
  lemma CountingRange(n: int)
    ensures |Range(0, n, 1)| == if n > 0 then n else 0
    ensures forall i :: 0 <= i < |Range(0, n, 1)| ==> Range(0, n, 1)[i] == i
  {
    RangeMembers(0, n, 1);
    if n > 0 {
      assert Range(0, n, 1)[|Range(0, n, 1)| - 1] < n;
    }
  }

  /** `range(a, b)` is a, a + 1, ..., b - 1. */
  lemma CountingFrom(a: int, b: int)
    requires a <= b
    ensures |Range(a, b, 1)| == b - a
    ensures forall i :: 0 <= i < b - a ==> Range(a, b, 1)[i] == a + i
  {
    RangeMembers(a, b, 1);
    if a < b {
      assert Range(a, b, 1)[|Range(a, b, 1)| - 1] < b;
    }
  }

  /**
   * `Reader._slice`: `step` defaults to 1; `start` to 0 going forward and to
   * `len - 1` going backward; `stop` to `len` going forward and to 0 going
   * backward. `range` then refuses a zero step.
   */
  function SliceIndices(len: int, start: Option<int>, stop: Option<int>, step: Option<int>): Result<seq<int>> {
    var st := if step.Some? then step.value else 1;
    var a := if start.Some? then start.value else if st > 0 then 0 else len - 1;
    var b := if stop.Some? then stop.value else if st > 0 then len else 0;
    if st == 0 then Err(ZeroStep) else Ok(Range(a, b, st))
  }

  /** `reader[:]` reads every position, in order. */
  lemma FullSlice(len: nat)
    ensures SliceIndices(len, None, None, None).Ok?
    ensures |SliceIndices(len, None, None, None).value| == len
    ensures forall i :: 0 <= i < len ==> SliceIndices(len, None, None, None).value[i] == i
  {
    CountingRange(len);
  }

  /**
   * `reader[::-1]` reads from the last position down, and the default stop
   * of a backward slice leaves position 0 out.
   */
  lemma BackwardSliceSkipsFirst(len: nat)
    ensures SliceIndices(len, None, None, Some(-1)).Ok?
    ensures |SliceIndices(len, None, None, Some(-1)).value| == if len > 0 then len - 1 else 0
    ensures forall i :: 0 <= i < |SliceIndices(len, None, None, Some(-1)).value| ==>
              SliceIndices(len, None, None, Some(-1)).value[i] == len - 1 - i
    ensures 0 !in SliceIndices(len, None, None, Some(-1)).value
  {
    var r := Range(len - 1, 0, -1);
    RangeMembers(len - 1, 0, -1);
    forall i | 0 <= i < |r|
      ensures r[i] != 0
    {
    }
    if len > 1 {
      assert r[|r| - 1] > 0;
    }
  }

  /** A step of 0 is refused, whatever the bounds. */
  lemma ZeroStepRefused(len: int, start: Option<int>, stop: Option<int>)
    ensures SliceIndices(len, start, stop, Some(0)) == Err(ZeroStep)
  {
  }

  /**
   * `[get(idx) for idx in idxs]`: the items in order, or the first
   * exception raised.
   */
  function Collect(get: Getter, idxs: seq<int>): Result<seq<Json>>
    decreases |idxs|
  {
    if idxs == [] then Ok([])
    else
      match get(idxs[0])
      case Err(e) => Err(e)
      case Ok(v) =>
        match Collect(get, idxs[1..])
        case Err(e) => Err(e)
        case Ok(vs) => Ok([v] + vs)
  }

  /**
   * What the comprehension gives: every item when every read succeeds, each
   * at its own position; otherwise the exception of a read that fails after
   * only successful ones.
   */
  lemma {:induction false} CollectMeaning(get: Getter, idxs: seq<int>)
    ensures Collect(get, idxs).Ok? <==> forall i :: 0 <= i < |idxs| ==> get(idxs[i]).Ok?
    ensures Collect(get, idxs).Ok? ==>
              |Collect(get, idxs).value| == |idxs| &&
              forall i :: 0 <= i < |idxs| ==> Collect(get, idxs).value[i] == get(idxs[i]).value
    ensures Collect(get, idxs).Err? ==>
              exists j :: 0 <= j < |idxs| && get(idxs[j]) == Err(Collect(get, idxs).error) &&
                          forall i :: 0 <= i < j ==> get(idxs[i]).Ok?
    decreases |idxs|
  {
    if idxs != [] {
      var rest := idxs[1..];
      CollectMeaning(get, rest);
      assert forall i :: 1 <= i < |idxs| ==> rest[i - 1] == idxs[i];
      if get(idxs[0]).Ok? && Collect(get, rest).Err? {
        var j :| 0 <= j < |rest| && get(rest[j]) == Err(Collect(get, rest).error) &&
                 forall i :: 0 <= i < j ==> get(rest[i]).Ok?;
        assert get(idxs[j + 1]) == Err(Collect(get, idxs).error);
      }
    }
  }

  /** The first exception is the one raised: a failure at `j` after successes is what `Collect` reports. */
  lemma FirstErrorIsRaised(get: Getter, idxs: seq<int>, j: nat)
    requires j < |idxs| && get(idxs[j]).Err?
    requires forall i :: 0 <= i < j ==> get(idxs[i]).Ok?
    ensures Collect(get, idxs) == Err(get(idxs[j]).error)
  {
    CollectMeaning(get, idxs);
    var r := Collect(get, idxs);
    var k :| 0 <= k < |idxs| && get(idxs[k]) == Err(r.error) && forall i :: 0 <= i < k ==> get(idxs[i]).Ok?;
    assert get(idxs[k]).Err? && get(idxs[j]).Err?;
  }

  /** Reading at two lists of indices that give the same items, one by one, gives the same result. */
  lemma {:induction false} CollectPointwise(f: Getter, xs: seq<int>, g: Getter, ys: seq<int>)
    requires |xs| == |ys| && forall i :: 0 <= i < |xs| ==> f(xs[i]) == g(ys[i])
    ensures Collect(f, xs) == Collect(g, ys)
    decreases |xs|
  {
    if xs != [] {
      assert f(xs[0]) == g(ys[0]);
      assert forall i :: 0 <= i < |xs| - 1 ==> f(xs[1..][i]) == g(ys[1..][i]) by {
        forall i | 0 <= i < |xs| - 1
          ensures f(xs[1..][i]) == g(ys[1..][i])
        {
          assert xs[1..][i] == xs[i + 1] && ys[1..][i] == ys[i + 1];
        }
      }
      CollectPointwise(f, xs[1..], g, ys[1..]);
    }
  }

  /** Reading positions lo, lo + 1, ... of one getter that agrees with another at 0, 1, ... reads the same. */
  lemma ShiftedCollect(m: Getter, get: Getter, lo: int, len: nat)
    requires forall i :: 0 <= i < len ==> m(lo + i) == get(i)
    ensures Collect(m, Range(lo, lo + len, 1)) == Collect(get, Range(0, len, 1))
  {
    var xs, ys := Range(lo, lo + len, 1), Range(0, len, 1);
    CountingFrom(lo, lo + len);
    CountingFrom(0, len);
    forall i | 0 <= i < |xs|
      ensures m(xs[i]) == get(ys[i])
    {
      assert xs[i] == lo + i && ys[i] == i;
    }
    CollectPointwise(m, xs, get, ys);
  }

  /** One comprehension run after another: the items of both, or the first exception. */
  function Then(first: Result<seq<Json>>, second: Result<seq<Json>>): Result<seq<Json>> {
    match first
    case Err(e) => Err(e)
    case Ok(a) => match second case Err(e) => Err(e) case Ok(b) => Ok(a + b)
  }

  /** Reading two lists of indices one after the other: the items of both, or the first exception. */
  lemma {:induction false} CollectAppend(get: Getter, xs: seq<int>, ys: seq<int>)
    ensures Collect(get, xs + ys) == Then(Collect(get, xs), Collect(get, ys))
    decreases |xs|
  {
    if xs == [] {
      assert xs + ys == ys;
      if Collect(get, ys).Ok? {
        assert [] + Collect(get, ys).value == Collect(get, ys).value;
      }
    } else {
      assert (xs + ys)[0] == xs[0];
      assert (xs + ys)[1..] == xs[1..] + ys;
      CollectAppend(get, xs[1..], ys);
      if get(xs[0]).Ok? && Collect(get, xs[1..]).Ok? && Collect(get, ys).Ok? {
        assert [get(xs[0]).value] + (Collect(get, xs[1..]).value + Collect(get, ys).value) ==
               ([get(xs[0]).value] + Collect(get, xs[1..]).value) + Collect(get, ys).value;
      }
    }
  }

  /**
   * `__iter__`: `for idx in range(len(self)): yield self[idx]`. The items
   * yielded, then the exception that ended the loop, if any. Every item is
   * the one at its position, and the whole run is what `reader[:]` reads.
   */
  method IterateItems(len: int, get: Getter) returns (items: seq<Json>, err: Option<Error>)
    ensures forall i :: 0 <= i < |items| ==> get(i) == Ok(items[i])
    ensures err.None? ==> |items| == (if len > 0 then len else 0) && Collect(get, Range(0, len, 1)) == Ok(items)
    ensures err.Some? ==> |items| < len && get(|items|) == Err(err.value) && Collect(get, Range(0, len, 1)) == Err(err.value)
  {
    CountingRange(len);
    items, err := [], None;
    var idx := 0;
    while idx < len
      invariant 0 <= idx && (len > 0 ==> idx <= len) && (len <= 0 ==> idx == 0)
      invariant |items| == idx
      invariant forall i :: 0 <= i < idx ==> get(i) == Ok(items[i])
    {
      var item := get(idx);
      if item.Err? {
        err := Some(item.error);
        FirstErrorIsRaised(get, Range(0, len, 1), idx);
        return;
      }
      items := items + [item.value];
      idx := idx + 1;
    }
    var all := Collect(get, Range(0, len, 1));
    CollectMeaning(get, Range(0, len, 1));
    assert all.Ok?;
    assert all.value == items;
  }
}
