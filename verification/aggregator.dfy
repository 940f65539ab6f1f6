/** `Controller.aggregate` (controller.py): named bounded FIFO windows of power
    samples. One call can insert a sample (evicting the oldest ones first), read
    back the mean of the oldest `count` stored samples, or both; a global
    no-aggregation switch makes it hand the raw sample back instead. */
module Aggregator {
  import opened Common

  /** `Controller.aggregates`: window name to samples, oldest first. */
  type Windows = map<string, seq<real>>

  /** What one `aggregate` call returns: a number, `None` (insert-only), or an
      exception (IndexError from the eviction loop, KeyError for a fetch of an
      unknown window, ZeroDivisionError for a mean of no samples). */
  datatype AggResult = Value(v: real) | NoValue | Raised

  datatype AggOutcome = AggOutcome(windows: Windows, result: AggResult)

  /** The stored window, or the empty list a first insert creates. */
  function WindowOf(ws: Windows, name: string): seq<real>
  {
    if name in ws then ws[name] else []
  }

  /** `while len(window) >= trimTo: window.pop(0)`, for a positive `trimTo`:
      the oldest sample leaves, one at a time, while the window is full. */
  function PopWhileFull(w: seq<real>, trimTo: int): seq<real>
    requires trimTo >= 1
    decreases |w|
  {
    if |w| >= trimTo then PopWhileFull(w[1..], trimTo) else w
  }

  /** What that loop leaves, in closed form: the newest `trimTo - 1`
      samples of a full window, an unfull window unchanged. */
  function Evict(w: seq<real>, trimTo: int): (r: seq<real>)
    requires trimTo >= 1
    ensures |r| == MinInt(|w|, trimTo - 1)
  {
    if |w| >= trimTo then w[|w| - (trimTo - 1)..] else w
  }

  /** The loop and the closed form agree: the loop leaves room for exactly
      one more sample and keeps the newest ones. */
  lemma {:induction false} PopWhileFullIsEvict(w: seq<real>, trimTo: int)
    requires trimTo >= 1
    ensures PopWhileFull(w, trimTo) == Evict(w, trimTo)
    decreases |w|
  {
    if |w| >= trimTo {
      PopWhileFullIsEvict(w[1..], trimTo);
      if |w| - 1 >= trimTo {
        assert w[1..][|w| - 1 - (trimTo - 1)..] == w[|w| - (trimTo - 1)..];
      } else {
        assert |w| == trimTo;
        assert w[1..] == w[|w| - (trimTo - 1)..];
      }
    }
  }

  /** The insert step: evict, then append the new sample at the end. */
  function Push(w: seq<real>, value: real, trimTo: int): (r: seq<real>)
    requires trimTo >= 1
  {
    Evict(w, trimTo) + [value]
  }

  lemma PushShape(w: seq<real>, value: real, trimTo: int)
    requires trimTo >= 1
    ensures var r := Push(w, value, trimTo);
            && 1 <= |r| <= trimTo
            && |r| - 1 <= |w|
            && r[|r| - 1] == value
            && r[..|r| - 1] == w[|w| - (|r| - 1)..]
            && (|w| < trimTo ==> r[..|r| - 1] == w)
  {
    var r := Push(w, value, trimTo);
    assert r[..|r| - 1] == Evict(w, trimTo);
  }

  /** The samples the `for v in window ... if num == count: break` loop adds
      up: the oldest `count` of them, or all of them when `count` is not
      positive or exceeds the window. */
  function AveragedSamples(w: seq<real>, count: int): (s: seq<real>)
    ensures |s| <= |w| && s == w[..|s|]
    ensures count >= 1 ==> |s| == MinInt(count, |w|)
    ensures count < 1 ==> s == w
  {
    if count >= 1 && count < |w| then w[..count] else w
  }

  /** The insert half of a call with capacity `t`: nothing when not
      inserting; otherwise the named window is pushed to, or emptied when
      the capacity is below one. */
  function Stored(ws: Windows, name: string, value: real, t: int, inserting: bool): (ws1: Windows)
    ensures !inserting ==> ws1 == ws
    ensures inserting && t < 1 ==> ws1 == ws[name := []]
    ensures inserting && t >= 1 ==> ws1 == ws[name := Push(WindowOf(ws, name), value, t)]
  {
    if !inserting then ws
    else if t < 1 then ws[name := []]
    else ws[name := Push(WindowOf(ws, name), value, t)]
  }

  /** The fetch half, on the window as the insert left it (`None` when
      there is no such window). */
  function Reply(w: Option<seq<real>>, value: real, count: int, alwaysAggregate: bool,
                 noAggregation: bool): (r: AggResult)
    ensures !r.NoValue?
    ensures r.Raised? <==>
      w.None? || ((!noAggregation || alwaysAggregate) && |AveragedSamples(w.value, count)| == 0)
    ensures r.Value? && noAggregation && !alwaysAggregate ==> r.v == value
    ensures r.Value? && (!noAggregation || alwaysAggregate) ==>
      |AveragedSamples(w.value, count)| > 0 && r.v == Mean(AveragedSamples(w.value, count))
  {
    if w.None? then Raised
    else
      var s := AveragedSamples(w.value, count);
      if noAggregation && !alwaysAggregate then Value(value)
      else if |s| == 0 then Raised
      else Value(Mean(s))
  }

  /** `aggregate(name, value, count, trimTo, always_aggregate, fetch_only,
      insert_only)` with the module-level `NO_AGGREGATION` flag passed in;
      `trimTo == -1` is the Python default meaning "use `count`". With a
      capacity below one the eviction loop empties the window, then pops
      from an empty list. */
  function Aggregate(ws: Windows, name: string, value: real, count: int, trimTo: int,
                     alwaysAggregate: bool, fetchOnly: bool, insertOnly: bool,
                     noAggregation: bool): (out: AggOutcome)
    // Only the named window is ever touched.
    ensures out.windows == ws || (name in out.windows && out.windows == ws[name := out.windows[name]])
    ensures out.windows == Stored(ws, name, value, if trimTo == -1 then count else trimTo, insertOnly || !fetchOnly)
  {
    var inserting := insertOnly || !fetchOnly;
    var t := if trimTo == -1 then count else trimTo;
    var ws1 := Stored(ws, name, value, t, inserting);
    if inserting && t < 1 then AggOutcome(ws1, Raised)
    else if insertOnly then AggOutcome(ws1, NoValue)
    else AggOutcome(ws1, Reply(if name in ws1 then Some(ws1[name]) else None, value, count,
                               alwaysAggregate, noAggregation))
  }

  /** Inserting (any call that is not fetch-only): with a positive capacity
      the window stays within it and the new sample is the newest one; a
      capacity below one empties the window and raises. Which old samples
      survive is PushShape's business, via InsertIsPush. */
  lemma InsertRespectsCapacity(ws: Windows, name: string, value: real, count: int, trimTo: int,
                               alwaysAggregate: bool, fetchOnly: bool, insertOnly: bool,
                               noAggregation: bool)
    requires insertOnly || !fetchOnly
    ensures var out := Aggregate(ws, name, value, count, trimTo, alwaysAggregate, fetchOnly, insertOnly, noAggregation);
      var t := if trimTo == -1 then count else trimTo;
      && name in out.windows
      && (t < 1 ==> out.windows[name] == [] && out.result.Raised?)
      && (t >= 1 ==> 1 <= |out.windows[name]| <= t && out.windows[name][|out.windows[name]| - 1] == value)
  {
    var t := if trimTo == -1 then count else trimTo;
    if t >= 1 {
      PushShape(WindowOf(ws, name), value, t);
    }
  }

  /** The window an inserting call leaves behind is one push of the old one. */
  lemma InsertIsPush(ws: Windows, name: string, value: real, count: int, trimTo: int,
                     alwaysAggregate: bool, fetchOnly: bool, insertOnly: bool,
                     noAggregation: bool)
    requires insertOnly || !fetchOnly
    requires (if trimTo == -1 then count else trimTo) >= 1
    ensures var out := Aggregate(ws, name, value, count, trimTo, alwaysAggregate, fetchOnly, insertOnly, noAggregation);
      var t := if trimTo == -1 then count else trimTo;
      name in out.windows && out.windows[name] == Push(WindowOf(ws, name), value, t)
  {
  }

  /** A fetch-only call leaves every window as it was, and fails exactly when
      the window is missing or, while averaging, holds no sample. */
  lemma FetchOnlyLeavesWindows(ws: Windows, name: string, value: real, count: int, trimTo: int,
                               alwaysAggregate: bool, noAggregation: bool)
    ensures var out := Aggregate(ws, name, value, count, trimTo, alwaysAggregate, true, false, noAggregation);
      && out.windows == ws
      && (out.result.Raised? <==>
            (name !in ws || ((!noAggregation || alwaysAggregate) && |AveragedSamples(ws[name], count)| == 0)))
  {
  }

  /** An insert-only call returns nothing (or raises). */
  lemma InsertOnlyReturnsNothing(ws: Windows, name: string, value: real, count: int, trimTo: int,
                                 alwaysAggregate: bool, fetchOnly: bool, noAggregation: bool)
    ensures var out := Aggregate(ws, name, value, count, trimTo, alwaysAggregate, fetchOnly, true, noAggregation);
      !out.result.Value?
  {
  }

  /** With the no-aggregation switch on and no override, a call that does not
      raise hands back the raw sample. */
  lemma NoAggregationPassesRaw(ws: Windows, name: string, value: real, count: int, trimTo: int,
                               fetchOnly: bool)
    ensures var out := Aggregate(ws, name, value, count, trimTo, false, fetchOnly, false, true);
      !out.result.Raised? ==> out.result == Value(value)
  {
  }

  /** Otherwise a value is the mean of the oldest `count` stored samples (all
      of them when `count` is below one), taken after the insert. */
  lemma AverageOfOldest(ws: Windows, name: string, value: real, count: int, trimTo: int,
                        alwaysAggregate: bool, fetchOnly: bool, noAggregation: bool)
    requires !noAggregation || alwaysAggregate
    ensures var out := Aggregate(ws, name, value, count, trimTo, alwaysAggregate, fetchOnly, false, noAggregation);
      out.result.Value? ==>
        && name in out.windows
        && var s := AveragedSamples(out.windows[name], count);
        && |s| > 0
        && out.result.v == Mean(s)
  {
  }

  /** The mean the aggregator reports lies between the smallest and the
      largest of the samples it averaged. */
  lemma AverageWithinSamples(ws: Windows, name: string, value: real, count: int, trimTo: int,
                             fetchOnly: bool, lo: real, hi: real)
    requires AllWithin(WindowOf(ws, name), lo, hi)
    requires lo <= value <= hi
    ensures var out := Aggregate(ws, name, value, count, trimTo, true, fetchOnly, false, false);
            out.result.Value? ==> lo <= out.result.v <= hi
  {
    var out := Aggregate(ws, name, value, count, trimTo, true, fetchOnly, false, false);
    if out.result.Value? {
      AverageOfOldest(ws, name, value, count, trimTo, true, fetchOnly, false);
      var w := out.windows[name];
      StoredWithin(ws, name, value, if trimTo == -1 then count else trimTo, !fetchOnly, lo, hi);
      var s := AveragedSamples(w, count);
      PrefixWithin(w, |s|, lo, hi);
      MeanWithin(s, lo, hi);
    }
  }

  /** A window whose samples, and the new one, lie in `[lo, hi]` still does
      after the insert half of a call. */
  lemma StoredWithin(ws: Windows, name: string, value: real, t: int, inserting: bool, lo: real, hi: real)
    requires AllWithin(WindowOf(ws, name), lo, hi)
    requires lo <= value <= hi
    ensures var ws1 := Stored(ws, name, value, t, inserting);
            name in ws1 ==> AllWithin(ws1[name], lo, hi)
  {
    if inserting && t >= 1 {
      PushWithin(WindowOf(ws, name), value, t, lo, hi);
    }
  }

  lemma PushWithin(w: seq<real>, value: real, t: int, lo: real, hi: real)
    requires t >= 1
    requires AllWithin(w, lo, hi) && lo <= value <= hi
    ensures AllWithin(Push(w, value, t), lo, hi)
  {
    var e := Evict(w, t);
    SuffixWithin(w, |w| - |e|, lo, hi);
    AppendWithin(e, value, lo, hi);
  }

  lemma SuffixWithin(w: seq<real>, n: int, lo: real, hi: real)
    requires 0 <= n <= |w| && AllWithin(w, lo, hi)
    ensures AllWithin(w[n..], lo, hi)
  {
    forall k | 0 <= k < |w| - n ensures lo <= w[n..][k] <= hi {
      assert w[n..][k] == w[n + k];
    }
  }

  lemma PrefixWithin(w: seq<real>, n: int, lo: real, hi: real)
    requires 0 <= n <= |w| && AllWithin(w, lo, hi)
    ensures AllWithin(w[..n], lo, hi)
  {
    forall k | 0 <= k < n ensures lo <= w[..n][k] <= hi {
      assert w[..n][k] == w[k];
    }
  }

  lemma AppendWithin(e: seq<real>, value: real, lo: real, hi: real)
    requires AllWithin(e, lo, hi) && lo <= value <= hi
    ensures AllWithin(e + [value], lo, hi)
  {
    var r := e + [value];
    forall k | 0 <= k < |r| ensures lo <= r[k] <= hi {
      if k < |e| { assert r[k] == e[k]; }
    }
  }

  /** Pushing every value of `values` in turn with capacity `count`: the
      window of repeated insert-only `aggregate` calls (InsertIsPush). */
  function PushAll(w: seq<real>, values: seq<real>, count: int): seq<real>
    requires count >= 1
    decreases |values|
  {
    if values == [] then w else PushAll(Push(w, values[0], count), values[1..], count)
  }

  /** The newest `count` samples of a history, oldest first. */
  function Newest(history: seq<real>, count: int): (r: seq<real>)
    requires count >= 1
    ensures |r| == MinInt(count, |history|)
  {
    history[|history| - MinInt(count, |history|)..]
  }

  /** One push turns the newest-`count` window of a history into the
      newest-`count` window of the history extended by the new sample. */
  lemma PushKeepsNewest(history: seq<real>, value: real, count: int)
    requires count >= 1
    ensures Push(Newest(history, count), value, count) == Newest(history + [value], count)
  {
    var n := |history|;
    var old_ := Newest(history, count);
    var e := Evict(old_, count);
    var keep := MinInt(count - 1, n);
    assert |e| == keep;
    assert e == history[n - keep..] by {
      assert old_ == history[n - |old_|..];
      assert old_[|old_| - |e|..] == history[n - |e|..];
    }
    calc {
      Push(old_, value, count);
      e + [value];
      history[n - keep..] + [value];
      { assert (history + [value])[n - keep..] == history[n - keep..] + [value]; }
      (history + [value])[n - keep..];
      Newest(history + [value], count);
    }
  }

  /** A window that is only ever pushed to holds exactly the newest `count`
      samples, oldest first. */
  lemma {:induction false} PushAllKeepsNewest(history: seq<real>, values: seq<real>, count: int)
    requires count >= 1
    ensures PushAll(Newest(history, count), values, count) == Newest(history + values, count)
    decreases |values|
  {
    if values != [] {
      var h' := history + [values[0]];
      calc {
        PushAll(Newest(history, count), values, count);
        PushAll(Push(Newest(history, count), values[0], count), values[1..], count);
        { PushKeepsNewest(history, values[0], count); }
        PushAll(Newest(h', count), values[1..], count);
        { PushAllKeepsNewest(h', values[1..], count); }
        Newest(h' + values[1..], count);
        { assert h' + values[1..] == history + values; }
        Newest(history + values, count);
      }
    }
  }

  /** Thirteen pushes of 1, 2, ..., 13 into an empty window of capacity 12
      leave 2, ..., 13: the oldest sample went first. */
  lemma ThirteenPushesIntoTwelve()
    ensures var vs := [1.0, 2.0, 3.0, 4.0, 5.0, 6.0, 7.0, 8.0, 9.0, 10.0, 11.0, 12.0, 13.0];
            PushAll([], vs, 12) == vs[1..]
  {
    var vs := [1.0, 2.0, 3.0, 4.0, 5.0, 6.0, 7.0, 8.0, 9.0, 10.0, 11.0, 12.0, 13.0];
    PushAllKeepsNewest([], vs, 12);
    assert Newest([], 12) == [];
    assert [] + vs == vs;
    assert Newest(vs, 12) == vs[1..];
  }

  /** Averaging five of the window 2..13 takes the five OLDEST samples
      (2..6, mean 4), not the five newest. */
  lemma FetchAveragesOldest()
    ensures var ws := map["w" := [2.0, 3.0, 4.0, 5.0, 6.0, 7.0, 8.0, 9.0, 10.0, 11.0, 12.0, 13.0]];
            Aggregate(ws, "w", 0.0, 5, -1, true, true, false, false).result == Value(4.0)
  {
    var w := [2.0, 3.0, 4.0, 5.0, 6.0, 7.0, 8.0, 9.0, 10.0, 11.0, 12.0, 13.0];
    var s := AveragedSamples(w, 5);
    assert s == [2.0, 3.0, 4.0, 5.0, 6.0];
    assert Sum([2.0]) == 2.0 by { assert [2.0][..0] == []; }
    assert Sum([2.0, 3.0]) == 5.0 by { assert [2.0, 3.0][..1] == [2.0]; }
    assert Sum([2.0, 3.0, 4.0]) == 9.0 by { assert [2.0, 3.0, 4.0][..2] == [2.0, 3.0]; }
    assert Sum([2.0, 3.0, 4.0, 5.0]) == 14.0 by { assert [2.0, 3.0, 4.0, 5.0][..3] == [2.0, 3.0, 4.0]; }
    assert Sum(s) == 20.0 by { assert s[..4] == [2.0, 3.0, 4.0, 5.0]; }
  }
}
