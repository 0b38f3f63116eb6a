// `ProfileData` of include/pbrt/profiling/profile_data.hpp and src/profiling/profile_data.cpp:
// the statistics of one profiled section. Durations are whole nanoseconds (`Duration` is
// `std::chrono::nanoseconds`), held as unbounded integers.
module ProfileStats {
  /** `Duration::max()` and `Duration::min()` for the signed 64-bit nanosecond count. */
  const DURATION_MAX: int := 0x7FFF_FFFF_FFFF_FFFF
  const DURATION_MIN: int := -0x8000_0000_0000_0000

  /** Values of the signed 64-bit nanosecond count `Duration` wraps. */
  predicate IsDuration(d: int)
  {
    DURATION_MIN <= d <= DURATION_MAX
  }

  /**
   * The fields of a `ProfileData` as a value: how the profiler's map and
   * `get_sorted_profiles` hold and copy it.
   */
  datatype Record = Record(name: string, totalTime: int, minTime: int, maxTime: int,
                           callCount: nat, depth: nat)

  /**
   * `ProfileData(name, location, depth)`: name and depth stored, the statistics at their
   * defaults (total 0, no calls, min `Duration::max()`, max `Duration::min()`).
   * `ProfileData()` is `Fresh("", 0)`.
   */
  function Fresh(name: string, depth: nat): (r: Record)
    ensures r.name == name && r.depth == depth
    ensures r.totalTime == 0 && r.callCount == 0
    ensures r.minTime == DURATION_MAX && r.maxTime == DURATION_MIN
  {
    Record(name, 0, DURATION_MAX, DURATION_MIN, 0, depth)
  }

  /** `std::min(a, b)`: `b` when it is strictly smaller, else `a`. */
  function MinOf(a: int, b: int): (r: int)
    ensures r <= a && r <= b && (r == a || r == b)
  {
    if b < a then b else a
  }

  /** `std::max(a, b)`: `b` when `a` is strictly smaller, else `a`. */
  function MaxOf(a: int, b: int): (r: int)
    ensures r >= a && r >= b && (r == a || r == b)
  {
    if a < b then b else a
  }

  /** The record `add_sample(sample)` leaves. */
  function WithSample(r: Record, sample: int): (r': Record)
    ensures r'.name == r.name && r'.depth == r.depth
    ensures r'.callCount == r.callCount + 1 && r'.totalTime == r.totalTime + sample
    ensures r'.minTime <= sample <= r'.maxTime
    ensures r'.minTime <= r.minTime && r'.maxTime >= r.maxTime
    ensures (r'.minTime == r.minTime || r'.minTime == sample) && (r'.maxTime == r.maxTime || r'.maxTime == sample)
  {
    r.(totalTime := r.totalTime + sample,
       minTime := MinOf(r.minTime, sample),
       maxTime := MaxOf(r.maxTime, sample),
       callCount := r.callCount + 1)
  }

  /** `r` after `add_sample` of each of `samples`, first to last. */
  function Replay(r: Record, samples: seq<int>): Record
    decreases |samples|
  {
    if |samples| == 0 then r else WithSample(Replay(r, samples[..|samples| - 1]), samples[|samples| - 1])
  }

  /** The sum of the samples, added first to last. */
  function Sum(samples: seq<int>): int
    decreases |samples|
  {
    if |samples| == 0 then 0 else Sum(samples[..|samples| - 1]) + samples[|samples| - 1]
  }

  /**
   * After `n` samples added to a fresh record, the count is `n`, the total is their sum, and
   * the minimum and maximum are samples bounding every sample (when there is at least one).
   */
  lemma {:induction false} ReplaySummary(name: string, depth: nat, samples: seq<int>)
    requires forall i :: 0 <= i < |samples| ==> IsDuration(samples[i])
    ensures var r := Replay(Fresh(name, depth), samples);
      && r.callCount == |samples| && r.totalTime == Sum(samples)
      && r.name == name && r.depth == depth
      && (forall i :: 0 <= i < |samples| ==> r.minTime <= samples[i] <= r.maxTime)
      && (|samples| > 0 ==> r.minTime in samples && r.maxTime in samples)
      && (|samples| == 0 ==> r == Fresh(name, depth))
  {
    if |samples| > 0 {
      var init := samples[..|samples| - 1];
      var last := samples[|samples| - 1];
      ReplaySummary(name, depth, init);
      var p := Replay(Fresh(name, depth), init);
      var r := WithSample(p, last);
      assert r == Replay(Fresh(name, depth), samples);
      forall i | 0 <= i < |samples| ensures r.minTime <= samples[i] <= r.maxTime {
        if i < |samples| - 1 {
          assert samples[i] == init[i];
        }
      }
      if |init| == 0 {
        assert r.minTime == last && r.maxTime == last;
      } else {
        assert p.minTime in init && p.maxTime in init;
      }
      assert last == samples[|samples| - 1];
      assert forall x :: x in init ==> x in samples;
    }
  }

  /** `total_time_ms()`: the total in milliseconds. */
  function TotalMillis(r: Record): (ms: real)
    ensures ms * 1000000.0 == r.totalTime as real
  {
    r.totalTime as real / 1000000.0
  }

  /** `average_time_ms()`: 0 for a record with no calls, else the total over the call count. */
  function AverageMillis(r: Record): (ms: real)
    ensures r.callCount == 0 ==> ms == 0.0
    ensures r.callCount > 0 ==> ms * r.callCount as real == TotalMillis(r)
  {
    if r.callCount == 0 then 0.0 else TotalMillis(r) / r.callCount as real
  }

  /** `n` equal samples average to that sample. */
  lemma AverageOfEqualSamples(name: string, depth: nat, samples: seq<int>, d: int)
    requires |samples| > 0 && IsDuration(d)
    requires forall i :: 0 <= i < |samples| ==> samples[i] == d
    ensures AverageMillis(Replay(Fresh(name, depth), samples)) * 1000000.0 == d as real
  {
    ReplaySummary(name, depth, samples);
    SumOfEqual(samples, d);
    AverageOfTotal(Replay(Fresh(name, depth), samples), d, |samples|);
  }

  /** A record of `n > 0` calls totalling `d n` nanoseconds averages `d` nanoseconds. */
  lemma AverageOfTotal(r: Record, d: int, n: int)
    requires r.callCount == n > 0 && r.totalTime == d * n
    ensures AverageMillis(r) * 1000000.0 == d as real
  {
    TotalAsReal(r.totalTime, d, n, r.callCount);
    CancelCount(AverageMillis(r), TotalMillis(r), r.callCount as real, d as real, r.totalTime as real);
  }

  /** A total of `n` samples of `d`, seen as a real. */
  lemma TotalAsReal(total: int, d: int, n: int, count: int)
    requires total == d * n && n == count
    ensures total as real == d as real * count as real
  {
  }

  /** `a n = t`, `t 10^6 = total` and `total = d n` with `n > 0` give `a 10^6 = d`. */
  lemma CancelCount(a: real, t: real, n: real, d: real, total: real)
    requires n > 0.0 && a * n == t && t * 1000000.0 == total && total == d * n
    ensures a * 1000000.0 == d
  {
    assert (a * 1000000.0) * n == d * n;
  }

  lemma {:induction false} SumOfEqual(samples: seq<int>, d: int)
    requires forall i :: 0 <= i < |samples| ==> samples[i] == d
    ensures Sum(samples) == d * |samples|
  {
    if |samples| > 0 {
      SumOfEqual(samples[..|samples| - 1], d);
    }
  }

  /** A `ProfileData` object, whose `add_sample` updates its fields in place. */
  class ProfileData {
    var name: string
    var totalTime: int
    var minTime: int
    var maxTime: int
    var callCount: nat
    var depth: nat

    /** The fields as a value. */
    function Stats(): Record
      reads this
    {
      Record(name, totalTime, minTime, maxTime, callCount, depth)
    }

    /** `ProfileData()`. */
    constructor Default()
      ensures Stats() == Fresh("", 0)
    {
      name, totalTime, minTime, maxTime, callCount, depth := "", 0, DURATION_MAX, DURATION_MIN, 0, 0;
    }

    /** `ProfileData(name, location, depth)`; the source location is not modelled. */
    constructor (name: string, depth: nat)
      ensures Stats() == Fresh(name, depth)
    {
      this.name := name;
      this.depth := depth;
      totalTime, minTime, maxTime, callCount := 0, DURATION_MAX, DURATION_MIN, 0;
    }

    /** `add_sample(sample)`: total, minimum, maximum and count updated one after another. */
    method AddSample(sample: int)
      modifies this
      ensures Stats() == WithSample(old(Stats()), sample)
    {
      totalTime := totalTime + sample;
      minTime := MinOf(minTime, sample);
      maxTime := MaxOf(maxTime, sample);
      callCount := callCount + 1;
    }

    /** `average_time_ms()`. */
    method AverageTimeMs() returns (ms: real)
      ensures ms == AverageMillis(Stats())
    {
      if callCount == 0 {
        return 0.0;
      }
      ms := (totalTime as real / 1000000.0) / callCount as real;
    }

    /** `total_time_ms()`. */
    method TotalTimeMs() returns (ms: real)
      ensures ms == TotalMillis(Stats())
    {
      ms := totalTime as real / 1000000.0;
    }
  }
}
