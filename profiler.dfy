// `Profiler` of include/pbrt/profiling/profiler.hpp and src/profiling/profiler.cpp: named
// sections timed between `begin_profile` and `end_profile`, and a frame counter. The clock is
// a parameter: each operation that reads `Clock::now()` takes the reading `now` in
// nanoseconds. The mutex, the singleton accessor and the log reports are not modelled.
module Profiling {
  import opened ProfileStats

  /** `u64` counters (`m_currentDepth`, `m_frameCount`) wrap modulo 2^64. */
  const U64_MODULUS: int := 0x1_0000_0000_0000_0000

  function Increment(n: nat): (r: nat)
    requires n < U64_MODULUS
    ensures r < U64_MODULUS && (n + 1 < U64_MODULUS ==> r == n + 1)
  {
    (n + 1) % U64_MODULUS
  }

  /** `--n` on a `u64`: at 0 it wraps to 2^64 - 1. */
  function Decrement(n: nat): (r: nat)
    requires n < U64_MODULUS
    ensures r < U64_MODULUS && (n > 0 ==> r == n - 1) && (n == 0 ==> r == U64_MODULUS - 1)
  {
    (n + U64_MODULUS - 1) % U64_MODULUS
  }

  /** The profiler's fields as a value. */
  datatype State = State(
    profiles: map<string, Record>,
    activeTimers: map<string, int>,
    enabled: bool,
    frameStartTime: int,
    lastFrameTime: int,
    frameCount: nat,
    currentDepth: nat)

  /**
   * What every operation keeps: the counters fit in 64 bits, an active timer always has a
   * profile entry, and each entry's record carries its own key as name.
   */
  predicate Consistent(s: State)
  {
    && s.currentDepth < U64_MODULUS && s.frameCount < U64_MODULUS
    && (forall k :: k in s.activeTimers ==> k in s.profiles)
    && (forall k :: k in s.profiles ==> s.profiles[k].name == k)
  }

  /** A fresh profiler: enabled, no profiles or timers, counters and times zero. */
  function Initial(): (s: State)
    ensures Consistent(s) && s.enabled
  {
    State(map[], map[], true, 0, 0, 0, 0)
  }

  /** `m_profiles[name]`: the stored record, or a default-constructed one when absent. */
  function Slot(profiles: map<string, Record>, name: string): Record
  {
    if name in profiles then profiles[name] else Fresh("", 0)
  }

  /** `begin_profile(name)` at time `now`. */
  function Began(s: State, name: string, now: int): (s': State)
    requires Consistent(s)
  {
    if !s.enabled then s
    else
      var p := Slot(s.profiles, name);
      var p' := p.(name := if p.name == "" then name else p.name, depth := s.currentDepth);
      s.(activeTimers := s.activeTimers[name := now],
         profiles := s.profiles[name := p'],
         currentDepth := Increment(s.currentDepth))
  }

  /** `end_profile(name)` at time `now`. */
  function Ended(s: State, name: string, now: int): (s': State)
    requires Consistent(s)
  {
    if !s.enabled then s
    else
      var depth := Decrement(s.currentDepth);
      if name !in s.activeTimers then s.(currentDepth := depth)
      else
        var duration := now - s.activeTimers[name];
        var p := Slot(s.profiles, name);
        var p' := if p.name == "" then p.(name := name, depth := depth) else p;
        s.(currentDepth := depth,
           activeTimers := s.activeTimers - {name},
           profiles := s.profiles[name := WithSample(p', duration)])
  }

  /** `reset()`: profiles and timers cleared, frame count, last frame time and depth zeroed. */
  function Cleared(s: State): (s': State)
  {
    s.(profiles := map[], activeTimers := map[], frameCount := 0, lastFrameTime := 0, currentDepth := 0)
  }

  /** `begin_frame()` at time `now`. */
  function FrameBegun(s: State, now: int): (s': State)
  {
    if !s.enabled then s else s.(frameStartTime := now)
  }

  /** `end_frame()` at time `now`. */
  function FrameEnded(s: State, now: int): (s': State)
    requires Consistent(s)
  {
    if !s.enabled then s
    else s.(lastFrameTime := now - s.frameStartTime, frameCount := Increment(s.frameCount))
  }

  // ---------------------------------------------------------------- properties of one call

  /** Every operation keeps the profiler consistent. */
  lemma OperationsConsistent(s: State, name: string, now: int, b: bool)
    requires Consistent(s)
    ensures Consistent(Began(s, name, now)) && Consistent(Ended(s, name, now))
    ensures Consistent(Cleared(s)) && Consistent(s.(enabled := b))
    ensures Consistent(FrameBegun(s, now)) && Consistent(FrameEnded(s, now))
  {
  }

  /** While disabled, profiling and frame calls change nothing. */
  lemma DisabledChangesNothing(s: State, name: string, now: int)
    requires Consistent(s) && !s.enabled
    ensures Began(s, name, now) == s && Ended(s, name, now) == s
    ensures FrameBegun(s, now) == s && FrameEnded(s, now) == s
  {
  }

  /**
   * `begin_profile` starts a timer for `name`, makes sure its profile exists under that name,
   * records the current depth in it, leaves its statistics and every other profile alone,
   * and goes one level deeper.
   */
  lemma BeganRecords(s: State, name: string, now: int)
    requires Consistent(s) && s.enabled
    ensures var s' := Began(s, name, now);
      && s'.activeTimers == s.activeTimers[name := now]
      && name in s'.profiles && s'.profiles[name].name == name
      && s'.profiles[name].depth == s.currentDepth
      && s'.profiles[name].callCount == Slot(s.profiles, name).callCount
      && s'.profiles[name].totalTime == Slot(s.profiles, name).totalTime
      && s'.currentDepth == Increment(s.currentDepth)
      && (forall k :: k in s.profiles && k != name ==> k in s'.profiles && s'.profiles[k] == s.profiles[k])
      && s'.profiles.Keys == s.profiles.Keys + {name}
  {
  }

  /**
   * `end_profile` with a running timer stops it and adds exactly one sample, the elapsed
   * time, to that profile; other profiles stay as they were.
   */
  lemma EndedSamples(s: State, name: string, now: int)
    requires Consistent(s) && s.enabled && name in s.activeTimers
    ensures var s' := Ended(s, name, now);
      && s'.activeTimers == s.activeTimers - {name}
      && s'.profiles.Keys == s.profiles.Keys
      && s'.profiles[name].callCount == s.profiles[name].callCount + 1
      && s'.profiles[name].totalTime == s.profiles[name].totalTime + (now - s.activeTimers[name])
      && (name != "" ==> s'.profiles[name] == WithSample(s.profiles[name], now - s.activeTimers[name]))
      && (forall k :: k in s.profiles && k != name ==> s'.profiles[k] == s.profiles[k])
      && s'.currentDepth == Decrement(s.currentDepth)
  {
  }

  /**
   * `end_profile` without a running timer adds no profile and no sample but still leaves
   * the depth one lower; at depth 0 the `u64` counter wraps to 2^64 - 1.
   */
  lemma EndedWithoutBegin(s: State, name: string, now: int)
    requires Consistent(s) && s.enabled && name !in s.activeTimers
    ensures var s' := Ended(s, name, now);
      && s'.profiles == s.profiles && s'.activeTimers == s.activeTimers
      && s'.currentDepth == Decrement(s.currentDepth)
      && (s.currentDepth == 0 ==> s'.currentDepth == U64_MODULUS - 1)
  {
  }

  /** `reset` leaves nothing to report and the counters at zero; it keeps `enabled`. */
  lemma ClearedIsEmpty(s: State)
    ensures var s' := Cleared(s);
      s'.profiles == map[] && s'.activeTimers == map[] && s'.frameCount == 0
      && s'.lastFrameTime == 0 && s'.currentDepth == 0 && s'.enabled == s.enabled
  {
  }

  /** `end_frame` counts one more frame and records the time since `begin_frame`. */
  lemma FrameEndedCounts(s: State, start: int, now: int)
    requires Consistent(s) && s.enabled && s.frameCount + 1 < U64_MODULUS
    ensures var s' := FrameEnded(FrameBegun(s, start), now);
      s'.frameCount == s.frameCount + 1 && s'.lastFrameTime == now - start
      && s'.profiles == s.profiles && s'.currentDepth == s.currentDepth
  {
  }

  // ---------------------------------------------------------------- sequences of calls

  /** `begin_profile(name)` at `t.0` then `end_profile(name)` at `t.1`, for each pair in turn. */
  function Pairs(s: State, name: string, times: seq<(int, int)>): (s': State)
    requires Consistent(s)
    ensures Consistent(s')
    decreases |times|
  {
    if |times| == 0 then s
    else
      var before := Pairs(s, name, times[..|times| - 1]);
      OperationsConsistent(before, name, times[|times| - 1].0, false);
      var mid := Began(before, name, times[|times| - 1].0);
      OperationsConsistent(mid, name, times[|times| - 1].1, false);
      Ended(mid, name, times[|times| - 1].1)
  }

  /** The elapsed times of the pairs, summed first to last. */
  function Elapsed(times: seq<(int, int)>): int
    decreases |times|
  {
    if |times| == 0 then 0 else Elapsed(times[..|times| - 1]) + (times[|times| - 1].1 - times[|times| - 1].0)
  }

  /**
   * `n` matched begin/end pairs on an enabled profiler add `n` calls and the sum of their
   * elapsed times to the profile, and bring the depth back to where it was.
   */
  lemma {:induction false} PairsCount(s: State, name: string, times: seq<(int, int)>)
    requires Consistent(s) && s.enabled && s.currentDepth + 1 < U64_MODULUS
    ensures var s' := Pairs(s, name, times);
      && s'.enabled && s'.currentDepth == s.currentDepth
      && Slot(s'.profiles, name).callCount == Slot(s.profiles, name).callCount + |times|
      && Slot(s'.profiles, name).totalTime == Slot(s.profiles, name).totalTime + Elapsed(times)
      && (|times| > 0 ==> name in s'.profiles && name !in s'.activeTimers)
  {
    if |times| > 0 {
      var init := times[..|times| - 1];
      PairsCount(s, name, init);
      var before := Pairs(s, name, init);
      var t := times[|times| - 1];
      OnePair(before, name, t.0, t.1);
    }
  }

  /** One matched pair: one more call, its elapsed time added, the depth restored. */
  lemma OnePair(s: State, name: string, t0: int, t1: int)
    requires Consistent(s) && s.enabled && s.currentDepth + 1 < U64_MODULUS
    ensures Consistent(Began(s, name, t0))
    ensures var s' := Ended(Began(s, name, t0), name, t1);
      && s'.enabled && s'.currentDepth == s.currentDepth
      && Slot(s'.profiles, name).callCount == Slot(s.profiles, name).callCount + 1
      && Slot(s'.profiles, name).totalTime == Slot(s.profiles, name).totalTime + (t1 - t0)
      && name in s'.profiles && name !in s'.activeTimers
  {
    OperationsConsistent(s, name, t0, false);
    BeganRecords(s, name, t0);
    EndedSamples(Began(s, name, t0), name, t1);
  }

  /** A `begin_profile` whose `end_profile` never comes leaves a new profile with no calls. */
  lemma UnfinishedHasNoCalls(s: State, name: string, now: int)
    requires Consistent(s) && s.enabled && name !in s.profiles
    ensures var s' := Began(s, name, now); name in s'.profiles && s'.profiles[name].callCount == 0
  {
  }

  // ---------------------------------------------------------------- sorting

  /** Non-increasing by total time, as `get_sorted_profiles` orders its result. */
  predicate ByTotalDescending(rs: seq<Record>)
  {
    forall i, j :: 0 <= i < j < |rs| ==> rs[i].totalTime >= rs[j].totalTime
  }

  /** Every record of `rs` has a total of at most `t`. */
  predicate AllAtMost(rs: seq<Record>, t: int)
  {
    forall i :: 0 <= i < |rs| ==> rs[i].totalTime <= t
  }

  /** Sequences with the same multiset of elements have the same elements. */
  lemma SameElements(a: seq<Record>, b: seq<Record>)
    requires multiset(a) == multiset(b)
    ensures forall x :: x in a <==> x in b
  {
    forall x ensures x in a <==> x in b {
      assert x in a <==> x in multiset(a);
      assert x in b <==> x in multiset(b);
    }
  }

  /** `x` placed before the first element of `sorted` with a smaller total. */
  function InsertByTotal(sorted: seq<Record>, x: Record): (r: seq<Record>)
    requires ByTotalDescending(sorted)
    ensures ByTotalDescending(r) && multiset(r) == multiset(sorted) + multiset{x}
    decreases |sorted|
  {
    if |sorted| == 0 then [x]
    else if sorted[0].totalTime >= x.totalTime then
      var rest := InsertByTotal(sorted[1..], x);
      InsertHead(sorted, x, rest);
      [sorted[0]] + rest
    else
      assert AllAtMost(sorted, sorted[0].totalTime);
      [x] + sorted
  }

  /** The head of `sorted` may stay in front of the rest with `x` inserted. */
  lemma InsertHead(sorted: seq<Record>, x: Record, rest: seq<Record>)
    requires |sorted| > 0 && ByTotalDescending(sorted) && sorted[0].totalTime >= x.totalTime
    requires ByTotalDescending(rest) && multiset(rest) == multiset(sorted[1..]) + multiset{x}
    ensures ByTotalDescending([sorted[0]] + rest)
    ensures multiset([sorted[0]] + rest) == multiset(sorted) + multiset{x}
  {
    assert sorted == [sorted[0]] + sorted[1..];
    var bound := sorted[0].totalTime;
    assert AllAtMost(sorted[1..] + [x], bound);
    assert multiset(sorted[1..] + [x]) == multiset(sorted[1..]) + multiset{x};
    SameElements(rest, sorted[1..] + [x]);
    forall j | 0 <= j < |rest| ensures rest[j].totalTime <= bound {
      assert rest[j] in sorted[1..] + [x];
    }
    var r := [sorted[0]] + rest;
    forall i, j | 0 <= i < j < |r| ensures r[i].totalTime >= r[j].totalTime {
      if i > 0 {
        assert r[i] == rest[i - 1] && r[j] == rest[j - 1];
      }
    }
  }

  /** A profiler object holding the fields of `State`. */
  class Profiler {
    var profiles: map<string, Record>
    var activeTimers: map<string, int>
    var enabled: bool
    var frameStartTime: int
    var lastFrameTime: int
    var frameCount: nat
    var currentDepth: nat

    function Value(): State
      reads this
    {
      State(profiles, activeTimers, enabled, frameStartTime, lastFrameTime, frameCount, currentDepth)
    }

    predicate Valid()
      reads this
    {
      Consistent(Value())
    }

    /** The default-constructed profiler `get_instance()` hands out. */
    constructor ()
      ensures Valid() && Value() == Initial()
    {
      profiles, activeTimers, enabled := map[], map[], true;
      frameStartTime, lastFrameTime, frameCount, currentDepth := 0, 0, 0, 0;
    }

    /** `begin_profile(name)`, the clock reading `now` given. */
    method BeginProfile(name: string, now: int)
      requires Valid()
      modifies this
      ensures Valid() && Value() == Began(old(Value()), name, now)
    {
      if !enabled {
        return;
      }
      activeTimers := activeTimers[name := now];
      var profile := Slot(profiles, name);
      if profile.name == "" {
        profile := profile.(name := name);
      }
      profile := profile.(depth := currentDepth);
      profiles := profiles[name := profile];
      currentDepth := Increment(currentDepth);
    }

    /** `end_profile(name)`, the clock reading `now` given. */
    method EndProfile(name: string, now: int)
      requires Valid()
      modifies this
      ensures Valid() && Value() == Ended(old(Value()), name, now)
    {
      if !enabled {
        return;
      }
      currentDepth := Decrement(currentDepth);
      if name !in activeTimers {
        return;
      }
      var duration := now - activeTimers[name];
      activeTimers := activeTimers - {name};
      var profile := Slot(profiles, name);
      if profile.name == "" {
        profile := profile.(name := name, depth := currentDepth);
      }
      profile := WithSample(profile, duration);
      profiles := profiles[name := profile];
    }

    /** `reset()`. */
    method Reset()
      requires Valid()
      modifies this
      ensures Valid() && Value() == Cleared(old(Value()))
    {
      profiles, activeTimers := map[], map[];
      frameCount, lastFrameTime, currentDepth := 0, 0, 0;
    }

    /** `enable(enabled)`. */
    method Enable(b: bool)
      requires Valid()
      modifies this
      ensures Valid() && Value() == old(Value()).(enabled := b)
    {
      enabled := b;
    }

    /** `is_enabled()`. */
    method IsEnabled() returns (b: bool)
      ensures b == Value().enabled
    {
      b := enabled;
    }

    /** `begin_frame()`, the clock reading `now` given. */
    method BeginFrame(now: int)
      requires Valid()
      modifies this
      ensures Valid() && Value() == FrameBegun(old(Value()), now)
    {
      if !enabled {
        return;
      }
      frameStartTime := now;
    }

    /** `end_frame()`, the clock reading `now` given. */
    method EndFrame(now: int)
      requires Valid()
      modifies this
      ensures Valid() && Value() == FrameEnded(old(Value()), now)
    {
      if !enabled {
        return;
      }
      lastFrameTime := now - frameStartTime;
      frameCount := Increment(frameCount);
    }

    /** `get_frame_count()`. */
    method GetFrameCount() returns (n: nat)
      ensures n == Value().frameCount
    {
      n := frameCount;
    }

    /** `get_last_frame_time()`. */
    method GetLastFrameTime() returns (d: int)
      ensures d == Value().lastFrameTime
    {
      d := lastFrameTime;
    }

    /**
     * `get_sorted_profiles()`: every stored profile exactly once, in order of non-increasing
     * total time. The records are collected from the map one key at a time, then sorted.
     */
    method GetSortedProfiles() returns (result: seq<Record>)
      requires Valid()
      ensures |result| == |profiles.Keys|
      ensures forall i :: 0 <= i < |result| ==> result[i].name in profiles && profiles[result[i].name] == result[i]
      ensures forall k :: k in profiles ==> profiles[k] in result
      ensures ByTotalDescending(result)
    {
      var items := CollectProfiles(profiles);
      result := SortByTotal(items);
      SameElements(result, items);
      forall i | 0 <= i < |result|
        ensures result[i].name in profiles && profiles[result[i].name] == result[i]
      {
        assert result[i] in result;
        assert result[i] in items;
        var j :| 0 <= j < |items| && items[j] == result[i];
      }
    }
  }

  /** The loop over `m_profiles` that copies each record into the result vector. */
  method CollectProfiles(profiles: map<string, Record>) returns (items: seq<Record>)
    requires forall k :: k in profiles ==> profiles[k].name == k
    ensures |items| == |profiles.Keys|
    ensures forall i :: 0 <= i < |items| ==> items[i].name in profiles && profiles[items[i].name] == items[i]
    ensures forall k :: k in profiles ==> profiles[k] in items
  {
    items := [];
    var done: set<string> := {};
    while done != profiles.Keys
      invariant done <= profiles.Keys && |items| == |done|
      invariant forall i :: 0 <= i < |items| ==> items[i].name in done && profiles[items[i].name] == items[i]
      invariant forall k :: k in done ==> profiles[k] in items
      decreases |profiles.Keys - done|
    {
      var k :| k in profiles.Keys - done;
      CollectStep(profiles, items, done, k);
      items := items + [profiles[k]];
      done := done + {k};
    }
  }

  /** One key more collected: the collected records still match their keys, one per key. */
  lemma CollectStep(profiles: map<string, Record>, items: seq<Record>, done: set<string>, k: string)
    requires k in profiles && k !in done && |items| == |done| && done <= profiles.Keys
    requires forall i :: 0 <= i < |items| ==> items[i].name in done && profiles[items[i].name] == items[i]
    requires forall j :: j in done ==> profiles[j] in items
    requires profiles[k].name == k
    ensures |profiles.Keys - (done + {k})| < |profiles.Keys - done|
    ensures var items', done' := items + [profiles[k]], done + {k};
      && |items'| == |done'| && done' <= profiles.Keys
      && (forall i :: 0 <= i < |items'| ==> items'[i].name in done' && profiles[items'[i].name] == items'[i])
      && (forall j :: j in done' ==> profiles[j] in items')
  {
    var items' := items + [profiles[k]];
    assert forall i :: 0 <= i < |items| ==> items'[i] == items[i];
    assert profiles.Keys - done == (profiles.Keys - (done + {k})) + {k};
  }

  /** The `std::ranges::sort` by descending total time: each record inserted into a sorted prefix. */
  method SortByTotal(items: seq<Record>) returns (sorted: seq<Record>)
    ensures ByTotalDescending(sorted) && multiset(sorted) == multiset(items)
    ensures |sorted| == |items|
  {
    sorted := [];
    var i := 0;
    while i < |items|
      invariant 0 <= i <= |items|
      invariant ByTotalDescending(sorted)
      invariant multiset(sorted) == multiset(items[..i])
    {
      sorted := InsertByTotal(sorted, items[i]);
      assert items[..i + 1] == items[..i] + [items[i]];
      i := i + 1;
    }
    assert items[..|items|] == items;
    assert |multiset(sorted)| == |sorted|;
  }
}
