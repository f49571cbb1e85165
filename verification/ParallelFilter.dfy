/** Obstacle filtering by slope, in one pass and split over threads. */
module ParallelFilter {

  /** The normal is too far from vertical: the point is no floor. */
  predicate IsObstacle(normalZ: real, threshold: real) {
    -threshold <= normalZ <= threshold
  }

  /** What being an obstacle means: with the threshold the cosine of the largest slope, a unit normal is
      one exactly if its horizontal part is at least the sine of that slope. */
  lemma ObstacleIsSteep(x: real, y: real, z: real, cosine: real, sine: real)
    requires x * x + y * y + z * z == 1.0 && cosine * cosine + sine * sine == 1.0 && cosine >= 0.0
    ensures IsObstacle(z, cosine) <==> x * x + y * y >= sine * sine
  {
    if z >= 0.0 {
      SquareOrder(z, cosine);
    } else {
      SquareOrder(-z, cosine);
      assert (-z) * (-z) == z * z;
    }
  }

  lemma SquareOrder(a: real, b: real)
    requires a >= 0.0 && b >= 0.0
    ensures a <= b <==> a * a <= b * b
  {
    assert b * b - a * a == (b - a) * (b + a);
    if a < b {
      PositiveProduct(b - a, b + a);
    } else if b < a {
      PositiveProduct(a - b, b + a);
    }
  }

  lemma PositiveProduct(x: real, y: real)
    requires x > 0.0 && y > 0.0
    ensures x * y > 0.0
  {
  }

  /** No slope is steep enough for a negative threshold. */
  lemma NegativeThreshold(z: real, threshold: real)
    requires threshold < 0.0
    ensures !IsObstacle(z, threshold)
  {
  }

  /** The indices in `[lo, hi)` that are kept, in order. */
  function Kept(normals: seq<real>, threshold: real, lo: nat, hi: nat): seq<nat>
    requires lo <= hi <= |normals|
  {
    if lo == hi then []
    else Kept(normals, threshold, lo, hi - 1) + if IsObstacle(normals[hi - 1], threshold) then [hi - 1] else []
  }

  function Pick<P>(cloud: seq<P>, indices: seq<nat>): seq<P>
    requires forall i :: i in indices ==> i < |cloud|
  {
    seq(|indices|, i requires 0 <= i < |indices| => assert indices[i] in indices; cloud[indices[i]])
  }

  lemma {:induction false} KeptExactly(normals: seq<real>, threshold: real, lo: nat, hi: nat)
    requires lo <= hi <= |normals|
    ensures forall i :: i in Kept(normals, threshold, lo, hi) <==>
              lo <= i < hi && normals[i] <= threshold && -threshold <= normals[i]
    ensures forall a, b :: 0 <= a < b < |Kept(normals, threshold, lo, hi)| ==>
              Kept(normals, threshold, lo, hi)[a] < Kept(normals, threshold, lo, hi)[b]
  {
    if lo == hi {
    } else {
      KeptExactly(normals, threshold, lo, hi - 1);
      var before, last := Kept(normals, threshold, lo, hi - 1), hi - 1;
      forall a | 0 <= a < |before| ensures before[a] < last {
        assert before[a] in before;
      }
      forall i ensures i in before + [last] <==> i in before || i == last {
      }
      if IsObstacle(normals[last], threshold) {
        assert Kept(normals, threshold, lo, hi) == before + [last];
      } else {
        assert Kept(normals, threshold, lo, hi) == before;
      }
    }
  }

  lemma {:induction false} KeptSplits(normals: seq<real>, threshold: real, lo: nat, mid: nat, hi: nat)
    requires lo <= mid <= hi <= |normals|
    ensures Kept(normals, threshold, lo, hi) == Kept(normals, threshold, lo, mid) + Kept(normals, threshold, mid, hi)
  {
    if mid == hi {
    } else {
      KeptSplits(normals, threshold, lo, mid, hi - 1);
    }
  }

  /** What is kept of the whole cloud; nothing if it does not match its normals. */
  ghost function Obstacles<P>(cloud: seq<P>, normals: seq<real>, threshold: real): seq<P> {
    if |cloud| != |normals| then []
    else
      KeptExactly(normals, threshold, 0, |cloud|);
      Pick(cloud, Kept(normals, threshold, 0, |cloud|))
  }

  /** The points kept are those at the kept indices, in their order; none if the sizes differ. */
  lemma ObstaclesExactly<P>(cloud: seq<P>, normals: seq<real>, threshold: real)
    ensures |cloud| != |normals| ==> Obstacles(cloud, normals, threshold) == []
    ensures |cloud| == |normals| ==>
              var at, kept := Kept(normals, threshold, 0, |normals|), Obstacles(cloud, normals, threshold);
              && |kept| == |at|
              && forall k :: 0 <= k < |at| ==> at[k] < |cloud| && kept[k] == cloud[at[k]]
  {
    hide Kept;
    if |cloud| == |normals| {
      KeptExactly(normals, threshold, 0, |cloud|);
      var at := Kept(normals, threshold, 0, |cloud|);
      forall k | 0 <= k < |at| ensures at[k] < |cloud| {
        assert at[k] in at;
      }
    }
  }

  method FilterObstacles<P>(cloud: seq<P>, normals: seq<real>, threshold: real) returns (filtered: seq<P>)
    ensures filtered == Obstacles(cloud, normals, threshold)
  {
    filtered := [];
    if |cloud| != |normals| {
      return;
    }
    var i := 0;
    while i < |cloud|
      invariant 0 <= i <= |cloud|
      invariant forall k :: k in Kept(normals, threshold, 0, i) ==> k < |cloud|
      invariant filtered == Pick(cloud, Kept(normals, threshold, 0, i))
    {
      if normals[i] <= threshold && normals[i] >= -threshold {
        filtered := filtered + [cloud[i]];
      }
      i := i + 1;
    }
  }

  // ---------------------------------------------------------------- the ranges

  function RangeStart(size: nat, threads: nat, t: nat): nat
    requires threads > 0
  {
    t * (size / threads)
  }

  function RangeEnd(size: nat, threads: nat, t: nat): nat
    requires threads > 0
  {
    if t == threads - 1 then RangeStart(size, threads, t) + size / threads + size % threads
    else RangeStart(size, threads, t) + size / threads
  }

  /** The ranges start at the first point, each starts where the one before ends, and the last ends
      with the cloud. */
  lemma RangesPartition(size: nat, threads: nat, t: nat)
    requires t < threads
    ensures RangeStart(size, threads, 0) == 0
    ensures RangeStart(size, threads, t) <= RangeEnd(size, threads, t) <= size
    ensures t + 1 < threads ==> RangeEnd(size, threads, t) == RangeStart(size, threads, t + 1)
    ensures t + 1 == threads ==> RangeEnd(size, threads, t) == size
  {
    var each := size / threads;
    assert size == each * threads + size % threads;
    assert (t + 1) * each == t * each + each;
    Monotone(t + 1, threads, each);
  }

  lemma Monotone(a: nat, b: nat, c: nat)
    requires a <= b
    ensures a * c <= b * c
  {
  }

  // ---------------------------------------------------------------- the threads

  /** Where thread `t` has got to and what it has collected. */
  datatype Progress = Progress(next: nat, found: seq<nat>)

  function Begin(size: nat, threads: nat): seq<Progress>
    requires threads > 0
  {
    seq(threads, t requires 0 <= t < threads => Progress(RangeStart(size, threads, t), []))
  }

  /** One loop iteration of thread `t`; a thread at its end does nothing. */
  function Step(normals: seq<real>, threshold: real, threads: nat, s: seq<Progress>, t: nat): seq<Progress>
    requires |s| == threads && t < threads
  {
    var p := s[t];
    if p.next < RangeEnd(|normals|, threads, t) && p.next < |normals| then
      s[t := Progress(p.next + 1, if IsObstacle(normals[p.next], threshold) then p.found + [p.next] else p.found)]
    else s
  }

  /** The threads after they have moved in the order of `schedule`. */
  function Scheduled(normals: seq<real>, threshold: real, threads: nat, schedule: seq<nat>): (r: seq<Progress>)
    requires threads > 0 && forall k :: 0 <= k < |schedule| ==> schedule[k] < threads
    ensures |r| == threads
  {
    if schedule == [] then Begin(|normals|, threads)
    else
      Step(normals, threshold, threads, Scheduled(normals, threshold, threads, schedule[..|schedule| - 1]),
           schedule[|schedule| - 1])
  }

  predicate Done(size: nat, s: seq<Progress>) {
    forall t :: 0 <= t < |s| ==> s[t].next == RangeEnd(size, |s|, t)
  }

  ghost predicate OnCourse(normals: seq<real>, threshold: real, threads: nat, t: nat, p: Progress)
    requires t < threads
  {
    && RangeStart(|normals|, threads, t) <= p.next <= RangeEnd(|normals|, threads, t) <= |normals|
    && p.found == Kept(normals, threshold, RangeStart(|normals|, threads, t), p.next)
  }

  lemma StepStaysOnCourse(normals: seq<real>, threshold: real, threads: nat, s: seq<Progress>, t: nat, k: nat)
    requires |s| == threads && t < threads && k < threads
    requires OnCourse(normals, threshold, threads, t, s[t]) && OnCourse(normals, threshold, threads, k, s[k])
    ensures OnCourse(normals, threshold, threads, k, Step(normals, threshold, threads, s, t)[k])
  {
    hide RangeStart, RangeEnd, IsObstacle;
  }

  lemma {:induction false} StaysOnCourse(normals: seq<real>, threshold: real, threads: nat, schedule: seq<nat>)
    requires threads > 0 && forall k :: 0 <= k < |schedule| ==> schedule[k] < threads
    ensures forall t :: 0 <= t < threads ==>
              OnCourse(normals, threshold, threads, t, Scheduled(normals, threshold, threads, schedule)[t])
  {
    hide OnCourse, Step;
    if schedule == [] {
      forall t | 0 <= t < threads
        ensures OnCourse(normals, threshold, threads, t, Begin(|normals|, threads)[t])
      {
        StartsOnCourse(normals, threshold, threads, t);
      }
    } else {
      var init, t := schedule[..|schedule| - 1], schedule[|schedule| - 1];
      StaysOnCourse(normals, threshold, threads, init);
      forall k | 0 <= k < threads
        ensures OnCourse(normals, threshold, threads, k, Scheduled(normals, threshold, threads, schedule)[k])
      {
        StepStaysOnCourse(normals, threshold, threads, Scheduled(normals, threshold, threads, init), t, k);
      }
    }
  }

  lemma StartsOnCourse(normals: seq<real>, threshold: real, threads: nat, t: nat)
    requires t < threads
    ensures OnCourse(normals, threshold, threads, t, Begin(|normals|, threads)[t])
  {
    RangesPartition(|normals|, threads, t);
  }

  /** What the first `n` threads have collected, one after the other. */
  function Merged(s: seq<Progress>, n: nat): seq<nat>
    requires n <= |s|
  {
    if n == 0 then [] else Merged(s, n - 1) + s[n - 1].found
  }

  lemma MergedStep(normals: seq<real>, threshold: real, s: seq<Progress>, n: nat, start: nat, end: nat)
    requires 0 < n <= |s| && start <= end <= |normals|
    requires Merged(s, n - 1) == Kept(normals, threshold, 0, start)
    requires s[n - 1].found == Kept(normals, threshold, start, end)
    ensures Merged(s, n) == Kept(normals, threshold, 0, end)
  {
    hide Kept;
    KeptSplits(normals, threshold, 0, start, end);
  }

  lemma DoneThread(normals: seq<real>, threshold: real, s: seq<Progress>, t: nat)
    requires t < |s| && Done(|normals|, s) && OnCourse(normals, threshold, |s|, t, s[t])
    ensures RangeStart(|normals|, |s|, t) <= RangeEnd(|normals|, |s|, t) <= |normals|
    ensures s[t].found == Kept(normals, threshold, RangeStart(|normals|, |s|, t), RangeEnd(|normals|, |s|, t))
  {
    hide RangeStart, RangeEnd, Kept;
  }

  lemma {:induction false} MergedIsKept(normals: seq<real>, threshold: real, s: seq<Progress>, n: nat)
    requires 0 < |s| && n <= |s| && Done(|normals|, s)
    requires forall t :: 0 <= t < |s| ==> OnCourse(normals, threshold, |s|, t, s[t])
    ensures var end := if n == 0 then 0 else RangeEnd(|normals|, |s|, n - 1);
            end <= |normals| && Merged(s, n) == Kept(normals, threshold, 0, end)
  {
    if n == 0 {
    } else {
      MergedIsKept(normals, threshold, s, n - 1);
      hide RangeEnd, RangeStart, Kept, Merged, OnCourse, Done;
      RangesPartition(|normals|, |s|, n - 1);
      if n > 1 {
        RangesPartition(|normals|, |s|, n - 2);
      }
      DoneThread(normals, threshold, s, n - 1);
      MergedStep(normals, threshold, s, n, RangeStart(|normals|, |s|, n - 1), RangeEnd(|normals|, |s|, n - 1));
    }
  }

  /** However the threads are interleaved, once all are done the merged indices are those of the
      single pass, in its order. */
  lemma AnyScheduleMatches(normals: seq<real>, threshold: real, threads: nat, schedule: seq<nat>)
    requires threads > 0 && forall k :: 0 <= k < |schedule| ==> schedule[k] < threads
    requires Done(|normals|, Scheduled(normals, threshold, threads, schedule))
    ensures Merged(Scheduled(normals, threshold, threads, schedule), threads) ==
              Kept(normals, threshold, 0, |normals|)
  {
    hide Scheduled, OnCourse, Done, Merged;
    StaysOnCourse(normals, threshold, threads, schedule);
    MergedIsKept(normals, threshold, Scheduled(normals, threshold, threads, schedule), threads);
    RangesPartition(|normals|, threads, threads - 1);
  }

  // ---------------------------------------------------------------- the parallel form

  method ThreadRange(normals: seq<real>, threshold: real, start: nat, end: nat) returns (found: seq<nat>)
    requires start <= end <= |normals|
    ensures found == Kept(normals, threshold, start, end)
  {
    found := [];
    var i := start;
    while i < end
      invariant start <= i <= end
      invariant found == Kept(normals, threshold, start, i)
    {
      if normals[i] <= threshold && normals[i] >= -threshold {
        found := found + [i];
      }
      i := i + 1;
    }
  }

  /** The threads' results, one list per thread. */
  method RunThreads(normals: seq<real>, threshold: real, threads: nat) returns (results: seq<seq<nat>>)
    requires threads > 0
    ensures |results| == threads
    ensures Flatten(results) == Kept(normals, threshold, 0, |normals|)
  {
    hide RangeStart, RangeEnd;
    results := [];
    var each, remainder := |normals| / threads, |normals| % threads;
    var t := 0;
    RangesPartition(|normals|, threads, 0);
    ghost var end := 0;
    while t < threads
      invariant 0 <= t == |results| <= threads && end <= |normals|
      invariant end == if t < threads then RangeStart(|normals|, threads, t) else |normals|
      invariant Flatten(results) == Kept(normals, threshold, 0, end)
    {
      RangesPartition(|normals|, threads, t);
      RangeIsSlice(|normals|, threads, t);
      var start := t * each;
      var stop := if t == threads - 1 then start + each + remainder else start + each;
      var found := ThreadRange(normals, threshold, start, stop);
      KeptSplits(normals, threshold, 0, start, stop);
      assert (results + [found])[..|results|] == results;
      results := results + [found];
      end := stop;
      t := t + 1;
    }
  }

  lemma RangeIsSlice(size: nat, threads: nat, t: nat)
    requires threads > 0
    ensures RangeStart(size, threads, t) == t * (size / threads)
    ensures RangeEnd(size, threads, t) ==
              t * (size / threads) + size / threads + if t == threads - 1 then size % threads else 0
  {
  }

  function Flatten(lists: seq<seq<nat>>): seq<nat> {
    if lists == [] then [] else Flatten(lists[..|lists| - 1]) + lists[|lists| - 1]
  }

  method Merge<P>(cloud: seq<P>, results: seq<seq<nat>>) returns (merged: seq<P>)
    requires forall i :: i in Flatten(results) ==> i < |cloud|
    ensures merged == Pick(cloud, Flatten(results))
  {
    merged := [];
    var t := 0;
    while t < |results|
      invariant 0 <= t <= |results|
      invariant forall i :: i in Flatten(results[..t]) ==> i < |cloud|
      invariant merged == Pick(cloud, Flatten(results[..t]))
    {
      assert results[..t + 1][..t] == results[..t];
      FlattenContains(results, t + 1);
      var result := results[t];
      var k := 0;
      while k < |result|
        invariant 0 <= k <= |result|
        invariant forall i :: i in Flatten(results[..t]) + result[..k] ==> i < |cloud|
        invariant merged == Pick(cloud, Flatten(results[..t]) + result[..k])
      {
        assert result[k] in Flatten(results[..t + 1]);
        merged := merged + [cloud[result[k]]];
        assert Flatten(results[..t]) + result[..k + 1] == (Flatten(results[..t]) + result[..k]) + [result[k]];
        k := k + 1;
      }
      assert result[..k] == result;
      t := t + 1;
    }
    assert results[..t] == results;
  }

  lemma {:induction false} FlattenContains(results: seq<seq<nat>>, n: nat)
    requires n <= |results|
    ensures forall i :: i in Flatten(results[..n]) ==> i in Flatten(results)
    decreases |results| - n
  {
    if n < |results| {
      FlattenContains(results, n + 1);
      assert results[..n + 1][..n] == results[..n];
    } else {
      assert results[..n] == results;
    }
  }

  /** For every cloud and thread count: what the sequential filter returns. */
  method FilterObstaclesParallel<P>(cloud: seq<P>, normals: seq<real>, threshold: real, requested: int, cores: nat)
    returns (filtered: seq<P>)
    ensures filtered == Obstacles(cloud, normals, threshold)
  {
    if |cloud| != |normals| {
      return [];
    }
    var threads := requested;
    if cores == 0 {
      threads := 1;
    } else if requested <= 0 {
      threads := 1;
    } else if requested > cores {
      threads := cores;
    }
    if threads == 1 {
      filtered := FilterObstacles(cloud, normals, threshold);
      return;
    }
    var results := RunThreads(normals, threshold, threads);
    KeptExactly(normals, threshold, 0, |cloud|);
    filtered := Merge(cloud, results);
  }
}
