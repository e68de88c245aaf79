/**
 The CPU history of web/service/server.go: a bounded list with one sample per second, and its
 averages over buckets of time.
 */
module CpuHistory {
  import opened Division

  datatype Sample = Sample(t: int, cpu: real)

  const CAPACITY := 9000

  // ---- history ------------------------------------------------------------------------------------

  /** The last n elements. */
  function LastN<T>(s: seq<T>, n: nat): seq<T> {
    if |s| > n then s[|s| - n..] else s
  }

  /** A sample of the same second as the one before replaces it. */
  function Put(h: seq<Sample>, p: Sample): seq<Sample> {
    if h != [] && h[|h| - 1].t == p.t then h[|h| - 1 := p] else h + [p]
  }

  function Collapsed(samples: seq<Sample>): seq<Sample> {
    if samples == [] then [] else Put(Collapsed(samples[..|samples| - 1]), samples[|samples| - 1])
  }

  /** The history after appending `samples` one by one to an empty one. */
  function History(samples: seq<Sample>): seq<Sample> {
    if samples == [] then []
    else LastN(Put(History(samples[..|samples| - 1]), samples[|samples| - 1]), CAPACITY)
  }

  /** The bounded list is at all times the end of the unbounded one. */
  lemma {:induction false} HistoryIsWindow(samples: seq<Sample>)
    ensures History(samples) == LastN(Collapsed(samples), 9000)
    ensures samples != [] ==>
              Collapsed(samples) != [] && Collapsed(samples)[|Collapsed(samples)| - 1] == samples[|samples| - 1]
  {
    if samples != [] {
      var front, p := samples[..|samples| - 1], samples[|samples| - 1];
      HistoryIsWindow(front);
      PutInWindow(Collapsed(front), p);
    }
  }

  lemma HistoryStep(samples: seq<Sample>, p: Sample)
    ensures History(samples + [p]) == LastN(Put(History(samples), p), CAPACITY)
  {
    assert (samples + [p])[..|samples|] == samples;
  }

  lemma PutInWindow(c: seq<Sample>, p: Sample)
    ensures LastN(Put(LastN(c, CAPACITY), p), CAPACITY) == LastN(Put(c, p), CAPACITY)
  {
    var h := LastN(c, CAPACITY);
    if c != [] {
      assert h[|h| - 1] == c[|c| - 1];
    }
  }

  ghost predicate Monotone(samples: seq<Sample>) {
    forall i, j :: 0 <= i < j < |samples| ==> samples[i].t <= samples[j].t
  }

  ghost predicate Increasing(h: seq<Sample>) {
    forall i, j :: 0 <= i < j < |h| ==> h[i].t < h[j].t
  }

  lemma {:induction false} CollapsedIncreases(samples: seq<Sample>)
    requires Monotone(samples)
    ensures Increasing(Collapsed(samples))
  {
    if samples != [] {
      var front := samples[..|samples| - 1];
      CollapsedIncreases(front);
      HistoryIsWindow(front);
      if front != [] {
        assert samples[|front| - 1].t <= samples[|front|].t;
      }
      PutIncreases(Collapsed(front), samples[|samples| - 1]);
    }
  }

  lemma PutIncreases(h: seq<Sample>, p: Sample)
    requires Increasing(h) && (h != [] ==> h[|h| - 1].t <= p.t)
    ensures Increasing(Put(h, p))
  {
  }

  /** Under a clock that does not go back the history is strictly increasing in time and never longer
      than its capacity. */
  lemma HistoryIncreases(samples: seq<Sample>)
    requires Monotone(samples)
    ensures Increasing(History(samples)) && |History(samples)| <= 9000
  {
    CollapsedIncreases(samples);
    HistoryIsWindow(samples);
  }

  // ---- buckets ------------------------------------------------------------------------------------

  /** Go's division, which drops the fraction. */
  function Quotient(t: int, size: int): int
    requires size > 0
  {
    if t >= 0 then t / size else -(-t / size)
  }

  function BucketOf(t: int, size: int): int
    requires size > 0
  {
    Quotient(t, size) * size
  }

  datatype Point = Point(t: int, cpu: real)

  function Sum(acc: seq<Sample>): real {
    if acc == [] then 0.0 else Sum(acc[..|acc| - 1]) + acc[|acc| - 1].cpu
  }

  function Mean(acc: seq<Sample>): real
    requires acc != []
  {
    Sum(acc) / |acc| as real
  }

  /** The samples of one bucket, in order. */
  function InBucket(h: seq<Sample>, size: int, b: int): seq<Sample>
    requires size > 0
  {
    if h == [] then []
    else InBucket(h[..|h| - 1], size, b) + if BucketOf(h[|h| - 1].t, size) == b then [h[|h| - 1]] else []
  }

  ghost predicate InOrder(out: seq<Point>) {
    forall i, j :: 0 <= i < j < |out| ==> out[i].t < out[j].t
  }

  ghost predicate IsMean(x: Point, h: seq<Sample>, size: int)
    requires size > 0
  {
    InBucket(h, size, x.t) != [] && x.cpu == Mean(InBucket(h, size, x.t))
  }

  predicate HasTime(out: seq<Point>, t: int) {
    exists i :: 0 <= i < |out| && out[i].t == t
  }

  /** What the points of a history are: one for each bucket that has samples, in order of time, with
      the mean of exactly those samples. */
  ghost predicate Averages(out: seq<Point>, h: seq<Sample>, size: int)
    requires size > 0
  {
    && InOrder(out)
    && (forall i :: 0 <= i < |out| ==> IsMean(out[i], h, size))
    && (forall k :: 0 <= k < |h| ==> HasTime(out, BucketOf(h[k].t, size)))
  }

  lemma QuotientMonotone(a: int, b: int, size: int)
    requires size > 0 && a <= b
    ensures Quotient(a, size) <= Quotient(b, size)
  {
    if a >= 0 {
      DivMonotone(a, b, size);
    } else if b < 0 {
      DivMonotone(-b, -a, size);
    } else {
      DivMonotone(0, -a, size);
      DivMonotone(0, b, size);
    }
  }

  lemma DivMonotone(a: nat, b: nat, size: int)
    requires size > 0 && a <= b
    ensures 0 <= a / size <= b / size
  {
    var p, q := a / size, b / size;
    assert a == p * size + a % size && b == q * size + b % size;
    if q < p {
      MulLess(q, p, size);
    }
  }

  lemma BucketMonotone(a: int, b: int, size: int)
    requires size > 0 && a <= b
    ensures BucketOf(a, size) <= BucketOf(b, size)
  {
    QuotientMonotone(a, b, size);
    MulMonotone(Quotient(a, size), Quotient(b, size), size);
  }

  lemma MulMonotone(p: int, q: int, size: int)
    requires p <= q && size > 0
    ensures p * size <= q * size
  {
    assert (q - p) * size >= 0;
  }

  lemma {:induction false} InBucketMembers(h: seq<Sample>, size: int, b: int, k: nat)
    requires size > 0 && k < |h| && BucketOf(h[k].t, size) == b
    ensures h[k] in InBucket(h, size, b)
  {
    if k < |h| - 1 {
      InBucketMembers(h[..|h| - 1], size, b, k);
    }
  }

  lemma {:induction false} InBucketSound(h: seq<Sample>, size: int, b: int, x: Sample)
    requires size > 0 && x in InBucket(h, size, b)
    ensures exists k :: 0 <= k < |h| && h[k] == x && BucketOf(x.t, size) == b
  {
    var front, last := h[..|h| - 1], h[|h| - 1];
    if x in InBucket(front, size, b) {
      InBucketSound(front, size, b, x);
      var k :| 0 <= k < |front| && front[k] == x && BucketOf(x.t, size) == b;
      assert h[k] == x;
    } else {
      assert h[|h| - 1] == x;
    }
  }

  /** A bucket's list holds exactly the samples whose time falls in it. */
  lemma InBucketHolds(h: seq<Sample>, size: int, b: int, x: Sample)
    requires size > 0
    ensures x in InBucket(h, size, b) <==> x in h && BucketOf(x.t, size) == b
  {
    if x in InBucket(h, size, b) {
      InBucketSound(h, size, b, x);
    }
    if x in h && BucketOf(x.t, size) == b {
      var k :| 0 <= k < |h| && h[k] == x;
      InBucketMembers(h, size, b, k);
    }
  }

  /** The points are determined by the samples: times are the buckets in use, each once. */
  lemma AveragesUnique(out: seq<Point>, other: seq<Point>, h: seq<Sample>, size: int)
    requires size > 0 && Averages(out, h, size) && Averages(other, h, size)
    ensures out == other
  {
    SameTimes(out, other, h, size);
    SameTimes(other, out, h, size);
    SortedOnce(out, other);
  }

  lemma SameTimes(out: seq<Point>, other: seq<Point>, h: seq<Sample>, size: int)
    requires size > 0 && Averages(out, h, size) && Averages(other, h, size)
    ensures Within(out, other)
  {
    forall i | 0 <= i < |out| ensures out[i] in other {
      assert IsMean(out[i], h, size);
      var x := InBucket(h, size, out[i].t)[0];
      InBucketSound(h, size, out[i].t, x);
      var k :| 0 <= k < |h| && h[k] == x && BucketOf(x.t, size) == out[i].t;
      assert HasTime(other, BucketOf(h[k].t, size));
      var j :| 0 <= j < |other| && other[j].t == BucketOf(h[k].t, size);
      assert IsMean(out[i], h, size) && IsMean(other[j], h, size);
      assert other[j] == out[i];
    }
  }

  ghost predicate Within(a: seq<Point>, b: seq<Point>) {
    forall i :: 0 <= i < |a| ==> a[i] in b
  }

  lemma SameHead(a: seq<Point>, b: seq<Point>)
    requires InOrder(a) && InOrder(b) && Within(a, b) && Within(b, a) && a != [] && b != []
    ensures a[0] == b[0]
  {
    var j :| 0 <= j < |b| && b[j] == a[0];
    var i :| 0 <= i < |a| && a[i] == b[0];
  }

  lemma WithinEmpty(a: seq<Point>, b: seq<Point>)
    requires Within(a, b)
    ensures a != [] ==> b != []
  {
    if a != [] { assert a[0] in b; }
  }

  lemma TailWithin(a: seq<Point>, b: seq<Point>)
    requires InOrder(a) && Within(a, b) && a != [] && b != [] && a[0] == b[0]
    ensures Within(a[1..], b[1..])
  {
    forall k | 0 <= k < |a| - 1 ensures a[1..][k] in b[1..] {
      var j :| 0 <= j < |b| && b[j] == a[k + 1];
      assert j > 0 && b[1..][j - 1] == a[1..][k];
    }
  }

  lemma {:induction false} SortedOnce(a: seq<Point>, b: seq<Point>)
    requires InOrder(a) && InOrder(b) && Within(a, b) && Within(b, a)
    ensures a == b
  {
    WithinEmpty(a, b);
    WithinEmpty(b, a);
    if a != [] {
      SameHead(a, b);
      TailWithin(a, b);
      TailWithin(b, a);
      SortedOnce(a[1..], b[1..]);
    }
  }

  /** A point stands for a sample: its time is that sample's bucket. */
  lemma PointHasSample(out: seq<Point>, h: seq<Sample>, size: int, i: nat) returns (k: nat)
    requires size > 0 && Averages(out, h, size) && i < |out|
    ensures k < |h| && out[i].t == BucketOf(h[k].t, size)
  {
    assert IsMean(out[i], h, size);
    var x := InBucket(h, size, out[i].t)[0];
    InBucketSound(h, size, out[i].t, x);
    k :| 0 <= k < |h| && h[k] == x && BucketOf(x.t, size) == out[i].t;
  }

  lemma BucketGap(a: int, b: int, size: int)
    requires size > 0 && BucketOf(a, size) < BucketOf(b, size)
    ensures BucketOf(a, size) + size <= BucketOf(b, size)
  {
    var p, q := Quotient(a, size), Quotient(b, size);
    if q < p + 1 {
      MulMonotone(q, p, size);
    } else {
      MulMonotone(p + 1, q, size);
      assert (p + 1) * size == p * size + size;
    }
  }

  lemma BucketNear(t: nat, size: int)
    requires size > 0
    ensures t - size < BucketOf(t, size) <= t
  {
    assert t == (t / size) * size + t % size;
  }

  lemma {:induction false} PointsSpread(out: seq<Point>, h: seq<Sample>, size: int, n: nat)
    requires size > 0 && Averages(out, h, size) && n < |out|
    ensures out[n].t >= out[0].t + n * size
  {
    if n > 0 {
      PointsSpread(out, h, size, n - 1);
      var j := PointHasSample(out, h, size, n - 1);
      var k := PointHasSample(out, h, size, n);
      assert out[n - 1].t < out[n].t;
      BucketGap(h[j].t, h[k].t, size);
      assert n * size == (n - 1) * size + size;
    }
  }

  /** Samples of the last maxPoints buckets' worth of time fall into at most one bucket more, so the
      final cut drops at most one point. */
  lemma AtMostOneDropped(out: seq<Point>, h: seq<Sample>, size: int, maxPoints: int, now: int)
    requires size > 0 && maxPoints > 0 && Averages(out, h, size)
    requires forall k :: 0 <= k < |h| ==> h[k].t >= 0 && now - size * maxPoints <= h[k].t <= now
    ensures |out| <= maxPoints + 1
  {
    if out != [] {
      var n := |out| - 1;
      var j := PointHasSample(out, h, size, 0);
      var k := PointHasSample(out, h, size, n);
      BucketNear(h[j].t, size);
      BucketNear(h[k].t, size);
      PointsSpread(out, h, size, n);
      assert n * size < size * maxPoints + size == (maxPoints + 1) * size;
      if maxPoints + 1 <= n {
        MulMonotone(maxPoints + 1, n, size);
      }
    }
  }

  // ---- the service --------------------------------------------------------------------------------

  class ServerService {
    var cpuHistory: seq<Sample>

    constructor ()
      ensures cpuHistory == History([])
    {
      cpuHistory := [];
    }

    method AppendCpuSample(t: int, v: real, ghost samples: seq<Sample>)
      requires cpuHistory == History(samples)
      modifies this
      ensures cpuHistory == History(samples + [Sample(t, v)])
    {
      HistoryStep(samples, Sample(t, v));
      var p := Sample(t, v);
      var n := |cpuHistory|;
      if n > 0 && cpuHistory[n - 1].t == p.t {
        cpuHistory := cpuHistory[n - 1 := p];
      } else {
        cpuHistory := cpuHistory + [p];
      }
      if |cpuHistory| > CAPACITY {
        cpuHistory := cpuHistory[|cpuHistory| - CAPACITY..];
      }
    }

    /** The last maxPoints points of the recent samples. */
    method AggregateCpuHistory(now: int, bucketSeconds: int, maxPoints: int) returns (out: seq<Point>)
      ensures bucketSeconds <= 0 || maxPoints <= 0 ==> out == []
      ensures bucketSeconds > 0 && maxPoints > 0 ==>
                out == LastN(Aggregated(cpuHistory, Cutoff(now, bucketSeconds, maxPoints), bucketSeconds), maxPoints)
    {
      if bucketSeconds <= 0 || maxPoints <= 0 {
        return [];
      }
      hide Cutoff;
      var cutoff := Cutoff(now, bucketSeconds, maxPoints);
      var tmp := Since(cutoff);
      if |tmp| == 0 {
        return [];
      }
      out := Buckets(tmp, bucketSeconds);
      hide Points;
      hide Runs;
      hide Recent;
      if |out| > maxPoints {
        out := out[|out| - maxPoints..];
      }
    }

    /** The scan from the end for the last sample before the cutoff. */
    method Since(cutoff: int) returns (tmp: seq<Sample>)
      ensures tmp == Recent(cpuHistory, cutoff)
    {
      var startIdx := 0;
      var i := |cpuHistory| - 1;
      while i >= 0
        invariant -1 <= i < |cpuHistory| && startIdx == 0
        invariant forall k :: i < k < |cpuHistory| ==> cpuHistory[k].t >= cutoff
      {
        if cpuHistory[i].t < cutoff {
          startIdx := i + 1;
          break;
        }
        i := i - 1;
      }
      RecentIsSuffix(cpuHistory, cutoff, startIdx);
      tmp := cpuHistory[startIdx..];
    }
  }

  /** As far back as maxPoints buckets reach. */
  function Cutoff(now: int, bucketSeconds: int, maxPoints: int): int {
    now - bucketSeconds * maxPoints
  }

  function Aggregated(h: seq<Sample>, cutoff: int, size: int): seq<Point>
    requires size > 0
  {
    Points(Runs(Recent(h, cutoff), size))
  }

  /** On a history that increases in time, the points are the means, bucket by bucket, of exactly the
      samples at or after the cutoff. */
  lemma AggregatedAreAverages(h: seq<Sample>, cutoff: int, size: int)
    requires size > 0 && Increasing(h)
    ensures Averages(Aggregated(h, cutoff, size), Recent(h, cutoff), size)
    ensures forall x :: x in Recent(h, cutoff) <==> x in h && x.t >= cutoff
  {
    RecentIncreases(h, cutoff);
    RunsAverage(Recent(h, cutoff), size);
  }

  /** What AggregateCpuHistory returns for a history that increases in time and ends by `now`: the means,
      bucket by bucket in order of time, of exactly the samples of the last bucketSeconds * maxPoints
      seconds, but for the oldest bucket when they fall into one too many. */
  lemma AggregationIs(h: seq<Sample>, now: int, bucketSeconds: int, maxPoints: int)
    returns (recent: seq<Sample>, all: seq<Point>)
    requires bucketSeconds > 0 && maxPoints > 0 && Increasing(h)
    requires forall k :: 0 <= k < |h| ==> 0 <= h[k].t <= now
    ensures Increasing(recent) && forall x :: x in recent <==> x in h && x.t >= now - bucketSeconds * maxPoints
    ensures Averages(all, recent, bucketSeconds) && |all| <= maxPoints + 1
    ensures LastN(Aggregated(h, Cutoff(now, bucketSeconds, maxPoints), bucketSeconds), maxPoints)
            == if |all| == maxPoints + 1 then all[1..] else all
  {
    var cutoff := Cutoff(now, bucketSeconds, maxPoints);
    recent := Recent(h, cutoff);
    all := Aggregated(h, cutoff, bucketSeconds);
    AggregatedAreAverages(h, cutoff, bucketSeconds);
    RecentIncreases(h, cutoff);
    forall k | 0 <= k < |recent| ensures recent[k].t >= 0 && cutoff <= recent[k].t <= now {
      assert recent[k] in recent;
    }
    hide Recent;
    hide Aggregated;
    hide Averages;
    AtMostOneDropped(all, recent, bucketSeconds, maxPoints, now);
  }

  /** The samples after the last one that is before the cutoff. */
  function Recent(h: seq<Sample>, cutoff: int): seq<Sample> {
    if h == [] || h[|h| - 1].t < cutoff then [] else Recent(h[..|h| - 1], cutoff) + [h[|h| - 1]]
  }

  lemma {:induction false} RecentIsSuffix(h: seq<Sample>, cutoff: int, start: nat)
    requires start <= |h| && (start > 0 ==> h[start - 1].t < cutoff)
    requires forall k :: start <= k < |h| ==> h[k].t >= cutoff
    ensures Recent(h, cutoff) == h[start..]
  {
    if start < |h| {
      RecentIsSuffix(h[..|h| - 1], cutoff, start);
      assert h[start..] == h[..|h| - 1][start..] + [h[|h| - 1]];
    }
  }

  /** On a history that increases in time, these are the samples at or after the cutoff. */
  lemma {:induction false} RecentIncreases(h: seq<Sample>, cutoff: int)
    ensures Increasing(h) ==> Increasing(Recent(h, cutoff))
    ensures Increasing(h) ==> forall x :: x in Recent(h, cutoff) <==> x in h && x.t >= cutoff
  {
    if Increasing(h) {
      var start := 0;
      while start < |h| && h[start].t < cutoff
        invariant start <= |h| && forall k :: 0 <= k < start ==> h[k].t < cutoff
      {
        start := start + 1;
      }
      forall k | start <= k < |h| ensures h[k].t >= cutoff {
        assert start < |h| && h[start].t >= cutoff && h[start].t <= h[k].t;
      }
      RecentIsSuffix(h, cutoff, start);
      forall x | x in h && x.t >= cutoff ensures x in h[start..] {
        var k :| 0 <= k < |h| && h[k] == x;
        assert h[start..][k - start] == x;
      }
    }
  }

  method Average(acc: seq<Sample>) returns (avg: real)
    requires acc != []
    ensures avg == Mean(acc)
  {
    var sum := 0.0;
    for i := 0 to |acc|
      invariant sum == Sum(acc[..i])
    {
      assert acc[..i + 1][..i] == acc[..i];
      sum := sum + acc[i].cpu;
    }
    assert acc[..|acc|] == acc;
    avg := sum / |acc| as real;
  }

  lemma {:induction false} LaterBucketIsEmpty(h: seq<Sample>, size: int, b: int)
    requires size > 0 && forall k :: 0 <= k < |h| ==> BucketOf(h[k].t, size) < b
    ensures InBucket(h, size, b) == []
  {
    if h != [] {
      LaterBucketIsEmpty(h[..|h| - 1], size, b);
    }
  }

  /** Everything before the current bucket is out; the current one is in acc. */
  ghost predicate Collected(out: seq<Point>, acc: seq<Sample>, cur: int, h: seq<Sample>, size: int)
    requires size > 0
  {
    && acc == InBucket(h, size, cur)
    && InOrder(out) && (forall i :: 0 <= i < |out| ==> out[i].t < cur && IsMean(out[i], h, size))
    && (forall k :: 0 <= k < |h| ==> BucketOf(h[k].t, size) == cur || HasTime(out, BucketOf(h[k].t, size)))
  }

  lemma InBucketOneMore(h: seq<Sample>, p: Sample, size: int, b: int)
    requires size > 0
    ensures InBucket(h + [p], size, b) == InBucket(h, size, b) + if BucketOf(p.t, size) == b then [p] else []
  {
    assert (h + [p])[..|h|] == h;
  }

  /** A sample of another bucket does not change a mean. */
  lemma MeanStays(x: Point, h: seq<Sample>, p: Sample, size: int)
    requires size > 0 && IsMean(x, h, size) && BucketOf(p.t, size) != x.t
    ensures IsMean(x, h + [p], size)
  {
    InBucketOneMore(h, p, size, x.t);
    assert InBucket(h, size, x.t) + [] == InBucket(h, size, x.t);
  }

  /** One more sample, in the bucket of the one before. */
  lemma SameBucket(out: seq<Point>, acc: seq<Sample>, cur: int, h: seq<Sample>, size: int, p: Sample)
    requires size > 0 && Collected(out, acc, cur, h, size) && BucketOf(p.t, size) == cur
    ensures Collected(out, acc + [p], cur, h + [p], size)
  {
    InBucketOneMore(h, p, size, cur);
    forall i | 0 <= i < |out| ensures IsMean(out[i], h + [p], size) {
      MeanStays(out[i], h, p, size);
    }
    forall k | 0 <= k < |h + [p]|
      ensures BucketOf((h + [p])[k].t, size) == cur || HasTime(out, BucketOf((h + [p])[k].t, size))
    {
      assert k < |h| ==> (h + [p])[k] == h[k];
    }
  }

  /** The current bucket goes out. */
  lemma Flushed(out: seq<Point>, acc: seq<Sample>, cur: int, h: seq<Sample>, size: int)
    requires size > 0 && Collected(out, acc, cur, h, size) && acc != []
    ensures Averages(out + [Point(cur, Mean(acc))], h, size)
    ensures forall i :: 0 <= i <= |out| ==> (out + [Point(cur, Mean(acc))])[i].t <= cur
  {
    var points := out + [Point(cur, Mean(acc))];
    assert points[|out|].t == cur && IsMean(points[|out|], h, size);
    forall k | 0 <= k < |h| ensures HasTime(points, BucketOf(h[k].t, size)) {
      if BucketOf(h[k].t, size) != cur {
        var i :| 0 <= i < |out| && out[i].t == BucketOf(h[k].t, size);
        assert points[i].t == out[i].t;
      }
    }
  }

  /** One more sample, in a later bucket. */
  lemma NextBucket(points: seq<Point>, cur: int, h: seq<Sample>, size: int, p: Sample)
    requires size > 0 && Averages(points, h, size) && BucketOf(p.t, size) > cur
    requires forall i :: 0 <= i < |points| ==> points[i].t <= cur
    ensures Collected(points, [p], BucketOf(p.t, size), h + [p], size)
  {
    var b := BucketOf(p.t, size);
    forall k | 0 <= k < |h| ensures BucketOf(h[k].t, size) < b {
      assert HasTime(points, BucketOf(h[k].t, size));
    }
    LaterBucketIsEmpty(h, size, b);
    InBucketOneMore(h, p, size, b);
    assert InBucket(h + [p], size, b) == [p];
    forall i | 0 <= i < |points| ensures IsMean(points[i], h + [p], size) {
      MeanStays(points[i], h, p, size);
    }
    forall k | 0 <= k < |h + [p]|
      ensures BucketOf((h + [p])[k].t, size) == b || HasTime(points, BucketOf((h + [p])[k].t, size))
    {
      assert k < |h| ==> (h + [p])[k] == h[k];
    }
  }

  // ---- runs of samples in one bucket ----------------------------------------------------------

  datatype AnyRun = Run(bucket: int, samples: seq<Sample>)

  type Run = r: AnyRun | r.samples != [] witness Run(0, [Sample(0, 0.0)])

  function Longer(r: Run, p: Sample): Run {
    r.(samples := r.samples + [p])
  }

  /** What the loop makes of any list: a new run whenever the bucket changes. */
  function Runs(h: seq<Sample>, size: int): (r: seq<Run>)
    requires size > 0
    ensures h != [] ==> r != [] && r[|r| - 1].bucket == BucketOf(h[|h| - 1].t, size)
  {
    if h == [] then []
    else
      var before, p := Runs(h[..|h| - 1], size), h[|h| - 1];
      var n := |before|;
      if n > 0 && before[n - 1].bucket == BucketOf(p.t, size)
      then before[..n - 1] + [Longer(before[n - 1], p)]
      else before + [Run(BucketOf(p.t, size), [p])]
  }

  function PointOf(r: Run): Point {
    Point(r.bucket, Mean(r.samples))
  }

  function Points(rs: seq<Run>): seq<Point> {
    if rs == [] then [] else Points(rs[..|rs| - 1]) + [PointOf(rs[|rs| - 1])]
  }

  function AllSamples(rs: seq<Run>): seq<Sample> {
    if rs == [] then [] else AllSamples(rs[..|rs| - 1]) + rs[|rs| - 1].samples
  }

  lemma PointsSnoc(rs: seq<Run>, x: Run)
    ensures Points(rs + [x]) == Points(rs) + [PointOf(x)]
  {
    assert (rs + [x])[..|rs|] == rs;
  }

  /** One more sample. */
  lemma RunsSnoc(front: seq<Sample>, p: Sample, size: int)
    requires size > 0
    ensures var before, n := Runs(front, size), |Runs(front, size)|;
            Runs(front + [p], size) ==
            if n > 0 && before[n - 1].bucket == BucketOf(p.t, size)
            then before[..n - 1] + [Longer(before[n - 1], p)]
            else before + [Run(BucketOf(p.t, size), [p])]
  {
    assert (front + [p])[..|front|] == front;
  }

  lemma AllSamplesSnoc(rs: seq<Run>, x: Run)
    ensures AllSamples(rs + [x]) == AllSamples(rs) + x.samples
  {
    assert (rs + [x])[..|rs|] == rs;
  }

  predicate InOwnBucket(x: Run, size: int)
    requires size > 0
  {
    forall p :: p in x.samples ==> BucketOf(p.t, size) == x.bucket
  }

  /** Each sample is in the bucket of its run, and neighbouring runs are of different buckets. */
  ghost predicate OwnRuns(rs: seq<Run>, size: int)
    requires size > 0
  {
    && (forall i :: 0 <= i < |rs| ==> InOwnBucket(rs[i], size))
    && forall i :: 0 < i < |rs| ==> rs[i - 1].bucket != rs[i].bucket
  }

  lemma OwnNew(rs: seq<Run>, x: Run, size: int)
    requires size > 0 && OwnRuns(rs, size) && InOwnBucket(x, size)
    requires rs != [] ==> rs[|rs| - 1].bucket != x.bucket
    ensures OwnRuns(rs + [x], size)
  {
    hide InOwnBucket;
  }

  lemma OwnLonger(rs: seq<Run>, p: Sample, size: int)
    requires size > 0 && OwnRuns(rs, size) && rs != [] && rs[|rs| - 1].bucket == BucketOf(p.t, size)
    ensures OwnRuns(rs[..|rs| - 1] + [Longer(rs[|rs| - 1], p)], size)
  {
    hide BucketOf;
    assert InOwnBucket(rs[|rs| - 1], size);
    OwnNew(rs[..|rs| - 1], Longer(rs[|rs| - 1], p), size);
  }

  lemma {:induction false} RunsOwn(h: seq<Sample>, size: int)
    requires size > 0
    ensures OwnRuns(Runs(h, size), size)
  {
    if h != [] {
      hide BucketOf;
      hide Runs;
      hide OwnRuns;
      var front, p := h[..|h| - 1], h[|h| - 1];
      RunsOwn(front, size);
      RunsSnoc(front, p, size);
      assert h == front + [p];
      var before, n := Runs(front, size), |Runs(front, size)|;
      if n > 0 && before[n - 1].bucket == BucketOf(p.t, size) {
        OwnLonger(before, p, size);
      } else {
        OwnNew(before, Run(BucketOf(p.t, size), [p]), size);
      }
    }
  }

  /** One more sample, in the last run or in a new one. */
  lemma SamplesSnoc(front: seq<Sample>, p: Sample, size: int)
    requires size > 0
    ensures AllSamples(Runs(front + [p], size)) == AllSamples(Runs(front, size)) + [p]
  {
    hide BucketOf;
    hide Runs;
    hide AllSamples;
    RunsSnoc(front, p, size);
    var before := Runs(front, size);
    if before != [] && before[|before| - 1].bucket == BucketOf(p.t, size) {
      LastRunGrows(before, p);
    } else {
      AllSamplesSnoc(before, Run(BucketOf(p.t, size), [p]));
    }
  }

  lemma NoRuns(size: int)
    requires size > 0
    ensures AllSamples(Runs([], size)) == []
  {
  }

  lemma {:induction false} RunsHoldAll(h: seq<Sample>, size: int)
    requires size > 0
    ensures AllSamples(Runs(h, size)) == h
  {
    hide Runs;
    hide AllSamples;
    if h == [] {
      NoRuns(size);
    } else {
      var front, p := h[..|h| - 1], h[|h| - 1];
      RunsHoldAll(front, size);
      SamplesSnoc(front, p, size);
      assert h == front + [p];
    }
  }

  /** On every list: no sample is lost, repeated or moved, each is in its own bucket, and neighbouring
      runs are of different buckets. */
  lemma RunsPartition(h: seq<Sample>, size: int)
    requires size > 0
    ensures var rs := Runs(h, size);
            && AllSamples(rs) == h && (forall i :: 0 <= i < |rs| ==> InOwnBucket(rs[i], size))
            && forall i :: 0 < i < |rs| ==> rs[i - 1].bucket != rs[i].bucket
  {
    RunsHoldAll(h, size);
    RunsOwn(h, size);
    hide Runs;
    hide AllSamples;
  }

  lemma SplitLast(rs: seq<Run>)
    requires rs != []
    ensures rs[..|rs| - 1] + [rs[|rs| - 1]] == rs
  {
  }

  lemma Regrouped(a: seq<Sample>, b: seq<Sample>, p: Sample)
    ensures a + (b + [p]) == a + b + [p]
  {
  }

  lemma LastRunGrows(before: seq<Run>, p: Sample)
    requires before != []
    ensures AllSamples(before[..|before| - 1] + [Longer(before[|before| - 1], p)]) == AllSamples(before) + [p]
  {
    hide AllSamples;
    var most, x := before[..|before| - 1], before[|before| - 1];
    AllSamplesSnoc(most, x);
    AllSamplesSnoc(most, Longer(x, p));
    SplitLast(before);
    Regrouped(AllSamples(most), x.samples, p);
  }

  /** The points of all runs but the last, and the last. */
  function Done(h: seq<Sample>, size: int): seq<Point>
    requires size > 0 && h != []
  {
    Points(Runs(h, size)[..|Runs(h, size)| - 1])
  }

  function Current(h: seq<Sample>, size: int): Run
    requires size > 0 && h != []
  {
    Runs(h, size)[|Runs(h, size)| - 1]
  }

  lemma FirstRun(p: Sample, size: int)
    requires size > 0
    ensures Done([p], size) == [] && Current([p], size) == Run(BucketOf(p.t, size), [p])
  {
    RunsSnoc([], p, size);
    assert [] + [p] == [p] && Runs([], size) == [];
    assert Runs([p], size)[..0] == [];
  }

  lemma NextRun(front: seq<Sample>, p: Sample, size: int)
    requires size > 0 && front != []
    ensures var b, cur := BucketOf(p.t, size), Current(front, size);
            if cur.bucket == b
            then Done(front + [p], size) == Done(front, size) && Current(front + [p], size) == Longer(cur, p)
            else Done(front + [p], size) == Done(front, size) + [PointOf(cur)] &&
                 Current(front + [p], size) == Run(b, [p])
  {
    RunsSnoc(front, p, size);
    var before, rs := Runs(front, size), Runs(front + [p], size);
    hide Runs;
    hide BucketOf;
    hide PointOf;
    var n := |before| - 1;
    PointsSnoc(before[..n], before[n]);
    assert before[..n] + [before[n]] == before;
    assert rs[..|rs| - 1] == if |rs| == |before| then before[..n] else before;
  }

  lemma PointsAreDone(h: seq<Sample>, size: int)
    requires size > 0 && h != []
    ensures Points(Runs(h, size)) == Done(h, size) + [PointOf(Current(h, size))]
  {
    hide PointOf;
    hide Runs;
  }

  ghost predicate CollectedRuns(h: seq<Sample>, size: int)
    requires size > 0 && h != []
  {
    Collected(Done(h, size), Current(h, size).samples, Current(h, size).bucket, h, size)
  }

  lemma {:induction false} RunsCollected(h: seq<Sample>, size: int)
    requires size > 0 && h != [] && Increasing(h)
    ensures CollectedRuns(h, size)
  {
    var front, p := h[..|h| - 1], h[|h| - 1];
    assert h == front + [p];
    hide CollectedRuns;
    if front == [] {
      assert h == [p];
      FirstIsCollected(p, size);
    } else {
      RunsCollected(front, size);
      RunsCollectOne(front, p, size);
    }
  }

  lemma FirstIsCollected(p: Sample, size: int)
    requires size > 0
    ensures CollectedRuns([p], size)
  {
    FirstRun(p, size);
    InBucketOneMore([], p, size, BucketOf(p.t, size));
    assert [] + [p] == [p] && InBucket([], size, BucketOf(p.t, size)) == [];
    hide Done;
    hide Current;
    hide BucketOf;
    hide InBucket;
  }

  lemma RunsCollectOne(front: seq<Sample>, p: Sample, size: int)
    requires size > 0 && front != [] && front[|front| - 1].t < p.t && CollectedRuns(front, size)
    ensures CollectedRuns(front + [p], size)
  {
    BucketMonotone(front[|front| - 1].t, p.t, size);
    assert Current(front, size).bucket == BucketOf(front[|front| - 1].t, size);
    if Current(front, size).bucket == BucketOf(p.t, size) {
      CollectSame(front, p, size);
    } else {
      CollectNext(front, p, size);
    }
  }

  lemma CollectSame(front: seq<Sample>, p: Sample, size: int)
    requires size > 0 && front != [] && CollectedRuns(front, size) && Current(front, size).bucket == BucketOf(p.t, size)
    ensures CollectedRuns(front + [p], size)
  {
    var out, cur := Done(front, size), Current(front, size);
    NextRun(front, p, size);
    SameBucket(out, cur.samples, cur.bucket, front, size, p);
    hide Done;
    hide Current;
    hide BucketOf;
    hide Collected;
    hide Mean;
  }

  lemma CollectNext(front: seq<Sample>, p: Sample, size: int)
    requires size > 0 && front != [] && CollectedRuns(front, size) && Current(front, size).bucket < BucketOf(p.t, size)
    ensures CollectedRuns(front + [p], size)
  {
    var out, cur := Done(front, size), Current(front, size);
    hide Done;
    hide Current;
    hide BucketOf;
    hide Collected;
    hide Averages;
    hide Mean;
    NextRun(front, p, size);
    Flushed(out, cur.samples, cur.bucket, front, size);
    NextBucket(out + [PointOf(cur)], cur.bucket, front, size, p);
  }

  /** On samples that increase in time there is one run for each bucket, with all its samples. */
  lemma RunsAverage(h: seq<Sample>, size: int)
    requires size > 0 && Increasing(h)
    ensures Averages(Points(Runs(h, size)), h, size)
  {
    if h != [] {
      RunsCollected(h, size);
      PointsAreDone(h, size);
      var cur := Current(h, size);
      Flushed(Done(h, size), cur.samples, cur.bucket, h, size);
    }
  }

  /** The aggregation loop, on samples in any order. */
  method Buckets(tmp: seq<Sample>, bSize: int) returns (out: seq<Point>)
    requires bSize > 0 && tmp != []
    ensures out == Points(Runs(tmp, bSize))
  {
    hide Done;
    hide Current;
    hide BucketOf;
    out := [];
    var acc: seq<Sample> := [];
    var curBucket := BucketOf(tmp[0].t, bSize);
    for i := 0 to |tmp|
      invariant if i == 0 then acc == [] && out == [] && curBucket == BucketOf(tmp[0].t, bSize)
                else out == Done(tmp[..i], bSize) && Run(curBucket, acc) == Current(tmp[..i], bSize)
    {
      var p := tmp[i];
      assert tmp[..i + 1] == tmp[..i] + [p];
      if i == 0 {
        FirstRun(p, bSize);
        assert tmp[..1] == [p];
      } else {
        NextRun(tmp[..i], p, bSize);
      }
      var b := BucketOf(p.t, bSize);
      if b != curBucket {
        var avg := Average(acc);
        out, acc := out + [Point(curBucket, avg)], [];
        curBucket := b;
      }
      acc := acc + [p];
    }
    assert tmp[..|tmp|] == tmp;
    PointsAreDone(tmp, bSize);
    var avg := Average(acc);
    out := out + [Point(curBucket, avg)];
  }
}
