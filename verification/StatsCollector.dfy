/** The statistics server: timings of gets and puts, summarised over sliding windows in one pass. */
module StatsCollector {

  // When a request was made, in microseconds, and how long it took.
  datatype Sample = Sample(time: int, usec: real)

  const SECOND := 1_000_000
  const KEEP_PERIOD := 60 * 60 * SECOND

  // The windows that the server answers for.
  const WINDOWS: seq<int> := [5 * SECOND, 5 * 60 * SECOND, 60 * 60 * SECOND]

  /* ---- what is computed ---- */

  // The timings later than `t0`.
  function Window(samples: seq<Sample>, t0: int): seq<real> {
    if samples == [] then []
    else
      var n := |samples| - 1;
      Window(samples[..n], t0) + if samples[n].time > t0 then [samples[n].usec] else []
  }

  function SumOf(xs: seq<real>): real {
    if xs == [] then 0.0 else SumOf(xs[..|xs| - 1]) + xs[|xs| - 1]
  }

  function Square(x: real): real {
    x * x
  }

  // The sum of the squared distances from `a`.
  function Spread(xs: seq<real>, a: real): real {
    if xs == [] then 0.0 else Spread(xs[..|xs| - 1], a) + Square(xs[|xs| - 1] - a)
  }

  // How far the sum is from what it would be if `a` were the mean.
  function Excess(xs: seq<real>, a: real): real {
    SumOf(xs) - |xs| as real * a
  }

  lemma ExcessSnoc(xs: seq<real>, x: real, a: real)
    ensures Excess(xs + [x], a) == Excess(xs, a) + (x - a)
  {
    assert (xs + [x])[..|xs|] == xs;
    var n := |xs| as real;
    assert |xs + [x]| as real == n + 1.0;
    assert (n + 1.0) * a == n * a + a;
  }

  lemma SpreadSnoc(xs: seq<real>, x: real, a: real)
    ensures Spread(xs + [x], a) == Spread(xs, a) + Square(x - a)
  {
    assert (xs + [x])[..|xs|] == xs;
  }

  // By how much the spread changes when it is measured from `a - e`.
  function Shift(n: real, excess: real, e: real): real {
    2.0 * e * excess + n * Square(e)
  }

  lemma ShiftSnoc(n: real, excess: real, d: real, e: real)
    ensures Shift(n + 1.0, excess + d, e) + Square(d) == Shift(n, excess, e) + Square(d + e)
  {
    SquareOfSum(d, e);
    assert 2.0 * e * (excess + d) == 2.0 * e * excess + 2.0 * e * d;
    assert (n + 1.0) * Square(e) == n * Square(e) + Square(e);
  }

  lemma {:induction false} SpreadShifts(xs: seq<real>, a: real, e: real)
    ensures Spread(xs, a - e) == Spread(xs, a) + Shift(|xs| as real, Excess(xs, a), e)
  {
    if xs != [] {
      var front, x := xs[..|xs| - 1], xs[|xs| - 1];
      assert front + [x] == xs;
      SpreadShifts(front, a, e);
      hide Spread, Excess, Shift, Square;
      SpreadSnoc(front, x, a);
      SpreadSnoc(front, x, a - e);
      ExcessSnoc(front, x, a);
      ShiftSnoc(|front| as real, Excess(front, a), x - a, e);
      assert |xs| as real == |front| as real + 1.0;
      assert x - (a - e) == (x - a) + e;
    }
  }

  lemma SquareOfSum(u: real, v: real)
    ensures Square(u + v) == Square(u) + 2.0 * v * u + Square(v)
  {
  }

  ghost predicate MeanOf(xs: seq<real>, a: real) {
    Excess(xs, a) == 0.0 && (xs == [] ==> a == 0.0)
  }

  lemma NextMean(xs: seq<real>, a: real, x: real, e: real)
    requires MeanOf(xs, a) && (|xs| as real + 1.0) * e == x - a
    ensures MeanOf(xs + [x], a + e)
  {
    hide Excess;
    ExcessSnoc(xs, x, a + e);
    ExcessMoves(xs, a, e);
    var n := |xs| as real;
    assert (n + 1.0) * e == n * e + e;
  }

  lemma NextSpread(xs: seq<real>, a: real, x: real, e: real)
    requires MeanOf(xs, a) && (|xs| as real + 1.0) * e == x - a
    ensures Spread(xs + [x], a + e) == Spread(xs, a) + (x - (a + e)) * (x - a)
  {
    var n, d := |xs| as real, x - a;
    hide Spread, Shift, Square, Excess;
    SpreadShifts(xs, a, -e);
    assert a - (-e) == a + e;
    SpreadSnoc(xs, x, a + e);
    ZeroShift(n, -e);
    StepAlgebra(n, d, e);
    assert x - (a + e) == d - e;
  }

  // One step of the one-pass algorithm.
  lemma OnePassStep(xs: seq<real>, a: real, x: real, an: real)
    requires MeanOf(xs, a) && an == a + (x - a) / (|xs| + 1) as real
    ensures MeanOf(xs + [x], an)
    ensures Spread(xs + [x], an) == Spread(xs, a) + (x - an) * (x - a)
  {
    var e := an - a;
    hide Spread, MeanOf;
    assert (|xs| as real + 1.0) * e == x - a;
    assert a + e == an;
    NextMean(xs, a, x, e);
    NextSpread(xs, a, x, e);
  }

  lemma ZeroShift(n: real, e: real)
    ensures Shift(n, 0.0, e) == n * Square(e) && Square(e) == Square(-e)
  {
  }

  lemma ExcessMoves(xs: seq<real>, a: real, e: real)
    ensures Excess(xs, a + e) == Excess(xs, a) - |xs| as real * e
  {
    var n := |xs| as real;
    assert n * (a + e) == n * a + n * e;
  }

  lemma StepAlgebra(n: real, d: real, e: real)
    requires (n + 1.0) * e == d
    ensures n * Square(e) + Square(d - e) == (d - e) * d
  {
    assert n * Square(e) + Square(e) == ((n + 1.0) * e) * e;
    SquareOfSum(d, -e);
  }

  /* ---- the collector ---- */

  datatype Summary = Summary(n: nat, avg: real, variance: real)

  function Kept(samples: seq<Sample>, since: int): seq<Sample> {
    if samples == [] then []
    else
      var n := |samples| - 1;
      Kept(samples[..n], since) + if samples[n].time >= since then [samples[n]] else []
  }

  class Stats {
    var stats: map<char, seq<Sample>>

    constructor ()
      ensures stats == map['g' := [], 'p' := []]
    {
      stats := map['g' := [], 'p' := []];
    }

    method Add(table: char, now: int, usec: real) returns (ok: bool)
      modifies this
      ensures ok <==> table in old(stats)
      ensures stats == if ok then old(stats)[table := old(stats)[table] + [Sample(now, usec)]] else old(stats)
    {
      ok := table in stats;
      if ok {
        stats := stats[table := stats[table] + [Sample(now, usec)]];
      }
    }

    method Flush(now: int)
      modifies this
      ensures stats.Keys == old(stats).Keys
      ensures forall k <- stats :: stats[k] == Kept(old(stats)[k], now - KEEP_PERIOD)
    {
      var keepTime := now - KEEP_PERIOD;
      var left := stats.Keys;
      while left != {}
        invariant left <= stats.Keys == old(stats).Keys
        invariant forall k <- stats :: stats[k] == if k in left then old(stats)[k] else Kept(old(stats)[k], keepTime)
        decreases |left|
      {
        var k :| k in left;
        var kept := KeepSince(stats[k], keepTime);
        stats := stats[k := kept];
        left := left - {k};
      }
    }

    // The mean and the variance of the samples in the window.
    method Make(table: char, t0: int) returns (r: Summary)
      requires table in stats
      ensures var xs := Window(stats[table], t0);
        && r.n == |xs| && MeanOf(xs, r.avg)
        && (r.n > 1 ==> r.variance * (r.n - 1) as real == Spread(xs, r.avg))
        && (r.n <= 1 ==> r.variance == 0.0)
    {
      r := Summarise(stats[table], t0);
    }
  }

  method KeepSince(samples: seq<Sample>, since: int) returns (kept: seq<Sample>)
    ensures kept == Kept(samples, since)
  {
    kept := [];
    for i := 0 to |samples|
      invariant kept == Kept(samples[..i], since)
    {
      assert samples[..i + 1][..i] == samples[..i];
      if samples[i].time >= since {
        kept := kept + [samples[i]];
      }
    }
    assert samples[..|samples|] == samples;
  }

  method Summarise(samples: seq<Sample>, t0: int) returns (r: Summary)
    ensures var xs := Window(samples, t0);
      && r.n == |xs| && MeanOf(xs, r.avg)
      && (r.n > 1 ==> r.variance * (r.n - 1) as real == Spread(xs, r.avg))
      && (r.n <= 1 ==> r.variance == 0.0)
  {
    hide Spread, MeanOf;
    var n, a, q := 0, 0.0, 0.0;
    NothingYet();
    for i := 0 to |samples|
      invariant n == |Window(samples[..i], t0)|
      invariant MeanOf(Window(samples[..i], t0), a) && q == Spread(Window(samples[..i], t0), a)
    {
      assert samples[..i + 1][..i] == samples[..i];
      var t, x := samples[i].time, samples[i].usec;
      if t > t0 {
        n := n + 1;
        var an := a + (x - a) / n as real;
        OnePassStep(Window(samples[..i], t0), a, x, an);
        assert Window(samples[..i + 1], t0) == Window(samples[..i], t0) + [x];
        q := q + (x - an) * (x - a);
        a := an;
      } else {
        assert Window(samples[..i + 1], t0) == Window(samples[..i], t0);
      }
    }
    assert samples[..|samples|] == samples;
    if n > 1 {
      r := Summary(n, a, q / (n - 1) as real);
    } else {
      r := Summary(n, a, 0.0);
    }
  }

  lemma NothingYet()
    ensures MeanOf([], 0.0) && Spread([], 0.0) == 0.0
  {
  }

  // What is kept are the samples of the time, in order, and no others.
  lemma {:induction false} KeptAre(samples: seq<Sample>, since: int, s: Sample)
    ensures s in Kept(samples, since) <==> s in samples && s.time >= since
    ensures |Kept(samples, since)| <= |samples|
  {
    if samples != [] {
      var n := |samples| - 1;
      KeptAre(samples[..n], since, s);
      assert samples == samples[..n] + [samples[n]];
    }
  }

  // A window holds the timings of exactly the samples that are later than its start.
  lemma {:induction false} WindowIs(samples: seq<Sample>, t0: int, x: real)
    ensures x in Window(samples, t0) <==> exists s :: s in samples && s.time > t0 && s.usec == x
    ensures (forall s :: s in samples ==> s.time > t0) ==> |Window(samples, t0)| == |samples|
    ensures (forall s :: s in samples ==> s.time <= t0) ==> Window(samples, t0) == []
  {
    if samples != [] {
      var n := |samples| - 1;
      assert samples == samples[..n] + [samples[n]];
      WindowIs(samples[..n], t0, x);
      if samples[n].time > t0 && samples[n].usec == x {
        assert samples[n] in samples;
      }
    }
  }

  /* ---- flushing is never noticed ---- */

  lemma {:induction false} KeptWindow(samples: seq<Sample>, since: int, t0: int)
    requires since <= t0 + 1
    ensures Window(Kept(samples, since), t0) == Window(samples, t0)
  {
    if samples != [] {
      var n := |samples| - 1;
      KeptWindow(samples[..n], since, t0);
      if samples[n].time >= since {
        WindowSnoc(Kept(samples[..n], since), samples[n], t0);
      } else {
        assert Kept(samples, since) == Kept(samples[..n], since);
      }
    }
  }

  datatype Event = Added(time: int, usec: real) | Flushed(time: int)

  predicate InTimeOrder(events: seq<Event>) {
    forall i, j :: 0 <= i < j < |events| ==> events[i].time <= events[j].time
  }

  // The samples of a table after a history of additions and flushes.
  function After(events: seq<Event>): seq<Sample> {
    if events == [] then []
    else
      var n := |events| - 1;
      match events[n]
      case Added(time, usec) => After(events[..n]) + [Sample(time, usec)]
      case Flushed(time) => Kept(After(events[..n]), time - KEEP_PERIOD)
  }

  // All the samples ever added.
  function Everything(events: seq<Event>): seq<Sample> {
    if events == [] then []
    else
      var n := |events| - 1;
      Everything(events[..n]) + match events[n] case Added(time, usec) => [Sample(time, usec)] case Flushed(_) => []
  }

  lemma {:induction false} WindowSnoc(samples: seq<Sample>, s: Sample, t0: int)
    ensures Window(samples + [s], t0) == Window(samples, t0) + if s.time > t0 then [s.usec] else []
  {
    assert (samples + [s])[..|samples|] == samples;
  }

  // With a clock that does not go back, no window that is served shows that anything was ever flushed.
  lemma {:induction false} FlushIsInvisible(events: seq<Event>, now: int, t0: int)
    requires forall e <- events :: e.time <= now
    requires t0 >= now - KEEP_PERIOD
    ensures Window(After(events), t0) == Window(Everything(events), t0)
  {
    if events != [] {
      var n := |events| - 1;
      assert events[n] in events;
      FlushIsInvisible(events[..n], now, t0);
      match events[n]
      case Added(time, usec) =>
        WindowSnoc(After(events[..n]), Sample(time, usec), t0);
        WindowSnoc(Everything(events[..n]), Sample(time, usec), t0);
      case Flushed(time) =>
        KeptWindow(After(events[..n]), time - KEEP_PERIOD, t0);
        assert Everything(events[..n]) + [] == Everything(events[..n]);
    }
  }

  lemma ServedWindowsAreWhole(events: seq<Event>, now: int, i: nat)
    requires InTimeOrder(events) && (events != [] ==> events[|events| - 1].time <= now) && i < |WINDOWS|
    ensures Window(After(events), now - WINDOWS[i]) == Window(Everything(events), now - WINDOWS[i])
  {
    FlushIsInvisible(events, now, now - WINDOWS[i]);
  }
}
