/** The chart window of src/model/chart_series.c: at most one sample per 50 ms over the last two
    minutes, with extrema repaired only when needed.  Doubles are modelled as reals. */
module ChartSeries {
  import opened Text
  import opened Modular

  const MAX_SAMPLES := 2560
  const MIN_INTERVAL := 50_000
  const TIME_WINDOW := 120_000_000

  datatype Sample = Sample(ts: nat, value: real)

  datatype Value = Finite(x: real) | NotFinite

  /** fabs. */
  function Abs(x: real): (r: real)
    ensures r >= 0.0 && (r == x || r == -x)
  {
    if x < 0.0 then -x else x
  }

  /** Kept samples are at least MIN_INTERVAL apart and span at most TIME_WINDOW. */
  predicate InTime(w: seq<Sample>) {
    && (forall i :: 0 < i < |w| ==> w[i - 1].ts + 50_000 <= w[i].ts)
    && (|w| > 0 ==> w[|w| - 1].ts <= w[0].ts + 120_000_000)
  }

  lemma {:induction false} SpreadOut(w: seq<Sample>, i: nat)
    requires InTime(w) && i < |w|
    ensures w[0].ts + MIN_INTERVAL * i <= w[i].ts
  {
    if i > 0 { SpreadOut(w, i - 1); }
  }

  /** So the window never needs more than 2401 of the 2560 slots. */
  lemma WindowFits(w: seq<Sample>)
    requires InTime(w)
    ensures |w| <= TIME_WINDOW / MIN_INTERVAL + 1 == 2401 < MAX_SAMPLES
  {
    if |w| > 0 { SpreadOut(w, |w| - 1); }
  }

  predicate Encloses(w: seq<Sample>, lo: real, hi: real) {
    forall i :: 0 <= i < |w| ==> lo <= w[i].value <= hi
  }

  predicate Attains(w: seq<Sample>, v: real) {
    exists i :: 0 <= i < |w| && w[i].value == v
  }

  /** lo and hi enclose the window, and are its extrema unless marked as stale. */
  ghost predicate Bounds(w: seq<Sample>, lo: real, hi: real, dirty: bool) {
    Encloses(w, lo, hi) && (!dirty ==> Attains(w, lo) && Attains(w, hi))
  }

  /** The newest sample lies at least as far from the reference as everything offered. */
  predicate FarthestOf(offered: seq<real>, ref: real, kept: real) {
    var d := if kept >= ref then kept - ref else ref - kept;
    forall i :: 0 <= i < |offered| ==> ref - d <= offered[i] <= ref + d
  }

  /** The samples still inside the window of a new timestamp. */
  function Recent(w: seq<Sample>, ts: nat): (r: seq<Sample>)
    ensures |r| <= |w| && r == w[|w| - |r|..]
    ensures r != [] ==> ts <= r[0].ts + TIME_WINDOW
  {
    if w == [] || ts <= w[0].ts + TIME_WINDOW then w else Recent(w[1..], ts)
  }

  class Series {
    const samples: array<Sample>
    const active: bool
    var head: nat
    var count: nat
    var yMin: real
    var yMax: real
    var yDirty: bool
    var lastTs: nat
    var bucketRef: real
    ghost var offered: seq<real>  // in-order finite values since the open bucket began

    ghost predicate Shape()
      reads this
    {
      samples.Length == MAX_SAMPLES && head < MAX_SAMPLES && count <= MAX_SAMPLES
    }

    ghost function Window(): (w: seq<Sample>)
      requires Shape()
      ensures |w| == count
      reads this, samples
    {
      Rotated(samples[..], head)[..count]
    }

    ghost predicate Valid()
      reads this, samples
    {
      && Shape()
      && InTime(Window())
      && (count > 0 ==>
        && lastTs == Window()[count - 1].ts
        && Bounds(Window(), yMin, yMax, yDirty)
        && FarthestOf(offered, bucketRef, Window()[count - 1].value))
    }

    /** chart_series_init. */
    constructor ()
      ensures Valid() && active && count == 0 && fresh(samples)
    {
      samples := new Sample[MAX_SAMPLES](_ => Sample(0, 0.0));
      active := true;
      head, count, lastTs := 0, 0, 0;
      yMin, yMax, yDirty, bucketRef := 0.0, 0.0, false, 0.0;
      offered := [];
    }

    /** Replacing the newest sample's value. */
    method SetNewest(v: real)
      requires Shape() && count > 0
      modifies samples
      ensures Window() == old(Window())[count - 1 := old(Window())[count - 1].(value := v)]
    {
      hide Rotated;
      RotatedAt(samples[..], head, count - 1);
      var at := (head + count - 1) % MAX_SAMPLES;
      RotatedUpdate(samples[..], head, count - 1, samples[at].(value := v));
      ghost var was := samples[..];
      samples[at] := samples[at].(value := v);
      assert samples[..] == was[at := samples[at]];
    }

    method Newest() returns (s: Sample)
      requires Shape() && count > 0
      ensures s == Window()[count - 1]
    {
      RotatedAt(samples[..], head, count - 1);
      s := samples[(head + count - 1) % MAX_SAMPLES];
    }

    /** Evicting samples that left the time window. */
    method Evict(ts: nat)
      requires Shape() && (count > 0 ==> Bounds(Window(), yMin, yMax, yDirty))
      modifies `head, `count, `yDirty
      ensures Shape() && Window() == Recent(old(Window()), ts)
      ensures count > 0 ==> Bounds(Window(), yMin, yMax, yDirty)
    {
      hide Rotated, Bounds, Recent;
      var stop := false;
      while count > 0 && !stop
        invariant Shape() && Recent(Window(), ts) == Recent(old(Window()), ts)
        invariant count > 0 ==> Bounds(Window(), yMin, yMax, yDirty)
        invariant stop ==> Recent(Window(), ts) == Window()
        decreases count, !stop
      {
        stop := EvictOne(ts);
      }
      RecentStep(Window(), ts);
    }

    /** The body of that loop. */
    method EvictOne(ts: nat) returns (stop: bool)
      requires Shape() && count > 0 && Bounds(Window(), yMin, yMax, yDirty)
      modifies `head, `count, `yDirty
      ensures Shape() && Recent(Window(), ts) == Recent(old(Window()), ts)
      ensures if stop then Recent(Window(), ts) == Window() && count == old(count) else count == old(count) - 1
      ensures count > 0 ==> Bounds(Window(), yMin, yMax, yDirty)
    {
      hide Rotated, Bounds, Recent;
      RotatedAt(samples[..], head, 0);
      Small(head, MAX_SAMPLES);
      var oldest := samples[head];
      ghost var w := Window();
      RecentStep(w, ts);
      if ts <= oldest.ts + TIME_WINDOW { return true; }
      OldestLeaves(w, yMin, yMax, yDirty);
      if oldest.value == yMin || oldest.value == yMax { yDirty := true; }
      RotatedNext(samples[..], head);
      Shifted(Rotated(samples[..], head), count);
      head := (head + 1) % MAX_SAMPLES;
      count := count - 1;
      assert Window() == w[1..];
      stop := false;
    }

    /** Appending to a window that has room, which it always has. */
    method Append(s: Sample)
      requires Shape() && count < MAX_SAMPLES
      modifies this`count, samples
      ensures Shape() && count == old(count) + 1 && Window() == old(Window()) + [s]
    {
      hide Rotated;
      RotatedAt(samples[..], head, count);
      var at := (head + count) % MAX_SAMPLES;
      RotatedUpdate(samples[..], head, count, s);
      ghost var was := samples[..];
      count := count + 1;
      samples[at] := s;
      assert samples[..] == was[at := s];
    }

    /** chart_series_push_sample. */
    method PushSample(ts: nat, value: Value) returns (kept: bool)
      requires Valid()
      modifies this, samples
      ensures Valid()
      ensures var w := old(Window());
        match value
        case NotFinite => !kept && Window() == w && offered == old(offered)
        case Finite(v) =>
          if !active || (w != [] && ts <= old(lastTs)) then !kept && Window() == w && offered == old(offered)
          else if w != [] && ts - old(lastTs) < MIN_INTERVAL then
            && bucketRef == old(bucketRef) && offered == old(offered) + [v]
            && kept == (Abs(v - bucketRef) > Abs(w[|w| - 1].value - bucketRef))
            && Window() == if kept then w[|w| - 1 := w[|w| - 1].(value := v)] else w
          else
            && kept && offered == [v] && bucketRef == (if w == [] then v else w[|w| - 1].value)
            && Window() == Recent(w, ts) + [Sample(ts, v)]
    {
      hide Rotated, Recent, Bounds, FarthestOf, InTime;
      if !active { return false; }
      if value.NotFinite? { return false; }
      var v := value.x;
      if count > 0 {
        if ts <= lastTs { return false; }
        if ts - lastTs < MIN_INTERVAL {
          kept := Reconsider(v);
          return;
        }
      }
      OpenBucket(ts, v);
      kept := true;
    }

    /** The first sample of a new bucket. */
    method OpenBucket(ts: nat, v: real)
      requires Valid() && (count > 0 ==> lastTs + MIN_INTERVAL <= ts)
      modifies this, samples
      ensures Valid() && offered == [v]
      ensures var w := old(Window());
        bucketRef == (if w == [] then v else w[|w| - 1].value) && Window() == Recent(w, ts) + [Sample(ts, v)]
    {
      hide Rotated, Recent, Bounds, FarthestOf, InTime;
      if count > 0 {
        var newest := Newest();
        bucketRef := newest.value;
      } else {
        bucketRef := v;
      }
      ghost var w := Window();
      InTimeAppended(w, ts, v);
      Evict(ts);
      WindowFits(Window());
      ghost var recent := Window();
      if count < MAX_SAMPLES {
        Append(Sample(ts, v));
      } else {
        assert false; // the source evicts one more sample here
      }
      lastTs := ts;
      offered := [v];
      OnlyOne(v, bucketRef);
      Include(Sample(ts, v), recent);
    }

    /** The extrema after a sample has been appended. */
    method Include(s: Sample, ghost before: seq<Sample>)
      requires Shape() && Window() == before + [s] && (before != [] ==> Bounds(before, yMin, yMax, yDirty))
      modifies `yMin, `yMax, `yDirty
      ensures Bounds(Window(), yMin, yMax, yDirty)
    {
      hide Bounds, Rotated;
      BoundsAppended(before, s, yMin, yMax, yDirty);
      if count == 1 {
        yMin, yMax, yDirty := s.value, s.value, false;
      } else {
        if s.value < yMin { yMin := s.value; }
        if s.value > yMax { yMax := s.value; }
      }
    }

    /** A sample inside the open bucket: it replaces the newest one if it lies farther out. */
    method Reconsider(v: real) returns (kept: bool)
      requires Valid() && count > 0
      modifies this, samples
      ensures Valid() && head == old(head) && lastTs == old(lastTs) && bucketRef == old(bucketRef) && offered == old(offered) + [v]
      ensures var w := old(Window());
        && kept == (Abs(v - bucketRef) > Abs(w[|w| - 1].value - bucketRef))
        && Window() == if kept then w[|w| - 1 := w[|w| - 1].(value := v)] else w
    {
      hide Rotated, Recent, Bounds, FarthestOf, InTime;
      var cur := Newest();
      Offered(offered, bucketRef, cur.value, v);
      offered := offered + [v];
      if Abs(v - bucketRef) <= Abs(cur.value - bucketRef) { return false; }
      NewestReplaced(Window(), v, yMin, yMax, yDirty);
      if cur.value == yMin || cur.value == yMax { yDirty := true; }
      SetNewest(v);
      if v < yMin { yMin := v; }
      if v > yMax { yMax := v; }
      kept := true;
    }

    /** chart_series_recompute_minmax: afterwards the bounds are exact. */
    method RecomputeMinMax()
      requires Valid()
      modifies `yMin, `yMax, `yDirty
      ensures Valid() && !yDirty
      ensures count > 0 ==> Bounds(Window(), yMin, yMax, false)
    {
      hide Rotated, Bounds, InTime, FarthestOf;
      if count == 0 {
        yMin, yMax, yDirty := 0.0, 0.0, false;
        return;
      }
      var mn, mx := Extrema();
      yMin, yMax, yDirty := mn, mx, false;
    }

    /** The scan of the window. */
    method Extrema() returns (mn: real, mx: real)
      requires Shape() && count > 0
      ensures Bounds(Window(), mn, mx, false)
    {
      hide Rotated, Bounds;
      ghost var w := Window();
      var oldest := At(0);
      mn, mx := oldest.value, oldest.value;
      FirstBounds(w);
      var i := 1;
      while i < count
        invariant 1 <= i <= count && Shape() && Window() == w
        invariant Bounds(w[..i], mn, mx, false)
      {
        var s := At(i);
        Widened(w, i, mn, mx);
        if s.value < mn { mn := s.value; }
        if s.value > mx { mx := s.value; }
        i := i + 1;
      }
      assert w[..i] == w;
    }

    method At(i: nat) returns (s: Sample)
      requires Shape() && i < count
      ensures s == Window()[i]
    {
      RotatedAt(samples[..], head, i);
      s := samples[(head + i) % MAX_SAMPLES];
    }

    /** chart_series_get. */
    method Get(i: nat) returns (s: Option<Sample>)
      requires Valid()
      ensures s == if i < count then Some(Window()[i]) else None
    {
      if i >= count { return None; }
      RotatedAt(samples[..], head, i);
      s := Some(samples[(head + i) % MAX_SAMPLES]);
    }
  }

  lemma Shifted(r: seq<Sample>, n: nat)
    requires 0 < n <= |r|
    ensures (r[1..] + [r[0]])[..n - 1] == r[..n][1..]
  {
  }

  lemma RecentStep(w: seq<Sample>, ts: nat)
    ensures w == [] || ts <= w[0].ts + TIME_WINDOW ==> Recent(w, ts) == w
    ensures w != [] && ts > w[0].ts + TIME_WINDOW ==> Recent(w, ts) == Recent(w[1..], ts)
  {
  }

  /** Of samples in time order, exactly those less than the window older are kept, newest last. */
  lemma {:induction false} RecentIsExact(w: seq<Sample>, ts: nat, i: nat)
    requires InTime(w) && i < |w|
    ensures i >= |w| - |Recent(w, ts)| <==> ts <= w[i].ts + 120_000_000
  {
    hide InTime, Recent;
    RecentStep(w, ts);
    Later(w, i);
    if ts > w[0].ts + TIME_WINDOW && i > 0 {
      SuffixInTime(w, 1);
      RecentIsExact(w[1..], ts, i - 1);
    }
  }

  lemma RecentInTime(w: seq<Sample>, ts: nat)
    requires InTime(w)
    ensures InTime(Recent(w, ts))
  {
    hide Recent;
    var r := Recent(w, ts);
    SuffixInTime(w, |w| - |r|);
  }

  lemma SuffixInTime(w: seq<Sample>, k: nat)
    requires InTime(w) && k <= |w|
    ensures InTime(w[k..])
  {
    var r := w[k..];
    forall i | 0 < i < |r|
      ensures r[i - 1].ts + MIN_INTERVAL <= r[i].ts
    {
      assert r[i - 1] == w[k + i - 1] && r[i] == w[k + i];
    }
    if r != [] { Later(w, k); }
  }

  lemma {:induction false} Later(w: seq<Sample>, i: nat)
    requires InTime(w) && i < |w|
    ensures w[0].ts <= w[i].ts
  {
    SpreadOut(w, i);
  }

  lemma InTimeAppended(w: seq<Sample>, ts: nat, v: real)
    requires InTime(w) && (w != [] ==> w[|w| - 1].ts + MIN_INTERVAL <= ts)
    ensures InTime(Recent(w, ts)) && InTime(Recent(w, ts) + [Sample(ts, v)])
  {
    hide Recent;
    RecentInTime(w, ts);
    var r := Recent(w, ts);
    if r != [] { AppendInTime(r, w[|w| - 1].ts, Sample(ts, v)); }
  }

  lemma AppendInTime(r: seq<Sample>, last: nat, s: Sample)
    requires InTime(r) && r != [] && r[|r| - 1].ts == last && last + MIN_INTERVAL <= s.ts <= r[0].ts + TIME_WINDOW
    ensures InTime(r + [s])
  {
  }

  lemma OnlyOne(v: real, ref: real)
    ensures FarthestOf([v], ref, v)
  {
  }

  lemma Offered(offered: seq<real>, ref: real, kept: real, v: real)
    requires FarthestOf(offered, ref, kept)
    ensures FarthestOf(offered + [v], ref, if Abs(v - ref) <= Abs(kept - ref) then kept else v)
  {
  }

  lemma BoundsAppended(w: seq<Sample>, s: Sample, lo: real, hi: real, dirty: bool)
    requires w != [] ==> Bounds(w, lo, hi, dirty)
    ensures var v := s.value;
      if w == [] then Bounds(w + [s], v, v, false)
      else Bounds(w + [s], if v < lo then v else lo, if v > hi then v else hi, dirty)
  {
    var w' := w + [s];
    assert w'[|w|].value == s.value;
    if w != [] && !dirty {
      var i :| 0 <= i < |w| && w[i].value == lo;
      var j :| 0 <= j < |w| && w[j].value == hi;
      assert w'[i].value == lo && w'[j].value == hi;
    }
  }

  lemma NewestReplaced(w: seq<Sample>, v: real, lo: real, hi: real, dirty: bool)
    requires w != [] && Bounds(w, lo, hi, dirty)
    ensures var n := |w| - 1;
      Bounds(w[n := w[n].(value := v)], if v < lo then v else lo, if v > hi then v else hi,
             dirty || w[n].value == lo || w[n].value == hi)
    ensures InTime(w) ==> InTime(w[|w| - 1 := w[|w| - 1].(value := v)])
  {
    var n := |w| - 1;
    var w' := w[n := w[n].(value := v)];
    assert w'[n].value == v;
    if !(dirty || w[n].value == lo || w[n].value == hi) {
      var i :| 0 <= i < |w| && w[i].value == lo;
      var j :| 0 <= j < |w| && w[j].value == hi;
      assert w'[i].value == lo && w'[j].value == hi;
    }
  }

  lemma FirstBounds(w: seq<Sample>)
    requires w != []
    ensures Bounds(w[..1], w[0].value, w[0].value, false)
  {
    assert w[..1][0].value == w[0].value;
  }

  lemma Widened(w: seq<Sample>, i: nat, lo: real, hi: real)
    requires 0 < i < |w| && Bounds(w[..i], lo, hi, false)
    ensures var v := w[i].value;
      Bounds(w[..i + 1], if v < lo then v else lo, if v > hi then v else hi, false)
  {
    assert w[..i + 1] == w[..i] + [w[i]];
    BoundsAppended(w[..i], w[i], lo, hi, false);
  }

  lemma OldestLeaves(w: seq<Sample>, lo: real, hi: real, dirty: bool)
    requires w != [] && Bounds(w, lo, hi, dirty)
    ensures Bounds(w[1..], lo, hi, dirty || w[0].value == lo || w[0].value == hi)
  {
    if !(dirty || w[0].value == lo || w[0].value == hi) {
      var i :| 0 <= i < |w| && w[i].value == lo;
      var j :| 0 <= j < |w| && w[j].value == hi;
      assert w[1..][i - 1].value == lo && w[1..][j - 1].value == hi;
    }
  }

  // ----- the bound is reached

  /** n samples, one every MIN_INTERVAL. */
  function Steady(n: nat): (w: seq<Sample>)
    ensures |w| == n && forall i :: 0 <= i < n ==> w[i] == Sample(i * MIN_INTERVAL, 0.0)
  {
    seq(n, i requires 0 <= i < n => Sample(i * MIN_INTERVAL, 0.0))
  }

  lemma SteadyNext(n: nat)
    requires n <= TIME_WINDOW / MIN_INTERVAL
    ensures Recent(Steady(n), n * MIN_INTERVAL) == Steady(n)
    ensures Steady(n + 1) == Steady(n) + [Sample(n * MIN_INTERVAL, 0.0)]
  {
  }

  /** 2401 samples can be kept at once: the run that pushes one every 50 ms for two minutes. */
  method FullWindow() returns (s: Series)
    ensures fresh(s) && s.Valid() && s.count == TIME_WINDOW / MIN_INTERVAL + 1 == 2401
    ensures s.Window() == Steady(2401)
  {
    hide Rotated, Recent, Bounds, FarthestOf, InTime;
    s := new Series();
    var i := 0;
    assert s.Window() == Steady(0);
    while i < 2401
      invariant i <= 2401 && fresh(s) && fresh(s.samples) && s.Valid() && s.active && s.Window() == Steady(i)
    {
      SteadyNext(i);
      var kept := s.PushSample(i * MIN_INTERVAL, Finite(0.0));
      i := i + 1;
    }
  }

  /** As a window: spaced and spanning as required, it holds as many samples as WindowFits allows. */
  lemma WindowBoundReached()
    ensures InTime(Steady(2401)) && |Steady(2401)| == TIME_WINDOW / MIN_INTERVAL + 1
  {
    var w := Steady(2401);
    forall i | 0 < i < |w|
      ensures w[i - 1].ts + MIN_INTERVAL <= w[i].ts
    {
      assert i * MIN_INTERVAL == (i - 1) * MIN_INTERVAL + MIN_INTERVAL;
    }
  }
}
