/** The scheduling arithmetic of the downloader (main.py): which archive projects the
    collectors belong to, snapping the requested start to a RIB time and the requested end
    to an update time, the update times to fetch, the checkpoint times at which the
    observers are dumped, and whether the end is a RIB time to compare against.
    Times are whole seconds since the epoch, UTC, so that `datetime(y, m, d)` is the
    start of the day and `datetime(y, m, d, h)` the start of the hour. */
module Schedule {
  import opened Common
  import opened Strings
  import opened Urls

  function Abs(x: int): (r: nat)
    ensures r == x || r == -x
  {
    if x < 0 then -x else x
  }

  // ---- project classification (`BGPDownloader.__init__`) ----

  datatype Project = RIS | RV

  /** The project of one collector: an "rrc" prefix is RIS, otherwise a name containing
      "route-views" is RV, and any other name raises ValueError. */
  function ProjectOf(collector: string): (r: Result<Project>)
    ensures r == Ok(RIS) <==> StartsWith(collector, "rrc")
    ensures r == Ok(RV) <==> !StartsWith(collector, "rrc") && Contains(collector, "route-views")
    ensures r.Err? ==> r.error == ValueError
  {
    if StartsWith(collector, "rrc") then Ok(RIS)
    else if Contains(collector, "route-views") then Ok(RV)
    else Err(ValueError)
  }

  /** The loop of `__init__` that fills `self.projects`: the first unrecognised collector
      raises ValueError; otherwise the projects are those of the collectors. */
  method ClassifyProjects(collectors: seq<string>) returns (r: Result<set<Project>>)
    ensures r.Err? <==> exists i :: 0 <= i < |collectors| && ProjectOf(collectors[i]).Err?
    ensures r.Err? ==> r.error == ValueError
    ensures r.Ok? ==> r.value == set i | 0 <= i < |collectors| :: ProjectOf(collectors[i]).value
    ensures r.Ok? ==> (RIS in r.value <==> exists i :: 0 <= i < |collectors| && StartsWith(collectors[i], "rrc"))
  {
    var projects: set<Project> := {};
    var i := 0;
    while i < |collectors|
      invariant 0 <= i <= |collectors|
      invariant forall j :: 0 <= j < i ==> ProjectOf(collectors[j]).Ok?
      invariant projects == set j | 0 <= j < i :: ProjectOf(collectors[j]).value
    {
      match ProjectOf(collectors[i]) {
        case Err(e) =>
          return Err(e);
        case Ok(p) =>
          projects := projects + {p};
      }
      i := i + 1;
    }
    r := Ok(projects);
    if RIS in projects {
      var j :| 0 <= j < |collectors| && ProjectOf(collectors[j]).value == RIS;
    }
  }

  // ---- `np.argmin`: the first index of a minimum ----

  function FirstArgMin(xs: seq<int>): (k: nat)
    requires |xs| > 0
    ensures k < |xs|
    ensures forall j :: 0 <= j < |xs| ==> xs[k] <= xs[j]
    ensures forall j :: 0 <= j < k ==> xs[k] < xs[j]
    decreases |xs|
  {
    if |xs| == 1 then 0
    else
      var k := FirstArgMin(xs[..|xs| - 1]);
      assert forall j :: 0 <= j < |xs| - 1 ==> xs[..|xs| - 1][j] == xs[j];
      if xs[|xs| - 1] < xs[k] then |xs| - 1 else k
  }

  /** An index that is a minimum with no earlier minimum is the one `argmin` returns. */
  lemma FirstArgMinUnique(xs: seq<int>, i: nat)
    requires i < |xs|
    requires forall j :: 0 <= j < |xs| ==> xs[i] <= xs[j]
    requires forall j :: 0 <= j < i ==> xs[i] < xs[j]
    ensures FirstArgMin(xs) == i
  {
  }

  /** `candidates[np.argmin([abs(c - ts) for c in candidates])]`. */
  function Nearest(cands: seq<int>, t: int): int
    requires |cands| > 0
  {
    cands[FirstArgMin(seq(|cands|, i requires 0 <= i < |cands| => Abs(cands[i] - t)))]
  }

  // ---- products with a positive factor ----

  lemma MulBelow(a: int, d: int)
    requires d > 0 && a <= -1
    ensures a * d <= -d
  {
    assert (a + 1) * d <= 0;
  }

  lemma MulAbove(a: int, d: int)
    requires d > 0 && a >= 1
    ensures a * d >= d
  {
    assert (a - 1) * d >= 0;
  }

  lemma MulMonotone(j: int, k: int, d: int)
    requires d > 0 && j < k
    ensures j * d + d <= k * d
  {
    MulAbove(k - j, d);
    assert (k - j) * d == k * d - j * d;
  }

  lemma MulDiv(x: int, d: int)
    requires d > 0
    ensures (x * d) / d == x && (x * d) % d == 0
  {
    var q, r := (x * d) / d, (x * d) % d;
    assert x * d == q * d + r && 0 <= r < d;
    if q < x { MulMonotone(q, x, d); }
    if x < q { MulMonotone(x, q, d); }
  }

  /** Euclidean division is determined by its quotient and remainder. */
  lemma ModUnique(a: int, d: int, q: int, r: int)
    requires d > 0 && a == q * d + r && 0 <= r < d
    ensures a / d == q && a % d == r
  {
    var q', r' := a / d, a % d;
    assert a == q' * d + r' && 0 <= r' < d;
    if q' < q { MulMonotone(q', q, d); }
    if q < q' { MulMonotone(q, q', d); }
  }

  // ---- points of a grid `base + k * step` ----

  /** The grid index whose point is nearest to `t`, the lower one on a tie. */
  function GridIndex(t: int, base: int, step: int): int
    requires step > 0
  {
    var q := (t - base) / step;
    if 2 * ((t - base) % step) <= step then q else q + 1
  }

  /** No grid point is nearer to `t` than that of `GridIndex`, which is at most half a
      step away, and every lower grid point is strictly farther. */
  lemma GridNearest(t: int, base: int, step: int, k: int)
    requires step > 0
    ensures var g := GridIndex(t, base, step);
            && 2 * Abs(base + g * step - t) <= step
            && Abs(base + g * step - t) <= Abs(base + k * step - t)
            && (k < g ==> Abs(base + g * step - t) < Abs(base + k * step - t))
  {
    var q := (t - base) / step;
    var r := (t - base) % step;
    assert t == base + q * step + r;
    var g := GridIndex(t, base, step);
    assert base + k * step - t == (k - q) * step - r;
    if 2 * r <= step {
      assert base + g * step - t == -r;
      if k < q {
        MulBelow(k - q, step);
      } else if k > q {
        MulAbove(k - q, step);
      }
    } else {
      assert (q + 1) * step == q * step + step;
      assert base + g * step - t == step - r;
      if k < q {
        MulBelow(k - q, step);
      } else if k > q + 1 {
        MulAbove(k - q - 1, step);
        assert (k - q) * step == (k - q - 1) * step + step;
      }
    }
  }

  /** On a grid through a multiple of the step, the point of `GridIndex` is a multiple of
      the step, and it is the multiple nearest to `t`, the lower one on a tie. */
  lemma NearestMultiple(t: int, base: int, step: int)
    requires step > 0 && base % step == 0
    ensures var s := base + GridIndex(t, base, step) * step;
            && s % step == 0
            && forall m :: m % step == 0 ==> Abs(s - t) <= Abs(m - t) && (m < s ==> Abs(s - t) < Abs(m - t))
  {
    var g := GridIndex(t, base, step);
    var b := base / step;
    assert base == b * step;
    var s := base + g * step;
    assert s == (b + g) * step;
    MulDiv(b + g, step);
    forall m | m % step == 0 ensures Abs(s - t) <= Abs(m - t) && (m < s ==> Abs(s - t) < Abs(m - t)) {
      var a := m / step;
      assert m == a * step;
      var k := a - b;
      assert m == base + k * step;
      GridNearest(t, base, step, k);
      if k >= g {
        if k > g { MulMonotone(g, k, step); }
        assert m >= s;
      }
    }
  }

  /** When the grid index of `t` is one of the first `|cands|` and the candidates are
      exactly those grid points, `Nearest` picks it. */
  lemma NearestIsGridPoint(cands: seq<int>, t: int, base: int, step: int)
    requires step > 0 && |cands| > 0
    requires forall i :: 0 <= i < |cands| ==> cands[i] == base + i * step
    requires 0 <= GridIndex(t, base, step) < |cands|
    ensures Nearest(cands, t) == base + GridIndex(t, base, step) * step
  {
    var ds := seq(|cands|, i requires 0 <= i < |cands| => Abs(cands[i] - t));
    var g := GridIndex(t, base, step);
    forall j | 0 <= j < |cands| ensures ds[g] <= ds[j] && (j < g ==> ds[g] < ds[j]) {
      GridNearest(t, base, step, j);
    }
    FirstArgMinUnique(ds, g);
  }

  // ---- snapping the start to a RIB time (`set_urls`) ----

  /** RIS dumps a RIB every 8 hours, RouteViews every 2 hours; the candidate list covers
      three days either way. */
  function RibStep(projects: set<Project>): int {
    if RIS in projects then 8 * 3600 else 2 * 3600
  }

  function RibCandidateCount(projects: set<Project>): nat {
    if RIS in projects then 10 else 50
  }

  /** `datetime(ts.year, ts.month, ts.day)`. */
  function StartOfDay(t: int): int {
    t - t % 86400
  }

  /** Midnight of the previous day plus multiples of the RIB step. */
  function StartCandidates(t: int, projects: set<Project>): (r: seq<int>)
    ensures |r| == RibCandidateCount(projects)
  {
    seq(RibCandidateCount(projects), i => StartOfDay(t) - 86400 + i * RibStep(projects))
  }

  function SnapStart(t: int, projects: set<Project>): int {
    Nearest(StartCandidates(t, projects), t)
  }

  /** Midnight of the previous day is on both RIB grids, and the requested start lies less
      than two days after it. */
  lemma StartGrid(t: int, step: int)
    requires step == 28800 || step == 7200
    ensures (StartOfDay(t) - 86400) % step == 0
    ensures 0 <= GridIndex(t, StartOfDay(t) - 86400, step) <= 172800 / step
  {
    var d := t / 86400;
    var base := StartOfDay(t) - 86400;
    assert base == (d - 1) * 86400;
    assert 86400 <= t - base < 172800;
    if step == 28800 {
      ModUnique(base, 28800, 3 * (d - 1), 0);
    } else {
      ModUnique(base, 7200, 12 * (d - 1), 0);
    }
  }

  /** The snapped start is the RIB time nearest to the requested start, the earlier one
      on a tie: it is on the RIB grid, within half a step, no RIB time is nearer, and no
      earlier RIB time is as near. */
  lemma SnapStartNearest(t: int, projects: set<Project>)
    ensures var s := SnapStart(t, projects);
            var step := RibStep(projects);
            && s % step == 0
            && 2 * Abs(s - t) <= step
            && forall m :: m % step == 0 ==> Abs(s - t) <= Abs(m - t) && (m < s ==> Abs(s - t) < Abs(m - t))
  {
    var step := RibStep(projects);
    var base := StartOfDay(t) - 86400;
    var g := GridIndex(t, base, step);
    StartGrid(t, step);
    NearestIsGridPoint(StartCandidates(t, projects), t, base, step);
    GridNearest(t, base, step, g);
    NearestMultiple(t, base, step);
  }

  // ---- snapping the end to an update time ----

  /** `datetime(ts.year, ts.month, ts.day, ts.hour)`. */
  function StartOfHour(t: int): int {
    t - t % 3600
  }

  /** The start of the previous hour plus multiples of the RouteViews update period. */
  function EndCandidates(t: int): (r: seq<int>)
    ensures |r| == 10
  {
    seq(10, i => StartOfHour(t) - 3600 + i * 900)
  }

  function SnapEnd(t: int): int {
    Nearest(EndCandidates(t), t)
  }

  /** The snapped end is the quarter hour nearest to the requested end, the earlier one
      on a tie. */
  lemma SnapEndNearest(t: int)
    ensures var s := SnapEnd(t);
            && s % RvUpdateRes == 0
            && 2 * Abs(s - t) <= RvUpdateRes
            && forall m :: m % RvUpdateRes == 0 ==>
                 Abs(s - t) <= Abs(m - t) && (m < s ==> Abs(s - t) < Abs(m - t))
  {
    var step := RvUpdateRes;
    var base := StartOfHour(t) - 3600;
    var g := GridIndex(t, base, step);
    assert step == 900;
    var h := t / 3600;
    assert base == (4 * (h - 1)) * 900 + 0;
    ModUnique(base, 900, 4 * (h - 1), 0);
    var off := t - base;
    assert 3600 <= off < 7200;
    ModUnique(off, 900, off / 900, off % 900);
    assert 4 <= off / 900 < 8;
    assert 0 <= g < 10;
    NearestIsGridPoint(EndCandidates(t), t, base, step);
    GridNearest(t, base, step, g);
    NearestMultiple(t, base, step);
  }

  // ---- update times and checkpoints: arithmetic progressions ----

  /** `[a + i * d for i in range(lo, hi + 1)]`. */
  function Progression(a: int, d: int, lo: int, hi: int): (r: seq<int>)
    ensures |r| == if hi >= lo then hi - lo + 1 else 0
  {
    seq(if hi >= lo then hi - lo + 1 else 0, i => a + (lo + i) * d)
  }

  /** A progression with a positive difference rises by `d` at each step, and holds
      exactly the points of the grid through `a` between its two ends. */
  lemma ProgressionShape(a: int, d: int, lo: int, hi: int)
    requires d > 0
    ensures var r := Progression(a, d, lo, hi);
            && (forall i :: 0 <= i < |r| - 1 ==> r[i + 1] == r[i] + d)
            && (lo <= hi ==> r[0] == a + lo * d && r[|r| - 1] == a + hi * d)
            && forall t :: t in r <==> (t - a) % d == 0 && a + lo * d <= t <= a + hi * d
  {
    var r := Progression(a, d, lo, hi);
    forall i | 0 <= i < |r| - 1 ensures r[i + 1] == r[i] + d {
      assert (lo + i + 1) * d == (lo + i) * d + d;
    }
    forall t ensures t in r <==> (t - a) % d == 0 && a + lo * d <= t <= a + hi * d {
      if t in r {
        var i :| 0 <= i < |r| && r[i] == t;
        MulDiv(lo + i, d);
        assert t - a == (lo + i) * d;
        if i > 0 { MulMonotone(lo, lo + i, d); }
        if lo + i < hi { MulMonotone(lo + i, hi, d); }
      }
      if (t - a) % d == 0 && a + lo * d <= t <= a + hi * d {
        var k := (t - a) / d;
        assert t - a == k * d;
        if k < lo { MulMonotone(k, lo, d); }
        if k > hi { MulMonotone(hi, k, d); }
        assert r[k - lo] == t;
      }
    }
  }

  function UpdateRes(p: Project): nat {
    match p
    case RIS => RisUpdateRes
    case RV => RvUpdateRes
  }

  /** `floor((end - start) / R) + 1`; Python's floor agrees with Dafny's division by a
      positive divisor. */
  function UpdatesNumber(start: int, end: int, res: int): int
    requires res > 0
  {
    (end - start) / res + 1
  }

  /** `[start + i * R for i in range(-1, n + 2)]`. */
  function UpdateTimes(start: int, end: int, res: int): seq<int>
    requires res > 0
  {
    Progression(start, res, -1, UpdatesNumber(start, end, res) + 1)
  }

  /** The update times rise by the resolution and are exactly the points of the grid
      through `start` from one period before `start` to `n + 1` periods after it; when
      `start <= end` they reach past `end` by more than a period. */
  lemma UpdateTimesShape(start: int, end: int, res: int)
    requires res > 0
    ensures var r := UpdateTimes(start, end, res);
            var n := UpdatesNumber(start, end, res);
            && (forall i :: 0 <= i < |r| - 1 ==> r[i + 1] == r[i] + res)
            && (forall t :: t in r <==> (t - start) % res == 0 && start - res <= t <= start + (n + 1) * res)
            && (start <= end ==> |r| >= 3 && r[0] == start - res && r[|r| - 1] > end + res)
  {
    var n := UpdatesNumber(start, end, res);
    ProgressionShape(start, res, -1, n + 1);
    if start <= end {
      LastUpdatePastEnd(start, end, res);
    }
  }

  lemma LastUpdatePastEnd(start: int, end: int, res: int)
    requires res > 0 && start <= end
    ensures UpdatesNumber(start, end, res) >= 1
    ensures start + (UpdatesNumber(start, end, res) + 1) * res > end + res
  {
    var q := (end - start) / res;
    assert end - start == q * res + (end - start) % res;
    if q < 0 { MulBelow(q, res); }
    assert (q + 2) * res == q * res + 2 * res;
  }

  /** `int(a / b)`: the quotient truncated toward zero. */
  function TruncDiv(a: int, b: int): (q: int)
    requires b != 0
  {
    var m := Abs(a) / Abs(b);
    if (a < 0) != (b < 0) then -m else m
  }

  /** `[start + i * interval for i in range(1, int((end - start) / interval) + 1)]`; a zero
      interval raises ZeroDivisionError. */
  function Checkpoints(start: int, end: int, interval: int): (r: Result<seq<int>>)
    ensures r.Err? <==> interval == 0
    ensures r.Err? ==> r.error == ZeroDivisionError
  {
    if interval == 0 then Err(ZeroDivisionError)
    else Ok(Progression(start, interval, 1, TruncDiv(end - start, interval)))
  }

  /** With a positive interval the checkpoints rise by the interval, and they are exactly
      the times after `start`, up to and including `end`, that are a whole number of
      intervals after `start`. */
  lemma CheckpointsWithin(start: int, end: int, interval: int)
    requires interval > 0
    ensures Checkpoints(start, end, interval).Ok?
    ensures var cs := Checkpoints(start, end, interval).value;
            && (forall i :: 0 <= i < |cs| - 1 ==> cs[i + 1] == cs[i] + interval)
            && forall t :: t in cs <==> start < t <= end && (t - start) % interval == 0
  {
    var m := TruncDiv(end - start, interval);
    ProgressionShape(start, interval, 1, m);
    var cs := Checkpoints(start, end, interval).value;
    forall t ensures t in cs <==> start < t <= end && (t - start) % interval == 0 {
      if (t - start) % interval == 0 {
        CheckpointBounds(start, end, interval, t);
      }
    }
  }

  /** A time a whole number of intervals after `start` lies between the ends of the
      checkpoint progression exactly when it lies in the window `(start, end]`. */
  lemma CheckpointBounds(start: int, end: int, interval: int, t: int)
    requires interval > 0 && (t - start) % interval == 0
    ensures var m := TruncDiv(end - start, interval);
            start + 1 * interval <= t <= start + m * interval <==> start < t <= end
  {
    var m := TruncDiv(end - start, interval);
    var k := (t - start) / interval;
    assert t - start == k * interval;
    if end >= start {
      assert m == (end - start) / interval;
      assert end - start == m * interval + (end - start) % interval;
    } else {
      assert m <= 0;
      if m < 0 { MulBelow(m, interval); }
    }
    if k < 1 { MulBelow(k - 1, interval); assert k * interval <= 0 by { if k < 0 { MulBelow(k, interval); } } }
    if k > 1 { MulMonotone(1, k, interval); }
    if k > m { MulMonotone(m, k, interval); }
    if k < m { MulMonotone(k, m, interval); }
  }

  // ---- whether the end is a RIB time (`set_urls`) ----

  /** `ts.minute` and `ts.hour`. */
  function MinuteOf(t: int): int {
    (t % 3600) / 60
  }

  function HourOf(t: int): int {
    (t % 86400) / 3600
  }

  /** `ts_end.minute == 0 and ts_end.hour % 8 == 0`. */
  predicate RisRibTime(t: int) {
    MinuteOf(t) == 0 && HourOf(t) % 8 == 0
  }

  /** `ts_end.minute == 0 and ts_end.hour % 2 == 0`. */
  predicate RvRibTime(t: int) {
    MinuteOf(t) == 0 && HourOf(t) % 2 == 0
  }

  /** On whole minutes, which the snapped end always is, the RIS test holds exactly on
      the 8-hour grid and the RouteViews test exactly on the 2-hour grid. */
  lemma RibTimeOnGrid(t: int)
    requires t % 60 == 0
    ensures RisRibTime(t) <==> t % 28800 == 0
    ensures RvRibTime(t) <==> t % 7200 == 0
  {
    MinuteGrid(t);
    if t % 3600 == 0 {
      HourGrid(t);
    } else {
      ModUnique(t, 3600, (t / 28800) * 8 + ((t % 28800) / 3600), (t % 28800) % 3600);
      ModUnique(t, 3600, (t / 7200) * 2 + ((t % 7200) / 3600), (t % 7200) % 3600);
    }
  }

  /** On whole minutes, the minute field is zero exactly on whole hours. */
  lemma MinuteGrid(t: int)
    requires t % 60 == 0
    ensures MinuteOf(t) == 0 <==> t % 3600 == 0
  {
    var q, r := t / 3600, t % 3600;
    var s := t / 60;
    assert r == (s - 60 * q) * 60 + 0;
    ModUnique(r, 60, s - 60 * q, 0);
  }

  /** On whole hours, the hour field is a multiple of 8 (of 2) exactly on the 8-hour
      (2-hour) grid. */
  lemma HourGrid(t: int)
    requires t % 3600 == 0
    ensures HourOf(t) % 8 == 0 <==> t % 28800 == 0
    ensures HourOf(t) % 2 == 0 <==> t % 7200 == 0
  {
    var h := t / 3600;
    assert t == h * 3600;
    var d, e := h / 24, h % 24;
    ModUnique(t, 86400, d, 3600 * e);
    ModUnique(3600 * e, 3600, e, 0);
    assert HourOf(t) == e;
    ModUnique(t, 28800, h / 8, 3600 * (h % 8));
    ModUnique(t, 7200, h / 2, 3600 * (h % 2));
    ModUnique(h, 8, 3 * d + e / 8, e % 8);
    ModUnique(h, 2, 12 * d + e / 2, e % 2);
  }

  /** The `compare` flag set by the collector loop of `set_urls`: an "rrc" collector sets
      it at a RIS RIB time; a "route-views" collector at a RouteViews RIB time sets it when
      only one project is in use, and raises TypeError (`self.ts_end % 8` on a datetime)
      when both are. */
  method CompareFlag(collectors: seq<string>, projects: set<Project>, tsEnd: int) returns (r: Result<bool>)
    ensures r.Err? <==> |projects| == 2 && RvRibTime(tsEnd)
                        && exists i :: 0 <= i < |collectors| && StartsWith(collectors[i], "route-views")
    ensures r.Err? ==> r.error == TypeError
    ensures r.Ok? ==> (r.value <==>
              (RisRibTime(tsEnd) && exists i :: 0 <= i < |collectors| && StartsWith(collectors[i], "rrc"))
              || (RvRibTime(tsEnd) && |projects| == 1
                  && exists i :: 0 <= i < |collectors| && StartsWith(collectors[i], "route-views")))
  {
    var compare := false;
    var i := 0;
    while i < |collectors|
      invariant 0 <= i <= |collectors|
      invariant !(|projects| == 2 && RvRibTime(tsEnd) && exists j :: 0 <= j < i && StartsWith(collectors[j], "route-views"))
      invariant compare <==>
                  (RisRibTime(tsEnd) && exists j :: 0 <= j < i && StartsWith(collectors[j], "rrc"))
                  || (RvRibTime(tsEnd) && |projects| == 1
                      && exists j :: 0 <= j < i && StartsWith(collectors[j], "route-views"))
    {
      var rc := collectors[i];
      if StartsWith(rc, "rrc") && MinuteOf(tsEnd) == 0 && HourOf(tsEnd) % 8 == 0 {
        compare := true;
      }
      if StartsWith(rc, "route-views") && MinuteOf(tsEnd) == 0 && HourOf(tsEnd) % 2 == 0 {
        if |projects| == 1 {
          compare := true;
        } else if |projects| == 2 {
          return Err(TypeError);
        }
      }
      i := i + 1;
    }
    r := Ok(compare);
  }

  /** With both projects, a RouteViews collector makes `CompareFlag` raise at every
      RouteViews RIB time, midnight included, where both projects publish RIBs. */
  lemma CompareFlagRaisesAtMidnight()
    ensures var projects: set<Project> := {RIS, RV};
            |projects| == 2 && RvRibTime(0) && RisRibTime(0) && StartsWith("route-views2", "route-views")
  {
    assert |{RIS, RV}| == 2;
  }

  /** The `compare` flag as the RouteViews branch evidently means it: with both projects,
      a "route-views" collector sets the flag when the end is also a RIS RIB time
      (`ts_end.hour % 8 == 0`), so the flag is set only at times when every collector of
      either project has a RIB file. */
  method CompareFlagIntended(collectors: seq<string>, projects: set<Project>, tsEnd: int) returns (compare: bool)
    ensures compare <==>
              (RisRibTime(tsEnd) && exists i :: 0 <= i < |collectors| && StartsWith(collectors[i], "rrc"))
              || (RvRibTime(tsEnd) && |projects| == 1
                  && exists i :: 0 <= i < |collectors| && StartsWith(collectors[i], "route-views"))
              || (RisRibTime(tsEnd) && |projects| == 2
                  && exists i :: 0 <= i < |collectors| && StartsWith(collectors[i], "route-views"))
    ensures compare && |projects| == 2 ==> RisRibTime(tsEnd) && RvRibTime(tsEnd)
  {
    compare := false;
    var i := 0;
    while i < |collectors|
      invariant 0 <= i <= |collectors|
      invariant compare <==>
                  (RisRibTime(tsEnd) && exists j :: 0 <= j < i && StartsWith(collectors[j], "rrc"))
                  || (RvRibTime(tsEnd) && |projects| == 1
                      && exists j :: 0 <= j < i && StartsWith(collectors[j], "route-views"))
                  || (RisRibTime(tsEnd) && |projects| == 2
                      && exists j :: 0 <= j < i && StartsWith(collectors[j], "route-views"))
    {
      var rc := collectors[i];
      if StartsWith(rc, "rrc") && MinuteOf(tsEnd) == 0 && HourOf(tsEnd) % 8 == 0 {
        compare := true;
      }
      if StartsWith(rc, "route-views") && MinuteOf(tsEnd) == 0 && HourOf(tsEnd) % 2 == 0 {
        if |projects| == 1 {
          compare := true;
        } else if |projects| == 2 && HourOf(tsEnd) % 8 == 0 {
          compare := true;
        }
      }
      i := i + 1;
    }
    RisRibIsRvRib(tsEnd);
  }

  /** The 8-hour RIS grid lies on the 2-hour RouteViews grid. */
  lemma RisRibIsRvRib(t: int)
    ensures RisRibTime(t) ==> RvRibTime(t)
  {
    if RisRibTime(t) {
      var h := HourOf(t);
      assert h % 8 == 0;
      assert h == 8 * (h / 8);
      assert h % 2 == (8 * (h / 8)) % 2;
    }
  }
}
