/** `ChannelHelper`: turning the archive's rows into (time, value) series,
    and aligning several series on one evenly spaced time axis.

    The Python class keeps only a database connection, which neither
    `getChannelData`'s conversion loop nor `align` updates, so the two
    operations are modelled as methods of this module. */
module ChannelHelper {
  import opened Results
  import opened Timestamps
  import opened Numeric

  /** One row of the archive query: `smpl_time` and `float_val`. */
  datatype Row = Row(time: DateTime, value: real)

  /** One row of the two-column array `getChannelData` returns: seconds and value. */
  datatype Sample = Sample(time: real, value: real)

  type Series = seq<Sample>

  /** The four hours `getChannelData` adds to correct for the offset from
      UTC, in microseconds. */
  const UtcCorrectionMicros: int := 4 * 3600 * 1000000

  /** `(time - datetime(1970, 1, 1) + timedelta(hours=4)).total_seconds()`:
      a row's time is its seconds since 1970-01-01 plus four hours. */
  function RowTime(t: DateTime): (seconds: real)
    ensures seconds == MicrosSinceEpoch(t) as real / 1000000.0 + 14400.0
  {
    (MicrosSinceEpoch(t) + UtcCorrectionMicros) as real / 1000000.0
  }

  /** The conversion keeps chronological order, in both directions. */
  lemma RowTimeOrder(a: DateTime, b: DateTime)
    requires Valid(a) && Valid(b)
    ensures Before(a, b) <==> RowTime(a) < RowTime(b)
  {
    MicrosMonotone(a, b);
  }

  /** The loop at the end of `getChannelData`: one sample per row, in query order. */
  method GetChannelData(rows: seq<Row>) returns (data: Series)
    ensures |data| == |rows|
    ensures forall i :: 0 <= i < |rows| ==> data[i] == Sample(RowTime(rows[i].time), rows[i].value)
  {
    data := [];
    for i := 0 to |rows|
      invariant |data| == i
      invariant forall j :: 0 <= j < i ==> data[j] == Sample(RowTime(rows[j].time), rows[j].value)
    {
      data := data + [Sample(RowTime(rows[i].time), rows[i].value)];
    }
  }

  function Times(s: Series): (ts: seq<real>)
    ensures |ts| == |s|
  {
    seq(|s|, i requires 0 <= i < |s| => s[i].time)
  }

  function Values(s: Series): (vs: seq<real>)
    ensures |vs| == |s|
  {
    seq(|s|, i requires 0 <= i < |s| => s[i].value)
  }

  /** Rows in chronological order (the query's `ORDER BY smpl_time`). */
  ghost predicate Chronological(rows: seq<Row>) {
    forall i, j :: 0 <= i < j < |rows| ==> !Before(rows[j].time, rows[i].time)
  }

  /** Rows fetched in chronological order give a series whose times never
      go down, which is what `numpy.interp` expects of its knots. */
  lemma ConvertedTimesSorted(rows: seq<Row>, data: Series)
    requires forall i :: 0 <= i < |rows| ==> Valid(rows[i].time)
    requires Chronological(rows)
    requires |data| == |rows|
    requires forall i :: 0 <= i < |rows| ==> data[i] == Sample(RowTime(rows[i].time), rows[i].value)
    ensures NonDecreasing(Times(data))
  {
    forall i, j | 0 <= i < j < |data| ensures Times(data)[i] <= Times(data)[j] {
      RowTimeOrder(rows[j].time, rows[i].time);
    }
  }

  /** The initial `latest_start`: `timedelta.min.total_seconds()`, i.e. -999999999 days. */
  const LatestStartInit: real := -86399999913600.0
  /** The initial `earliest_stop`: `timedelta.max.total_seconds()`, i.e.
      999999999 days, 86399 seconds and 999999 microseconds. */
  const EarliestStopInit: real := 86399999999999.999999

  /** Every time a valid datetime converts to lies strictly between the two
      initial values, so the first series always replaces both. */
  lemma RowTimeInsideSentinels(t: DateTime)
    requires Valid(t)
    ensures LatestStartInit < RowTime(t) < EarliestStopInit
  {
    SecondOfDayBounds(t);
  }

  predicate AllNonEmpty(ss: seq<Series>) {
    forall k :: 0 <= k < |ss| ==> |ss[k]| > 0
  }

  ghost predicate InsideSentinels(ss: seq<Series>) {
    forall k, i :: 0 <= k < |ss| && 0 <= i < |ss[k]| ==> LatestStartInit < ss[k][i].time < EarliestStopInit
  }

  /** `max_len` after the first loop of `align`. */
  function MaxLen(ss: seq<Series>): nat {
    if ss == [] then 0
    else
      var m := MaxLen(ss[..|ss| - 1]);
      var length := |ss[|ss| - 1]|;
      if length > m then length else m
  }

  /** `latest_start` after the first loop of `align`, starting from `timedelta.min`. */
  function LatestStart(ss: seq<Series>): real
    requires AllNonEmpty(ss)
  {
    if ss == [] then LatestStartInit
    else
      var prefix := ss[..|ss| - 1];
      assert forall k :: 0 <= k < |ss| - 1 ==> ss[k] == prefix[k];
      var latest := LatestStart(prefix);
      var curStart := ss[|ss| - 1][0].time;
      if curStart > latest then curStart else latest
  }

  /** `earliest_stop` after the first loop of `align`, starting from `timedelta.max`. */
  function EarliestStop(ss: seq<Series>): real
    requires AllNonEmpty(ss)
  {
    if ss == [] then EarliestStopInit
    else
      var prefix := ss[..|ss| - 1];
      assert forall k :: 0 <= k < |ss| - 1 ==> ss[k] == prefix[k];
      var earliest := EarliestStop(prefix);
      var last := ss[|ss| - 1];
      var curStop := last[|last| - 1].time;
      if curStop < earliest then curStop else earliest
  }

  /** `max_len` is the length of the longest series (0 for no series). */
  lemma {:induction false} MaxLenIsLongest(ss: seq<Series>)
    ensures forall k :: 0 <= k < |ss| ==> |ss[k]| <= MaxLen(ss)
    ensures ss != [] ==> exists k :: 0 <= k < |ss| && |ss[k]| == MaxLen(ss)
    ensures ss == [] ==> MaxLen(ss) == 0
  {
    if ss != [] {
      var prefix := ss[..|ss| - 1];
      var last := |ss| - 1;
      MaxLenIsLongest(prefix);
      assert forall k :: 0 <= k < |prefix| ==> ss[k] == prefix[k];
      if |ss[last]| >= MaxLen(prefix) {
        assert |ss[last]| == MaxLen(ss);
      } else {
        assert prefix != [];
        var k :| 0 <= k < |prefix| && |prefix[k]| == MaxLen(prefix);
        assert |ss[k]| == MaxLen(ss);
      }
    }
  }

  /** `latest_start` is at least every first timestamp above `timedelta.min`,
      and is either that sentinel or one of the first timestamps. */
  lemma {:induction false} LatestStartIsLatest(ss: seq<Series>)
    requires AllNonEmpty(ss)
    ensures forall k :: 0 <= k < |ss| ==> ss[k][0].time <= LatestStart(ss) || ss[k][0].time <= LatestStartInit
    ensures LatestStart(ss) == LatestStartInit || exists k :: 0 <= k < |ss| && ss[k][0].time == LatestStart(ss)
    ensures LatestStart(ss) >= LatestStartInit
  {
    if ss != [] {
      var prefix := ss[..|ss| - 1];
      assert forall k :: 0 <= k < |prefix| ==> ss[k] == prefix[k];
      LatestStartIsLatest(prefix);
    }
  }

  /** `earliest_stop` is at most every last timestamp below `timedelta.max`,
      and is either that sentinel or one of the last timestamps. */
  lemma {:induction false} EarliestStopIsEarliest(ss: seq<Series>)
    requires AllNonEmpty(ss)
    ensures forall k :: 0 <= k < |ss| ==> EarliestStop(ss) <= ss[k][|ss[k]| - 1].time || EarliestStopInit <= ss[k][|ss[k]| - 1].time
    ensures EarliestStop(ss) == EarliestStopInit || exists k :: 0 <= k < |ss| && ss[k][|ss[k]| - 1].time == EarliestStop(ss)
    ensures EarliestStop(ss) <= EarliestStopInit
  {
    if ss != [] {
      var prefix := ss[..|ss| - 1];
      assert forall k :: 0 <= k < |prefix| ==> ss[k] == prefix[k];
      EarliestStopIsEarliest(prefix);
    }
  }

  /** One iteration of the first loop of `align`. */
  lemma FoldStep(ss: seq<Series>, k: nat)
    requires k < |ss| && AllNonEmpty(ss[..k]) && |ss[k]| > 0
    ensures AllNonEmpty(ss[..k + 1])
    ensures MaxLen(ss[..k + 1]) == if |ss[k]| > MaxLen(ss[..k]) then |ss[k]| else MaxLen(ss[..k])
    ensures LatestStart(ss[..k + 1]) ==
      if ss[k][0].time > LatestStart(ss[..k]) then ss[k][0].time else LatestStart(ss[..k])
    ensures EarliestStop(ss[..k + 1]) ==
      if ss[k][|ss[k]| - 1].time < EarliestStop(ss[..k]) then ss[k][|ss[k]| - 1].time else EarliestStop(ss[..k])
  {
    assert ss[..k + 1][..k] == ss[..k];
    assert forall j :: 0 <= j < k ==> ss[..k + 1][j] == ss[..k][j];
  }

  /** For series of real timestamps the window is the intersection of the
      series' own ranges: the latest first time and the earliest last time,
      each attained by some series. */
  lemma WindowIsIntersection(ss: seq<Series>)
    requires AllNonEmpty(ss) && InsideSentinels(ss) && ss != []
    ensures forall k :: 0 <= k < |ss| ==> ss[k][0].time <= LatestStart(ss)
    ensures exists k :: 0 <= k < |ss| && ss[k][0].time == LatestStart(ss)
    ensures forall k :: 0 <= k < |ss| ==> EarliestStop(ss) <= ss[k][|ss[k]| - 1].time
    ensures exists k :: 0 <= k < |ss| && ss[k][|ss[k]| - 1].time == EarliestStop(ss)
  {
    LatestStartIsLatest(ss);
    EarliestStopIsEarliest(ss);
    assert LatestStartInit < ss[0][0].time;
    assert ss[0][|ss[0]| - 1].time < EarliestStopInit;
  }

  /** `np.interp(new_time, time_array, value_array)` for one series: one
      value per axis point, never outside the range of the series' values. */
  function Resample(s: Series, axis: seq<real>): (r: seq<real>)
    requires |s| > 0
    ensures |r| == |axis|
    ensures forall i :: 0 <= i < |r| ==> MinOf(Values(s)) <= r[i] <= MaxOf(Values(s))
  {
    seq(|axis|, i requires 0 <= i < |axis| => Interp(Times(s), Values(s), axis[i]))
  }

  /** `time_value_array[:, 0]` on a series with no rows (a one-dimensional
      empty array) raises `IndexError`; `index` is the position of that
      series among the arguments. */
  datatype AlignError = EmptySeries(index: nat)

  /** The window `align` settles on, and the series it resamples onto it. */
  datatype Aligned = Aligned(axis: seq<real>, arrays: seq<seq<real>>)

  /** The first series, in argument order, that has no rows. */
  predicate FirstEmpty(ss: seq<Series>, k: int) {
    0 <= k < |ss| && |ss[k]| == 0 && AllNonEmpty(ss[..k])
  }

  /** The first loop of `ChannelHelper.align`: one pass over the series for
      the longest length, the latest first time and the earliest last time,
      failing at the first series without rows. */
  method Scan(series: seq<Series>) returns (r: Result<(nat, real, real), AlignError>)
    ensures r.Err? <==> !AllNonEmpty(series)
    ensures r.Err? ==> FirstEmpty(series, r.error.index)
    ensures r.Ok? ==> r.value == (MaxLen(series), LatestStart(series), EarliestStop(series))
  {
    var maxLen := 0;
    var latestStart := LatestStartInit;
    var earliestStop := EarliestStopInit;
    for k := 0 to |series|
      invariant AllNonEmpty(series[..k])
      invariant maxLen == MaxLen(series[..k])
      invariant latestStart == LatestStart(series[..k])
      invariant earliestStop == EarliestStop(series[..k])
    {
      var length := |series[k]|;
      if length == 0 {
        assert FirstEmpty(series, k);
        return Err(EmptySeries(k));
      }
      FoldStep(series, k);
      if length > maxLen {
        maxLen := length;
      }
      var curStart := series[k][0].time;
      var curStop := series[k][length - 1].time;
      if curStart > latestStart {
        latestStart := curStart;
      }
      if curStop < earliestStop {
        earliestStop := curStop;
      }
    }
    assert series[..|series|] == series;
    return Ok((maxLen, latestStart, earliestStop));
  }

  /** `ChannelHelper.align`: one pass for the longest length and the
      overlap window, an evenly spaced axis of that many points over the
      window, then every series interpolated onto the axis, in argument
      order. A series without rows makes it fail. */
  method Align(series: seq<Series>) returns (r: Result<Aligned, AlignError>)
    ensures r.Err? <==> !AllNonEmpty(series)
    ensures r.Err? ==> FirstEmpty(series, r.error.index)
    ensures r.Ok? ==> |r.value.axis| == MaxLen(series)
    ensures r.Ok? ==> r.value.axis == Linspace(LatestStart(series), EarliestStop(series), MaxLen(series))
    ensures r.Ok? ==> |r.value.arrays| == |series|
    ensures r.Ok? ==> forall k :: 0 <= k < |series| ==> r.value.arrays[k] == Resample(series[k], r.value.axis)
  {
    var window := Scan(series);
    if window.Err? {
      return Err(window.error);
    }
    var (maxLen, latestStart, earliestStop) := window.value;
    var axis := Linspace(latestStart, earliestStop, maxLen);
    var aligned := [];
    for k := 0 to |series|
      invariant |aligned| == k
      invariant forall j :: 0 <= j < k ==> aligned[j] == Resample(series[j], axis)
    {
      aligned := aligned + [Resample(series[k], axis)];
    }
    return Ok(Aligned(axis, aligned));
  }

  /** Resampling a series at its own (strictly increasing) timestamps gives
      back its values: aligning data already on the axis changes nothing. */
  lemma ResampleOwnTimes(s: Series)
    requires |s| > 0 && StrictlyIncreasing(Times(s))
    ensures Resample(s, Times(s)) == Values(s)
  {
    forall i | 0 <= i < |s| ensures Resample(s, Times(s))[i] == Values(s)[i] {
      InterpAtKnot(Times(s), Values(s), i);
    }
  }

  /** When the series overlap in time, every axis point lies inside every
      series' own time range, so no series is clamped: each value is a
      genuine blend of two of its samples. */
  lemma OverlapMeansNoClamping(series: seq<Series>, axis: seq<real>)
    requires AllNonEmpty(series) && InsideSentinels(series) && series != []
    requires LatestStart(series) <= EarliestStop(series)
    requires axis == Linspace(LatestStart(series), EarliestStop(series), MaxLen(series))
    ensures forall k, i :: 0 <= k < |series| && 0 <= i < |axis| ==>
      series[k][0].time <= axis[i] <= series[k][|series[k]| - 1].time
  {
    WindowIsIntersection(series);
    LinspaceWithin(LatestStart(series), EarliestStop(series), MaxLen(series));
  }
}
