/**
 * Weather gap filling (parse_weather_data, interpolate_weather_points): samples are read in
 * order, and between two consecutive samples every missing minute gets a linearly
 * interpolated point. Also the shape of scale_weather_data.
 */
module Weather {
  import opened Wrappers
  import opened Time
  import opened Entities
  import Sets

  /** a + f * (b - a): the value a fraction f of the way from a to b. */
  function Lerp(a: real, b: real, f: real): (r: real)
    ensures f == 0.0 ==> r == a
    ensures f == 1.0 ==> r == b
  {
    a + f * (b - a)
  }

  lemma ProductNonnegative(x: real, y: real)
    requires x >= 0.0 && y >= 0.0
    ensures x * y >= 0.0
  {
  }

  lemma LerpUp(a: real, b: real, f: real)
    requires 0.0 <= f <= 1.0 && a <= b
    ensures a <= Lerp(a, b, f) <= b
  {
    var d := b - a;
    ProductNonnegative(f, d);
    ProductNonnegative(1.0 - f, d);
    assert (1.0 - f) * d == d - f * d;
  }

  /** For a fraction in [0, 1] the result lies between the two ends. */
  lemma LerpWithin(a: real, b: real, f: real)
    requires 0.0 <= f <= 1.0
    ensures a <= Lerp(a, b, f) <= b || b <= Lerp(a, b, f) <= a
  {
    if a <= b {
      LerpUp(a, b, f);
    } else {
      LerpUp(b, a, 1.0 - f);
      assert Lerp(b, a, 1.0 - f) == Lerp(a, b, f);
    }
  }

  /** Every field of r lies between the same fields of a and b. */
  predicate Within(a: WeatherPoint, r: WeatherPoint, b: WeatherPoint)
  {
    var between := (x: real, y: real, z: real) => x <= y <= z || z <= y <= x;
    between(a.temperature, r.temperature, b.temperature) &&
    between(a.avgTemperature, r.avgTemperature, b.avgTemperature) &&
    between(a.minTemperature, r.minTemperature, b.minTemperature) &&
    between(a.maxTemperature, r.maxTemperature, b.maxTemperature) &&
    between(a.relHumidity, r.relHumidity, b.relHumidity) &&
    between(a.avgRelHumidity, r.avgRelHumidity, b.avgRelHumidity) &&
    between(a.minRelHumidity, r.minRelHumidity, b.minRelHumidity) &&
    between(a.maxRelHumidity, r.maxRelHumidity, b.maxRelHumidity) &&
    between(a.precipitation, r.precipitation, b.precipitation) &&
    between(a.windSpeed, r.windSpeed, b.windSpeed)
  }

  /** The point a fraction f of the way from a to b, field by field (interpolate_weather_points). */
  function Interpolate(a: WeatherPoint, b: WeatherPoint, f: real): (r: WeatherPoint)
    ensures f == 0.0 ==> r == a
    ensures f == 1.0 ==> r == b
    ensures 0.0 <= f <= 1.0 ==> Within(a, r, b)
  {
    if 0.0 <= f <= 1.0 then
      LerpWithin(a.temperature, b.temperature, f);
      LerpWithin(a.avgTemperature, b.avgTemperature, f);
      LerpWithin(a.minTemperature, b.minTemperature, f);
      LerpWithin(a.maxTemperature, b.maxTemperature, f);
      LerpWithin(a.relHumidity, b.relHumidity, f);
      LerpWithin(a.avgRelHumidity, b.avgRelHumidity, f);
      LerpWithin(a.minRelHumidity, b.minRelHumidity, f);
      LerpWithin(a.maxRelHumidity, b.maxRelHumidity, f);
      LerpWithin(a.precipitation, b.precipitation, f);
      LerpWithin(a.windSpeed, b.windSpeed, f);
      Lerps(a, b, f)
    else
      Lerps(a, b, f)
  }

  function Lerps(a: WeatherPoint, b: WeatherPoint, f: real): WeatherPoint
  {
    WeatherPoint(
      Lerp(a.temperature, b.temperature, f),
      Lerp(a.avgTemperature, b.avgTemperature, f),
      Lerp(a.minTemperature, b.minTemperature, f),
      Lerp(a.maxTemperature, b.maxTemperature, f),
      Lerp(a.relHumidity, b.relHumidity, f),
      Lerp(a.avgRelHumidity, b.avgRelHumidity, f),
      Lerp(a.minRelHumidity, b.minRelHumidity, f),
      Lerp(a.maxRelHumidity, b.maxRelHumidity, f),
      Lerp(a.precipitation, b.precipitation, f),
      Lerp(a.windSpeed, b.windSpeed, f))
  }

  type Sample = (Timestamp, WeatherPoint)
  type WeatherTable = map<Timestamp, WeatherPoint>

  /** A weather row after decoding: None when a cell is missing or does not parse. */
  type WeatherRow = Option<Sample>

  datatype WeatherError = UndecodableRow

  /** The point put at minute t between the samples (t1, w1) and (t2, w2). */
  function Between(t1: Timestamp, w1: WeatherPoint, t2: Timestamp, w2: WeatherPoint, t: Timestamp): WeatherPoint
    requires t1 < t < t2
  {
    Interpolate(w1, w2, (t - t1) as real / (t2 - t1) as real)
  }

  /** m with the synthetic points strictly between two samples, at fraction i / (t2 - t1) for minute t1 + i. */
  function Bridge(m: WeatherTable, prev: Sample, next: Sample): WeatherTable
  {
    m + map t | prev.0 < t < next.0 :: Between(prev.0, prev.1, next.0, next.1, t)
  }

  /** Samples in order: bridge from the previous sample, then store the sample itself. */
  function Fill(samples: seq<Sample>): WeatherTable
  {
    if samples == [] then map[]
    else
      var init := samples[..|samples| - 1];
      var x := samples[|samples| - 1];
      var m := Fill(init);
      (if init == [] then m else Bridge(m, init[|init| - 1], x))[x.0 := x.1]
  }

  /** The rows after the skipped first one, if all of them decode. */
  function Samples(rows: seq<WeatherRow>): (r: Option<seq<Sample>>)
    ensures r.Some? ==> |r.value| == if rows == [] then 0 else |rows| - 1
    ensures r.Some? ==> forall k :: 1 <= k < |rows| ==> rows[k] == Some(r.value[k - 1])
    ensures r.Some? <==> forall k :: 1 <= k < |rows| ==> rows[k].Some?
  {
    if |rows| <= 1 then Some([])
    else
      match Samples(rows[..|rows| - 1])
      case None => None
      case Some(s) =>
        match rows[|rows| - 1]
        case None => None
        case Some(x) =>
          assert forall k :: 1 <= k < |rows| - 1 ==> rows[k] == rows[..|rows| - 1][k];
          Some(s + [x])
  }

  /** What parse_weather_data returns: the filled table, or an error if any row it reads is bad. */
  function WeatherSeries(rows: seq<WeatherRow>): Result<WeatherTable, WeatherError>
  {
    match Samples(rows)
    case None => Err(UndecodableRow)
    case Some(s) => Ok(Fill(s))
  }

  lemma SamplesPrefix(rows: seq<WeatherRow>, k: nat)
    requires 1 <= k < |rows| && Samples(rows[..k]).Some?
    ensures Samples(rows[..k + 1]) ==
      if rows[k].Some? then Some(Samples(rows[..k]).value + [rows[k].value]) else None
  {
    assert rows[..k + 1][..k] == rows[..k];
  }

  /**
   * The source's loop. Its first row is skipped (`records.skip(1)` after the reader has already
   * consumed the header line).
   */
  method ParseWeatherData(rows: seq<WeatherRow>) returns (r: Result<WeatherTable, WeatherError>)
    ensures r == WeatherSeries(rows)
  {
    var data: WeatherTable := map[];
    var prev: Option<Sample> := None;
    if |rows| <= 1 {
      return Ok(data);
    }
    ghost var done: seq<Sample> := [];
    for k := 1 to |rows|
      invariant Samples(rows[..k]) == Some(done)
      invariant data == Fill(done)
      invariant prev == if done == [] then None else Some(done[|done| - 1])
    {
      SamplesPrefix(rows, k);
      if rows[k].None? {
        return Err(UndecodableRow);
      }
      var (t, w) := rows[k].value;
      if prev.Some? {
        data := BridgeGap(data, prev.value, (t, w));
      }
      data := data[t := w];
      prev := Some((t, w));
      ghost var d0 := done;
      done := done + [(t, w)];
      assert done[..|done| - 1] == d0;
    }
    assert rows[..|rows|] == rows;
    r := Ok(data);
  }

  /** Bridge, point by point. */
  lemma BridgeAt(r: WeatherTable, m: WeatherTable, prev: Sample, next: Sample)
    requires forall u :: u in r <==> u in m || prev.0 < u < next.0
    requires forall u :: prev.0 < u < next.0 ==> r[u] == Between(prev.0, prev.1, next.0, next.1, u)
    requires forall u :: u in m && !(prev.0 < u < next.0) ==> r[u] == m[u]
    ensures r == Bridge(m, prev, next)
  {
  }

  /** Minute i after the earlier sample lies i / (t2 - t1) of the way to the later one. */
  lemma BetweenAt(t1: Timestamp, w1: WeatherPoint, t2: Timestamp, w2: WeatherPoint, i: int)
    requires 0 < i < t2 - t1
    ensures Between(t1, w1, t2, w2, t1 + i) == Interpolate(w1, w2, i as real / (t2 - t1) as real)
  {
    assert (t1 + i) - t1 == i;
  }

  /** The table holds data and the bridged minutes pt + 1 .. pt + i - 1 of the gap from pt to t. */
  ghost predicate BridgedTo(r: WeatherTable, data: WeatherTable, pt: Timestamp, pw: WeatherPoint, t: Timestamp, w: WeatherPoint, i: int)
  {
    (forall u :: u in r <==> u in data || pt < u < pt + i) &&
    (forall u :: pt < u < pt + i && u < t ==> r[u] == Between(pt, pw, t, w, u)) &&
    (forall u :: u in data && !(pt < u < pt + i) ==> r[u] == data[u])
  }

  /** Bridging one more minute. */
  lemma BridgeStep(r: WeatherTable, data: WeatherTable, pt: Timestamp, pw: WeatherPoint, t: Timestamp, w: WeatherPoint, i: int)
    requires 0 < i < t - pt && BridgedTo(r, data, pt, pw, t, w, i)
    ensures BridgedTo(r[pt + i := Between(pt, pw, t, w, pt + i)], data, pt, pw, t, w, i + 1)
  {
  }

  /** The inner loop of parse_weather_data: minutes 1 .. minutes - 1 after the previous sample. */
  method BridgeGap(data: WeatherTable, prev: Sample, next: Sample) returns (r: WeatherTable)
    ensures r == Bridge(data, prev, next)
  {
    var pt, pw := prev.0, prev.1;
    var t, w := next.0, next.1;
    var minutes := t - pt;
    r := data;
    var last := if minutes < 1 then 1 else minutes;
    for i := 1 to last
      invariant pt + i <= t || i == 1
      invariant BridgedTo(r, data, pt, pw, t, w, i)
    {
      var fraction := i as real / minutes as real;
      BetweenAt(pt, pw, t, w, i);
      BridgeStep(r, data, pt, pw, t, w, i);
      r := r[pt + i := Interpolate(pw, w, fraction)];
    }
    BridgeAt(r, data, prev, next);
  }

  // ---------------------------------------------------------------------------
  // What the filled table holds when the samples come in strictly increasing time order.

  predicate Increasing(samples: seq<Sample>)
  {
    forall i, j :: 0 <= i < j < |samples| ==> samples[i].0 < samples[j].0
  }

  lemma FillSnoc(samples: seq<Sample>)
    requires |samples| >= 2
    ensures Fill(samples) ==
      Bridge(Fill(samples[..|samples| - 1]), samples[|samples| - 2], samples[|samples| - 1])[samples[|samples| - 1].0 := samples[|samples| - 1].1]
  {
  }

  /** Every minute from the first sample to the last is in the table, and nothing else. */
  lemma {:induction false} FillCovers(samples: seq<Sample>)
    requires samples != [] && Increasing(samples)
    ensures forall u :: u in Fill(samples) <==> samples[0].0 <= u <= samples[|samples| - 1].0
  {
    if |samples| >= 2 {
      var init := samples[..|samples| - 1];
      FillCovers(init);
      FillSnoc(samples);
    }
  }

  /** Each sample's own minute holds that sample's readings. */
  lemma {:induction false} FillKeepsSamples(samples: seq<Sample>, j: nat)
    requires j < |samples| && Increasing(samples)
    ensures samples[j].0 in Fill(samples) && Fill(samples)[samples[j].0] == samples[j].1
  {
    if j < |samples| - 1 {
      var init := samples[..|samples| - 1];
      FillKeepsSamples(init, j);
      FillSnoc(samples);
      assert init[j] == samples[j];
    }
  }

  /** A minute strictly between samples j and j + 1 holds their interpolation. */
  lemma {:induction false} FillInterpolates(samples: seq<Sample>, j: nat, u: Timestamp)
    requires j + 1 < |samples| && Increasing(samples)
    requires samples[j].0 < u < samples[j + 1].0
    ensures u in Fill(samples)
    ensures Fill(samples)[u] == Between(samples[j].0, samples[j].1, samples[j + 1].0, samples[j + 1].1, u)
  {
    var init := samples[..|samples| - 1];
    FillSnoc(samples);
    if j + 2 < |samples| {
      FillInterpolates(init, j, u);
      assert init[j] == samples[j] && init[j + 1] == samples[j + 1];
      FillCovers(init);
    }
  }

  /** With fractions in [0, 1], every synthetic point lies between its two samples. */
  lemma BetweenWithin(t1: Timestamp, w1: WeatherPoint, t2: Timestamp, w2: WeatherPoint, t: Timestamp)
    requires t1 < t < t2
    ensures Within(w1, Between(t1, w1, t2, w2, t), w2)
  {
    var f := (t - t1) as real / (t2 - t1) as real;
    assert 0.0 <= f <= 1.0;
  }

  // ---------------------------------------------------------------------------
  // scale_weather_data, for shape only: one fitted scaler per column, taken as given functions.

  datatype WeatherScalers = WeatherScalers(
    temperature: real -> real, avgTemperature: real -> real, minTemperature: real -> real,
    maxTemperature: real -> real, relHumidity: real -> real, avgRelHumidity: real -> real,
    minRelHumidity: real -> real, maxRelHumidity: real -> real, precipitation: real -> real,
    windSpeed: real -> real)

  function ScaleWeather(w: WeatherPoint, sc: WeatherScalers): WeatherPoint
  {
    WeatherPoint(
      sc.temperature(w.temperature), sc.avgTemperature(w.avgTemperature),
      sc.minTemperature(w.minTemperature), sc.maxTemperature(w.maxTemperature),
      sc.relHumidity(w.relHumidity), sc.avgRelHumidity(w.avgRelHumidity),
      sc.minRelHumidity(w.minRelHumidity), sc.maxRelHumidity(w.maxRelHumidity),
      sc.precipitation(w.precipitation), sc.windSpeed(w.windSpeed))
  }

  method ScaleWeatherData(data: WeatherTable, sc: WeatherScalers) returns (scaled: WeatherTable)
    ensures scaled.Keys == data.Keys
    ensures forall t :: t in data ==> scaled[t] == ScaleWeather(data[t], sc)
  {
    scaled := map[];
    var todo := data.Keys;
    while todo != {}
      invariant todo <= data.Keys
      invariant scaled.Keys == data.Keys - todo
      invariant forall t :: t in scaled ==> scaled[t] == ScaleWeather(data[t], sc)
      decreases todo
    {
      ghost var some := Sets.Member(todo);
      var t :| t in todo;
      scaled := scaled[t := ScaleWeather(data[t], sc)];
      todo := todo - {t};
    }
  }
}
