/**
 * Sensor snapshot accumulation (parse_sensor_data): each decoded reading finds or creates the
 * snapshot of its site within its minute's list and sets the one field the reading names.
 * Also the shape of scale_sensor_data.
 */
module Sensors {
  import opened Wrappers
  import opened Time
  import opened Entities
  import opened Codes
  import Sets

  /** A fresh snapshot: the site, every field unset. */
  function EmptySensor(l: Location): (s: Sensor)
    ensures s.location == l && forall q :: FieldOf(s, q) == None
  {
    Sensor(l, None, None, None, None, None, None, None, None)
  }

  /** Stores a reading in the field of its quantity. */
  function SetField(s: Sensor, v: SensorValue): (r: Sensor)
    ensures r.location == s.location
    ensures forall q :: FieldOf(r, q) == if q == v.quantity then Some(v.value) else FieldOf(s, q)
  {
    match v.quantity
    case DewPoint => s.(dewPoint := Some(v.value))
    case Luminance => s.(luminance := Some(v.value))
    case VocIndex => s.(vocIndex := Some(v.value))
    case Co2 => s.(co2 := Some(v.value))
    case AbsHumidity => s.(absHumidity := Some(v.value))
    case Rh => s.(rh := Some(v.value))
    case Temperature => s.(temperature := Some(v.value))
    case VecEqCo2 => s.(vecEqCo2 := Some(v.value))
  }

  /** At most one snapshot per site. */
  predicate UniqueLocations(list: seq<Sensor>)
  {
    forall i, j :: 0 <= i < j < |list| ==> list[i].location != list[j].location
  }

  /** The first snapshot of site l in a minute's list. */
  function Snapshot(list: seq<Sensor>, l: Location): (r: Option<Sensor>)
    ensures r.Some? <==> exists i :: 0 <= i < |list| && list[i].location == l
    ensures r.Some? ==> r.value in list && r.value.location == l
    ensures forall i :: (0 <= i < |list| && list[i].location == l &&
                         forall j :: 0 <= j < i ==> list[j].location != l) ==> r == Some(list[i])
  {
    if list == [] then None
    else if list[0].location == l then Some(list[0])
    else
      var r := Snapshot(list[1..], l);
      assert forall i :: 0 < i < |list| ==> list[i] == list[1..][i - 1];
      r
  }

  /** The list after one reading: update the site's snapshot in place, or append a new one. */
  function AddReading(list: seq<Sensor>, d: SensorData): seq<Sensor>
  {
    if list == [] then [SetField(EmptySensor(d.location), d.reading)]
    else if list[0].location == d.location then [SetField(list[0], d.reading)] + list[1..]
    else [list[0]] + AddReading(list[1..], d)
  }

  /**
   * One reading touches exactly its own site's snapshot: that snapshot (a fresh one when the site
   * had none) gets the reading's field set, every other site keeps its snapshot, and the list
   * still holds at most one snapshot per site.
   */
  lemma {:induction false} AddReadingEffect(list: seq<Sensor>, d: SensorData)
    ensures Snapshot(AddReading(list, d), d.location) ==
            Some(SetField(if Snapshot(list, d.location).Some? then Snapshot(list, d.location).value
                          else EmptySensor(d.location), d.reading))
    ensures forall l :: l != d.location ==> Snapshot(AddReading(list, d), l) == Snapshot(list, l)
    ensures UniqueLocations(list) ==> UniqueLocations(AddReading(list, d))
    ensures |AddReading(list, d)| == if Snapshot(list, d.location).Some? then |list| else |list| + 1
  {
    if list != [] && list[0].location != d.location {
      var rest := AddReading(list[1..], d);
      AddReadingEffect(list[1..], d);
      assert AddReading(list, d) == [list[0]] + rest;
      assert ([list[0]] + rest)[1..] == rest;
      assert forall l :: Snapshot(AddReading(list, d), l) == if list[0].location == l then Some(list[0]) else Snapshot(rest, l);
      if UniqueLocations(list) {
        forall i, j | 0 <= i < j < |[list[0]] + rest|
          ensures ([list[0]] + rest)[i].location != ([list[0]] + rest)[j].location
        {
          if i == 0 {
            HeadIsOnlyOne(list);
            assert rest[j - 1] in rest;
          } else {
            assert UniqueLocations(list[1..]);
          }
        }
      }
    } else if list != [] {
      var r := AddReading(list, d);
      assert r[1..] == list[1..];
      if UniqueLocations(list) {
        forall i, j | 0 <= i < j < |r| ensures r[i].location != r[j].location {
          assert r[j].location == list[j].location;
          assert i == 0 ==> r[i].location == list[0].location;
        }
      }
      forall l | l != d.location ensures Snapshot(r, l) == Snapshot(list, l) {
        assert Snapshot(r, l) == Snapshot(r[1..], l);
      }
    }
  }

  lemma HeadIsOnlyOne(list: seq<Sensor>)
    requires |list| > 0 && UniqueLocations(list)
    ensures Snapshot(list[1..], list[0].location).None?
  {
    forall k | 0 <= k < |list[1..]| ensures list[1..][k].location != list[0].location {
      assert list[1..][k] == list[k + 1];
    }
  }

  /** The source's update: search the list for the site's snapshot, then set the field. */
  method Accumulate(sensors: seq<Sensor>, d: SensorData) returns (r: seq<Sensor>)
    ensures r == AddReading(sensors, d)
  {
    var i := 0;
    while i < |sensors| && sensors[i].location != d.location
      invariant 0 <= i <= |sensors|
      invariant forall j :: 0 <= j < i ==> sensors[j].location != d.location
    {
      i := i + 1;
    }
    if i == |sensors| {
      r := sensors + [SetField(EmptySensor(d.location), d.reading)];
    } else {
      r := sensors[i := SetField(sensors[i], d.reading)];
    }
    AddReadingSplit(sensors, d, i);
  }

  lemma {:induction false} AddReadingSplit(list: seq<Sensor>, d: SensorData, i: nat)
    requires i <= |list| && forall j :: 0 <= j < i ==> list[j].location != d.location
    requires i < |list| ==> list[i].location == d.location
    ensures i == |list| ==> AddReading(list, d) == list + [SetField(EmptySensor(d.location), d.reading)]
    ensures i < |list| ==> AddReading(list, d) == list[i := SetField(list[i], d.reading)]
  {
    if i > 0 {
      AddReadingSplit(list[1..], d, i - 1);
      if i == |list| {
        assert [list[0]] + (list[1..] + [SetField(EmptySensor(d.location), d.reading)])
            == list + [SetField(EmptySensor(d.location), d.reading)];
      } else {
        assert [list[0]] + list[1..][i - 1 := SetField(list[i], d.reading)] == list[i := SetField(list[i], d.reading)];
      }
    } else if i < |list| {
      assert [SetField(list[0], d.reading)] + list[1..] == list[0 := SetField(list[0], d.reading)];
    }
  }

  // ---------------------------------------------------------------------------
  // The per-minute table built from all rows.

  /** The four cells of a sensor row (time, field name, sensor id, value). */
  datatype SensorCells = SensorCells(time: Field<Timestamp>, field: Option<string>, sensorId: Option<string>, value: Field<real>)

  /** A row as the CSV reader yields it: None when the record itself could not be read. */
  type SensorRow = Option<SensorCells>

  /** One record decoded; a record the reader could not read is skipped like a bad row. */
  function Decode(row: SensorRow): Result<(Timestamp, SensorData), SensorRowError>
  {
    match row
    case None => Err(UnreadableRecord)
    case Some(c) => DecodeSensorRow(c.time, c.field, c.sensorId, c.value)
  }

  type SensorTable = map<Timestamp, seq<Sensor>>

  type Decoded = Result<(Timestamp, SensorData), SensorRowError>

  /** The rows decoded one by one. */
  function DecodeAll(rows: seq<SensorRow>): (ds: seq<Decoded>)
    ensures |ds| == |rows|
  {
    seq(|rows|, i requires 0 <= i < |rows| => Decode(rows[i]))
  }

  /** The table after the decoded rows in order, errors skipped. */
  function Table(ds: seq<Decoded>): SensorTable
  {
    if ds == [] then map[]
    else
      var m := Table(ds[..|ds| - 1]);
      var r := ds[|ds| - 1];
      if r.Err? then m
      else
        var (t, d) := r.value;
        m[t := AddReading(if t in m then m[t] else [], d)]
  }

  /** The table after the rows in order, undecodable rows skipped. */
  function Readings(rows: seq<SensorRow>): SensorTable
  {
    Table(DecodeAll(rows))
  }

  method ParseSensorData(rows: seq<SensorRow>) returns (data: SensorTable)
    ensures data == Readings(rows)
  {
    ghost var ds := DecodeAll(rows);
    data := map[];
    for i := 0 to |rows|
      invariant data == Table(ds[..i])
    {
      assert ds[..i + 1][..i] == ds[..i];
      var row := Decode(rows[i]);
      assert row == ds[i];
      if row.Ok? {
        var (t, d) := row.value;
        var sensors := if t in data then data[t] else [];
        sensors := Accumulate(sensors, d);
        data := data[t := sensors];
      }
    }
    assert ds[..|rows|] == ds;
  }

  /** The value of the last reading for minute t, site l and quantity q, if any. */
  function LastIn(ds: seq<Decoded>, t: Timestamp, l: Location, q: Quantity): Option<real>
  {
    if ds == [] then None
    else
      var r := ds[|ds| - 1];
      if r.Ok? && r.value.0 == t && r.value.1.location == l && r.value.1.reading.quantity == q
      then Some(r.value.1.reading.value)
      else LastIn(ds[..|ds| - 1], t, l, q)
  }

  /** The value of the last decodable row for minute t, site l and quantity q, if any. */
  function LastReading(rows: seq<SensorRow>, t: Timestamp, l: Location, q: Quantity): Option<real>
  {
    LastIn(DecodeAll(rows), t, l, q)
  }

  /** Some reading is for minute t and site l. */
  ghost predicate ObservedIn(ds: seq<Decoded>, t: Timestamp, l: Location)
  {
    exists i :: 0 <= i < |ds| && ds[i].Ok? && ds[i].value.0 == t && ds[i].value.1.location == l
  }

  /** Some decodable row is for minute t and site l. */
  ghost predicate Observed(rows: seq<SensorRow>, t: Timestamp, l: Location)
  {
    ObservedIn(DecodeAll(rows), t, l)
  }

  /** The snapshot of site l in minute t of a table, if any. */
  function SnapAt(m: SensorTable, t: Timestamp, l: Location): Option<Sensor>
  {
    if t in m then Snapshot(m[t], l) else None
  }

  /** The last reading is for minute t and site l. */
  predicate LastHits(ds: seq<Decoded>, t: Timestamp, l: Location)
    requires ds != []
  {
    var r := ds[|ds| - 1];
    r.Ok? && r.value.0 == t && r.value.1.location == l
  }

  /** A last reading for another minute or site leaves the snapshot of (t, l) as it was. */
  lemma SnapElsewhere(ds: seq<Decoded>, t: Timestamp, l: Location)
    requires ds != [] && !LastHits(ds, t, l)
    ensures SnapAt(Table(ds), t, l) == SnapAt(Table(ds[..|ds| - 1]), t, l)
  {
    var m := Table(ds[..|ds| - 1]);
    var r := ds[|ds| - 1];
    if r.Ok? && r.value.0 == t {
      AddReadingEffect(if t in m then m[t] else [], r.value.1);
    }
  }

  /** A last reading for (t, l) sets its field in the snapshot of (t, l), a fresh one if there was none. */
  lemma SnapHit(ds: seq<Decoded>, t: Timestamp, l: Location)
    requires ds != [] && LastHits(ds, t, l)
    ensures var before := SnapAt(Table(ds[..|ds| - 1]), t, l);
      SnapAt(Table(ds), t, l) ==
      Some(SetField(if before.Some? then before.value else EmptySensor(l), ds[|ds| - 1].value.1.reading))
  {
    var m := Table(ds[..|ds| - 1]);
    AddReadingEffect(if t in m then m[t] else [], ds[|ds| - 1].value.1);
  }

  lemma ObservedSplit(ds: seq<Decoded>, t: Timestamp, l: Location)
    requires ds != []
    ensures ObservedIn(ds, t, l) <==> ObservedIn(ds[..|ds| - 1], t, l) || LastHits(ds, t, l)
  {
    var init := ds[..|ds| - 1];
    assert forall i :: 0 <= i < |init| ==> ds[i] == init[i];
  }

  lemma {:induction false} TableUnique(ds: seq<Decoded>, t: Timestamp)
    ensures t in Table(ds) ==> UniqueLocations(Table(ds)[t])
  {
    if ds != [] {
      var m := Table(ds[..|ds| - 1]);
      TableUnique(ds[..|ds| - 1], t);
      var r := ds[|ds| - 1];
      if r.Ok? && r.value.0 == t {
        AddReadingEffect(if t in m then m[t] else [], r.value.1);
      }
    }
  }

  lemma {:induction false} TableObserved(ds: seq<Decoded>, t: Timestamp, l: Location)
    ensures SnapAt(Table(ds), t, l).Some? <==> ObservedIn(ds, t, l)
  {
    if ds != [] {
      TableObserved(ds[..|ds| - 1], t, l);
      ObservedSplit(ds, t, l);
      if LastHits(ds, t, l) {
        SnapHit(ds, t, l);
      } else {
        SnapElsewhere(ds, t, l);
      }
    }
  }

  lemma {:induction false} LastUnobserved(ds: seq<Decoded>, t: Timestamp, l: Location, q: Quantity)
    requires !ObservedIn(ds, t, l)
    ensures LastIn(ds, t, l, q) == None
  {
    if ds != [] {
      ObservedSplit(ds, t, l);
      LastUnobserved(ds[..|ds| - 1], t, l, q);
    }
  }

  lemma {:induction false} TableFields(ds: seq<Decoded>, t: Timestamp, l: Location, q: Quantity)
    requires SnapAt(Table(ds), t, l).Some?
    ensures FieldOf(SnapAt(Table(ds), t, l).value, q) == LastIn(ds, t, l, q)
  {
    var init := ds[..|ds| - 1];
    if LastHits(ds, t, l) {
      SnapHit(ds, t, l);
      if SnapAt(Table(init), t, l).Some? {
        TableFields(init, t, l, q);
      } else {
        TableObserved(init, t, l);
        LastUnobserved(init, t, l, q);
      }
    } else {
      SnapElsewhere(ds, t, l);
      TableFields(init, t, l, q);
    }
  }

  /** Every minute's list holds at most one snapshot per site. */
  lemma ReadingsUnique(rows: seq<SensorRow>, t: Timestamp)
    ensures t in Readings(rows) ==> UniqueLocations(Readings(rows)[t])
  {
    TableUnique(DecodeAll(rows), t);
  }

  /** A site has a snapshot in a minute exactly when some decodable row was for that minute and site. */
  lemma ReadingsObserved(rows: seq<SensorRow>, t: Timestamp, l: Location)
    ensures (t in Readings(rows) && Snapshot(Readings(rows)[t], l).Some?) <==> Observed(rows, t, l)
  {
    TableObserved(DecodeAll(rows), t, l);
  }

  /**
   * Each field of a site's snapshot is the value of the last reading of that quantity for that
   * minute and site, and stays unset when there was none.
   */
  lemma ReadingsFields(rows: seq<SensorRow>, t: Timestamp, l: Location, q: Quantity)
    requires t in Readings(rows) && Snapshot(Readings(rows)[t], l).Some?
    ensures FieldOf(Snapshot(Readings(rows)[t], l).value, q) == LastReading(rows, t, l, q)
  {
    TableFields(DecodeAll(rows), t, l, q);
  }

  // ---------------------------------------------------------------------------
  // scale_sensor_data, for shape only: the transforms are the robust scalers fitted on each
  // column, taken here as given functions.

  datatype SensorScalers = SensorScalers(
    dewPoint: real -> real, luminance: real -> real, vocIndex: real -> real, co2: real -> real,
    absHumidity: real -> real, temperature: real -> real, vecEqCo2: real -> real)

  function MapOption(o: Option<real>, f: real -> real): (r: Option<real>)
    ensures r.Some? <==> o.Some?
  {
    match o
    case None => None
    case Some(v) => Some(f(v))
  }

  /** The scaler of a quantity other than relative humidity. */
  function Transform(sc: SensorScalers, q: Quantity): real -> real
    requires q != Rh
  {
    match q
    case DewPoint => sc.dewPoint
    case Luminance => sc.luminance
    case VocIndex => sc.vocIndex
    case Co2 => sc.co2
    case AbsHumidity => sc.absHumidity
    case Temperature => sc.temperature
    case VecEqCo2 => sc.vecEqCo2
  }

  /** One snapshot scaled: site kept, unset fields stay unset, relative humidity passes through. */
  function ScaleSensor(s: Sensor, sc: SensorScalers): (r: Sensor)
    ensures r.location == s.location
    ensures forall q :: FieldOf(r, q).Some? <==> FieldOf(s, q).Some?
    ensures r.rh == s.rh
    ensures forall q :: q != Rh ==> FieldOf(r, q) == MapOption(FieldOf(s, q), Transform(sc, q))
  {
    Sensor(s.location,
      MapOption(s.dewPoint, sc.dewPoint),
      MapOption(s.luminance, sc.luminance),
      MapOption(s.vocIndex, sc.vocIndex),
      MapOption(s.co2, sc.co2),
      MapOption(s.absHumidity, sc.absHumidity),
      s.rh,
      MapOption(s.temperature, sc.temperature),
      MapOption(s.vecEqCo2, sc.vecEqCo2))
  }

  /** The snapshots of one minute, scaled one by one (the `map` over the minute's list). */
  function ScaleSensors(list: seq<Sensor>, sc: SensorScalers): (r: seq<Sensor>)
    ensures |r| == |list| && forall i :: 0 <= i < |list| ==> r[i] == ScaleSensor(list[i], sc)
  {
    seq(|list|, i requires 0 <= i < |list| => ScaleSensor(list[i], sc))
  }

  method ScaleSensorData(data: SensorTable, sc: SensorScalers) returns (scaled: SensorTable)
    ensures scaled.Keys == data.Keys
    ensures forall t :: t in data ==> scaled[t] == ScaleSensors(data[t], sc)
  {
    scaled := map[];
    var todo := data.Keys;
    while todo != {}
      invariant todo <= data.Keys
      invariant scaled.Keys == data.Keys - todo
      invariant forall t :: t in scaled ==> scaled[t] == ScaleSensors(data[t], sc)
      decreases todo
    {
      ghost var some := Sets.Member(todo);
      var t :| t in todo;
      scaled := scaled[t := ScaleSensors(data[t], sc)];
      todo := todo - {t};
    }
  }

  /** Scaling keeps every minute's snapshots one per site. */
  lemma ScalingKeepsSites(list: seq<Sensor>, sc: SensorScalers)
    requires UniqueLocations(list)
    ensures UniqueLocations(ScaleSensors(list, sc))
  {
  }
}
