/**
 * Static code tables of the decoding layer: schedule room codes, sensor ids and reading
 * field names, each with the inverse table that says which code names which value.
 */
module Codes {
  import opened Wrappers
  import opened Time
  import opened Entities

  datatype RoomError = RoomMissing | UnknownRoom

  /** The schedule's room code of a site; the three non-classroom sites have none. */
  function RoomCode(l: Location): Option<string>
  {
    match l
    case U11 => Some("U11")
    case Soba18 => Some("U18")
    case U3a => Some("U3A")
    case U4b => Some("U4B")
    case U4c => Some("U4C")
    case _ => None
  }

  /** Decodes the room column of a schedule row (parse_location_sensor). */
  function ParseLocationSensor(room: Option<string>): (r: Result<Location, RoomError>)
    ensures room.None? ==> r == Err(RoomMissing)
    ensures room.Some? && r.Ok? ==> RoomCode(r.value) == Some(room.value)
    ensures room.Some? && r.Err? ==> r.error == UnknownRoom && forall l :: RoomCode(l) != Some(room.value)
  {
    match room
    case None => Err(RoomMissing)
    case Some(code) =>
      if code == "U11" then Ok(U11)
      else if code == "U18" then Ok(Soba18)
      else if code == "U3A" then Ok(U3a)
      else if code == "U4B" then Ok(U4b)
      else if code == "U4C" then Ok(U4c)
      else Err(UnknownRoom)
  }

  /** Every room code decodes to its own site. */
  lemma RoomCodeDecodes(l: Location)
    requires RoomCode(l).Some?
    ensures ParseLocationSensor(RoomCode(l)) == Ok(l)
  {
  }

  /** The sites without a room code are exactly the sites excluded after the join. */
  lemma RoomlessAreExcluded(l: Location)
    ensures RoomCode(l).None? <==> l in Excluded
  {
  }

  /** The sensor id of a site (the `aj-0x` table of SensorData::from). */
  function SensorId(l: Location): string
  {
    match l
    case U4c => "aj-00"
    case Jedilnica => "aj-01"
    case U4b => "aj-02"
    case Hodnik => "aj-03"
    case Soba18 => "aj-04"
    case U11 => "aj-05"
    case U3a => "aj-06"
    case Zbornica => "aj-07"
  }

  /** Decodes a sensor id; None for an id outside the table. */
  function SensorLocation(id: string): (r: Option<Location>)
    ensures r.Some? ==> SensorId(r.value) == id
    ensures r.None? ==> forall l :: SensorId(l) != id
  {
    if id == "aj-00" then Some(U4c)
    else if id == "aj-01" then Some(Jedilnica)
    else if id == "aj-02" then Some(U4b)
    else if id == "aj-03" then Some(Hodnik)
    else if id == "aj-04" then Some(Soba18)
    else if id == "aj-05" then Some(U11)
    else if id == "aj-06" then Some(U3a)
    else if id == "aj-07" then Some(Zbornica)
    else None
  }

  lemma SensorIdDecodes(l: Location)
    ensures SensorLocation(SensorId(l)) == Some(l)
  {
  }

  /** The column name under which a quantity is reported. */
  function FieldName(q: Quantity): string
  {
    match q
    case DewPoint => "dew_point"
    case Luminance => "luminance"
    case VocIndex => "voc_index"
    case Co2 => "co2"
    case AbsHumidity => "abs_humidity"
    case Rh => "RH"
    case Temperature => "temperature"
    case VecEqCo2 => "voc_eq_co2"
  }

  /** Tags a value with the quantity its field name denotes (map_sensor_value). */
  function MapSensorValue(field: string, value: real): (r: Option<SensorValue>)
    ensures r.Some? ==> FieldName(r.value.quantity) == field && r.value.value == value
    ensures r.None? ==> forall q :: FieldName(q) != field
  {
    if field == "dew_point" then Some(SensorValue(DewPoint, value))
    else if field == "luminance" then Some(SensorValue(Luminance, value))
    else if field == "voc_index" then Some(SensorValue(VocIndex, value))
    else if field == "co2" then Some(SensorValue(Co2, value))
    else if field == "abs_humidity" then Some(SensorValue(AbsHumidity, value))
    else if field == "RH" then Some(SensorValue(Rh, value))
    else if field == "temperature" then Some(SensorValue(Temperature, value))
    else if field == "voc_eq_co2" then Some(SensorValue(VecEqCo2, value))
    else None
  }

  lemma FieldNameDecodes(q: Quantity, value: real)
    ensures MapSensorValue(FieldName(q), value) == Some(SensorValue(q, value))
  {
  }

  datatype SensorRowError =
    | UnreadableRecord | TimeMissing | TimeMalformed | FieldMissing | SensorIdMissing | UnknownSensorId
    | ValueMissing | ValueMalformed | UnknownField

  /**
   * Decodes one sensor row (SensorData::from): time, field name, sensor id and value, checked
   * in that order, with the field name resolved last.
   */
  function DecodeSensorRow(time: Field<Timestamp>, field: Option<string>, sensorId: Option<string>, value: Field<real>)
    : (r: Result<(Timestamp, SensorData), SensorRowError>)
    ensures r.Ok? <==>
      time.Present? && field.Some? && sensorId.Some? && SensorLocation(sensorId.value).Some? &&
      value.Present? && MapSensorValue(field.value, value.value).Some?
    ensures r.Ok? ==>
      r.value.0 == time.value &&
      SensorId(r.value.1.location) == sensorId.value &&
      FieldName(r.value.1.reading.quantity) == field.value &&
      r.value.1.reading.value == value.value
    ensures time.Missing? ==> r == Err(TimeMissing)
    ensures time.Malformed? ==> r == Err(TimeMalformed)
  {
    match time
    case Missing => Err(TimeMissing)
    case Malformed => Err(TimeMalformed)
    case Present(t) =>
      match field
      case None => Err(FieldMissing)
      case Some(name) =>
        match sensorId
        case None => Err(SensorIdMissing)
        case Some(id) =>
          match SensorLocation(id)
          case None => Err(UnknownSensorId)
          case Some(location) =>
            match value
            case Missing => Err(ValueMissing)
            case Malformed => Err(ValueMalformed)
            case Present(v) =>
              match MapSensorValue(name, v)
              case None => Err(UnknownField)
              case Some(reading) => Ok((t, SensorData(location, reading)))
  }

  /** A row written from a typed reading decodes back to that reading. */
  lemma SensorRowRoundTrip(t: Timestamp, d: SensorData)
    ensures DecodeSensorRow(Present(t), Some(FieldName(d.reading.quantity)), Some(SensorId(d.location)),
                            Present(d.reading.value)) == Ok((t, d))
  {
    SensorIdDecodes(d.location);
    FieldNameDecodes(d.reading.quantity, d.reading.value);
  }
}
