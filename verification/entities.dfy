/**
 * The engine's records: sensor sites, sensor readings and per-minute sensor snapshots,
 * occupancy facts, weather vectors and the merged per-minute record. f32 values are
 * modelled as `real`.
 */
module Entities {
  import opened Wrappers
  import opened Time

  /** The eight monitored sites (Rust enum SensorLocation). */
  datatype Location = U4c | Jedilnica | U4b | Hodnik | Soba18 | U11 | U3a | Zbornica

  /** The eight physical quantities a sensor reports. */
  datatype Quantity = DewPoint | Luminance | VocIndex | Co2 | AbsHumidity | Rh | Temperature | VecEqCo2

  /** One reading (Rust enum SensorValue: one variant per quantity, each carrying its value). */
  datatype SensorValue = SensorValue(quantity: Quantity, value: real)

  /** A decoded sensor row (Rust struct SensorData). */
  datatype SensorData = SensorData(location: Location, reading: SensorValue)

  /** The snapshot of one site in one minute; fields fill in as readings arrive. */
  datatype Sensor = Sensor(
    location: Location,
    dewPoint: Option<real>,
    luminance: Option<real>,
    vocIndex: Option<real>,
    co2: Option<real>,
    absHumidity: Option<real>,
    rh: Option<real>,
    temperature: Option<real>,
    vecEqCo2: Option<real>)

  /** The field of a snapshot that holds quantity q. */
  function FieldOf(s: Sensor, q: Quantity): Option<real>
  {
    match q
    case DewPoint => s.dewPoint
    case Luminance => s.luminance
    case VocIndex => s.vocIndex
    case Co2 => s.co2
    case AbsHumidity => s.absHumidity
    case Rh => s.rh
    case Temperature => s.temperature
    case VecEqCo2 => s.vecEqCo2
  }

  /** An occupancy fact: a person count for a site (Rust struct SensedPeople). */
  datatype SensedPeople = SensedPeople(location: Location, people: int)

  /** One outdoor-weather vector (Rust struct WeatherPoint). */
  datatype WeatherPoint = WeatherPoint(
    temperature: real,
    avgTemperature: real,
    minTemperature: real,
    maxTemperature: real,
    relHumidity: real,
    avgRelHumidity: real,
    minRelHumidity: real,
    maxRelHumidity: real,
    precipitation: real,
    windSpeed: real)

  /** One minute of one site after the join: (time, snapshot, occupancy, weather). */
  datatype MergedRecord = MergedRecord(time: Timestamp, sensor: Sensor, people: SensedPeople, weather: WeatherPoint)

  /** The sites `main` drops after the join: the dining room, the corridor and the staff room. */
  const Excluded: set<Location> := {Jedilnica, Hodnik, Zbornica}
}
