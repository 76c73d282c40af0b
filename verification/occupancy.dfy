/**
 * Occupancy expansion: a schedule row (date, lesson block, room, head count) becomes one
 * occupancy fact per minute of the block.
 */
module Occupancy {
  import opened Wrappers
  import opened Time
  import opened Entities
  import opened Codes

  /** The nine lesson blocks: (start as minutes since midnight, length in minutes). */
  function Slot(k: int): (r: Option<(int, int)>)
    ensures r.Some? <==> 0 <= k <= 8
  {
    match k
    case 0 => Some((Clock(7, 30), 30))
    case 1 => Some((Clock(8, 0), 50))
    case 2 => Some((Clock(8, 50), 50))
    case 3 => Some((Clock(9, 40), 70))
    case 4 => Some((Clock(10, 50), 50))
    case 5 => Some((Clock(11, 40), 50))
    case 6 => Some((Clock(12, 30), 50))
    case 7 => Some((Clock(13, 20), 50))
    case 8 => Some((Clock(14, 10), 45))
    case _ => None
  }

  /** The blocks follow one another without gap or overlap, from 07:30 to 14:55. */
  lemma SlotsTile(k: int)
    requires 0 <= k < 8
    ensures Slot(k).value.0 + Slot(k).value.1 == Slot(k + 1).value.0
    ensures Slot(0).value.0 == Clock(7, 30) && Slot(8).value.0 + Slot(8).value.1 == Clock(14, 55)
  {
  }

  datatype SlotError = NoTimeSlot | UnknownSlot | BadDate

  /**
   * The start and length of the block named by a schedule row (get_slot_time). A missing
   * block or date, a block that is not a number in 0..8, or a date that does not parse is
   * an error.
   */
  function SlotTime(date: Field<Day>, slot: Field<int>): (r: Result<(Timestamp, int), SlotError>)
    ensures r.Ok? <==> date.Present? && slot.Present? && Slot(slot.value).Some?
    ensures r.Ok? ==> r.value == (At(date.value, Slot(slot.value).value.0), Slot(slot.value).value.1)
    ensures slot.Missing? || date.Missing? ==> r == Err(NoTimeSlot)
    ensures slot.Present? && date.Present? && Slot(slot.value).None? ==> r == Err(UnknownSlot)
  {
    if slot.Missing? || date.Missing? then Err(NoTimeSlot)
    else if slot.Malformed? || Slot(slot.value).None? then Err(UnknownSlot)
    else if date.Malformed? then Err(BadDate)
    else
      var (start, length) := Slot(slot.value).value;
      Ok((At(date.value, start), length))
  }

  /** The minutes start, start+1, ..., start+length-1. */
  function Minutes(start: Timestamp, length: nat): (ts: seq<Timestamp>)
    ensures |ts| == length && forall i :: 0 <= i < length ==> ts[i] == start + i
  {
    seq(length, i => start + i)
  }

  /** Every minute of every block lies on the block's date, between 07:30 and 14:55. */
  lemma SlotMinutesInSchoolDay(date: Day, k: int, i: int)
    requires Slot(k).Some? && 0 <= i < Slot(k).value.1
    ensures DayOf(At(date, Slot(k).value.0) + i) == date
    ensures Clock(7, 30) <= MinuteOfDay(At(date, Slot(k).value.0) + i) < Clock(14, 55)
    ensures 4 <= Hour(At(date, Slot(k).value.0) + i) < 16
  {
    var m := Slot(k).value.0 + i;
    assert At(date, Slot(k).value.0) + i == At(date, m);
    AtParts(date, m);
  }

  /** The minutes of the block named by a schedule row (parse_location_times). */
  method ParseLocationTimes(date: Field<Day>, slot: Field<int>) returns (r: Result<seq<Timestamp>, SlotError>)
    ensures r.Err? <==> SlotTime(date, slot).Err?
    ensures r.Err? ==> r.error == SlotTime(date, slot).error
    ensures r.Ok? ==> |r.value| == SlotTime(date, slot).value.1
    ensures r.Ok? ==> forall i :: 0 <= i < |r.value| ==> r.value[i] == SlotTime(date, slot).value.0 + i
  {
    var st := SlotTime(date, slot);
    if st.Err? {
      return Err(st.error);
    }
    var (start, length) := st.value;
    var times: seq<Timestamp> := [];
    for i := 0 to length
      invariant |times| == i
      invariant forall j :: 0 <= j < i ==> times[j] == start + j
    {
      times := times + [start + i];
    }
    r := Ok(times);
  }

  /** One row of the school schedule, already split into typed cells. */
  datatype ScheduleRow = ScheduleRow(date: Field<Day>, slot: Field<int>, room: Option<string>, people: Field<int>)

  datatype OccupancyError = BadTimes(slotError: SlotError) | BadRoom(roomError: RoomError) | PeopleMissing | PeopleMalformed

  /**
   * The per-minute facts of one schedule row (SensedPeople::from): the block's minutes, each
   * paired with the row's site and head count. Times, room and count are checked in that order.
   */
  function SensedPeopleFrom(row: ScheduleRow): (r: Result<seq<(Timestamp, SensedPeople)>, OccupancyError>)
    ensures r.Ok? <==>
      SlotTime(row.date, row.slot).Ok? && ParseLocationSensor(row.room).Ok? && row.people.Present?
    ensures SlotTime(row.date, row.slot).Err? ==> r == Err(BadTimes(SlotTime(row.date, row.slot).error))
    ensures r.Ok? ==>
      var (start, length) := SlotTime(row.date, row.slot).value;
      |r.value| == length &&
      forall i :: 0 <= i < length ==>
        r.value[i] == (start + i, SensedPeople(ParseLocationSensor(row.room).value, row.people.value))
  {
    match SlotTime(row.date, row.slot)
    case Err(e) => Err(BadTimes(e))
    case Ok((start, length)) =>
      match ParseLocationSensor(row.room)
      case Err(e) => Err(BadRoom(e))
      case Ok(location) =>
        match row.people
        case Missing => Err(PeopleMissing)
        case Malformed => Err(PeopleMalformed)
        case Present(count) =>
          var times := Minutes(start, length);
          Ok(seq(|times|, i requires 0 <= i < |times| => (times[i], SensedPeople(location, count))))
  }

  /** The facts of one row fall on distinct minutes of the row's date, inside the operating hours. */
  lemma RowFactsInOneDay(row: ScheduleRow, i: int)
    requires SensedPeopleFrom(row).Ok?
    requires 0 <= i < |SensedPeopleFrom(row).value|
    ensures forall j :: i < j < |SensedPeopleFrom(row).value| ==>
              SensedPeopleFrom(row).value[i].0 < SensedPeopleFrom(row).value[j].0
    ensures DayOf(SensedPeopleFrom(row).value[i].0) == row.date.value
    ensures 4 <= Hour(SensedPeopleFrom(row).value[i].0) < 16
  {
    SlotMinutesInSchoolDay(row.date.value, row.slot.value, i);
  }

  // ---------------------------------------------------------------------------
  // parse_location_data: every fact of every decodable row is appended to its minute's list.
  // The rows are processed in sequence; the source does this in parallel, which changes the
  // order of the facts within one minute's list and so which fact the join takes first.

  type OccupancyTable = map<Timestamp, seq<SensedPeople>>

  function AddFact(m: OccupancyTable, fact: (Timestamp, SensedPeople)): OccupancyTable
  {
    m[fact.0 := (if fact.0 in m then m[fact.0] else []) + [fact.1]]
  }

  function AddFacts(m: OccupancyTable, facts: seq<(Timestamp, SensedPeople)>): OccupancyTable
  {
    if facts == [] then m else AddFact(AddFacts(m, facts[..|facts| - 1]), facts[|facts| - 1])
  }

  function Occupancies(rows: seq<ScheduleRow>): OccupancyTable
  {
    if rows == [] then map[]
    else
      var m := Occupancies(rows[..|rows| - 1]);
      var r := SensedPeopleFrom(rows[|rows| - 1]);
      if r.Ok? then AddFacts(m, r.value) else m
  }

  method ParseLocationData(rows: seq<ScheduleRow>) returns (data: OccupancyTable)
    ensures data == Occupancies(rows)
  {
    data := map[];
    for i := 0 to |rows|
      invariant data == Occupancies(rows[..i])
    {
      assert rows[..i + 1][..i] == rows[..i];
      var r := SensedPeopleFrom(rows[i]);
      if r.Ok? {
        var facts := r.value;
        ghost var before := data;
        for j := 0 to |facts|
          invariant data == AddFacts(before, facts[..j])
        {
          assert facts[..j + 1][..j] == facts[..j];
          var (t, sp) := facts[j];
          data := data[t := (if t in data then data[t] else []) + [sp]];
        }
        assert facts[..|facts|] == facts;
      }
    }
    assert rows[..|rows|] == rows;
  }

  lemma {:induction false} AddFactsMembers(m: OccupancyTable, facts: seq<(Timestamp, SensedPeople)>, t: Timestamp, sp: SensedPeople)
    ensures t in AddFacts(m, facts) && sp in AddFacts(m, facts)[t] <==>
            (t in m && sp in m[t]) || (t, sp) in facts
  {
    if facts != [] {
      var init := facts[..|facts| - 1];
      AddFactsMembers(m, init, t, sp);
      assert facts == init + [facts[|facts| - 1]];
    }
  }

  /** A site has a head count in a minute exactly when some decodable row's block covers that minute. */
  lemma {:induction false} OccupanciesFacts(rows: seq<ScheduleRow>, t: Timestamp, sp: SensedPeople)
    ensures t in Occupancies(rows) && sp in Occupancies(rows)[t] <==>
            exists i :: 0 <= i < |rows| && SensedPeopleFrom(rows[i]).Ok? && (t, sp) in SensedPeopleFrom(rows[i]).value
  {
    if rows != [] {
      var init := rows[..|rows| - 1];
      OccupanciesFacts(init, t, sp);
      var r := SensedPeopleFrom(rows[|rows| - 1]);
      if r.Ok? {
        AddFactsMembers(Occupancies(init), r.value, t, sp);
      }
      if exists i :: 0 <= i < |rows| && SensedPeopleFrom(rows[i]).Ok? && (t, sp) in SensedPeopleFrom(rows[i]).value {
        var i :| 0 <= i < |rows| && SensedPeopleFrom(rows[i]).Ok? && (t, sp) in SensedPeopleFrom(rows[i]).value;
        if i < |rows| - 1 {
          assert rows[i] == init[i];
        }
      }
    }
  }
}
