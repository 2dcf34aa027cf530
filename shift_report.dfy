/** The numbers behind the gate's shift report: which 24-hour shift the
    report covers, and for each movement its time out and distance. Times
    are milliseconds; the current time comes with the local midnight of its
    day. */
module ShiftReport {
  import opened Common
  import opened Schema
  import opened Text
  import VehicleMovements

  const MINUTE: int := 60000
  const HOUR: int := 3600000
  const DAY: int := 86400000

  /** A shift: from `start` (inclusive) to `end` (exclusive). */
  datatype Window = Window(start: int, end: int)

  /** The shift the report covers: yesterday 07:00 to today 07:00 before seven
      o'clock, today 07:00 to tomorrow 07:00 from seven on. */
  function ShiftWindow(midnight: int, now: int): (w: Window)
    requires midnight <= now < midnight + DAY
    ensures w.end == w.start + DAY
    ensures w.start <= now < w.end
    ensures (w.start - midnight) % DAY == 7 * HOUR
  {
    var hour := (now - midnight) / HOUR;
    var today7am := midnight + 7 * HOUR;
    if hour < 7 then Window(today7am - DAY, today7am)
    else Window(today7am, today7am + DAY)
  }

  /** The covered shift is the only day-long window starting at 07:00 that
      holds the current time. */
  lemma ShiftWindowUnique(midnight: int, now: int, s: int)
    requires midnight <= now < midnight + DAY
    requires (s - midnight) % DAY == 7 * HOUR && s <= now < s + DAY
    ensures ShiftWindow(midnight, now) == Window(s, s + DAY)
  {
    var w := ShiftWindow(midnight, now);
    var a, b := (w.start - midnight) / DAY, (s - midnight) / DAY;
    assert w.start == midnight + a * DAY + 7 * HOUR;
    assert s == midnight + b * DAY + 7 * HOUR;
    assert (a - b) * DAY == w.start - s;
  }

  /** `movement.arrivalKm ? movement.arrivalKm - movement.departureKm : null`. */
  function Distance(m: Movement): (r: Option<int>)
    ensures r.Some? <==> Truthy(m.arrivalKm)
    ensures r.Some? ==> m.departureKm + r.value == m.arrivalKm.value
  {
    if Truthy(m.arrivalKm) then Some(m.arrivalKm.value - m.departureKm) else None
  }

  /** After a registered arrival the distance is never negative, since the
      arrival km may not be below the departure km; an arrival at km 0 shows
      no distance at all. */
  lemma DistanceAfterArrival(m: Movement, arrivalKm: int, arrivalTime: int, now: int)
    requires arrivalKm >= m.departureKm
    ensures var d := Distance(VehicleMovements.Arrived(m, arrivalKm, arrivalTime, now));
      (arrivalKm != 0 ==> d == Some(arrivalKm - m.departureKm) && d.value >= 0) &&
      (arrivalKm == 0 ==> d.None?)
  {
  }

  /** Whole minutes out: `Math.floor((arrivalTime - departureTime) / 60000)`,
      when the arrival time is set. */
  function MinutesOut(m: Movement): (r: Option<int>)
    ensures r.Some? <==> Truthy(m.arrivalTime)
    ensures r.Some? ==> r.value * MINUTE <= m.arrivalTime.value - m.departureTime < (r.value + 1) * MINUTE
  {
    if Truthy(m.arrivalTime) then Some((m.arrivalTime.value - m.departureTime) / MINUTE) else None
  }

  /** `Math.trunc(a / b)`: the quotient rounded toward zero. */
  function TruncDiv(a: int, b: int): int
    requires b > 0
  {
    if a >= 0 then a / b else -((-a) / b)
  }

  /** JavaScript's `%`: the remainder of the quotient rounded toward zero, so
      it takes the sign of the dividend. */
  function JsRem(a: int, b: int): (r: int)
    requires b > 0
    ensures a == TruncDiv(a, b) * b + r
    ensures a >= 0 ==> 0 <= r < b
    ensures a < 0 ==> -b < r <= 0
  {
    if a >= 0 then a % b else -((-a) % b)
  }

  /** Hours and minutes as the report computes them: `Math.floor(m / 60)` and
      `m % 60`. */
  function SplitAsWritten(minutes: int): (r: (int, int))
    ensures r.0 * 60 <= minutes < r.0 * 60 + 60
    ensures -60 < r.1 < 60 && (minutes < 0 ==> r.1 <= 0) && (minutes >= 0 ==> r.1 >= 0)
    ensures r.0 * 60 + r.1 == if minutes < 0 && minutes % 60 != 0 then minutes - 60 else minutes
  {
    (minutes / 60, JsRem(minutes, 60))
  }

  /** A negative time out, which an arrival time earlier than the departure
      gives, splits into parts that do not add up: -4 minutes becomes -1 hour
      and -4 minutes. */
  lemma NegativeSplitInconsistent()
    ensures SplitAsWritten(-4) == (-1, -4)
    ensures SplitAsWritten(-4).0 * 60 + SplitAsWritten(-4).1 != -4
  {
  }

  /** Registering an arrival does not compare the arrival time with the
      departure time, so such a time out can be recorded. */
  lemma ArrivalBeforeDeparture(m: Movement, now: int)
    requires m.departureTime == 5 * MINUTE
    ensures MinutesOut(VehicleMovements.Arrived(m, m.departureKm, MINUTE, now)) == Some(-4)
  {
  }

  /** Hours and minutes with the floor remainder, matching the floor already
      used for the hours. */
  function Split(minutes: int): (r: (int, int))
    ensures r.0 * 60 + r.1 == minutes
    ensures 0 <= r.1 < 60
  {
    (minutes / 60, minutes % 60)
  }

  /** On a time out that is not negative the two splits agree. */
  lemma SplitAgrees(minutes: int)
    requires minutes >= 0
    ensures Split(minutes) == SplitAsWritten(minutes)
  {
  }

  /** `s.padStart(2, "0")`. */
  function PadStart2(s: string): (r: string)
    ensures |s| >= 2 ==> r == s
    ensures |s| < 2 ==> |r| == 2 && r[2 - |s|..] == s
  {
    if |s| >= 2 then s
    else if |s| == 1 then "0" + s
    else "00"
  }

  /** The minutes text: two digits that read back as the minutes. */
  lemma MinutesText(mins: int)
    requires 0 <= mins < 60
    ensures var t := PadStart2(IntToString(mins));
      |t| == 2 && IsDigit(t[0]) && IsDigit(t[1]) && ParseDecimal(t) == mins
  {
    var s := NatToString(mins);
    ParseNatToString(mins);
    if mins < 10 {
      var t := "0" + s;
      assert t[..1] == "0" && t[1] == s[0];
    } else {
      assert s[..1] == NatToString(mins / 10);
    }
  }

  /** `${hours}h ${minutes.toString().padStart(2, "0")}min`, over the split as
      written. On a time out that is not negative it reads back as the whole
      hours and the two-digit remaining minutes. */
  function TimeOutText(minutes: int): (r: string)
    ensures minutes >= 0 ==> exists t :: (|t| == 2 && IsDigit(t[0]) && IsDigit(t[1]) && ParseDecimal(t) == minutes % 60 &&
      r == IntToString(minutes / 60) + "h " + t + "min")
  {
    var (h, m) := SplitAsWritten(minutes);
    var r := IntToString(h) + "h " + PadStart2(IntToString(m)) + "min";
    if minutes >= 0 then
      MinutesText(minutes % 60);
      r
    else r
  }

  /** The same text over the floor split: the minutes are never negative. */
  function CorrectedTimeOutText(minutes: int): (r: string)
    ensures exists t :: (|t| == 2 && IsDigit(t[0]) && IsDigit(t[1]) && ParseDecimal(t) == minutes % 60 &&
      r == IntToString(Split(minutes).0) + "h " + t + "min")
  {
    var (h, m) := Split(minutes);
    MinutesText(m);
    IntToString(h) + "h " + PadStart2(IntToString(m)) + "min"
  }

  /** On a time out that is not negative the two texts agree. */
  lemma TimeOutTextAgrees(minutes: int)
    requires minutes >= 0
    ensures TimeOutText(minutes) == CorrectedTimeOutText(minutes)
  {
    SplitAgrees(minutes);
  }

  /** A time out of -4 minutes prints as "-1h -4min" as written, and as
      "-1h 56min" (one hour back, then 56 minutes on) when corrected. */
  lemma NegativeTimeOutText()
    ensures TimeOutText(-4) == "-1h -4min"
    ensures CorrectedTimeOutText(-4) == "-1h 56min"
  {
    var hours := IntToString(-1);
    assert hours == "-1" by { assert NatToString(1) == "1"; }
    var written := IntToString(-4);
    assert written == "-4" by { assert NatToString(4) == "4"; }
    assert SplitAsWritten(-4) == (-1, -4);
    assert PadStart2(written) == "-4";
    assert TimeOutText(-4) == hours + "h " + "-4" + "min";
    var corrected := IntToString(56);
    assert corrected == "56" by {
      assert NatToString(5) == "5";
      assert NatToString(56) == NatToString(5) + "6";
    }
    assert Split(-4) == (-1, 56);
    assert PadStart2(corrected) == "56";
    assert CorrectedTimeOutText(-4) == hours + "h " + "56" + "min";
  }

  /** The joined vehicle and driver shown next to a movement. */
  datatype PersonBrief = PersonBrief(rank: string, rg: string, name: string)

  datatype Entry = Entry(movement: Movement, prefix: Option<string>, person: Option<PersonBrief>)

  /** One line of the report. Numbers and times are kept as numbers; their
      locale formatting is not modelled. */
  datatype Row = Row(
    vehicle: string,
    rank: string,
    rg: string,
    driver: string,
    destination: string,
    departureKm: int,
    arrivalKm: Option<int>,
    departureTime: int,
    arrivalTime: Option<int>,
    timeOut: string,
    distance: Option<int>)

  /** `value || "-"`. */
  function OrDash(s: Option<string>): (r: string)
    ensures r == "-" <==> s.None? || s.value == "" || s.value == "-"
    ensures s.Some? && s.value != "" ==> r == s.value
  {
    if s.Some? && s.value != "" then s.value else "-"
  }

  function RowOf(e: Entry): (r: Row)
    ensures r.timeOut == "—" <==> !Truthy(e.movement.arrivalTime)
    ensures Truthy(e.movement.arrivalTime) ==> r.timeOut == TimeOutText(MinutesOut(e.movement).value)
    ensures r.distance == Distance(e.movement)
    ensures r.arrivalKm.Some? <==> Truthy(e.movement.arrivalKm)
    ensures r.arrivalKm.Some? ==> r.arrivalKm == e.movement.arrivalKm
    ensures r.arrivalTime.Some? <==> Truthy(e.movement.arrivalTime)
    ensures r.arrivalTime.Some? ==> r.arrivalTime == e.movement.arrivalTime
    ensures r.vehicle == OrDash(e.prefix)
    ensures e.person.None? ==> r.rank == "-" && r.rg == "-" && r.driver == "-"
    ensures e.person.Some? ==> (r.rank == OrDash(Some(e.person.value.rank)) &&
      r.rg == OrDash(Some(e.person.value.rg)) && r.driver == OrDash(Some(e.person.value.name)))
    ensures r.destination == e.movement.destination
    ensures r.departureKm == e.movement.departureKm && r.departureTime == e.movement.departureTime
  {
    var m := e.movement;
    var p := if e.person.Some? then e.person.value else PersonBrief("", "", "");
    Row(
      OrDash(e.prefix),
      OrDash(if e.person.Some? then Some(p.rank) else None),
      OrDash(if e.person.Some? then Some(p.rg) else None),
      OrDash(if e.person.Some? then Some(p.name) else None),
      m.destination,
      m.departureKm,
      if Truthy(m.arrivalKm) then m.arrivalKm else None,
      m.departureTime,
      if Truthy(m.arrivalTime) then m.arrivalTime else None,
      if Truthy(m.arrivalTime) then TimeOutText(MinutesOut(m).value) else "—",
      Distance(m))
  }

  /** A movement that arrived no earlier than it left shows the corrected text. */
  lemma RowTimeOutAgrees(e: Entry)
    requires Truthy(e.movement.arrivalTime) && e.movement.arrivalTime.value >= e.movement.departureTime
    ensures RowOf(e).timeOut == CorrectedTimeOutText(MinutesOut(e.movement).value)
  {
    TimeOutTextAgrees(MinutesOut(e.movement).value);
  }

  datatype Report = Report(window: Window, rows: seq<Row>, total: nat)

  /** `generateShiftReportHTML`, less the markup: the window, one row per
      movement in the given order, and the count in the footer. */
  function Generate(midnight: int, now: int, entries: seq<Entry>): (r: Report)
    requires midnight <= now < midnight + DAY
    ensures r.window.start <= now < r.window.end && r.window.end - r.window.start == DAY
    ensures r.total == |r.rows| == |entries|
    ensures forall k :: 0 <= k < |entries| ==> r.rows[k] == RowOf(entries[k])
  {
    Report(ShiftWindow(midnight, now), Map(entries, RowOf), |entries|)
  }
}
