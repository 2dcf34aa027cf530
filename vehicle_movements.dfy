/** The gate log: a departure opens a movement `em_transito`, an arrival closes
    it (`concluido`) and records the arrival odometer as a reading. A vehicle
    has at most one open movement. */
module VehicleMovements {
  import opened Common
  import opened Schema
  import opened Store
  import opened Sorting
  import opened VehicleReadings

  /** Size of the recent-movements listing. */
  const RECENT_MOVEMENTS: nat := 50

  /** The reading author written by an arrival. */
  const ARRIVAL_RECORDER: string := "Sistema - Guarita"

  /** No vehicle has two movements in transit. */
  ghost predicate AtMostOneInTransit(t: seq<Doc<Movement>>) {
    forall i, j :: 0 <= i < j < |t| && t[i].fields.vehicleId == t[j].fields.vehicleId ==>
      !(t[i].fields.status.EmTransito? && t[j].fields.status.EmTransito?)
  }

  ghost predicate NotInTransit(t: seq<Doc<Movement>>, vehicleId: nat) {
    forall k :: 0 <= k < |t| && t[k].fields.vehicleId == vehicleId ==> !t[k].fields.status.EmTransito?
  }

  /** `.withIndex("by_vehicle_and_status", vehicleId, "em_transito").first()`. */
  function OpenMovement(t: seq<Doc<Movement>>, vehicleId: nat): (r: Option<Doc<Movement>>)
    ensures r.None? <==> NotInTransit(t, vehicleId)
    ensures r.Some? ==> r.value in t && r.value.fields.vehicleId == vehicleId && r.value.fields.status.EmTransito?
  {
    match FirstIndex(t, (d: Doc<Movement>) => d.fields.vehicleId == vehicleId && d.fields.status.EmTransito?)
    case None => None
    case Some(i) => Some(t[i])
  }

  predicate IsOpen(d: Doc<Movement>) {
    d.fields.status.EmTransito?
  }

  /** `listInTransit`: exactly the open movements, in table order. */
  function ListInTransit(t: seq<Doc<Movement>>): (r: seq<Doc<Movement>>)
    ensures forall k :: 0 <= k < |r| ==> r[k] in t && r[k].fields.status.EmTransito?
    ensures forall k :: 0 <= k < |t| && t[k].fields.status.EmTransito? ==> t[k] in r
    ensures AtMostOneInTransit(t) ==> DistinctVehicles(r)
    ensures IdsIncreasing(t) ==> IdsIncreasing(r)
  {
    InTransitDistinct(t);
    FilterIdsIncreasing(t, IsOpen);
    Filter(t, IsOpen)
  }

  ghost predicate DistinctVehicles(r: seq<Doc<Movement>>) {
    forall a, b :: 0 <= a < b < |r| ==> r[a].fields.vehicleId != r[b].fields.vehicleId
  }

  /** Under the invariant, the open movements belong to distinct vehicles. */
  lemma {:induction false} InTransitDistinct(t: seq<Doc<Movement>>)
    ensures AtMostOneInTransit(t) ==> DistinctVehicles(Filter(t, IsOpen))
  {
    if t != [] && AtMostOneInTransit(t) {
      var t' := t[..|t| - 1];
      var x := t[|t| - 1];
      assert AtMostOneInTransit(t') by {
        forall i, j | 0 <= i < j < |t'| ensures t'[i] == t[i] && t'[j] == t[j] { }
      }
      InTransitDistinct(t');
      var r' := Filter(t', IsOpen);
      assert Filter(t, IsOpen) == r' + if IsOpen(x) then [x] else [];
      var r := Filter(t, IsOpen);
      if IsOpen(x) {
        forall a | 0 <= a < |r'| ensures r'[a].fields.vehicleId != x.fields.vehicleId {
          var i :| 0 <= i < |t'| && t'[i] == r'[a];
          assert t[i] == r'[a] && IsOpen(r'[a]);
        }
        forall a, b | 0 <= a < b < |r| ensures r[a].fields.vehicleId != r[b].fields.vehicleId {
          if b < |r'| {
            assert r[a] == r'[a] && r[b] == r'[b];
          } else {
            assert r[a] == r'[a] && r[b] == x;
          }
        }
      } else {
        assert r == r';
      }
    }
  }

  function DepartureTime(d: Doc<Movement>): int {
    d.fields.departureTime
  }

  /** `listRecent`: the 50 movements with the latest departure times, latest first. */
  function ListRecent(t: seq<Doc<Movement>>): (r: seq<Doc<Movement>>)
    ensures |r| == if RECENT_MOVEMENTS < |t| then RECENT_MOVEMENTS else |t|
    ensures forall a, b :: 0 <= a < b < |r| ==> DepartureTime(r[b]) <= DepartureTime(r[a])
    ensures multiset(r) <= multiset(t)
    ensures forall x, k :: x in multiset(t) - multiset(r) && 0 <= k < |r| ==> DepartureTime(x) <= DepartureTime(r[k])
  {
    Top(t, DepartureTime, RECENT_MOVEMENTS)
  }

  /** Departs at or after `startOfDay`. */
  function DepartsFrom(startOfDay: int): Doc<Movement> -> bool {
    (d: Doc<Movement>) => d.fields.departureTime >= startOfDay
  }

  /** `listToday`: movements departing at or after `startOfDay`, earliest first. */
  function ListToday(t: seq<Doc<Movement>>, startOfDay: int): (r: seq<Doc<Movement>>)
    ensures multiset(r) == multiset(Filter(t, DepartsFrom(startOfDay)))
    ensures forall k :: 0 <= k < |r| ==> r[k] in t && DepartureTime(r[k]) >= startOfDay
    ensures forall k :: 0 <= k < |t| && DepartureTime(t[k]) >= startOfDay ==> t[k] in r
    ensures ByDeparture(r)
  {
    var up := Ascending(t, DepartureTime);
    var r := Filter(up, DepartsFrom(startOfDay));
    FilterKeepsAscending(up, DepartsFrom(startOfDay));
    FilterPermutes(up, t, DepartsFrom(startOfDay));
    SameElements(up, t);
    FilterHas(up, DepartsFrom(startOfDay));
    r
  }

  /** Ordered by departure time, earliest first. */
  ghost predicate ByDeparture(s: seq<Doc<Movement>>) {
    forall a, b :: 0 <= a < b < |s| ==> DepartureTime(s[a]) <= DepartureTime(s[b])
  }

  /** A filter of a sequence ordered by departure time stays ordered. */
  lemma {:induction false} FilterKeepsAscending(s: seq<Doc<Movement>>, p: Doc<Movement> -> bool)
    requires ByDeparture(s)
    ensures ByDeparture(Filter(s, p))
  {
    if s != [] {
      var s' := s[..|s| - 1];
      FilterKeepsAscending(s', p);
      var r' := Filter(s', p);
      assert Filter(s, p) == r' + if p(s[|s| - 1]) then [s[|s| - 1]] else [];
      forall a | 0 <= a < |r'| ensures DepartureTime(r'[a]) <= DepartureTime(s[|s| - 1]) {
        var i :| 0 <= i < |s'| && s'[i] == r'[a];
        assert s[i] == r'[a];
      }
    }
  }

  /** The vehicle's movements, last inserted first. */
  function NewestFirst(t: seq<Doc<Movement>>, vehicleId: nat): (r: seq<Doc<Movement>>)
    ensures forall k :: 0 <= k < |r| ==> r[k] in t && r[k].fields.vehicleId == vehicleId
    ensures forall k :: 0 <= k < |t| && t[k].fields.vehicleId == vehicleId ==> t[k] in r
    ensures IdsIncreasing(t) ==> forall a, b :: 0 <= a < b < |r| ==> r[b].id < r[a].id
  {
    var mine := Filter(t, (d: Doc<Movement>) => d.fields.vehicleId == vehicleId);
    FilterIdsIncreasing(t, (d: Doc<Movement>) => d.fields.vehicleId == vehicleId);
    var r := Reverse(mine);
    assert forall k :: 0 <= k < |r| ==> r[k] == mine[|mine| - 1 - k];
    assert forall j :: 0 <= j < |mine| ==> mine[j] == r[|mine| - 1 - j];
    r
  }

  /** `listByVehicle`: the vehicle's movements newest first, cut to `limit` when one is given. */
  function ListByVehicle(t: seq<Doc<Movement>>, vehicleId: nat, limit: Option<nat>): (r: seq<Doc<Movement>>)
    ensures !LimitGiven(limit) ==> r == NewestFirst(t, vehicleId)
    ensures LimitGiven(limit) ==> var all := NewestFirst(t, vehicleId);
      |r| == (if limit.value < |all| then limit.value else |all|) && r == all[..|r|]
    ensures forall k :: 0 <= k < |r| ==> r[k] in t && r[k].fields.vehicleId == vehicleId
    ensures LimitGiven(limit) ==> |r| <= limit.value
    ensures !LimitGiven(limit) ==> forall k :: 0 <= k < |t| && t[k].fields.vehicleId == vehicleId ==> t[k] in r
    ensures IdsIncreasing(t) ==> forall a, b :: 0 <= a < b < |r| ==> r[b].id < r[a].id
  {
    var all := NewestFirst(t, vehicleId);
    if LimitGiven(limit) then Take(all, limit.value) else all
  }

  /** `getLatest`: the vehicle's last-inserted movement, or null. */
  function GetLatest(t: seq<Doc<Movement>>, vehicleId: nat): (r: Option<Doc<Movement>>)
    ensures r.None? <==> forall k :: 0 <= k < |t| ==> t[k].fields.vehicleId != vehicleId
    ensures r.Some? ==> r.value in t && r.value.fields.vehicleId == vehicleId
    ensures r.Some? && IdsIncreasing(t) ==>
      forall k :: 0 <= k < |t| && t[k].fields.vehicleId == vehicleId ==> t[k].id <= r.value.id
  {
    match LastIndex(t, (d: Doc<Movement>) => d.fields.vehicleId == vehicleId)
    case None => None
    case Some(i) =>
      assert forall k :: 0 <= k < |t| && t[k].fields.vehicleId == vehicleId ==> k <= i;
      Some(t[i])
  }

  /** The movement a departure stores: open, without arrival fields, leaving at
      the given time or at `now` when none (or 0) is given. */
  function Departure(vehicleId: nat, personnelId: nat, destination: string, destinationType: Option<DestinationType>,
                     departureKm: int, departureTime: Option<int>, notes: Option<string>, now: int): (m: Movement)
    ensures m.status.EmTransito? && m.arrivalKm.None? && m.arrivalTime.None?
    ensures m.departureTime == if Truthy(departureTime) then departureTime.value else now
    ensures m.createdAt == m.updatedAt == now
  {
    Movement(vehicleId, personnelId, destination, destinationType, departureKm,
             if Truthy(departureTime) then departureTime.value else now,
             None, None, EmTransito, notes, now, now)
  }

  /** Appending an open movement for a vehicle with none keeps the invariant. */
  lemma AppendKeepsOneInTransit(t: seq<Doc<Movement>>, d: Doc<Movement>)
    requires AtMostOneInTransit(t) && NotInTransit(t, d.fields.vehicleId)
    ensures AtMostOneInTransit(t + [d])
  {
  }

  /** `create`: refuses a missing vehicle or person, a vehicle already out and a
      negative odometer, in that order; otherwise opens the movement. */
  method Create(db: Db, vehicleId: nat, personnelId: nat, destination: string, destinationType: Option<DestinationType>,
                departureKm: int, departureTime: Option<int>, notes: Option<string>, now: int)
    returns (r: Result<nat>)
    requires db.Valid()
    modifies db`movements, db`nextId
    ensures db.Valid()
    ensures r == Err(VehicleNotFound) <==> Get(db.vehicles, vehicleId).None?
    ensures r == Err(PersonnelNotFound) <==> Get(db.vehicles, vehicleId).Some? && Get(db.personnel, personnelId).None?
    ensures r == Err(VehicleAlreadyInTransit) <==>
      Get(db.vehicles, vehicleId).Some? && Get(db.personnel, personnelId).Some? && !NotInTransit(old(db.movements), vehicleId)
    ensures r == Err(NegativeKm) <==>
      Get(db.vehicles, vehicleId).Some? && Get(db.personnel, personnelId).Some? && NotInTransit(old(db.movements), vehicleId) &&
      departureKm < 0
    ensures r.Ok? <==> (Get(db.vehicles, vehicleId).Some? && Get(db.personnel, personnelId).Some? &&
      NotInTransit(old(db.movements), vehicleId) && departureKm >= 0)
    ensures r.Err? ==> db.movements == old(db.movements)
    ensures r.Ok? ==> (r.value == old(db.nextId) && db.movements == old(db.movements) +
      [Doc(r.value, Departure(vehicleId, personnelId, destination, destinationType, departureKm, departureTime, notes, now))])
    ensures AtMostOneInTransit(old(db.movements)) ==> AtMostOneInTransit(db.movements)
  {
    if Get(db.vehicles, vehicleId).None? {
      return Err(VehicleNotFound);
    }
    if Get(db.personnel, personnelId).None? {
      return Err(PersonnelNotFound);
    }
    if OpenMovement(db.movements, vehicleId).Some? {
      return Err(VehicleAlreadyInTransit);
    }
    if departureKm < 0 {
      return Err(NegativeKm);
    }
    var id := db.NewId();
    var doc := Doc(id, Departure(vehicleId, personnelId, destination, destinationType, departureKm, departureTime, notes, now));
    if AtMostOneInTransit(db.movements) {
      AppendKeepsOneInTransit(db.movements, doc);
    }
    InsertSpec(db.movements, id, doc.fields);
    db.movements := db.movements + [doc];
    r := Ok(id);
  }

  /** The movement after its arrival: closed with the arrival odometer and time. */
  function Arrived(m: Movement, arrivalKm: int, arrivalTime: int, now: int): (r: Movement)
    ensures r.status.Concluido? && r.arrivalKm == Some(arrivalKm) && r.arrivalTime == Some(arrivalTime)
    ensures r.updatedAt == now
    ensures r.(arrivalKm := m.arrivalKm, arrivalTime := m.arrivalTime, status := m.status, updatedAt := m.updatedAt) == m
  {
    m.(arrivalKm := Some(arrivalKm), arrivalTime := Some(arrivalTime), status := Concluido, updatedAt := now)
  }

  /** The reading an arrival records for the movement's vehicle. */
  function ArrivalReading(m: Movement, arrivalKm: int, arrivalTime: int, now: int): (r: Reading)
    ensures r.vehicleId == m.vehicleId && r.kmReading == arrivalKm && r.readingDate == arrivalTime
    ensures r.recordedBy == Some(ARRIVAL_RECORDER) && r.createdAt == now
    ensures r.notes == Some("Movimento finalizado: " + m.destination)
  {
    Reading(m.vehicleId, arrivalKm, arrivalTime, Some(ARRIVAL_RECORDER), Some("Movimento finalizado: " + m.destination), now)
  }

  /** Rewriting one movement as closed keeps the invariant. */
  lemma PatchClosedKeepsOneInTransit(t: seq<Doc<Movement>>, n: nat, id: nat, f: Movement)
    requires WellFormed(t, n) && Get(t, id).Some? && AtMostOneInTransit(t) && !f.status.EmTransito?
    ensures AtMostOneInTransit(Patch(t, id, f))
  {
    PatchSpec(t, n, id, f);
  }

  /** `registerArrival`: refuses a missing movement, a closed one and an arrival
      odometer below the departure one; otherwise closes the movement and
      appends a reading with the arrival odometer, not checked against the
      vehicle's latest reading. */
  method RegisterArrival(db: Db, id: nat, arrivalKm: int, arrivalTime: Option<int>, now: int) returns (r: Result<nat>)
    requires db.Valid()
    modifies db`movements, db`readings, db`nextId
    ensures db.Valid()
    ensures r == Err(MovementNotFound) <==> Get(old(db.movements), id).None?
    ensures r == Err(MovementAlreadyCompleted) <==>
      Get(old(db.movements), id).Some? && Get(old(db.movements), id).value.fields.status.Concluido?
    ensures r.Err? && r.error.ArrivalKmBelowDeparture? <==>
      Get(old(db.movements), id).Some? && Get(old(db.movements), id).value.fields.status.EmTransito? &&
      arrivalKm < Get(old(db.movements), id).value.fields.departureKm
    ensures r.Err? && r.error.ArrivalKmBelowDeparture? ==>
      r.error == ArrivalKmBelowDeparture(arrivalKm, Get(old(db.movements), id).value.fields.departureKm)
    ensures r.Ok? <==> (Get(old(db.movements), id).Some? && Get(old(db.movements), id).value.fields.status.EmTransito? &&
      arrivalKm >= Get(old(db.movements), id).value.fields.departureKm)
    ensures r.Err? ==> db.movements == old(db.movements) && db.readings == old(db.readings)
    ensures r.Ok? ==> (r.value == id && Get(old(db.movements), id).Some? &&
      var m := Get(old(db.movements), id).value.fields;
      var at := if Truthy(arrivalTime) then arrivalTime.value else now;
      db.movements == Patch(old(db.movements), id, Arrived(m, arrivalKm, at, now)) &&
      db.readings == old(db.readings) + [Doc(old(db.nextId), ArrivalReading(m, arrivalKm, at, now))])
    ensures AtMostOneInTransit(old(db.movements)) ==> AtMostOneInTransit(db.movements)
  {
    var found := Get(db.movements, id);
    if found.None? {
      return Err(MovementNotFound);
    }
    var m := found.value.fields;
    if m.status.Concluido? {
      return Err(MovementAlreadyCompleted);
    }
    if arrivalKm < m.departureKm {
      return Err(ArrivalKmBelowDeparture(arrivalKm, m.departureKm));
    }
    var at := if Truthy(arrivalTime) then arrivalTime.value else now;
    var closed := Arrived(m, arrivalKm, at, now);
    PatchSpec(db.movements, db.nextId, id, closed);
    if AtMostOneInTransit(db.movements) {
      PatchClosedKeepsOneInTransit(db.movements, db.nextId, id, closed);
    }
    db.movements := Patch(db.movements, id, closed);
    var readingId := db.NewId();
    InsertSpec(db.readings, readingId, ArrivalReading(m, arrivalKm, at, now));
    db.readings := db.readings + [Doc(readingId, ArrivalReading(m, arrivalKm, at, now))];
    r := Ok(id);
  }

  /** The reading an arrival appends can lie below the vehicle's latest reading:
      the arrival guard compares with the departure odometer only. */
  lemma ArrivalMayBreakKmOrder()
    ensures var vehicleId, at := 7, 1000;
      var readings := [Doc(1, Reading(vehicleId, 500, at, None, None, at))];
      var m := Movement(vehicleId, 2, "QRF", None, 100, at, None, None, EmTransito, None, at, at);
      KmNonDecreasing(readings) && 100 <= 200 &&
      !KmNonDecreasing(readings + [Doc(3, ArrivalReading(m, 200, at, at))])
  {
    var readings := [Doc(1, Reading(7, 500, 1000, None, None, 1000))];
    var m := Movement(7, 2, "QRF", None, 100, 1000, None, None, EmTransito, None, 1000, 1000);
    var t := readings + [Doc(3, ArrivalReading(m, 200, 1000, 1000))];
    assert t[0].fields.kmReading == 500 && t[1].fields.kmReading == 200;
  }

  /** Dropping a movement keeps the invariant. */
  lemma DropKeepsOneInTransit(t: seq<Doc<Movement>>, i: nat)
    requires AtMostOneInTransit(t) && i < |t|
    ensures AtMostOneInTransit(t[..i] + t[i + 1..])
  {
    var r := t[..i] + t[i + 1..];
    forall a, b | 0 <= a < b < |r| && r[a].fields.vehicleId == r[b].fields.vehicleId
      ensures !(r[a].fields.status.EmTransito? && r[b].fields.status.EmTransito?)
    {
      var a' := if a < i then a else a + 1;
      var b' := if b < i then b else b + 1;
      assert r[a] == t[a'] && r[b] == t[b'];
    }
  }

  /** `remove`: deletes the movement, open or not; the store refuses a missing id. */
  method Remove(db: Db, id: nat) returns (r: Result<nat>)
    requires db.Valid()
    modifies db`movements
    ensures db.Valid()
    ensures r.Err? <==> Get(old(db.movements), id).None?
    ensures r.Err? ==> r.error == DocumentNotFound && db.movements == old(db.movements)
    ensures r.Ok? ==> r.value == id && |db.movements| == |old(db.movements)| - 1
    ensures forall d :: d in db.movements <==> d in old(db.movements) && d.id != id
    ensures AtMostOneInTransit(old(db.movements)) ==> AtMostOneInTransit(db.movements)
  {
    if Get(db.movements, id).None? {
      return Err(DocumentNotFound);
    }
    RemoveSpec(db.movements, db.nextId, id);
    if AtMostOneInTransit(db.movements) {
      DropKeepsOneInTransit(db.movements, IndexOf(db.movements, id).value);
    }
    db.movements := Store.Remove(db.movements, id);
    r := Ok(id);
  }
}
