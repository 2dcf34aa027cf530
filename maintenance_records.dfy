/** The maintenance-record handlers: the filtered list joined with each record's
    vehicle, the single-record lookup, and the four mutations. */
module MaintenanceRecords {
  import opened Common
  import opened Schema
  import opened Store
  import Vehicles

  /** The vehicle type's name and description, as joined into a record view. */
  datatype TypeSummary = TypeSummary(name: string, description: string)

  /** The vehicle fields joined into a record view. */
  datatype VehicleSummary = VehicleSummary(
    id: nat,
    operationalPrefix: string,
    plate: string,
    brand: string,
    model: string,
    vehicleType: Option<TypeSummary>)

  /** A record with its vehicle, as `list` and `get` return it. */
  datatype RecordView = RecordView(record: Doc<MaintenanceRecord>, vehicle: VehicleSummary)

  function Summary(v: Doc<Vehicle>, types: seq<Doc<VehicleType>>): (r: VehicleSummary)
    ensures r.id == v.id && r.plate == v.fields.plate && r.operationalPrefix == v.fields.operationalPrefix
    ensures r.vehicleType.Some? <==> Get(types, v.fields.typeId).Some?
    ensures r.vehicleType.Some? ==> r.vehicleType.value.name == Get(types, v.fields.typeId).value.fields.name
  {
    var t := Get(types, v.fields.typeId);
    VehicleSummary(v.id, v.fields.operationalPrefix, v.fields.plate, v.fields.brand, v.fields.model,
                   if t.Some? then Some(TypeSummary(t.value.fields.name, t.value.fields.description)) else None)
  }

  /** One record joined with its vehicle; null when the vehicle is gone. */
  function ViewOf(d: Doc<MaintenanceRecord>, vehicles: seq<Doc<Vehicle>>, types: seq<Doc<VehicleType>>): (r: Option<RecordView>)
    ensures r.Some? <==> Get(vehicles, d.fields.vehicleId).Some?
    ensures r.Some? ==> r.value.record == d && r.value.vehicle.id == d.fields.vehicleId
  {
    match Get(vehicles, d.fields.vehicleId)
    case None => None
    case Some(v) => Some(RecordView(d, Summary(v, types)))
  }

  /** The record satisfies every filter that is supplied. */
  predicate Matches(d: Doc<MaintenanceRecord>, vehicleId: Option<nat>, status: Option<MaintenanceStatus>,
                    kind: Option<MaintenanceType>) {
    (vehicleId.None? || d.fields.vehicleId == vehicleId.value) &&
    (status.None? || d.fields.status == status.value) &&
    (kind.None? || d.fields.kind == kind.value)
  }

  function Matcher(vehicleId: Option<nat>, status: Option<MaintenanceStatus>, kind: Option<MaintenanceType>):
    Doc<MaintenanceRecord> -> bool
  {
    d => Matches(d, vehicleId, status, kind)
  }

  /** The records `list` reads before the join: one of four index scans, then
      the type filter. */
  function Selected(t: seq<Doc<MaintenanceRecord>>, vehicleId: Option<nat>, status: Option<MaintenanceStatus>,
                    kind: Option<MaintenanceType>): (r: seq<Doc<MaintenanceRecord>>)
    ensures |r| <= |t|
  {
    var scanned :=
      if vehicleId.Some? && status.Some? then
        Filter(t, (d: Doc<MaintenanceRecord>) => d.fields.vehicleId == vehicleId.value && d.fields.status == status.value)
      else if vehicleId.Some? then
        Filter(t, (d: Doc<MaintenanceRecord>) => d.fields.vehicleId == vehicleId.value)
      else if status.Some? then
        Filter(t, (d: Doc<MaintenanceRecord>) => d.fields.status == status.value)
      else t;
    if kind.Some? then Filter(scanned, (d: Doc<MaintenanceRecord>) => d.fields.kind == kind.value) else scanned
  }

  /** Whichever index branch is taken, the records read are exactly the
      records matching every supplied filter, in insertion order. */
  lemma SelectedMatches(t: seq<Doc<MaintenanceRecord>>, vehicleId: Option<nat>, status: Option<MaintenanceStatus>,
                        kind: Option<MaintenanceType>)
    ensures Selected(t, vehicleId, status, kind) == Filter(t, Matcher(vehicleId, status, kind))
  {
    var m := Matcher(vehicleId, status, kind);
    var p: Doc<MaintenanceRecord> -> bool :=
      if vehicleId.Some? && status.Some? then
        (d: Doc<MaintenanceRecord>) => d.fields.vehicleId == vehicleId.value && d.fields.status == status.value
      else if vehicleId.Some? then
        (d: Doc<MaintenanceRecord>) => d.fields.vehicleId == vehicleId.value
      else if status.Some? then
        (d: Doc<MaintenanceRecord>) => d.fields.status == status.value
      else
        (d: Doc<MaintenanceRecord>) => true;
    var scanned := if vehicleId.Some? || status.Some? then Filter(t, p) else t;
    if kind.Some? {
      var q := (d: Doc<MaintenanceRecord>) => d.fields.kind == kind.value;
      assert Selected(t, vehicleId, status, kind) == Filter(scanned, q);
      if vehicleId.Some? || status.Some? {
        FilterFilterCongruent(t, p, q, m);
      } else {
        FilterCongruent(t, q, m);
      }
    } else {
      assert Selected(t, vehicleId, status, kind) == scanned;
      if vehicleId.Some? || status.Some? {
        FilterCongruent(t, p, m);
      } else {
        FilterAll(t, m);
      }
    }
  }

  /** The record's vehicle is still in the table. */
  function HasVehicle(vehicles: seq<Doc<Vehicle>>): Doc<MaintenanceRecord> -> bool {
    (d: Doc<MaintenanceRecord>) => Get(vehicles, d.fields.vehicleId).Some?
  }

  /** The join of `list`: each record with its vehicle, records whose vehicle
      is gone dropped. */
  function Join(s: seq<Doc<MaintenanceRecord>>, vehicles: seq<Doc<Vehicle>>, types: seq<Doc<VehicleType>>):
    (r: seq<RecordView>)
    ensures var kept := Filter(s, HasVehicle(vehicles));
      |r| == |kept| && forall k :: 0 <= k < |r| ==> Some(r[k]) == ViewOf(kept[k], vehicles, types)
    ensures forall k :: 0 <= k < |r| ==> r[k].record in s && ViewOf(r[k].record, vehicles, types) == Some(r[k])
    ensures forall d :: d in s && ViewOf(d, vehicles, types).Some? ==> ViewOf(d, vehicles, types).value in r
  {
    if s == [] then []
    else
      var s', x := s[..|s| - 1], s[|s| - 1];
      var last := ViewOf(x, vehicles, types);
      assert Filter(s, HasVehicle(vehicles)) ==
        Filter(s', HasVehicle(vehicles)) + (if HasVehicle(vehicles)(x) then [x] else []);
      assert forall d :: d in s ==> d in s' || d == x;
      Join(s', vehicles, types) + (if last.Some? then [last.value] else [])
  }

  /** `list`: the records matching every supplied filter whose vehicle exists,
      each joined with its vehicle, in insertion order. */
  function List(maintenance: seq<Doc<MaintenanceRecord>>, vehicles: seq<Doc<Vehicle>>, types: seq<Doc<VehicleType>>,
                vehicleId: Option<nat>, status: Option<MaintenanceStatus>, kind: Option<MaintenanceType>):
    (r: seq<RecordView>)
    ensures r == Join(Filter(maintenance, Matcher(vehicleId, status, kind)), vehicles, types)
    ensures |r| <= |maintenance|
    ensures forall k :: 0 <= k < |r| ==> (r[k].record in maintenance &&
      Matches(r[k].record, vehicleId, status, kind) && ViewOf(r[k].record, vehicles, types) == Some(r[k]))
    ensures forall d :: (d in maintenance && Matches(d, vehicleId, status, kind) &&
      Get(vehicles, d.fields.vehicleId).Some?) ==> ViewOf(d, vehicles, types).value in r
  {
    SelectedMatches(maintenance, vehicleId, status, kind);
    FilterHas(maintenance, Matcher(vehicleId, status, kind));
    Join(Selected(maintenance, vehicleId, status, kind), vehicles, types)
  }

  /** `get`: null when the record or its vehicle is missing. */
  function GetView(maintenance: seq<Doc<MaintenanceRecord>>, vehicles: seq<Doc<Vehicle>>,
                   types: seq<Doc<VehicleType>>, id: nat): (r: Option<RecordView>)
    ensures r.None? <==> (Get(maintenance, id).None? ||
      Get(vehicles, Get(maintenance, id).value.fields.vehicleId).None?)
    ensures r.Some? ==> r.value.record == Get(maintenance, id).value
    ensures r.Some? ==> r.value.vehicle.id == r.value.record.fields.vehicleId
  {
    match Get(maintenance, id)
    case None => None
    case Some(d) => ViewOf(d, vehicles, types)
  }

  /** `create`: stores the record as given, stamped with the creation time. The
      vehicle is not looked up and no other record is consulted. */
  method Create(db: Db, data: MaintenanceRecord, now: int) returns (id: nat)
    requires db.Valid()
    modifies db`maintenance, db`nextId
    ensures db.Valid()
    ensures id == old(db.nextId)
    ensures db.maintenance == old(db.maintenance) + [Doc(id, data.(createdAt := now, updatedAt := now))]
  {
    id := db.NewId();
    InsertSpec(db.maintenance, id, data.(createdAt := now, updatedAt := now));
    db.maintenance := db.maintenance + [Doc(id, data.(createdAt := now, updatedAt := now))];
  }

  /** Nothing stops a second in-progress record for a vehicle; the vehicle's
      reported active maintenance stays the first one. */
  lemma SecondInProgressHidden(t: seq<Doc<MaintenanceRecord>>, d: Doc<MaintenanceRecord>)
    requires d.fields.status.InProgress?
    requires Vehicles.HasInProgress(t, d.fields.vehicleId)
    ensures d in t + [d] && Vehicles.HasInProgress(t + [d], d.fields.vehicleId)
    ensures Vehicles.GetActiveMaintenance(t + [d], d.fields.vehicleId) ==
            Vehicles.GetActiveMaintenance(t, d.fields.vehicleId)
  {
    var v := d.fields.vehicleId;
    var u := t + [d];
    assert u[|t|] == d;
    var a := Vehicles.GetActiveMaintenance(t, v).value;
    var b := Vehicles.GetActiveMaintenance(u, v).value;
    var i :| 0 <= i < |t| && t[i] == a &&
      forall j :: 0 <= j < i && t[j].fields.vehicleId == v ==> !t[j].fields.status.InProgress?;
    var i' :| 0 <= i' < |u| && u[i'] == b &&
      forall j :: 0 <= j < i' && u[j].fields.vehicleId == v ==> !u[j].fields.status.InProgress?;
    assert u[i] == a;
    assert i' < |t| ==> t[i'] == b;
  }

  /** The optional arguments of `update`: a field left out stays as it is. */
  datatype Changes = Changes(
    kind: Option<MaintenanceType>,
    status: Option<MaintenanceStatus>,
    seiProcessNumber: Option<string>,
    sentDate: Option<int>,
    returnDate: Option<int>,
    location: Option<string>,
    kmAtMaintenance: Option<int>,
    description: Option<string>,
    notes: Option<string>)

  /** An optional argument: the supplied value, or the stored one when left out. */
  function Pick<T>(given: Option<T>, stored: T): (r: T)
    ensures given.Some? ==> r == given.value
    ensures given.None? ==> r == stored
  {
    if given.Some? then given.value else stored
  }

  /** An optional argument for an optional field: supplying it sets the field. */
  function PickOptional<T>(given: Option<T>, stored: Option<T>): (r: Option<T>)
    ensures given.Some? ==> r == given
    ensures given.None? ==> r == stored
  {
    if given.Some? then given else stored
  }

  /** The record after `update`: every supplied field replaced, the rest kept,
      and the update time stamped. */
  function Applied(prev: MaintenanceRecord, c: Changes, now: int): (r: MaintenanceRecord)
    ensures r.vehicleId == prev.vehicleId && r.createdAt == prev.createdAt && r.updatedAt == now
    ensures r.kind == Pick(c.kind, prev.kind) && r.status == Pick(c.status, prev.status)
    ensures r.seiProcessNumber == PickOptional(c.seiProcessNumber, prev.seiProcessNumber)
    ensures r.sentDate == PickOptional(c.sentDate, prev.sentDate)
    ensures r.returnDate == PickOptional(c.returnDate, prev.returnDate)
    ensures r.location == PickOptional(c.location, prev.location)
    ensures r.kmAtMaintenance == Pick(c.kmAtMaintenance, prev.kmAtMaintenance)
    ensures r.description == Pick(c.description, prev.description)
    ensures r.notes == PickOptional(c.notes, prev.notes)
  {
    MaintenanceRecord(
      prev.vehicleId,
      Pick(c.kind, prev.kind),
      Pick(c.status, prev.status),
      PickOptional(c.seiProcessNumber, prev.seiProcessNumber),
      PickOptional(c.sentDate, prev.sentDate),
      PickOptional(c.returnDate, prev.returnDate),
      PickOptional(c.location, prev.location),
      Pick(c.kmAtMaintenance, prev.kmAtMaintenance),
      Pick(c.description, prev.description),
      PickOptional(c.notes, prev.notes),
      prev.createdAt,
      now)
  }

  /** An update that supplies nothing only stamps the update time. */
  lemma EmptyUpdateOnlyStamps(prev: MaintenanceRecord, now: int)
    ensures Applied(prev, Changes(None, None, None, None, None, None, None, None, None), now) ==
      prev.(updatedAt := now)
  {
  }

  /** `update`: refuses a missing record, otherwise patches the supplied fields. */
  method Update(db: Db, id: nat, c: Changes, now: int) returns (r: Result<nat>)
    requires db.Valid()
    modifies db`maintenance
    ensures db.Valid()
    ensures r.Err? <==> Get(old(db.maintenance), id).None?
    ensures r.Err? ==> r.error == MaintenanceRecordNotFound && db.maintenance == old(db.maintenance)
    ensures r.Ok? ==> (r.value == id &&
      db.maintenance == Patch(old(db.maintenance), id, Applied(Get(old(db.maintenance), id).value.fields, c, now)))
  {
    var existing := Get(db.maintenance, id);
    if existing.None? {
      return Err(MaintenanceRecordNotFound);
    }
    var f := Applied(existing.value.fields, c, now);
    PatchSpec(db.maintenance, db.nextId, id, f);
    db.maintenance := Patch(db.maintenance, id, f);
    r := Ok(id);
  }

  /** `updateStatus`: refuses a missing record, otherwise changes only the status
      and the update time. */
  method UpdateStatus(db: Db, id: nat, status: MaintenanceStatus, now: int) returns (r: Result<nat>)
    requires db.Valid()
    modifies db`maintenance
    ensures db.Valid()
    ensures r.Err? <==> Get(old(db.maintenance), id).None?
    ensures r.Err? ==> r.error == MaintenanceRecordNotFound && db.maintenance == old(db.maintenance)
    ensures r.Ok? ==> (r.value == id &&
      db.maintenance == Patch(old(db.maintenance), id,
        Get(old(db.maintenance), id).value.fields.(status := status, updatedAt := now)))
  {
    var existing := Get(db.maintenance, id);
    if existing.None? {
      return Err(MaintenanceRecordNotFound);
    }
    var f := existing.value.fields.(status := status, updatedAt := now);
    PatchSpec(db.maintenance, db.nextId, id, f);
    db.maintenance := Patch(db.maintenance, id, f);
    r := Ok(id);
  }

  /** A status change is the update that supplies only the status. */
  lemma StatusIsUpdate(prev: MaintenanceRecord, status: MaintenanceStatus, now: int)
    ensures prev.(status := status, updatedAt := now) ==
      Applied(prev, Changes(None, Some(status), None, None, None, None, None, None, None), now)
  {
  }

  /** `remove`: refuses a missing record, otherwise deletes exactly that record. */
  method Remove(db: Db, id: nat) returns (r: Result<()>)
    requires db.Valid()
    modifies db`maintenance
    ensures db.Valid()
    ensures r.Err? <==> Get(old(db.maintenance), id).None?
    ensures r.Err? ==> r.error == MaintenanceRecordNotFound && db.maintenance == old(db.maintenance)
    ensures r.Ok? ==> |db.maintenance| == |old(db.maintenance)| - 1
    ensures forall d :: d in db.maintenance <==> d in old(db.maintenance) && d.id != id
  {
    if Get(db.maintenance, id).None? {
      return Err(MaintenanceRecordNotFound);
    }
    RemoveSpec(db.maintenance, db.nextId, id);
    db.maintenance := Store.Remove(db.maintenance, id);
    r := Ok(());
  }
}
