/** The vehicle registry: availability (a vehicle is in maintenance while one of
    its maintenance records is in progress), the detail views, fleet statistics,
    and the create/update/remove handlers with their uniqueness and reference
    guards. */
module Vehicles {
  import opened Common
  import opened Schema
  import opened Store
  import opened VehicleReadings
  import opened Keys

  /** Some maintenance record of the vehicle is in progress. */
  ghost predicate HasInProgress(maintenance: seq<Doc<MaintenanceRecord>>, vehicleId: nat) {
    exists k :: 0 <= k < |maintenance| && maintenance[k].fields.vehicleId == vehicleId &&
      maintenance[k].fields.status.InProgress?
  }

  /** `getActiveMaintenance`: the vehicle's first record that is in progress. A
      record only awaiting CEMAN does not count. */
  function GetActiveMaintenance(maintenance: seq<Doc<MaintenanceRecord>>, vehicleId: nat): (r: Option<Doc<MaintenanceRecord>>)
    ensures r.None? <==> !HasInProgress(maintenance, vehicleId)
    ensures r.Some? ==> (r.value in maintenance && r.value.fields.vehicleId == vehicleId &&
      r.value.fields.status.InProgress?)
    ensures r.Some? ==> exists i :: (0 <= i < |maintenance| && maintenance[i] == r.value &&
      forall j :: 0 <= j < i && maintenance[j].fields.vehicleId == vehicleId ==>
        !maintenance[j].fields.status.InProgress?)
  {
    match FirstIndex(maintenance, (m: Doc<MaintenanceRecord>) => m.fields.vehicleId == vehicleId && m.fields.status.InProgress?)
    case None => None
    case Some(i) => Some(maintenance[i])
  }

  /** `hasActiveMaintenance`: the vehicle is unavailable. */
  function HasActiveMaintenance(maintenance: seq<Doc<MaintenanceRecord>>, vehicleId: nat): (r: bool)
    ensures r <==> HasInProgress(maintenance, vehicleId)
  {
    GetActiveMaintenance(maintenance, vehicleId).Some?
  }

  /** A vehicle as the list and detail queries return it. */
  datatype VehicleView = VehicleView(
    vehicle: Doc<Vehicle>,
    vehicleType: Option<Doc<VehicleType>>,
    inMaintenance: bool,
    maintenanceLocation: Option<string>,
    currentKm: int)

  /** The joined fields of one vehicle: its type, availability, the location of
      its active maintenance and its current kilometres. */
  function Describe(v: Doc<Vehicle>, types: seq<Doc<VehicleType>>, maintenance: seq<Doc<MaintenanceRecord>>,
                    readings: seq<Doc<Reading>>): (r: VehicleView)
    ensures r.vehicle == v && r.vehicleType == Get(types, v.fields.typeId)
    ensures r.inMaintenance <==> HasInProgress(maintenance, v.id)
    ensures !r.inMaintenance ==> r.maintenanceLocation.None?
    ensures r.inMaintenance ==> r.maintenanceLocation == GetActiveMaintenance(maintenance, v.id).value.fields.location
    ensures HasNoReading(readings, v.id) ==> r.currentKm == 0
    ensures forall i :: IsLatest(readings, v.id, i) ==> r.currentKm == readings[i].fields.kmReading
    ensures KmNonDecreasing(readings) ==>
      forall k :: 0 <= k < |readings| && readings[k].fields.vehicleId == v.id ==>
        readings[k].fields.kmReading <= r.currentKm
  {
    var active := GetActiveMaintenance(maintenance, v.id);
    VehicleView(v, Get(types, v.fields.typeId), active.Some?,
                if active.Some? then active.value.fields.location else None,
                GetCurrentKm(readings, v.id))
  }

  /** The optional filters of `list`: a given service type and a given availability. */
  predicate Matches(w: VehicleView, serviceType: Option<ServiceType>, inMaintenance: Option<bool>) {
    (serviceType.None? || w.vehicle.fields.serviceType == serviceType.value) &&
    (inMaintenance.None? || w.inMaintenance == inMaintenance.value)
  }

  function DescribeAll(vehicles: seq<Doc<Vehicle>>, types: seq<Doc<VehicleType>>,
                       maintenance: seq<Doc<MaintenanceRecord>>, readings: seq<Doc<Reading>>): (r: seq<VehicleView>)
    ensures |r| == |vehicles|
    ensures forall k :: 0 <= k < |vehicles| ==> r[k] == Describe(vehicles[k], types, maintenance, readings)
  {
    Map(vehicles, (v: Doc<Vehicle>) => Describe(v, types, maintenance, readings))
  }

  /** The service-type filter of `list`; it keeps everything when no type is given. */
  function ServiceFilter(serviceType: Option<ServiceType>): VehicleView -> bool {
    (w: VehicleView) => serviceType.None? || w.vehicle.fields.serviceType == serviceType.value
  }

  /** The availability filter of `list`; it keeps everything when no availability is given. */
  function AvailabilityFilter(inMaintenance: Option<bool>): VehicleView -> bool {
    (w: VehicleView) => inMaintenance.None? || w.inMaintenance == inMaintenance.value
  }

  /** Both filters of `list` at once. */
  function ListFilter(serviceType: Option<ServiceType>, inMaintenance: Option<bool>): VehicleView -> bool {
    (w: VehicleView) => Matches(w, serviceType, inMaintenance)
  }

  /** `filter(v => v.serviceType === serviceType)`, applied only when a service type is given. */
  function ByService(s: seq<VehicleView>, serviceType: Option<ServiceType>): (r: seq<VehicleView>)
    ensures r == Filter(s, ServiceFilter(serviceType))
    ensures serviceType.None? ==> r == s
  {
    if serviceType.Some? then
      var r := Filter(s, (w: VehicleView) => w.vehicle.fields.serviceType == serviceType.value);
      FilterCongruent(s, (w: VehicleView) => w.vehicle.fields.serviceType == serviceType.value, ServiceFilter(serviceType));
      r
    else
      FilterAll(s, ServiceFilter(serviceType));
      s
  }

  /** `filter(v => v.inMaintenance === inMaintenance)`, applied only when availability is given. */
  function ByAvailability(s: seq<VehicleView>, inMaintenance: Option<bool>): (r: seq<VehicleView>)
    ensures r == Filter(s, AvailabilityFilter(inMaintenance))
    ensures inMaintenance.None? ==> r == s
  {
    if inMaintenance.Some? then
      var r := Filter(s, (w: VehicleView) => w.inMaintenance == inMaintenance.value);
      FilterCongruent(s, (w: VehicleView) => w.inMaintenance == inMaintenance.value, AvailabilityFilter(inMaintenance));
      r
    else
      FilterAll(s, AvailabilityFilter(inMaintenance));
      s
  }

  /** `list`: the described vehicles, kept in table order, that pass the filters given. */
  function List(vehicles: seq<Doc<Vehicle>>, types: seq<Doc<VehicleType>>, maintenance: seq<Doc<MaintenanceRecord>>,
                readings: seq<Doc<Reading>>, serviceType: Option<ServiceType>, inMaintenance: Option<bool>): (r: seq<VehicleView>)
    ensures r == Filter(DescribeAll(vehicles, types, maintenance, readings), ListFilter(serviceType, inMaintenance))
    ensures |r| <= |vehicles|
    ensures forall k :: 0 <= k < |r| ==> r[k] in DescribeAll(vehicles, types, maintenance, readings) && Matches(r[k], serviceType, inMaintenance)
    ensures forall k :: 0 <= k < |vehicles| && Matches(Describe(vehicles[k], types, maintenance, readings), serviceType, inMaintenance) ==>
      Describe(vehicles[k], types, maintenance, readings) in r
  {
    var all := DescribeAll(vehicles, types, maintenance, readings);
    FilterFilterCongruent(all, ServiceFilter(serviceType), AvailabilityFilter(inMaintenance), ListFilter(serviceType, inMaintenance));
    ByAvailability(ByService(all, serviceType), inMaintenance)
  }

  /** A vehicle detail: the view plus the kilometres left before the next revision. */
  datatype VehicleDetail = VehicleDetail(view: VehicleView, kmUntilMaintenance: Option<int>)

  /** `get`: null for a missing vehicle; `kmUntilMaintenance` only when the next
      revision mark is set (non-zero). */
  function GetDetail(vehicles: seq<Doc<Vehicle>>, types: seq<Doc<VehicleType>>, maintenance: seq<Doc<MaintenanceRecord>>,
                     readings: seq<Doc<Reading>>, id: nat): (r: Option<VehicleDetail>)
    ensures r.None? <==> Get(vehicles, id).None?
    ensures r.Some? ==> r.value.view == Describe(Get(vehicles, id).value, types, maintenance, readings)
    ensures r.Some? ==> (r.value.kmUntilMaintenance.Some? <==> Truthy(r.value.view.vehicle.fields.nextMaintenanceKm))
    ensures r.Some? && r.value.kmUntilMaintenance.Some? ==>
      r.value.kmUntilMaintenance.value + r.value.view.currentKm == r.value.view.vehicle.fields.nextMaintenanceKm.value
  {
    match Get(vehicles, id)
    case None => None
    case Some(v) =>
      var view := Describe(v, types, maintenance, readings);
      var next := v.fields.nextMaintenanceKm;
      Some(VehicleDetail(view, if Truthy(next) then Some(next.value - view.currentKm) else None))
  }

  /** The four registration keys that must be unique across the fleet. */
  datatype Key = Plate | Chassis | Renavam | Prefix

  function KeyOf(v: Vehicle, k: Key): string {
    match k
    case Plate => v.plate
    case Chassis => v.chassisNumber
    case Renavam => v.renavam
    case Prefix => v.operationalPrefix
  }

  /** Key `k` as a field of the vehicle, for the uniqueness definitions of `Keys`. */
  function KeyFn(k: Key): Vehicle -> string {
    (v: Vehicle) => KeyOf(v, k)
  }

  function DuplicateError(k: Key): Error {
    match k
    case Plate => DuplicatePlate
    case Chassis => DuplicateChassis
    case Renavam => DuplicateRenavam
    case Prefix => DuplicatePrefix
  }

  /** `.withIndex("by_plate"|...).first()`: the first vehicle holding that key value. */
  function FindByKey(vehicles: seq<Doc<Vehicle>>, k: Key, value: string): (r: Option<Doc<Vehicle>>)
    ensures r.None? <==> forall i :: 0 <= i < |vehicles| ==> KeyOf(vehicles[i].fields, k) != value
    ensures r.Some? ==> r.value in vehicles && KeyOf(r.value.fields, k) == value
    ensures r.Some? ==> exists i :: (0 <= i < |vehicles| && vehicles[i] == r.value &&
      forall j :: 0 <= j < i ==> KeyOf(vehicles[j].fields, k) != value)
  {
    Holder(vehicles, KeyFn(k), value)
  }

  /** `getByPlate` / `getByPrefix`: the first vehicle with that plate or prefix, described. */
  function GetByKey(vehicles: seq<Doc<Vehicle>>, types: seq<Doc<VehicleType>>, maintenance: seq<Doc<MaintenanceRecord>>,
                    readings: seq<Doc<Reading>>, k: Key, value: string): (r: Option<VehicleView>)
    ensures r.None? <==> forall i :: 0 <= i < |vehicles| ==> KeyOf(vehicles[i].fields, k) != value
    ensures r.Some? ==> r.value.vehicle in vehicles && KeyOf(r.value.vehicle.fields, k) == value
    ensures r.Some? ==> exists i :: (0 <= i < |vehicles| && r.value == Describe(vehicles[i], types, maintenance, readings) &&
      KeyOf(vehicles[i].fields, k) == value && forall j :: 0 <= j < i ==> KeyOf(vehicles[j].fields, k) != value)
  {
    match FindByKey(vehicles, k, value)
    case None => None
    case Some(v) => Some(Describe(v, types, maintenance, readings))
  }

  /** No two vehicles share a plate, a chassis, a renavam or a prefix. */
  ghost predicate KeysUnique(vehicles: seq<Doc<Vehicle>>) {
    forall k: Key :: Unique(vehicles, KeyFn(k))
  }

  /** None of the four keys of `data` is held by anyone but `self`. */
  ghost predicate AllFree(vehicles: seq<Doc<Vehicle>>, data: Vehicle, self: Option<nat>) {
    forall k: Key :: Free(vehicles, KeyFn(k), KeyOf(data, k), self)
  }

  /** None of the four keys of `data` clashes. */
  predicate NoClash(vehicles: seq<Doc<Vehicle>>, data: Vehicle, self: Option<nat>) {
    !Clash(vehicles, KeyFn(Plate), data.plate, self) && !Clash(vehicles, KeyFn(Chassis), data.chassisNumber, self) &&
    !Clash(vehicles, KeyFn(Renavam), data.renavam, self) && !Clash(vehicles, KeyFn(Prefix), data.operationalPrefix, self)
  }

  /** The guards shared by `create` and `update`, in the handlers' order: plate,
      chassis, renavam, prefix, then the vehicle type. */
  function Validate(vehicles: seq<Doc<Vehicle>>, types: seq<Doc<VehicleType>>, data: Vehicle, self: Option<nat>): (e: Option<Error>)
    ensures Clash(vehicles, KeyFn(Plate), data.plate, self) ==> e == Some(DuplicatePlate)
    ensures !Clash(vehicles, KeyFn(Plate), data.plate, self) && Clash(vehicles, KeyFn(Chassis), data.chassisNumber, self) ==>
      e == Some(DuplicateChassis)
    ensures (!Clash(vehicles, KeyFn(Plate), data.plate, self) && !Clash(vehicles, KeyFn(Chassis), data.chassisNumber, self) &&
      Clash(vehicles, KeyFn(Renavam), data.renavam, self)) ==> e == Some(DuplicateRenavam)
    ensures (!Clash(vehicles, KeyFn(Plate), data.plate, self) && !Clash(vehicles, KeyFn(Chassis), data.chassisNumber, self) &&
      !Clash(vehicles, KeyFn(Renavam), data.renavam, self) && Clash(vehicles, KeyFn(Prefix), data.operationalPrefix, self)) ==>
      e == Some(DuplicatePrefix)
    ensures e == Some(VehicleTypeNotFound) <==> NoClash(vehicles, data, self) && Get(types, data.typeId).None?
    ensures e.None? <==> (Get(types, data.typeId).Some? && NoClash(vehicles, data, self))
  {
    if Clash(vehicles, KeyFn(Plate), data.plate, self) then Some(DuplicatePlate)
    else if Clash(vehicles, KeyFn(Chassis), data.chassisNumber, self) then Some(DuplicateChassis)
    else if Clash(vehicles, KeyFn(Renavam), data.renavam, self) then Some(DuplicateRenavam)
    else if Clash(vehicles, KeyFn(Prefix), data.operationalPrefix, self) then Some(DuplicatePrefix)
    else if Get(types, data.typeId).None? then Some(VehicleTypeNotFound)
    else None
  }

  /** Passing the guards means no other vehicle holds any of the four keys. */
  lemma ValidateFree(vehicles: seq<Doc<Vehicle>>, types: seq<Doc<VehicleType>>, data: Vehicle, self: Option<nat>)
    requires self.None? || KeysUnique(vehicles)
    ensures Validate(vehicles, types, data, self).None? <==>
      Get(types, data.typeId).Some? && AllFree(vehicles, data, self)
  {
    ClashExact(vehicles, KeyFn(Plate), data.plate, self);
    ClashExact(vehicles, KeyFn(Chassis), data.chassisNumber, self);
    ClashExact(vehicles, KeyFn(Renavam), data.renavam, self);
    ClashExact(vehicles, KeyFn(Prefix), data.operationalPrefix, self);
    if NoClash(vehicles, data, self) {
      forall k: Key ensures Free(vehicles, KeyFn(k), KeyOf(data, k), self) {
        match k
        case Plate =>
        case Chassis =>
        case Renavam =>
        case Prefix =>
      }
    }
  }

  /** A vehicle whose keys nobody holds can be appended without a duplicate. */
  lemma AppendKeepsKeysUnique(vehicles: seq<Doc<Vehicle>>, d: Doc<Vehicle>)
    requires KeysUnique(vehicles)
    requires AllFree(vehicles, d.fields, None)
    ensures KeysUnique(vehicles + [d])
  {
    forall k: Key ensures Unique(vehicles + [d], KeyFn(k)) {
      AppendKeepsUnique(vehicles, KeyFn(k), d);
    }
  }

  /** Rewriting one vehicle with keys only it holds keeps the keys unique. */
  lemma PatchKeepsKeysUnique(vehicles: seq<Doc<Vehicle>>, n: nat, id: nat, f: Vehicle)
    requires WellFormed(vehicles, n) && KeysUnique(vehicles) && Get(vehicles, id).Some?
    requires AllFree(vehicles, f, Some(id))
    ensures KeysUnique(Patch(vehicles, id, f))
  {
    forall k: Key ensures Unique(Patch(vehicles, id, f), KeyFn(k)) {
      PatchKeepsUnique(vehicles, n, KeyFn(k), id, f);
    }
  }

  /** `create`: refuses a duplicate key or a missing type; otherwise inserts the
      vehicle stamped with `createdAt = updatedAt = now`. The timestamps of
      `data` are not read. */
  method Create(db: Db, data: Vehicle, now: int) returns (r: Result<nat>)
    requires db.Valid()
    modifies db`vehicles, db`nextId
    ensures db.Valid()
    ensures r.Err? <==> Validate(old(db.vehicles), db.vehicleTypes, data, None).Some?
    ensures r.Err? ==> (Some(r.error) == Validate(old(db.vehicles), db.vehicleTypes, data, None) &&
      db.vehicles == old(db.vehicles))
    ensures r.Ok? ==> (r.value == old(db.nextId) &&
      db.vehicles == old(db.vehicles) + [Doc(r.value, data.(createdAt := now, updatedAt := now))])
    ensures KeysUnique(old(db.vehicles)) ==> KeysUnique(db.vehicles)
  {
    var e := Validate(db.vehicles, db.vehicleTypes, data, None);
    if e.Some? {
      return Err(e.value);
    }
    ValidateFree(db.vehicles, db.vehicleTypes, data, None);
    var id := db.NewId();
    var doc := Doc(id, data.(createdAt := now, updatedAt := now));
    assert forall k :: KeyOf(doc.fields, k) == KeyOf(data, k);
    if KeysUnique(db.vehicles) {
      AppendKeepsKeysUnique(db.vehicles, doc);
    }
    InsertSpec(db.vehicles, id, doc.fields);
    db.vehicles := db.vehicles + [doc];
    r := Ok(id);
  }

  /** The fields `update` writes: everything given, the optional ones only when
      supplied, `updatedAt = now`, `createdAt` kept. */
  function Updated(prev: Vehicle, data: Vehicle, now: int): (r: Vehicle)
    ensures forall k :: KeyOf(r, k) == KeyOf(data, k)
    ensures r.createdAt == prev.createdAt && r.updatedAt == now
    ensures r.nextMaintenanceKm == if data.nextMaintenanceKm.Some? then data.nextMaintenanceKm else prev.nextMaintenanceKm
    ensures r.color == if data.color.Some? then data.color else prev.color
  {
    data.(nextMaintenanceKm := if data.nextMaintenanceKm.Some? then data.nextMaintenanceKm else prev.nextMaintenanceKm,
          color := if data.color.Some? then data.color else prev.color,
          createdAt := prev.createdAt, updatedAt := now)
  }

  /** `update`: the same guards, where the vehicle's own keys do not count as
      duplicates; then the store's patch, which refuses a missing id. */
  method Update(db: Db, id: nat, data: Vehicle, now: int) returns (r: Result<nat>)
    requires db.Valid()
    modifies db`vehicles
    ensures db.Valid()
    ensures Validate(old(db.vehicles), db.vehicleTypes, data, Some(id)).Some? ==>
      r == Err(Validate(old(db.vehicles), db.vehicleTypes, data, Some(id)).value)
    ensures Validate(old(db.vehicles), db.vehicleTypes, data, Some(id)).None? ==>
      (r.Err? <==> Get(old(db.vehicles), id).None?)
    ensures r.Err? ==> db.vehicles == old(db.vehicles)
    ensures r == Err(DocumentNotFound) <==>
      (Validate(old(db.vehicles), db.vehicleTypes, data, Some(id)).None? && Get(old(db.vehicles), id).None?)
    ensures r.Ok? ==> (r.value == id &&
      db.vehicles == Patch(old(db.vehicles), id, Updated(Get(old(db.vehicles), id).value.fields, data, now)))
    ensures KeysUnique(old(db.vehicles)) ==> KeysUnique(db.vehicles)
  {
    var e := Validate(db.vehicles, db.vehicleTypes, data, Some(id));
    if e.Some? {
      return Err(e.value);
    }
    var current := Get(db.vehicles, id);
    if current.None? {
      return Err(DocumentNotFound);
    }
    var f := Updated(current.value.fields, data, now);
    PatchSpec(db.vehicles, db.nextId, id, f);
    if KeysUnique(db.vehicles) {
      ValidateFree(db.vehicles, db.vehicleTypes, data, Some(id));
      PatchKeepsKeysUnique(db.vehicles, db.nextId, id, f);
    }
    db.vehicles := Patch(db.vehicles, id, f);
    r := Ok(id);
  }

  ghost predicate MaintenanceOf(maintenance: seq<Doc<MaintenanceRecord>>, vehicleId: nat) {
    exists k :: 0 <= k < |maintenance| && maintenance[k].fields.vehicleId == vehicleId
  }

  ghost predicate IssuesOf(issues: seq<Doc<Issue>>, vehicleId: nat) {
    exists k :: 0 <= k < |issues| && issues[k].fields.vehicleId == vehicleId
  }

  /** `remove`: refuses while a maintenance record or an issue refers to the
      vehicle; otherwise deletes exactly that vehicle. */
  method Remove(db: Db, id: nat) returns (r: Result<nat>)
    requires db.Valid()
    modifies db`vehicles
    ensures db.Valid()
    ensures r == Err(VehicleHasMaintenanceRecords) <==> MaintenanceOf(db.maintenance, id)
    ensures r == Err(VehicleHasIssues) <==> !MaintenanceOf(db.maintenance, id) && IssuesOf(db.issues, id)
    ensures r == Err(DocumentNotFound) <==>
      !MaintenanceOf(db.maintenance, id) && !IssuesOf(db.issues, id) && Get(old(db.vehicles), id).None?
    ensures r.Ok? <==>
      !MaintenanceOf(db.maintenance, id) && !IssuesOf(db.issues, id) && Get(old(db.vehicles), id).Some?
    ensures r.Err? ==> db.vehicles == old(db.vehicles)
    ensures r.Ok? ==> r.value == id && |db.vehicles| == |old(db.vehicles)| - 1
    ensures forall d :: d in db.vehicles <==> d in old(db.vehicles) && (r.Err? || d.id != id)
  {
    if FirstIndex(db.maintenance, (m: Doc<MaintenanceRecord>) => m.fields.vehicleId == id).Some? {
      return Err(VehicleHasMaintenanceRecords);
    }
    if FirstIndex(db.issues, (i: Doc<Issue>) => i.fields.vehicleId == id).Some? {
      return Err(VehicleHasIssues);
    }
    if Get(db.vehicles, id).None? {
      return Err(DocumentNotFound);
    }
    RemoveSpec(db.vehicles, db.nextId, id);
    db.vehicles := Store.Remove(db.vehicles, id);
    r := Ok(id);
  }

  /** `Math.round((part / total) * 100)` over the integers: a half rounds up. */
  function Percent(part: nat, total: nat): (r: nat)
    requires part <= total
    ensures r <= 100
    ensures total == 0 ==> r == 0
    ensures total > 0 ==> 2 * total * r <= 200 * part + total < 2 * total * (r + 1)
  {
    if total == 0 then 0
    else
      var n, d := 200 * part + total, 2 * total;
      var q := n / d;
      DivBounds(n, d);
      assert d * 101 == 202 * total;
      MulCancel(d, q, 101);
      q
  }

  /** The fleet statistics. */
  datatype Stats = Stats(total: nat, active: nat, inMaintenance: nat, operational: nat, backup: nat,
                         activePercentage: nat, inMaintenancePercentage: nat)

  function InMaintenanceNow(maintenance: seq<Doc<MaintenanceRecord>>): Doc<Vehicle> -> bool {
    (d: Doc<Vehicle>) => HasActiveMaintenance(maintenance, d.id)
  }

  /** `getStats`: counts vehicles in maintenance with a loop, then by service type. */
  method GetStats(vehicles: seq<Doc<Vehicle>>, maintenance: seq<Doc<MaintenanceRecord>>) returns (s: Stats)
    ensures s.total == |vehicles|
    ensures s.inMaintenance == |Filter(vehicles, InMaintenanceNow(maintenance))|
    ensures s.active + s.inMaintenance == s.total
    ensures s.operational == |Filter(vehicles, (d: Doc<Vehicle>) => d.fields.serviceType.Operational?)|
    ensures s.operational + s.backup == s.total
    ensures s.activePercentage == Percent(s.active, s.total)
    ensures s.inMaintenancePercentage == Percent(s.inMaintenance, s.total)
  {
    var total := |vehicles|;
    var inMaintenance := 0;
    for i := 0 to |vehicles|
      invariant inMaintenance == |Filter(vehicles[..i], InMaintenanceNow(maintenance))|
    {
      assert vehicles[..i + 1][..i] == vehicles[..i];
      if HasActiveMaintenance(maintenance, vehicles[i].id) {
        inMaintenance := inMaintenance + 1;
      }
    }
    assert vehicles[..|vehicles|] == vehicles;
    var operational := Filter(vehicles, (d: Doc<Vehicle>) => d.fields.serviceType.Operational?);
    var backup := Filter(vehicles, (d: Doc<Vehicle>) => d.fields.serviceType.Backup?);
    FilterComplement(vehicles, (d: Doc<Vehicle>) => d.fields.serviceType.Operational?, (d: Doc<Vehicle>) => d.fields.serviceType.Backup?);
    var active := total - inMaintenance;
    s := Stats(total, active, inMaintenance, |operational|, |backup|,
               Percent(active, total), Percent(inMaintenance, total));
  }

  /** The two rounded percentages add up to 100, or to 101 when both round a half up. */
  lemma PercentagesSum(a: nat, b: nat)
    requires a + b > 0
    ensures Percent(a, a + b) + Percent(b, a + b) in {100, 101}
  {
    var t := a + b;
    var c := 2 * t;
    var p, q := Percent(a, t), Percent(b, t);
    assert c * p <= 200 * a + t < c * (p + 1);
    assert c * q <= 200 * b + t < c * (q + 1);
    assert c * (p + q) == c * p + c * q;
    assert c * (p + q + 2) == c * (p + 1) + c * (q + 1);
    assert c * (p + q) < c * 102;
    assert c * 100 < c * (p + q + 2);
    MulCancel(c, p + q, 102);
    MulCancel(c, 100, p + q + 2);
  }

  /** Euclidean division brackets the dividend between two multiples of the divisor. */
  lemma DivBounds(n: nat, d: nat)
    requires d > 0
    ensures d * (n / d) <= n < d * (n / d + 1)
  {
    assert n == d * (n / d) + n % d;
    assert d * (n / d + 1) == d * (n / d) + d;
  }

  /** Dividing both sides of `c * x < c * y` by a positive `c`. */
  lemma MulCancel(c: int, x: int, y: int)
    requires c > 0 && c * x < c * y
    ensures x < y
  {
    assert c * (y - x) == c * y - c * x;
  }

  /** One vehicle in eight: 12.5% and 87.5% both round up, to 13% and 88%. */
  lemma PercentagesCanSumTo101()
    ensures Percent(1, 8) + Percent(7, 8) == 101
  {
    assert Percent(1, 8) == 13;
    assert Percent(7, 8) == 88;
  }
}
