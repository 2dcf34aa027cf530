/** Odometer readings: the latest reading of a vehicle, the listings, and the
    guarded insert that keeps each vehicle's kilometres non-decreasing. */
module VehicleReadings {
  import opened Common
  import opened Schema
  import opened Store
  import opened Sorting

  /** Default size of the recent-readings listing. */
  const RECENT_DEFAULT: nat := 20

  /** Along the table, each vehicle's readings never go down. */
  ghost predicate KmNonDecreasing(t: seq<Doc<Reading>>) {
    forall i, j :: 0 <= i < j < |t| && t[i].fields.vehicleId == t[j].fields.vehicleId ==>
      t[i].fields.kmReading <= t[j].fields.kmReading
  }

  ghost predicate HasNoReading(readings: seq<Doc<Reading>>, vehicleId: nat) {
    forall k :: 0 <= k < |readings| ==> readings[k].fields.vehicleId != vehicleId
  }

  /** A `take(limit)` applies only when `limit` is truthy. */
  predicate LimitGiven(limit: Option<nat>) {
    limit.Some? && limit.value != 0
  }

  /** Position `i` holds the vehicle's last-inserted reading: no later reading
      in the table belongs to the vehicle. */
  ghost predicate IsLatest(readings: seq<Doc<Reading>>, vehicleId: nat, i: int) {
    0 <= i < |readings| && readings[i].fields.vehicleId == vehicleId &&
    forall j :: i < j < |readings| ==> readings[j].fields.vehicleId != vehicleId
  }

  /** `getLatest`: the vehicle's last-inserted reading, or null. */
  function GetLatest(readings: seq<Doc<Reading>>, vehicleId: nat): (r: Option<Doc<Reading>>)
    ensures r.None? <==> HasNoReading(readings, vehicleId)
    ensures forall i :: IsLatest(readings, vehicleId, i) ==> r == Some(readings[i])
    ensures r.Some? ==> r.value in readings && r.value.fields.vehicleId == vehicleId
    ensures r.Some? && IdsIncreasing(readings) ==>
      forall k :: 0 <= k < |readings| && readings[k].fields.vehicleId == vehicleId ==> readings[k].id <= r.value.id
    ensures r.Some? && KmNonDecreasing(readings) ==>
      forall k :: 0 <= k < |readings| && readings[k].fields.vehicleId == vehicleId ==>
        readings[k].fields.kmReading <= r.value.fields.kmReading
  {
    match LastIndex(readings, (d: Doc<Reading>) => d.fields.vehicleId == vehicleId)
    case None => None
    case Some(i) =>
      assert forall k :: 0 <= k < |readings| && readings[k].fields.vehicleId == vehicleId ==> k <= i;
      assert forall i' :: IsLatest(readings, vehicleId, i') ==> i' == i;
      Some(readings[i])
  }

  /** `getCurrentKm`: the latest reading's kilometres, 0 without a reading. Over
      readings that only went up, no reading of the vehicle exceeds it. */
  function GetCurrentKm(readings: seq<Doc<Reading>>, vehicleId: nat): (km: int)
    ensures HasNoReading(readings, vehicleId) ==> km == 0
    ensures forall i :: IsLatest(readings, vehicleId, i) ==> km == readings[i].fields.kmReading
    ensures km != 0 ==> exists k :: (0 <= k < |readings| && readings[k].fields.vehicleId == vehicleId &&
      readings[k].fields.kmReading == km)
    ensures KmNonDecreasing(readings) ==>
      forall k :: 0 <= k < |readings| && readings[k].fields.vehicleId == vehicleId ==>
        readings[k].fields.kmReading <= km
  {
    match GetLatest(readings, vehicleId)
    case None => 0
    case Some(d) => d.fields.kmReading
  }

  /** The vehicle's readings, last inserted first. */
  function NewestFirst(readings: seq<Doc<Reading>>, vehicleId: nat): (r: seq<Doc<Reading>>)
    ensures forall k :: 0 <= k < |r| ==> r[k] in readings && r[k].fields.vehicleId == vehicleId
    ensures forall k :: 0 <= k < |readings| && readings[k].fields.vehicleId == vehicleId ==> readings[k] in r
    ensures IdsIncreasing(readings) ==> forall a, b :: 0 <= a < b < |r| ==> r[b].id < r[a].id
  {
    var mine := Filter(readings, (d: Doc<Reading>) => d.fields.vehicleId == vehicleId);
    FilterIdsIncreasing(readings, (d: Doc<Reading>) => d.fields.vehicleId == vehicleId);
    var r := Reverse(mine);
    assert forall k :: 0 <= k < |r| ==> r[k] == mine[|mine| - 1 - k];
    assert forall j :: 0 <= j < |mine| ==> mine[j] == r[|mine| - 1 - j];
    r
  }

  /** `listByVehicle`: the vehicle's readings newest first, cut to `limit` when one is given. */
  function ListByVehicle(readings: seq<Doc<Reading>>, vehicleId: nat, limit: Option<nat>): (r: seq<Doc<Reading>>)
    ensures !LimitGiven(limit) ==> r == NewestFirst(readings, vehicleId)
    ensures LimitGiven(limit) ==> var all := NewestFirst(readings, vehicleId);
      |r| == (if limit.value < |all| then limit.value else |all|) && r == all[..|r|]
    ensures forall k :: 0 <= k < |r| ==> r[k] in readings && r[k].fields.vehicleId == vehicleId
    ensures LimitGiven(limit) ==> |r| <= limit.value
    ensures !LimitGiven(limit) ==>
      forall k :: 0 <= k < |readings| && readings[k].fields.vehicleId == vehicleId ==> readings[k] in r
    ensures IdsIncreasing(readings) ==> forall a, b :: 0 <= a < b < |r| ==> r[b].id < r[a].id
  {
    var all := NewestFirst(readings, vehicleId);
    if LimitGiven(limit) then Take(all, limit.value) else all
  }

  /** The `by_date` index key. */
  function ReadingDate(d: Doc<Reading>): int {
    d.fields.readingDate
  }

  /** `listRecent`: at most `limit` readings (20 when absent), latest reading date first. */
  function ListRecent(readings: seq<Doc<Reading>>, limit: Option<nat>): (r: seq<Doc<Reading>>)
    ensures var n := if LimitGiven(limit) then limit.value else RECENT_DEFAULT;
      |r| == if n < |readings| then n else |readings|
    ensures forall a, b :: 0 <= a < b < |r| ==> ReadingDate(r[b]) <= ReadingDate(r[a])
    ensures multiset(r) <= multiset(readings)
    ensures forall x, k :: x in multiset(readings) - multiset(r) && 0 <= k < |r| ==>
      ReadingDate(x) <= ReadingDate(r[k])
  {
    var n := if LimitGiven(limit) then limit.value else RECENT_DEFAULT;
    Top(readings, ReadingDate, n)
  }

  /** A reading accepted by `create` (not below the vehicle's latest) keeps the order. */
  lemma AcceptedKeepsKmOrder(t: seq<Doc<Reading>>, d: Doc<Reading>)
    requires KmNonDecreasing(t)
    requires GetLatest(t, d.fields.vehicleId).Some? ==>
      GetLatest(t, d.fields.vehicleId).value.fields.kmReading <= d.fields.kmReading
    ensures KmNonDecreasing(t + [d])
  {
  }

  /** Dropping a reading keeps the order of the remaining ones. */
  lemma DropKeepsKmOrder(t: seq<Doc<Reading>>, i: nat)
    requires KmNonDecreasing(t) && i < |t|
    ensures KmNonDecreasing(t[..i] + t[i + 1..])
  {
    var r := t[..i] + t[i + 1..];
    forall a, b | 0 <= a < b < |r| && r[a].fields.vehicleId == r[b].fields.vehicleId
      ensures r[a].fields.kmReading <= r[b].fields.kmReading
    {
      var a' := if a < i then a else a + 1;
      var b' := if b < i then b else b + 1;
      assert r[a] == t[a'] && r[b] == t[b'];
    }
  }

  /** `create`: rejects a missing vehicle, a negative value and a value below the
      vehicle's latest reading; otherwise appends the reading. */
  method Create(db: Db, vehicleId: nat, kmReading: int, readingDate: Option<int>,
                recordedBy: Option<string>, notes: Option<string>, now: int)
    returns (r: Result<nat>)
    requires db.Valid()
    modifies db`readings, db`nextId
    ensures db.Valid()
    ensures r == Err(VehicleNotFound) <==> Get(db.vehicles, vehicleId).None?
    ensures r == Err(NegativeKm) <==> Get(db.vehicles, vehicleId).Some? && kmReading < 0
    ensures r.Err? && r.error.KmBelowLastReading? <==>
      Get(db.vehicles, vehicleId).Some? && kmReading >= 0 &&
      GetLatest(old(db.readings), vehicleId).Some? &&
      kmReading < GetLatest(old(db.readings), vehicleId).value.fields.kmReading
    ensures r.Err? && r.error.KmBelowLastReading? ==>
      r.error.lastKm == GetLatest(old(db.readings), vehicleId).value.fields.kmReading
    ensures r.Ok? <==> (Get(db.vehicles, vehicleId).Some? && kmReading >= 0 &&
      (GetLatest(old(db.readings), vehicleId).Some? ==>
        GetLatest(old(db.readings), vehicleId).value.fields.kmReading <= kmReading))
    ensures r.Err? ==> db.readings == old(db.readings) && db.nextId == old(db.nextId)
    ensures r.Ok? ==> (r.value == old(db.nextId) && db.readings == old(db.readings) +
      [Doc(r.value, Reading(vehicleId, kmReading, if Truthy(readingDate) then readingDate.value else now,
                            recordedBy, notes, now))])
    ensures KmNonDecreasing(old(db.readings)) ==> KmNonDecreasing(db.readings)
  {
    if Get(db.vehicles, vehicleId).None? {
      return Err(VehicleNotFound);
    }
    if kmReading < 0 {
      return Err(NegativeKm);
    }
    var last := GetLatest(db.readings, vehicleId);
    if last.Some? && kmReading < last.value.fields.kmReading {
      return Err(KmBelowLastReading(last.value.fields.kmReading));
    }
    var date := if Truthy(readingDate) then readingDate.value else now;
    var id := db.NewId();
    var doc := Doc(id, Reading(vehicleId, kmReading, date, recordedBy, notes, now));
    if KmNonDecreasing(db.readings) {
      AcceptedKeepsKmOrder(db.readings, doc);
    }
    InsertSpec(db.readings, id, doc.fields);
    db.readings := db.readings + [doc];
    r := Ok(id);
  }

  /** `remove`: deletes the reading; the store refuses a missing id. */
  method Remove(db: Db, id: nat) returns (r: Result<nat>)
    requires db.Valid()
    modifies db`readings
    ensures db.Valid()
    ensures r.Err? <==> Get(old(db.readings), id).None?
    ensures r.Err? ==> r.error == DocumentNotFound && db.readings == old(db.readings)
    ensures r.Ok? ==> r.value == id && |db.readings| == |old(db.readings)| - 1
    ensures forall d :: d in db.readings <==> d in old(db.readings) && d.id != id
    ensures KmNonDecreasing(old(db.readings)) ==> KmNonDecreasing(db.readings)
  {
    if Get(db.readings, id).None? {
      return Err(DocumentNotFound);
    }
    RemoveSpec(db.readings, db.nextId, id);
    if KmNonDecreasing(db.readings) {
      DropKeepsKmOrder(db.readings, IndexOf(db.readings, id).value);
    }
    db.readings := Store.Remove(db.readings, id);
    r := Ok(id);
  }
}
