/** The vehicle-type handlers: names are unique among types, and a type that a
    vehicle still uses cannot be deleted. */
module VehicleTypes {
  import opened Common
  import opened Schema
  import opened Store
  import opened Keys

  function NameOf(t: VehicleType): string {
    t.name
  }

  /** `create`: refuses a name another type already has; otherwise inserts the
      type as given. */
  method Create(db: Db, data: VehicleType) returns (r: Result<nat>)
    requires db.Valid()
    modifies db`vehicleTypes, db`nextId
    ensures db.Valid()
    ensures r.Err? <==> !Free(old(db.vehicleTypes), NameOf, data.name, None)
    ensures r.Err? ==> r.error == DuplicateTypeName && db.vehicleTypes == old(db.vehicleTypes)
    ensures r.Ok? ==> r.value == old(db.nextId) && db.vehicleTypes == old(db.vehicleTypes) + [Doc(r.value, data)]
    ensures Unique(old(db.vehicleTypes), NameOf) ==> Unique(db.vehicleTypes, NameOf)
  {
    ClashExact(db.vehicleTypes, NameOf, data.name, None);
    if Clash(db.vehicleTypes, NameOf, data.name, None) {
      return Err(DuplicateTypeName);
    }
    var id := db.NewId();
    if Unique(db.vehicleTypes, NameOf) {
      AppendKeepsUnique(db.vehicleTypes, NameOf, Doc(id, data));
    }
    InsertSpec(db.vehicleTypes, id, data);
    db.vehicleTypes := db.vehicleTypes + [Doc(id, data)];
    r := Ok(id);
  }

  /** `update`: refuses a name held by another type (keeping its own name is
      allowed), then a missing type; otherwise replaces the type's fields. */
  method Update(db: Db, id: nat, data: VehicleType) returns (r: Result<nat>)
    requires db.Valid()
    modifies db`vehicleTypes
    ensures db.Valid()
    ensures r == Err(DuplicateTypeName) <==> Clash(old(db.vehicleTypes), NameOf, data.name, Some(id))
    ensures Unique(old(db.vehicleTypes), NameOf) ==>
      (r == Err(DuplicateTypeName) <==> !Free(old(db.vehicleTypes), NameOf, data.name, Some(id)))
    ensures r == Err(DocumentNotFound) <==>
      !Clash(old(db.vehicleTypes), NameOf, data.name, Some(id)) && Get(old(db.vehicleTypes), id).None?
    ensures r.Ok? <==> !Clash(old(db.vehicleTypes), NameOf, data.name, Some(id)) && Get(old(db.vehicleTypes), id).Some?
    ensures r.Err? ==> db.vehicleTypes == old(db.vehicleTypes)
    ensures r.Ok? ==> r.value == id && db.vehicleTypes == Patch(old(db.vehicleTypes), id, data)
    ensures Unique(old(db.vehicleTypes), NameOf) ==> Unique(db.vehicleTypes, NameOf)
  {
    if Clash(db.vehicleTypes, NameOf, data.name, Some(id)) {
      return Err(DuplicateTypeName);
    }
    if Get(db.vehicleTypes, id).None? {
      return Err(DocumentNotFound);
    }
    PatchSpec(db.vehicleTypes, db.nextId, id, data);
    if Unique(db.vehicleTypes, NameOf) {
      ClashExact(db.vehicleTypes, NameOf, data.name, Some(id));
      PatchKeepsUnique(db.vehicleTypes, db.nextId, NameOf, id, data);
    }
    db.vehicleTypes := Patch(db.vehicleTypes, id, data);
    r := Ok(id);
  }

  ghost predicate InUse(vehicles: seq<Doc<Vehicle>>, typeId: nat) {
    exists k :: 0 <= k < |vehicles| && vehicles[k].fields.typeId == typeId
  }

  /** `remove`: refuses while a vehicle has the type; otherwise deletes exactly
      that type. */
  method Remove(db: Db, id: nat) returns (r: Result<nat>)
    requires db.Valid()
    modifies db`vehicleTypes
    ensures db.Valid()
    ensures r == Err(VehicleTypeInUse) <==> InUse(db.vehicles, id)
    ensures r == Err(DocumentNotFound) <==> !InUse(db.vehicles, id) && Get(old(db.vehicleTypes), id).None?
    ensures r.Ok? <==> !InUse(db.vehicles, id) && Get(old(db.vehicleTypes), id).Some?
    ensures r.Err? ==> db.vehicleTypes == old(db.vehicleTypes)
    ensures r.Ok? ==> r.value == id && |db.vehicleTypes| == |old(db.vehicleTypes)| - 1
    ensures forall d :: d in db.vehicleTypes <==> d in old(db.vehicleTypes) && (r.Err? || d.id != id)
    ensures r.Ok? ==> forall k :: 0 <= k < |db.vehicles| ==> db.vehicles[k].fields.typeId != id
    ensures Unique(old(db.vehicleTypes), NameOf) ==> Unique(db.vehicleTypes, NameOf)
  {
    if FirstIndex(db.vehicles, (v: Doc<Vehicle>) => v.fields.typeId == id).Some? {
      return Err(VehicleTypeInUse);
    }
    if Get(db.vehicleTypes, id).None? {
      return Err(DocumentNotFound);
    }
    RemoveSpec(db.vehicleTypes, db.nextId, id);
    var i := IndexOf(db.vehicleTypes, id).value;
    assert Store.Remove(db.vehicleTypes, id) == db.vehicleTypes[..i] + db.vehicleTypes[i + 1..];
    if Unique(db.vehicleTypes, NameOf) {
      DropKeepsUnique(db.vehicleTypes, NameOf, i);
    }
    db.vehicleTypes := Store.Remove(db.vehicleTypes, id);
    r := Ok(id);
  }
}
