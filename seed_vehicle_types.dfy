/** The seeding mutation: wipe the vehicle types and insert the five standard
    ones. */
module SeedVehicleTypes {
  import opened Common
  import opened Schema
  import opened Store
  import opened Keys
  import opened Text
  import VehicleTypes

  /** Every seeded type is due for maintenance each 5000 km or 180 days. */
  const SEED_RULES: MaintenanceRules := MaintenanceRules(Some(5000), Some(180))

  const SEED_NAMES: seq<string> := ["ABT", "ABTS", "ASA", "AV", "UR"]

  const SEED_TYPES: seq<VehicleType> := [
    VehicleType("ABT", "Auto Bomba Tanque", SEED_RULES),
    VehicleType("ABTS", "Auto Bomba Tanque e Salvamento", SEED_RULES),
    VehicleType("ASA", "Auto Salvamento Aquático", SEED_RULES),
    VehicleType("AV", "Auto Vistoria", SEED_RULES),
    VehicleType("UR", "Unidade de Resgate", SEED_RULES)
  ]

  datatype SeedResult = SeedResult(success: bool, message: string, ids: seq<nat>)

  /** The seeded names, in order, and their rules. */
  lemma SeedTypesNamed()
    ensures |SEED_TYPES| == |SEED_NAMES| == 5
    ensures forall k :: 0 <= k < 5 ==> SEED_TYPES[k].name == SEED_NAMES[k] && SEED_TYPES[k].maintenanceRules == SEED_RULES
    ensures forall i, j :: 0 <= i < j < 5 ==> SEED_NAMES[i] != SEED_NAMES[j]
  {
    assert SEED_NAMES[0][0] == 'A' && SEED_NAMES[4][0] == 'U';
    assert |SEED_NAMES[0]| == 3 && |SEED_NAMES[1]| == 4 && |SEED_NAMES[3]| == 2;
    assert SEED_NAMES[0][2] == 'T' && SEED_NAMES[2][2] == 'A';
    assert SEED_NAMES[1][1] == 'B' && SEED_NAMES[2][1] == 'S';
  }

  /** Deleting the first document of a well-formed table leaves the rest. */
  lemma RemoveFirst<T>(t: seq<Doc<T>>)
    requires t != []
    ensures Store.Remove(t, t[0].id) == t[1..]
  {
    assert IndexOf(t, t[0].id) == Some(0);
  }

  /** The wipe loop: deletes every existing type, one by one. */
  method WipeTypes(db: Db)
    requires db.Valid()
    modifies db`vehicleTypes
    ensures db.Valid() && db.vehicleTypes == []
  {
    var existing := db.vehicleTypes;
    for i := 0 to |existing|
      invariant db.Valid()
      invariant db.vehicleTypes == existing[i..]
    {
      RemoveFirst(db.vehicleTypes);
      db.vehicleTypes := Store.Remove(db.vehicleTypes, existing[i].id);
    }
  }

  /** The insert loop: appends the types in order under fresh ids. */
  method InsertTypes(db: Db, types: seq<VehicleType>) returns (ids: seq<nat>)
    requires db.Valid() && db.vehicleTypes == []
    modifies db`vehicleTypes, db`nextId
    ensures db.Valid()
    ensures |ids| == |db.vehicleTypes| == |types|
    ensures forall k :: 0 <= k < |types| ==> db.vehicleTypes[k] == Doc(ids[k], types[k])
    ensures forall k :: 0 <= k < |types| ==> old(db.nextId) <= ids[k]
  {
    ids := [];
    for i := 0 to |types|
      invariant db.Valid() && old(db.nextId) <= db.nextId
      invariant |ids| == |db.vehicleTypes| == i
      invariant forall k :: 0 <= k < i ==> db.vehicleTypes[k] == Doc(ids[k], types[k])
      invariant forall k :: 0 <= k < i ==> old(db.nextId) <= ids[k]
    {
      var id := db.NewId();
      InsertSpec(db.vehicleTypes, id, types[i]);
      db.vehicleTypes := db.vehicleTypes + [Doc(id, types[i])];
      ids := ids + [id];
    }
  }

  /** The seeded table has unique names, and no id it holds existed before. */
  lemma SeededTable(t: seq<Doc<VehicleType>>, ids: seq<nat>, n: nat)
    requires |t| == |ids| == 5
    requires forall k :: 0 <= k < 5 ==> t[k] == Doc(ids[k], SEED_TYPES[k]) && n <= ids[k]
    ensures Unique(t, VehicleTypes.NameOf)
    ensures forall id: nat :: id < n ==> Get(t, id).None?
  {
    SeedTypesNamed();
  }

  /** `seedInitialTypes`: deletes every type, whether or not a vehicle uses it,
      then inserts the five standard types in order. Vehicles keep type ids
      that no longer resolve. */
  method SeedInitialTypes(db: Db) returns (r: SeedResult)
    requires db.Valid()
    modifies db`vehicleTypes, db`nextId
    ensures db.Valid()
    ensures r.success && |r.ids| == 5
    ensures r.message == NatToString(|r.ids|) + " tipos de viaturas criados com sucesso"
    ensures |db.vehicleTypes| == 5
    ensures forall k :: 0 <= k < 5 ==> db.vehicleTypes[k] == Doc(r.ids[k], SEED_TYPES[k])
    ensures forall k :: 0 <= k < 5 ==> old(db.nextId) <= r.ids[k]
    ensures Unique(db.vehicleTypes, VehicleTypes.NameOf)
    ensures forall k :: 0 <= k < |db.vehicles| && db.vehicles[k].fields.typeId < old(db.nextId) ==>
      Get(db.vehicleTypes, db.vehicles[k].fields.typeId).None?
  {
    WipeTypes(db);
    var ids := InsertTypes(db, SEED_TYPES);
    SeededTable(db.vehicleTypes, ids, old(db.nextId));
    r := SeedResult(true, NatToString(|ids|) + " tipos de viaturas criados com sucesso", ids);
  }
}
