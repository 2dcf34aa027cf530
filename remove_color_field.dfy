/** The migration that drops the retired `color` field from every vehicle.
    Patching a field to `undefined` removes it, which the model writes as
    `None`. */
module RemoveColorField {
  import opened Common
  import opened Schema
  import opened Store
  import opened Text
  import Vehicles

  datatype Outcome = Outcome(success: bool, message: string, totalVehicles: nat, vehiclesUpdated: nat)

  predicate HasColor(d: Doc<Vehicle>) {
    d.fields.color.Some?
  }

  /** The vehicle after the migration: no color, everything else as before. */
  function Uncolored(d: Doc<Vehicle>): (r: Doc<Vehicle>)
    ensures r.id == d.id && r.fields.color.None?
    ensures r.fields == d.fields.(color := None)
    ensures !HasColor(d) ==> r == d
  {
    Doc(d.id, d.fields.(color := None))
  }

  function Message(count: nat): string {
    "Removed color field from " + NatToString(count) + " vehicles"
  }

  /** How many vehicles the loop patches, counted as it does. */
  function UpdatedCount(s: seq<Doc<Vehicle>>): nat {
    if s == [] then 0
    else UpdatedCount(s[..|s| - 1]) + if HasColor(s[|s| - 1]) then 1 else 0
  }

  /** The loop's count is the number of vehicles that had a color. */
  lemma {:induction false} UpdatedCountIsFilter(s: seq<Doc<Vehicle>>)
    ensures UpdatedCount(s) == |Filter(s, HasColor)|
  {
    if s != [] {
      UpdatedCountIsFilter(s[..|s| - 1]);
    }
  }

  /** `removeColorFromVehicles`: visits every vehicle once and patches away
      the color of those that have one. */
  method Run(db: Db) returns (r: Outcome)
    requires db.Valid()
    modifies db`vehicles
    ensures db.Valid()
    ensures db.vehicles == Map(old(db.vehicles), Uncolored)
    ensures r.success && r.totalVehicles == |old(db.vehicles)|
    ensures r.vehiclesUpdated == |Filter(old(db.vehicles), HasColor)| <= r.totalVehicles
    ensures r.message == Message(r.vehiclesUpdated)
  {
    var vehicles := db.vehicles;
    var count := VisitAll(db, vehicles);
    RewrittenWellFormed(vehicles, Uncolored, |vehicles|, db.nextId);
    RewrittenAll(vehicles, Uncolored);
    assert vehicles[..|vehicles|] == vehicles;
    UpdatedCountIsFilter(vehicles);
    r := Outcome(true, Message(count), |vehicles|, count);
  }

  /** The loop over the snapshot of the table taken before it starts. */
  method VisitAll(db: Db, vehicles: seq<Doc<Vehicle>>) returns (count: nat)
    requires WellFormed(vehicles, db.nextId) && db.vehicles == vehicles
    modifies db`vehicles
    ensures db.vehicles == Rewritten(vehicles, Uncolored, |vehicles|)
    ensures count == UpdatedCount(vehicles[..|vehicles|])
  {
    count := 0;
    for i := 0 to |vehicles|
      invariant db.vehicles == Rewritten(vehicles, Uncolored, i)
      invariant count == UpdatedCount(vehicles[..i])
    {
      var vehicle := vehicles[i];
      RewriteStep(vehicles, Uncolored, i, db.nextId);
      assert vehicles[..i + 1][..i] == vehicles[..i];
      if vehicle.fields.color.Some? {
        db.vehicles := Patch(db.vehicles, vehicle.id, vehicle.fields.(color := None));
        count := count + 1;
      }
    }
  }

  /** Running the migration again patches nothing and changes nothing. */
  lemma SecondRunUpdatesNothing(t: seq<Doc<Vehicle>>)
    ensures Filter(Map(t, Uncolored), HasColor) == []
    ensures Map(Map(t, Uncolored), Uncolored) == Map(t, Uncolored)
  {
    FilterNone(Map(t, Uncolored), HasColor);
  }

  /** The color is not a registration key: the migration keeps the fleet's
      keys unique exactly when they were. */
  lemma KeepsKeysUnique(t: seq<Doc<Vehicle>>)
    ensures Vehicles.KeysUnique(Map(t, Uncolored)) <==> Vehicles.KeysUnique(t)
  {
    var u := Map(t, Uncolored);
    assert forall i, k: Vehicles.Key :: 0 <= i < |t| ==> Vehicles.KeyOf(u[i].fields, k) == Vehicles.KeyOf(t[i].fields, k);
  }
}
