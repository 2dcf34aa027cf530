/** The document store the handlers run against: one table per schema entity,
    each a sequence of documents in insertion order, and a counter that hands
    out fresh ids. `Get`, `Patch` and `Remove` are `ctx.db.get`, `ctx.db.patch`
    and `ctx.db.delete` on one table. */
module Store {
  import opened Common
  import opened Schema

  datatype Doc<T> = Doc(id: nat, fields: T)

  /** Ids grow along the table: insertion order is id order, so ids are distinct. */
  ghost predicate IdsIncreasing<T>(t: seq<Doc<T>>) {
    forall i, j :: 0 <= i < j < |t| ==> t[i].id < t[j].id
  }

  ghost predicate IdsBelow<T>(t: seq<Doc<T>>, n: nat) {
    forall k :: 0 <= k < |t| ==> t[k].id < n
  }

  /** Ids grow in insertion order and stay below the next id to be handed out. */
  ghost predicate WellFormed<T>(t: seq<Doc<T>>, n: nat) {
    IdsIncreasing(t) && IdsBelow(t, n)
  }

  function IndexOf<T>(t: seq<Doc<T>>, id: nat): (r: Option<nat>)
    ensures r.Some? ==> r.value < |t| && t[r.value].id == id
    ensures r.None? ==> forall k :: 0 <= k < |t| ==> t[k].id != id
  {
    FirstIndex(t, (d: Doc<T>) => d.id == id)
  }

  /** `ctx.db.get(id)`: the document with that id, or null. */
  function Get<T>(t: seq<Doc<T>>, id: nat): (r: Option<Doc<T>>)
    ensures r.Some? <==> exists k :: 0 <= k < |t| && t[k].id == id
    ensures r.Some? ==> r.value in t && r.value.id == id
  {
    match IndexOf(t, id)
    case None => None
    case Some(k) => Some(t[k])
  }

  /** `ctx.db.patch(id, ...)` on a document that exists: its fields become `f`. */
  function Patch<T>(t: seq<Doc<T>>, id: nat, f: T): (r: seq<Doc<T>>)
    ensures |r| == |t|
  {
    match IndexOf(t, id)
    case None => t
    case Some(k) => t[k := Doc(id, f)]
  }

  /** `ctx.db.delete(id)` on a document that exists. */
  function Remove<T>(t: seq<Doc<T>>, id: nat): (r: seq<Doc<T>>)
    ensures |r| <= |t|
  {
    match IndexOf(t, id)
    case None => t
    case Some(k) => t[..k] + t[k + 1..]
  }

  /** In a table with distinct ids, the first document with an id is the only one. */
  lemma OnlyAt<T>(t: seq<Doc<T>>, id: nat)
    requires IdsIncreasing(t) && IndexOf(t, id).Some?
    ensures forall k :: 0 <= k < |t| && t[k].id == id ==> k == IndexOf(t, id).value
  {
  }

  /** In a table with distinct ids, `Get` finds the one document with that id. */
  lemma GetUnique<T>(t: seq<Doc<T>>, k: nat)
    requires IdsIncreasing(t) && k < |t|
    ensures Get(t, t[k].id) == Some(t[k])
  {
    OnlyAt(t, t[k].id);
  }

  /** Patching a document replaces exactly that document and keeps the table well formed. */
  lemma PatchSpec<T>(t: seq<Doc<T>>, n: nat, id: nat, f: T)
    requires WellFormed(t, n) && Get(t, id).Some?
    ensures WellFormed(Patch(t, id, f), n)
    ensures forall k :: 0 <= k < |t| ==>
      Patch(t, id, f)[k] == if t[k].id == id then Doc(id, f) else t[k]
  {
    OnlyAt(t, id);
  }

  /** Dropping one position of a table keeps ids increasing and below the bound. */
  lemma DropKeepsWellFormed<T>(t: seq<Doc<T>>, n: nat, i: nat)
    requires WellFormed(t, n) && i < |t|
    ensures WellFormed(t[..i] + t[i + 1..], n)
  {
    var r := t[..i] + t[i + 1..];
    forall a, b | 0 <= a < b < |r| ensures r[a].id < r[b].id {
      var a' := if a < i then a else a + 1;
      var b' := if b < i then b else b + 1;
      assert r[a] == t[a'] && r[b] == t[b'];
    }
  }

  /** Dropping position `i` keeps every element with another id. */
  lemma DropKeepsOthers<T>(t: seq<Doc<T>>, i: nat)
    requires i < |t|
    ensures forall d :: d in t && d.id != t[i].id ==> d in t[..i] + t[i + 1..]
  {
    var r := t[..i] + t[i + 1..];
    forall d | d in t && d.id != t[i].id ensures d in r {
      var k :| 0 <= k < |t| && t[k] == d;
      if k < i { assert r[k] == d; } else { assert r[k - 1] == d; }
    }
  }

  /** With distinct ids, dropping position `i` removes every element with its id. */
  lemma DropRemovesId<T>(t: seq<Doc<T>>, i: nat)
    requires IdsIncreasing(t) && i < |t|
    ensures forall d :: d in t[..i] + t[i + 1..] ==> d in t && d.id != t[i].id
  {
    var r := t[..i] + t[i + 1..];
    forall d | d in r ensures d in t && d.id != t[i].id {
      var k :| 0 <= k < |r| && r[k] == d;
      var k' := if k < i then k else k + 1;
      assert t[k'] == d && k' != i;
      assert if k' < i then t[k'].id < t[i].id else t[i].id < t[k'].id;
    }
  }

  /** Removing a document that exists drops exactly that document. */
  lemma RemoveSpec<T>(t: seq<Doc<T>>, n: nat, id: nat)
    requires WellFormed(t, n) && Get(t, id).Some?
    ensures WellFormed(Remove(t, id), n)
    ensures |Remove(t, id)| == |t| - 1
    ensures forall d :: d in Remove(t, id) <==> d in t && d.id != id
  {
    var i := IndexOf(t, id).value;
    assert Remove(t, id) == t[..i] + t[i + 1..];
    DropKeepsWellFormed(t, n, i);
    DropKeepsOthers(t, i);
    DropRemovesId(t, i);
  }

  /** Appending a document under the next id keeps the table well formed. */
  lemma InsertSpec<T>(t: seq<Doc<T>>, n: nat, f: T)
    requires WellFormed(t, n)
    ensures WellFormed(t + [Doc(n, f)], n + 1)
  {
  }

  /** A table well formed under one bound is well formed under the next. */
  lemma BoundGrows<T>(t: seq<Doc<T>>, n: nat)
    requires WellFormed(t, n)
    ensures WellFormed(t, n + 1)
  {
  }

  /** A filtered table keeps its ids below a bound. */
  lemma {:induction false} FilterIdsBelow<T>(t: seq<Doc<T>>, p: Doc<T> -> bool, n: nat)
    requires IdsBelow(t, n)
    ensures IdsBelow(Filter(t, p), n)
  {
    if t != [] {
      FilterIdsBelow(t[..|t| - 1], p, n);
    }
  }

  /** A filtered table keeps its ids increasing. */
  lemma {:induction false} FilterIdsIncreasing<T>(t: seq<Doc<T>>, p: Doc<T> -> bool)
    ensures IdsIncreasing(t) ==> IdsIncreasing(Filter(t, p))
  {
    if t != [] && IdsIncreasing(t) {
      var t', x := t[..|t| - 1], t[|t| - 1];
      FilterIdsIncreasing(t', p);
      FilterIdsBelow(t', p, x.id);
    }
  }

  /** The table after a loop that rewrites documents in place has visited its
      first `i` documents, rewriting each by `f`. */
  function Rewritten<T>(t: seq<Doc<T>>, f: Doc<T> -> Doc<T>, i: nat): (r: seq<Doc<T>>)
    requires i <= |t|
    ensures |r| == |t|
  {
    if i == 0 then t else Rewritten(t, f, i - 1)[i - 1 := f(t[i - 1])]
  }

  /** The visited documents are rewritten, the others untouched. */
  lemma {:induction false} RewrittenAt<T>(t: seq<Doc<T>>, f: Doc<T> -> Doc<T>, i: nat)
    requires i <= |t|
    ensures forall k :: 0 <= k < |t| ==> Rewritten(t, f, i)[k] == if k < i then f(t[k]) else t[k]
  {
    if i > 0 {
      RewrittenAt(t, f, i - 1);
    }
  }

  /** The rewrite keeps every document's id. */
  ghost predicate KeepsIds<T>(t: seq<Doc<T>>, f: Doc<T> -> Doc<T>) {
    forall k :: 0 <= k < |t| ==> f(t[k]).id == t[k].id
  }

  lemma RewrittenWellFormed<T>(t: seq<Doc<T>>, f: Doc<T> -> Doc<T>, i: nat, n: nat)
    requires WellFormed(t, n) && KeepsIds(t, f) && i <= |t|
    ensures WellFormed(Rewritten(t, f, i), n)
  {
    var r := Rewritten(t, f, i);
    RewrittenAt(t, f, i);
    assert forall k :: 0 <= k < |t| ==> r[k].id == t[k].id;
  }

  /** Once every document is visited, the table is the rewrite of all of it. */
  lemma RewrittenAll<T>(t: seq<Doc<T>>, f: Doc<T> -> Doc<T>)
    ensures Rewritten(t, f, |t|) == Map(t, f)
  {
    RewrittenAt(t, f, |t|);
  }

  /** One pass of the loop: patching the next document with its rewrite, or
      leaving it when the rewrite changes nothing, advances the loop state. */
  lemma RewriteStep<T>(t: seq<Doc<T>>, f: Doc<T> -> Doc<T>, i: nat, n: nat)
    requires WellFormed(t, n) && KeepsIds(t, f) && i < |t|
    ensures Patch(Rewritten(t, f, i), t[i].id, f(t[i]).fields) == Rewritten(t, f, i + 1)
    ensures f(t[i]) == t[i] ==> Rewritten(t, f, i) == Rewritten(t, f, i + 1)
  {
    var cur := Rewritten(t, f, i);
    var next := Rewritten(t, f, i + 1);
    RewrittenWellFormed(t, f, i, n);
    RewrittenAt(t, f, i);
    RewrittenAt(t, f, i + 1);
    assert cur[i] == t[i];
    PatchSpec(cur, n, t[i].id, f(t[i]).fields);
    forall k | 0 <= k < |t| ensures Patch(cur, t[i].id, f(t[i]).fields)[k] == next[k] {
      if k != i {
        assert if k < i then t[k].id < t[i].id else t[i].id < t[k].id;
      }
    }
  }

  /** The database: one table per entity, plus the id counter. */
  class Db {
    var vehicleTypes: seq<Doc<VehicleType>>
    var vehicles: seq<Doc<Vehicle>>
    var personnel: seq<Doc<Personnel>>
    var movements: seq<Doc<Movement>>
    var readings: seq<Doc<Reading>>
    var maintenance: seq<Doc<MaintenanceRecord>>
    var issues: seq<Doc<Issue>>
    var nextId: nat

    ghost predicate Valid()
      reads this
    {
      WellFormed(vehicleTypes, nextId) && WellFormed(vehicles, nextId) &&
      WellFormed(personnel, nextId) && WellFormed(movements, nextId) &&
      WellFormed(readings, nextId) && WellFormed(maintenance, nextId) &&
      WellFormed(issues, nextId)
    }

    constructor ()
      ensures Valid()
      ensures vehicleTypes == [] && vehicles == [] && personnel == [] && movements == []
      ensures readings == [] && maintenance == [] && issues == []
    {
      vehicleTypes, vehicles, personnel, movements := [], [], [], [];
      readings, maintenance, issues := [], [], [];
      nextId := 0;
    }

    /** Hands out the next id; every table stays below the advanced counter. */
    method NewId() returns (id: nat)
      requires Valid()
      modifies this`nextId
      ensures Valid()
      ensures id == old(nextId) && nextId == id + 1
    {
      id := nextId;
      BoundGrows(vehicleTypes, id);
      BoundGrows(vehicles, id);
      BoundGrows(personnel, id);
      BoundGrows(movements, id);
      BoundGrows(readings, id);
      BoundGrows(maintenance, id);
      BoundGrows(issues, id);
      nextId := id + 1;
    }
  }
}
