/** The personnel handlers: the roster list sorted by name, the RG lookup, the
    name search, and the mutations that keep RGs unique. */
module PersonnelRecords {
  import opened Common
  import opened Schema
  import opened Store
  import opened Keys
  import opened Text
  import opened Sorting

  /** `searchByName` returns at most this many people. */
  const SEARCH_LIMIT: nat := 20

  function RgOf(p: Personnel): Rg {
    p.rg
  }

  /** Code-unit order on names: a prefix comes first, otherwise the first
      differing character decides. */
  predicate NameLe(a: string, b: string)
    decreases |a|
  {
    a == [] || (b != [] && (a[0] < b[0] || (a[0] == b[0] && NameLe(a[1..], b[1..]))))
  }

  lemma {:induction false} NameLeTotal(a: string, b: string)
    ensures NameLe(a, b) || NameLe(b, a)
    decreases |a|
  {
    if a != [] && b != [] && a[0] == b[0] {
      NameLeTotal(a[1..], b[1..]);
    }
  }

  lemma {:induction false} NameLeTransitive(a: string, b: string, c: string)
    requires NameLe(a, b) && NameLe(b, c)
    ensures NameLe(a, c)
    decreases |a|
  {
    if a != [] && a[0] == b[0] && b[0] == c[0] {
      NameLeTransitive(a[1..], b[1..], c[1..]);
    }
  }

  function ByName(): (Doc<Personnel>, Doc<Personnel>) -> bool {
    (x: Doc<Personnel>, y: Doc<Personnel>) => NameLe(x.fields.name, y.fields.name)
  }

  lemma ByNameTotal()
    ensures Total(ByName())
  {
    forall a: Doc<Personnel>, b: Doc<Personnel> ensures ByName()(a, b) || ByName()(b, a) {
      NameLeTotal(a.fields.name, b.fields.name);
    }
  }

  /** Names in order between neighbours are in order between any two. */
  lemma {:induction false} SortedByName(s: seq<Doc<Personnel>>)
    requires AdjacentSorted(s, ByName())
    ensures forall a, b :: 0 <= a < b < |s| ==> NameLe(s[a].fields.name, s[b].fields.name)
  {
    if |s| >= 2 {
      var s' := s[..|s| - 1];
      assert AdjacentSorted(s', ByName());
      SortedByName(s');
      forall a | 0 <= a < |s| - 1 ensures NameLe(s[a].fields.name, s[|s| - 1].fields.name) {
        assert ByName()(s[|s| - 2], s[|s| - 1]);
        if a < |s| - 2 {
          NameLeTransitive(s[a].fields.name, s[|s| - 2].fields.name, s[|s| - 1].fields.name);
        }
      }
    }
  }

  function IsActive(d: Doc<Personnel>): bool {
    d.fields.active
  }

  /** `Array.prototype.sort` by name: a stable sort into name order. */
  function SortByName(s: seq<Doc<Personnel>>): (r: seq<Doc<Personnel>>)
    ensures multiset(r) == multiset(s)
    ensures forall d :: d in r <==> d in s
    ensures forall a, b :: 0 <= a < b < |r| ==> NameLe(r[a].fields.name, r[b].fields.name)
  {
    ByNameTotal();
    SortBySorted(s, ByName());
    SortedByName(SortBy(s, ByName()));
    SameElements(SortBy(s, ByName()), s);
    SortBy(s, ByName())
  }

  function NamedAs(name: string): Doc<Personnel> -> bool {
    (d: Doc<Personnel>) => d.fields.name == name
  }

  /** People with the same name keep their insertion order in the sorted list. */
  lemma SortByNameStable(s: seq<Doc<Personnel>>, name: string)
    ensures Filter(SortByName(s), NamedAs(name)) == Filter(s, NamedAs(name))
  {
    NameLeTotal(name, name);
    SortByStable(s, ByName(), NamedAs(name));
  }

  /** `list`: the whole roster, or only the active people when `activeOnly` is
      true, sorted by name. */
  function List(personnel: seq<Doc<Personnel>>, activeOnly: Option<bool>): (r: seq<Doc<Personnel>>)
    ensures multiset(r) == multiset(if activeOnly == Some(true) then Filter(personnel, IsActive) else personnel)
    ensures forall d :: d in r <==> d in personnel && (activeOnly == Some(true) ==> d.fields.active)
    ensures forall a, b :: 0 <= a < b < |r| ==> NameLe(r[a].fields.name, r[b].fields.name)
  {
    FilterHas(personnel, IsActive);
    SortByName(if activeOnly == Some(true) then Filter(personnel, IsActive) else personnel)
  }

  /** `getByRG`: the earliest person registered under that RG. */
  function GetByRg(personnel: seq<Doc<Personnel>>, rg: int): (r: Option<Doc<Personnel>>)
    ensures r.None? <==> forall k :: 0 <= k < |personnel| ==> personnel[k].fields.rg != RgNumber(rg)
    ensures r.Some? ==> r.value in personnel && r.value.fields.rg == RgNumber(rg)
    ensures r.Some? ==> exists i :: (0 <= i < |personnel| && personnel[i] == r.value &&
      forall j :: 0 <= j < i ==> personnel[j].fields.rg != RgNumber(rg))
    ensures Unique(personnel, RgOf) && r.Some? ==>
      forall k :: 0 <= k < |personnel| && personnel[k].fields.rg == RgNumber(rg) ==> personnel[k] == r.value
  {
    var h := Holder(personnel, RgOf, RgNumber(rg));
    if h.Some? then
      var i :| 0 <= i < |personnel| && personnel[i] == h.value;
      assert forall k :: 0 <= k < |personnel| && personnel[k].fields.rg == RgNumber(rg) ==>
        RgOf(personnel[k].fields) == RgOf(personnel[i].fields);
      h
    else h
  }

  /** `rg.toString()`: the stored text, or the decimal digits of a number. */
  function RgString(rg: Rg): string {
    match rg
    case RgText(s) => s
    case RgNumber(n) => IntToString(n)
  }

  /** The search test: the lower-cased name contains the lower-cased query, or
      the RG's text contains the query as given. */
  predicate Found(d: Doc<Personnel>, query: string) {
    Includes(Lower(d.fields.name), Lower(query)) || Includes(RgString(d.fields.rg), query)
  }

  function Finder(query: string): Doc<Personnel> -> bool {
    (d: Doc<Personnel>) => Found(d, query)
  }

  /** `searchByName`: the first twenty people, in insertion order, whose name or
      RG matches the query. */
  function SearchByName(personnel: seq<Doc<Personnel>>, query: string): (r: seq<Doc<Personnel>>)
    ensures var found := Filter(personnel, Finder(query));
      |r| == if |found| < SEARCH_LIMIT then |found| else SEARCH_LIMIT
    ensures |r| <= SEARCH_LIMIT
    ensures forall k :: 0 <= k < |r| ==> (r[k] in personnel &&
      (Contains(Lower(r[k].fields.name), Lower(query)) || Contains(RgString(r[k].fields.rg), query)))
    ensures |r| <= |Filter(personnel, Finder(query))| && r == Filter(personnel, Finder(query))[..|r|]
    ensures |Filter(personnel, Finder(query))| <= SEARCH_LIMIT ==>
      forall d :: d in personnel && Found(d, query) ==> d in r
  {
    FilterHas(personnel, Finder(query));
    Take(Filter(personnel, Finder(query)), SEARCH_LIMIT)
  }

  /** A new person: active, registered under a numeric RG, stamped at creation. */
  function Registered(rank: string, rg: int, name: string, now: int): (r: Personnel)
    ensures r.active && r.rg == RgNumber(rg) && r.createdAt == now && r.updatedAt == now
    ensures r.rank == rank && r.name == name
  {
    Personnel(rank, RgNumber(rg), name, true, now, now)
  }

  /** `create`: refuses an RG somebody already holds. */
  method Create(db: Db, rank: string, rg: int, name: string, now: int) returns (r: Result<nat>)
    requires db.Valid()
    modifies db`personnel, db`nextId
    ensures db.Valid()
    ensures r.Err? <==> !Free(old(db.personnel), RgOf, RgNumber(rg), None)
    ensures r.Err? ==> r.error == DuplicateRg(rg) && db.personnel == old(db.personnel)
    ensures r.Ok? ==> (r.value == old(db.nextId) &&
      db.personnel == old(db.personnel) + [Doc(r.value, Registered(rank, rg, name, now))])
    ensures Unique(old(db.personnel), RgOf) ==> Unique(db.personnel, RgOf)
  {
    ClashExact(db.personnel, RgOf, RgNumber(rg), None);
    if Clash(db.personnel, RgOf, RgNumber(rg), None) {
      return Err(DuplicateRg(rg));
    }
    var id := db.NewId();
    var d := Doc(id, Registered(rank, rg, name, now));
    if Unique(db.personnel, RgOf) {
      AppendKeepsUnique(db.personnel, RgOf, d);
    }
    InsertSpec(db.personnel, id, d.fields);
    db.personnel := db.personnel + [d];
    r := Ok(id);
  }

  /** The person after `update`: the given fields, the RG as a number, the
      update time stamped and the creation time kept. */
  function Edited(prev: Personnel, rank: string, rg: int, name: string, active: bool, now: int): (r: Personnel)
    ensures r.rank == rank && r.rg == RgNumber(rg) && r.name == name && r.active == active
    ensures r.createdAt == prev.createdAt && r.updatedAt == now
  {
    prev.(rank := rank, rg := RgNumber(rg), name := name, active := active, updatedAt := now)
  }

  /** `update`: refuses an RG held by someone else (keeping one's own is
      allowed), then a missing person. */
  method Update(db: Db, id: nat, rank: string, rg: int, name: string, active: bool, now: int)
    returns (r: Result<nat>)
    requires db.Valid()
    modifies db`personnel
    ensures db.Valid()
    ensures r == Err(DuplicateRg(rg)) <==> Clash(old(db.personnel), RgOf, RgNumber(rg), Some(id))
    ensures Unique(old(db.personnel), RgOf) ==>
      (r == Err(DuplicateRg(rg)) <==> !Free(old(db.personnel), RgOf, RgNumber(rg), Some(id)))
    ensures r == Err(DocumentNotFound) <==>
      !Clash(old(db.personnel), RgOf, RgNumber(rg), Some(id)) && Get(old(db.personnel), id).None?
    ensures r.Ok? <==> !Clash(old(db.personnel), RgOf, RgNumber(rg), Some(id)) && Get(old(db.personnel), id).Some?
    ensures r.Err? ==> db.personnel == old(db.personnel)
    ensures r.Ok? ==> (r.value == id && db.personnel ==
      Patch(old(db.personnel), id, Edited(Get(old(db.personnel), id).value.fields, rank, rg, name, active, now)))
    ensures Unique(old(db.personnel), RgOf) ==> Unique(db.personnel, RgOf)
  {
    if Clash(db.personnel, RgOf, RgNumber(rg), Some(id)) {
      return Err(DuplicateRg(rg));
    }
    var current := Get(db.personnel, id);
    if current.None? {
      return Err(DocumentNotFound);
    }
    var f := Edited(current.value.fields, rank, rg, name, active, now);
    PatchSpec(db.personnel, db.nextId, id, f);
    if Unique(db.personnel, RgOf) {
      ClashExact(db.personnel, RgOf, RgNumber(rg), Some(id));
      PatchKeepsUnique(db.personnel, db.nextId, RgOf, id, f);
    }
    db.personnel := Patch(db.personnel, id, f);
    r := Ok(id);
  }

  /** With unique RGs, re-saving a person under their own RG never clashes. */
  lemma KeepOwnRg(personnel: seq<Doc<Personnel>>, i: nat)
    requires Unique(personnel, RgOf) && i < |personnel|
    ensures !Clash(personnel, RgOf, personnel[i].fields.rg, Some(personnel[i].id))
  {
    ClashExact(personnel, RgOf, personnel[i].fields.rg, Some(personnel[i].id));
    forall j | 0 <= j < |personnel| && RgOf(personnel[j].fields) == personnel[i].fields.rg
      ensures Some(personnel[i].id) == Some(personnel[j].id)
    {
      if j != i {
        assert RgOf(personnel[j].fields) == RgOf(personnel[i].fields);
      }
    }
  }

  ghost predicate HasMovements(movements: seq<Doc<Movement>>, personnelId: nat) {
    exists k :: 0 <= k < |movements| && movements[k].fields.personnelId == personnelId
  }

  /** `remove`: refuses while a movement refers to the person; otherwise deletes
      exactly that person. */
  method Remove(db: Db, id: nat) returns (r: Result<nat>)
    requires db.Valid()
    modifies db`personnel
    ensures db.Valid()
    ensures r == Err(PersonnelHasMovements) <==> HasMovements(db.movements, id)
    ensures r == Err(DocumentNotFound) <==> !HasMovements(db.movements, id) && Get(old(db.personnel), id).None?
    ensures r.Ok? <==> !HasMovements(db.movements, id) && Get(old(db.personnel), id).Some?
    ensures r.Err? ==> db.personnel == old(db.personnel)
    ensures r.Ok? ==> r.value == id && |db.personnel| == |old(db.personnel)| - 1
    ensures forall d :: d in db.personnel <==> d in old(db.personnel) && (r.Err? || d.id != id)
    ensures Unique(old(db.personnel), RgOf) ==> Unique(db.personnel, RgOf)
  {
    if FirstIndex(db.movements, (m: Doc<Movement>) => m.fields.personnelId == id).Some? {
      return Err(PersonnelHasMovements);
    }
    if Get(db.personnel, id).None? {
      return Err(DocumentNotFound);
    }
    RemoveSpec(db.personnel, db.nextId, id);
    var i := IndexOf(db.personnel, id).value;
    assert Store.Remove(db.personnel, id) == db.personnel[..i] + db.personnel[i + 1..];
    if Unique(db.personnel, RgOf) {
      DropKeepsUnique(db.personnel, RgOf, i);
    }
    db.personnel := Store.Remove(db.personnel, id);
    r := Ok(id);
  }
}
