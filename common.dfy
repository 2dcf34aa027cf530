/** Wrappers and sequence helpers shared by every handler module. */
module Common {

  datatype Option<T> = None | Some(value: T)

  /** One constructor per `throw new Error(...)` of the backend handlers, plus
      the store's own failure on a patch or delete of a missing document. */
  datatype Error =
    | VehicleNotFound
    | PersonnelNotFound
    | VehicleAlreadyInTransit
    | NegativeKm
    | MovementNotFound
    | MovementAlreadyCompleted
    | ArrivalKmBelowDeparture(arrivalKm: int, departureKm: int)
    | KmBelowLastReading(lastKm: int)
    | DuplicatePlate
    | DuplicateChassis
    | DuplicateRenavam
    | DuplicatePrefix
    | VehicleTypeNotFound
    | VehicleHasMaintenanceRecords
    | VehicleHasIssues
    | MaintenanceRecordNotFound
    | IssueNotFound
    | DuplicateRg(rg: int)
    | PersonnelHasMovements
    | DuplicateTypeName
    | VehicleTypeInUse
    | DocumentNotFound

  datatype Result<T> = Ok(value: T) | Err(error: Error)

  /** JavaScript truthiness of an optional number: `undefined` and `0` are falsy. */
  predicate Truthy(n: Option<int>) {
    n.Some? && n.value != 0
  }

  /** Index of the first element satisfying `p`, as `.first()` on a filtered query. */
  function FirstIndex<T>(s: seq<T>, p: T -> bool): (r: Option<nat>)
    ensures r.Some? ==> r.value < |s| && p(s[r.value])
    ensures r.Some? ==> forall j :: 0 <= j < r.value ==> !p(s[j])
    ensures r.None? ==> forall j :: 0 <= j < |s| ==> !p(s[j])
  {
    if s == [] then None
    else if p(s[0]) then Some(0)
    else match FirstIndex(s[1..], p)
      case None => None
      case Some(k) => Some(k + 1)
  }

  /** Index of the last element satisfying `p`, as `.order("desc").first()`
      on an index whose only remaining key is insertion order. */
  function LastIndex<T>(s: seq<T>, p: T -> bool): (r: Option<nat>)
    ensures r.Some? ==> r.value < |s| && p(s[r.value])
    ensures r.Some? ==> forall j :: r.value < j < |s| ==> !p(s[j])
    ensures r.None? ==> forall j :: 0 <= j < |s| ==> !p(s[j])
  {
    if s == [] then None
    else if p(s[|s| - 1]) then Some(|s| - 1)
    else LastIndex(s[..|s| - 1], p)
  }

  /** `Array.prototype.filter`: the order-preserving subsequence satisfying `p`. */
  function Filter<T>(s: seq<T>, p: T -> bool): (r: seq<T>)
    ensures |r| <= |s|
    ensures forall k :: 0 <= k < |r| ==> r[k] in s && p(r[k])
    ensures forall k :: 0 <= k < |s| && p(s[k]) ==> s[k] in r
  {
    if s == [] then []
    else Filter(s[..|s| - 1], p) + (if p(s[|s| - 1]) then [s[|s| - 1]] else [])
  }

  lemma {:induction false} FilterAppend<T>(a: seq<T>, b: seq<T>, p: T -> bool)
    ensures Filter(a + b, p) == Filter(a, p) + Filter(b, p)
    decreases |b|
  {
    if b == [] {
      assert a + b == a;
    } else {
      var b' := b[..|b| - 1];
      assert (a + b)[..|a + b| - 1] == a + b';
      FilterAppend(a, b', p);
    }
  }

  /** A filter that keeps everything is the identity. */
  lemma {:induction false} FilterAll<T>(s: seq<T>, p: T -> bool)
    requires forall k :: 0 <= k < |s| ==> p(s[k])
    ensures Filter(s, p) == s
  {
    if s != [] {
      FilterAll(s[..|s| - 1], p);
    }
  }

  /** Filters by equivalent predicates agree. */
  lemma {:induction false} FilterCongruent<T>(s: seq<T>, p: T -> bool, q: T -> bool)
    requires forall k :: 0 <= k < |s| ==> (p(s[k]) <==> q(s[k]))
    ensures Filter(s, p) == Filter(s, q)
  {
    if s != [] {
      FilterCongruent(s[..|s| - 1], p, q);
    }
  }

  /** No element satisfies the filter, so it keeps nothing. */
  lemma {:induction false} FilterNone<T>(s: seq<T>, p: T -> bool)
    requires forall k :: 0 <= k < |s| ==> !p(s[k])
    ensures Filter(s, p) == []
  {
    if s != [] {
      FilterNone(s[..|s| - 1], p);
    }
  }

  /** Two filters applied one after the other are one filter by any predicate
      equivalent to their conjunction. */
  lemma {:induction false} FilterFilterCongruent<T>(s: seq<T>, p: T -> bool, q: T -> bool, m: T -> bool)
    requires forall k :: 0 <= k < |s| ==> (p(s[k]) && q(s[k]) <==> m(s[k]))
    ensures Filter(Filter(s, p), q) == Filter(s, m)
  {
    if s != [] {
      var s' := s[..|s| - 1];
      FilterFilterCongruent(s', p, q, m);
      FilterAppend(Filter(s', p), if p(s[|s| - 1]) then [s[|s| - 1]] else [], q);
    }
  }

  /** Two filters that split every element between them count the whole sequence. */
  lemma {:induction false} FilterComplement<T>(s: seq<T>, p: T -> bool, q: T -> bool)
    requires forall k :: 0 <= k < |s| ==> (p(s[k]) <==> !q(s[k]))
    ensures |Filter(s, p)| + |Filter(s, q)| == |s|
  {
    if s != [] {
      FilterComplement(s[..|s| - 1], p, q);
    }
  }

  /** Every element of `s` that satisfies `p` survives the filter. */
  lemma FilterHas<T>(s: seq<T>, p: T -> bool)
    ensures forall x :: x in s && p(x) ==> x in Filter(s, p)
  {
    forall x | x in s && p(x) ensures x in Filter(s, p) {
      var j :| 0 <= j < |s| && s[j] == x;
    }
  }

  /** A filter keeps every copy of an element that passes and none of one that fails. */
  lemma {:induction false} FilterCount<T>(s: seq<T>, p: T -> bool)
    ensures forall x :: multiset(Filter(s, p))[x] == if p(x) then multiset(s)[x] else 0
  {
    if s != [] {
      var s', y := s[..|s| - 1], s[|s| - 1];
      FilterCount(s', p);
      assert s == s' + [y];
      assert multiset(Filter(s, p)) == multiset(Filter(s', p)) + multiset(if p(y) then [y] else []);
    }
  }

  /** Filtering two permutations of each other gives permutations of each other. */
  lemma FilterPermutes<T>(a: seq<T>, b: seq<T>, p: T -> bool)
    requires multiset(a) == multiset(b)
    ensures multiset(Filter(a, p)) == multiset(Filter(b, p))
  {
    FilterCount(a, p);
    FilterCount(b, p);
  }

  /** Sequences with the same multiset hold the same elements. */
  lemma SameElements<T>(a: seq<T>, b: seq<T>)
    requires multiset(a) == multiset(b)
    ensures forall x :: x in a <==> x in b
  {
    forall x ensures x in a <==> x in b {
      assert x in a <==> x in multiset(a);
      assert x in b <==> x in multiset(b);
    }
  }

  lemma AppendAssoc<T>(a: seq<T>, b: seq<T>, c: seq<T>)
    ensures (a + b) + c == a + (b + c)
  {
  }

  function Reverse<T>(s: seq<T>): (r: seq<T>)
    ensures |r| == |s|
    ensures forall k :: 0 <= k < |s| ==> r[k] == s[|s| - 1 - k]
  {
    if s == [] then [] else [s[|s| - 1]] + Reverse(s[..|s| - 1])
  }

  /** `query.take(n)`: at most the first `n` elements. */
  function Take<T>(s: seq<T>, n: nat): (r: seq<T>)
    ensures |r| == if n < |s| then n else |s|
    ensures r == s[..|r|]
  {
    if n < |s| then s[..n] else s
  }

  /** `Array.prototype.map`. */
  function Map<T, U>(s: seq<T>, f: T -> U): (r: seq<U>)
    ensures |r| == |s|
    ensures forall k :: 0 <= k < |s| ==> r[k] == f(s[k])
  {
    if s == [] then [] else Map(s[..|s| - 1], f) + [f(s[|s| - 1])]
  }
}
