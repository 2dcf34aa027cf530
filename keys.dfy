/** Uniqueness of one field across a table, as the handlers enforce it: look
    up the first document holding the value through the field's index and
    refuse when it exists and is not the document being written. */
module Keys {
  import opened Common
  import opened Store

  /** No two documents of the table share a key. */
  ghost predicate Unique<T, K>(t: seq<Doc<T>>, key: T -> K) {
    forall i, j :: 0 <= i < j < |t| ==> key(t[i].fields) != key(t[j].fields)
  }

  /** `.withIndex(byKey, q => q.eq(key, value)).first()`: the earliest
      document holding the value. */
  function Holder<T, K(==)>(t: seq<Doc<T>>, key: T -> K, value: K): (r: Option<Doc<T>>)
    ensures r.None? <==> forall k :: 0 <= k < |t| ==> key(t[k].fields) != value
    ensures r.Some? ==> r.value in t && key(r.value.fields) == value
    ensures r.Some? ==> exists i :: (0 <= i < |t| && t[i] == r.value &&
      forall j :: 0 <= j < i ==> key(t[j].fields) != value)
  {
    match FirstIndex(t, (d: Doc<T>) => key(d.fields) == value)
    case None => None
    case Some(i) => Some(t[i])
  }

  /** Nobody but document `self` (if given) holds `value`. */
  ghost predicate Free<T, K>(t: seq<Doc<T>>, key: T -> K, value: K, self: Option<nat>) {
    forall i :: 0 <= i < |t| && key(t[i].fields) == value ==> self == Some(t[i].id)
  }

  /** The handlers' duplicate test: the first holder exists and is not `self`. */
  predicate Clash<T, K(==)>(t: seq<Doc<T>>, key: T -> K, value: K, self: Option<nat>) {
    var h := Holder(t, key, value);
    h.Some? && (self.None? || h.value.id != self.value)
  }

  /** Looking only at the first holder is exact: on a new document always, and
      on an update when keys are unique. */
  lemma ClashExact<T, K>(t: seq<Doc<T>>, key: T -> K, value: K, self: Option<nat>)
    requires self.None? || Unique(t, key)
    ensures Clash(t, key, value, self) <==> !Free(t, key, value, self)
  {
    var h := Holder(t, key, value);
    if self.Some? && h.Some? && h.value.id == self.value {
      var i :| 0 <= i < |t| && t[i] == h.value;
      forall j | 0 <= j < |t| && key(t[j].fields) == value ensures self == Some(t[j].id) {
        assert key(t[i].fields) == key(t[j].fields);
      }
    }
  }

  /** A document with a key nobody holds can be appended. */
  lemma AppendKeepsUnique<T, K>(t: seq<Doc<T>>, key: T -> K, d: Doc<T>)
    requires Unique(t, key) && Free(t, key, key(d.fields), None)
    ensures Unique(t + [d], key)
  {
  }

  /** Rewriting one document with a key only it holds keeps keys unique. */
  lemma PatchKeepsUnique<T, K>(t: seq<Doc<T>>, n: nat, key: T -> K, id: nat, f: T)
    requires WellFormed(t, n) && Unique(t, key) && Get(t, id).Some?
    requires Free(t, key, key(f), Some(id))
    ensures Unique(Patch(t, id, f), key)
  {
    PatchSpec(t, n, id, f);
    var r := Patch(t, id, f);
    forall i, j | 0 <= i < j < |r| ensures key(r[i].fields) != key(r[j].fields) {
      assert t[i].id < t[j].id;
    }
  }

  /** Removing documents keeps keys unique. */
  lemma DropKeepsUnique<T, K>(t: seq<Doc<T>>, key: T -> K, i: nat)
    requires Unique(t, key) && i < |t|
    ensures Unique(t[..i] + t[i + 1..], key)
  {
    var r := t[..i] + t[i + 1..];
    forall a, b | 0 <= a < b < |r| ensures key(r[a].fields) != key(r[b].fields) {
      var a' := if a < i then a else a + 1;
      var b' := if b < i then b else b + 1;
      assert r[a] == t[a'] && r[b] == t[b'];
    }
  }
}
