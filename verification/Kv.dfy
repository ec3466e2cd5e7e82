/** The multi-version store: rows, mutations, and snapshot reads. */
module Kv {
  import opened Bytes
  import opened KvRange

  datatype KeyValue = KeyValue(key: Key, value: Key, createRevision: int, modRevision: int,
                               version: int, leaseId: int)

  /** A stored row; deletion keeps the row and sets `deleted`. */
  datatype Row = Row(value: Key, createRevision: int, modRevision: int, version: int,
                     leaseId: int, deleted: bool)

  type Store = map<Key, Row>

  datatype Mutation =
    | Put(key: Key, value: Key, leaseId: int)
    | Delete(key: Key)
    | DeleteRange(key: Key, rangeEnd: Key)
    | Unspecified(key: Key)

  function Lookup<V>(s: map<Key, V>, k: Key): Option<V> {
    if k in s then Some(s[k]) else None
  }

  predicate InInterval(lo: Key, hi: Key, k: Key) {
    AtMost(lo, k) && Less(k, hi)
  }

  // ----- Row transitions (`KvMetadata::{new_key, update, mark_deleted}`) -----

  function PutRow(prior: Option<Row>, value: Key, leaseId: int, ts: int): Row {
    match prior
    case None => Row(value, ts, ts, 1, leaseId, false)
    case Some(r) => Row(value, r.createRevision, ts, r.version + 1, leaseId, false)
  }

  function Tombstone(r: Row, ts: int): Row {
    r.(modRevision := ts, version := r.version + 1, deleted := true)
  }

  function Kill(r: Row, ts: int): Row {
    if r.deleted then r else Tombstone(r, ts)
  }

  // ----- Applying a decision's mutation list, in list order -----

  function Apply(m: Mutation, ts: int, s: Store): Store {
    match m
    case Put(key, value, leaseId) => s[key := PutRow(Lookup(s, key), value, leaseId, ts)]
    case Delete(key) => if key in s then s[key := Kill(s[key], ts)] else s
    case DeleteRange(lo, hi) => map k | k in s :: if InInterval(lo, hi, k) then Kill(s[k], ts) else s[k]
    case Unspecified(_) => s
  }

  function ApplyAll(ms: seq<Mutation>, ts: int, s: Store): Store {
    if ms == [] then s else Apply(ms[|ms| - 1], ts, ApplyAll(ms[..|ms| - 1], ts, s))
  }

  predicate Writes(m: Mutation, k: Key) {
    match m
    case Put(key, _, _) => k == key
    case Delete(key) => k == key
    case DeleteRange(lo, hi) => InInterval(lo, hi, k)
    case Unspecified(_) => false
  }

  predicate WritesAny(ms: seq<Mutation>, k: Key) {
    exists i :: 0 <= i < |ms| && Writes(ms[i], k)
  }

  /** A key that no mutation writes keeps its row. */
  lemma {:induction false} ApplyFrame(ms: seq<Mutation>, ts: int, s: Store, k: Key)
    requires !WritesAny(ms, k)
    ensures Lookup(ApplyAll(ms, ts, s), k) == Lookup(s, k)
  {
    if ms != [] {
      var n := |ms| - 1;
      assert !Writes(ms[n], k);
      assert !WritesAny(ms[..n], k);
      ApplyFrame(ms[..n], ts, s, k);
    }
  }

  ghost predicate OlderThan(s: Store, ts: int) {
    forall k :: k in s ==> s[k].modRevision < ts
  }

  ghost predicate NoNewerThan(s: Store, ts: int) {
    forall k :: k in s ==> s[k].modRevision <= ts
  }

  lemma {:induction false} ApplyNoNewer(ms: seq<Mutation>, ts: int, s: Store)
    requires NoNewerThan(s, ts)
    ensures NoNewerThan(ApplyAll(ms, ts, s), ts)
  {
    if ms != [] {
      ApplyNoNewer(ms[..|ms| - 1], ts, s);
    }
  }

  // ----- Reading -----

  function ToKv(k: Key, r: Row): KeyValue {
    KeyValue(k, r.value, r.createRevision, r.modRevision, r.version, r.leaseId)
  }

  /** The live rows a request `(key, range_end)` selects. */
  function VisibleRows(s: Store, key: Key, rangeEnd: Key): map<Key, KeyValue> {
    map k | k in s && !s[k].deleted && Matches(key, rangeEnd, k) :: ToKv(k, s[k])
  }

  function Live(s: Store): set<Key> {
    set k | k in s && !s[k].deleted
  }

  function VisibleAt(s: Store, k: Key): Option<KeyValue> {
    if k in s && !s[k].deleted then Some(ToKv(k, s[k])) else None
  }

  function ClearValue(kv: KeyValue): KeyValue {
    kv.(value := [])
  }

  function ClearValues(rows: map<Key, KeyValue>): map<Key, KeyValue> {
    map k | k in rows :: ClearValue(rows[k])
  }

  function Pick<V>(keys: seq<Key>, rows: map<Key, V>): (r: seq<V>)
    requires forall i :: 0 <= i < |keys| ==> keys[i] in rows
    ensures |r| == |keys|
    ensures forall i :: 0 <= i < |keys| ==> r[i] == rows[keys[i]]
  {
    seq(|keys|, i requires 0 <= i < |keys| => rows[keys[i]])
  }

  /** The values of an ordered map, in key order. */
  function Listing<V>(rows: map<Key, V>): (r: seq<V>)
    ensures |r| == |rows|
  {
    EnumerateSorted(rows.Keys);
    assert |rows| == |rows.Keys|;
    assert forall i :: 0 <= i < |Enumerate(rows.Keys)| ==> Enumerate(rows.Keys)[i] in rows.Keys;
    Pick(Enumerate(rows.Keys), rows)
  }

  function Truncate<V>(s: seq<V>, limit: int): seq<V> {
    if 0 < limit < |s| then s[..limit] else s
  }

  /** A session read on a snapshot; a point read ignores the limit. */
  function SessionRead(s: Store, key: Key, rangeEnd: Key, limit: int, keysOnly: bool): seq<KeyValue> {
    var visible := VisibleRows(s, key, rangeEnd);
    var rows := Listing(if keysOnly then ClearValues(visible) else visible);
    if IsSingleKey(key, rangeEnd) then rows else Truncate(rows, limit)
  }

  /** Rows keyed by their own key, as collected from a read. */
  function Collect(rows: seq<KeyValue>): map<Key, KeyValue> {
    if rows == [] then map[]
    else Collect(rows[..|rows| - 1])[rows[|rows| - 1].key := rows[|rows| - 1]]
  }

  ghost predicate SelfKeyed(rows: map<Key, KeyValue>) {
    forall k :: k in rows ==> rows[k].key == k
  }

  lemma {:induction false} CollectMembers(rows: seq<KeyValue>, k: Key)
    ensures k in Collect(rows) ==> Collect(rows)[k] in rows && Collect(rows)[k].key == k
    ensures k !in Collect(rows) ==> forall i :: 0 <= i < |rows| ==> rows[i].key != k
  {
    if rows != [] {
      var n := |rows| - 1;
      CollectMembers(rows[..n], k);
      if k !in Collect(rows) {
        forall i | 0 <= i < |rows| ensures rows[i].key != k {
          if i < n { assert rows[..n][i].key != k; }
        }
      }
    }
  }

  lemma ListingMembers<V>(rows: map<Key, V>)
    ensures var r, ks := Listing(rows), Enumerate(rows.Keys);
            && |r| == |ks|
            && (forall i :: 0 <= i < |ks| ==> ks[i] in rows && r[i] == rows[ks[i]])
            && (forall k :: k in rows ==> k in ks)
  {
    EnumerateSorted(rows.Keys);
    assert forall i :: 0 <= i < |Enumerate(rows.Keys)| ==> Enumerate(rows.Keys)[i] in rows.Keys;
  }

  /** Listing a map and collecting the list gives the map back. */
  lemma CollectListing(rows: map<Key, KeyValue>)
    requires SelfKeyed(rows)
    ensures Collect(Listing(rows)) == rows
  {
    var r, ks, c := Listing(rows), Enumerate(rows.Keys), Collect(Listing(rows));
    ListingMembers(rows);
    forall k ensures Lookup(c, k) == Lookup(rows, k) {
      if k in rows {
        var i :| 0 <= i < |ks| && ks[i] == k;
        assert r[i].key == k;
      }
      CollectMembers(r, k);
      if k in c {
        var i :| 0 <= i < |r| && r[i] == c[k];
        assert r[i] == rows[ks[i]];
      }
    }
    SameLookups(c, rows);
  }

  lemma SameLookups<V>(a: map<Key, V>, b: map<Key, V>)
    requires forall k :: Lookup(a, k) == Lookup(b, k)
    ensures a == b
  {
    forall k ensures k in a <==> k in b {
      assert Lookup(a, k) == Lookup(b, k);
    }
    forall k | k in a ensures a[k] == b[k] {
      assert Lookup(a, k) == Lookup(b, k);
    }
    assert a.Keys == b.Keys;
  }
}
