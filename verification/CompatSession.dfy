/** `build_txn` and `apply_ops` as they run: RPC by RPC against a v2 session. */
module CompatSession {
  import opened Bytes
  import opened Kv
  import opened V1Txn
  import opened V2Compat
  import opened TxnEquivalence

  /** A server session pinned to one snapshot. The server records a read before
      it serves it; `rpcsLeft` is how many calls succeed before the transport fails,
      and `failureRecords` whether the failing one still reached the record. */
  class Session {
    const snapshot: Store
    const failureRecords: bool
    var recorded: seq<ReadIntent>
    var rpcsLeft: nat

    constructor (snapshot: Store, rpcsLeft: nat, failureRecords: bool)
      ensures this.snapshot == snapshot && this.rpcsLeft == rpcsLeft && recorded == []
      ensures this.failureRecords == failureRecords
    {
      this.snapshot := snapshot;
      this.failureRecords := failureRecords;
      this.rpcsLeft := rpcsLeft;
      recorded := [];
    }

    method Read(key: Key, rangeEnd: Key, limit: int, keysOnly: bool) returns (r: Attempt<seq<KeyValue>>)
      modifies this
      ensures old(rpcsLeft) == 0 ==>
                && r == Fatal(Transport) && rpcsLeft == 0
                && recorded == old(recorded) + if failureRecords then [IntentOf(key, rangeEnd)] else []
      ensures old(rpcsLeft) > 0 ==>
                && r == Ok(SessionRead(snapshot, key, rangeEnd, limit, keysOnly))
                && rpcsLeft == old(rpcsLeft) - 1
                && recorded == old(recorded) + [IntentOf(key, rangeEnd)]
    {
      if rpcsLeft > 0 || failureRecords {
        recorded := recorded + [IntentOf(key, rangeEnd)];
      }
      if rpcsLeft == 0 {
        return Fatal(Transport);
      }
      rpcsLeft := rpcsLeft - 1;
      r := Ok(SessionRead(snapshot, key, rangeEnd, limit, keysOnly));
    }
  }

  // ----- Finding the previous value of a put -----

  lemma {:induction false} ReplaySelfKeyed(ms: seq<Mutation>, rows: map<Key, KeyValue>)
    requires SelfKeyed(rows)
    ensures SelfKeyed(ReplayRows(ms, rows))
  {
    if ms != [] {
      ReplaySelfKeyed(ms[..|ms| - 1], rows);
    }
  }

  method FindKey(rows: seq<KeyValue>, key: Key) returns (r: Option<KeyValue>)
    ensures r.Some? ==> r.value in rows && r.value.key == key
    ensures r.None? ==> forall i :: 0 <= i < |rows| ==> rows[i].key != key
  {
    for i := 0 to |rows|
      invariant forall j :: 0 <= j < i ==> rows[j].key != key
    {
      if rows[i].key == key {
        return Some(rows[i]);
      }
    }
    return None;
  }

  lemma FindInListing(rows: map<Key, KeyValue>, key: Key, r: Option<KeyValue>)
    requires SelfKeyed(rows)
    requires r.Some? ==> r.value in Listing(rows) && r.value.key == key
    requires r.None? ==> forall i :: 0 <= i < |Listing(rows)| ==> Listing(rows)[i].key != key
    ensures r == Lookup(rows, key)
  {
    ListingMembers(rows);
    var ks := Enumerate(rows.Keys);
    if key in rows {
      var i :| 0 <= i < |ks| && ks[i] == key;
      assert Listing(rows)[i] == rows[ks[i]];
    }
    if r.Some? {
      var i :| 0 <= i < |Listing(rows)| && Listing(rows)[i] == r.value;
      assert rows[ks[i]].key == ks[i];
    }
  }

  method PreviousValue(session: Session, mutations: seq<Mutation>, key: Key) returns (r: Attempt<Option<KeyValue>>)
    modifies session
    ensures r.Ok? ==>
              && r.value
                 == Lookup(ReplayedRows(mutations, SessionRead(session.snapshot, key, [], 1, false), key, []), key)
              && session.recorded == old(session.recorded) + [Point(key)]
    ensures r.Fatal? ==> r.error == Transport && session.rpcsLeft == 0
  {
    var kvs := session.Read(key, [], 1, false);
    if kvs.Fatal? {
      return Fatal(kvs.error);
    }
    var rows := Replay(mutations, kvs.value, key, []);
    var found := FindKey(rows, key);
    CollectRead(session.snapshot, key, [], 1, false);
    ReplaySelfKeyed(mutations, Collect(kvs.value));
    FindInListing(ReplayedRows(mutations, kvs.value, key, []), key, found);
    return Ok(found);
  }

  // ----- One operation -----

  /** The read, if any, and the response of a well-formed operation. */
  method Respond(session: Session, mutations: seq<Mutation>, op: RequestOp) returns (r: Attempt<ResponseOp>)
    requires WellFormedOp(op)
    modifies session
    ensures r.Ok? ==> r.value == OpResponse(session.snapshot, mutations, op)
                      && session.recorded == old(session.recorded) + OpReads(op)
    ensures r.Fatal? ==> r.error == Transport && session.rpcsLeft == 0
  {
    match op
    case RequestPut(key, _, _, prevKv) =>
      var prev := None;
      if prevKv {
        var p := PreviousValue(session, mutations, key);
        if p.Fatal? {
          return Fatal(p.error);
        }
        prev := p.value;
      }
      return Ok(ResponsePut(prev, 0));
    case RequestDelete(key, rangeEnd, prevKv) =>
      var kvs := session.Read(key, rangeEnd, 0, !prevKv);
      if kvs.Fatal? {
        return Fatal(kvs.error);
      }
      var rows := Replay(mutations, kvs.value, key, rangeEnd);
      return Ok(ResponseDelete(|rows|, if prevKv then rows else [], 0));
    case RequestRange(key, rangeEnd, limit, _, keysOnly, countOnly) =>
      var kvs := session.Read(key, rangeEnd, 0, keysOnly || countOnly);
      if kvs.Fatal? {
        return Fatal(kvs.error);
      }
      var rows := Replay(mutations, kvs.value, key, rangeEnd);
      if countOnly {
        return Ok(ResponseRange([], |rows|, 0));
      }
      if 0 < limit < |rows| {
        rows := rows[..limit];
      }
      return Ok(ResponseRange(rows, |rows|, 0));
  }

  // ----- The operation loop -----

  datatype Writes = Writes(mutations: seq<Mutation>, responses: seq<ResponseOp>)

  method RunApplyOps(session: Session, ops: seq<RequestOp>) returns (r: Attempt<Writes>)
    modifies session
    ensures r.Ok? ==>
              ApplyOps(session.snapshot, ops, Effects([], [], old(session.recorded)))
              == Ok(Effects(r.value.mutations, r.value.responses, session.recorded))
    ensures r == Fatal(InvalidArgument) ==>
              ApplyOps(session.snapshot, ops, Effects([], [], old(session.recorded))).Fatal?
    ensures r == Fatal(Transport) ==> session.rpcsLeft == 0
  {
    var mutations, responses := [], [];
    ghost var first := session.recorded;
    for i := 0 to |ops|
      invariant ApplyOps(session.snapshot, ops, Effects([], [], first))
             == ApplyOps(session.snapshot, ops[i..], Effects(mutations, responses, session.recorded))
    {
      var op := ops[i];
      assert ops[i..][0] == op && ops[i..][1..] == ops[i + 1..];
      if !WellFormedOp(op) {
        return Fatal(InvalidArgument);
      }
      var response := Respond(session, mutations, op);
      if response.Fatal? {
        return Fatal(response.error);
      }
      mutations := mutations + MutationOf(op);
      responses := responses + [response.value];
    }
    return Ok(Writes(mutations, responses));
  }

  // ----- The compare phase -----

  lemma PointRead(s: Store, key: Key)
    ensures SessionRead(s, key, [], 1, false)
         == match VisibleAt(s, key) case None => [] case Some(kv) => [kv]
  {
    var rows := VisibleRows(s, key, []);
    ListingMembers(rows);
    if key in rows {
      assert rows.Keys == {key};
      assert |rows| == 1;
    } else {
      assert rows.Keys == {};
      assert |rows| == 0;
    }
  }

  method CollectKeys(compares: seq<Compare>) returns (keys: set<Key>)
    ensures keys == CompareKeys(compares)
  {
    keys := {};
    for i := 0 to |compares|
      invariant keys == CompareKeys(compares[..i])
    {
      assert CompareKeys(compares[..i + 1]) == CompareKeys(compares[..i]) + {compares[i].key} by {
        assert forall j :: 0 <= j < i ==> compares[..i + 1][j] == compares[..i][j];
      }
      keys := keys + {compares[i].key};
    }
    assert compares[..|compares|] == compares;
  }

  method ReadPoints(session: Session, keys: seq<Key>) returns (r: Attempt<map<Key, KeyValue>>)
    requires StrictlySorted(keys)
    modifies session
    ensures r.Ok? ==>
              && (forall j :: 0 <= j < |keys| ==> Lookup(r.value, keys[j]) == VisibleAt(session.snapshot, keys[j]))
              && session.recorded == old(session.recorded) + PointReads(keys)
    ensures r.Fatal? ==> r.error == Transport && session.rpcsLeft == 0
  {
    var rows: map<Key, KeyValue> := map[];
    for i := 0 to |keys|
      invariant forall j :: 0 <= j < i ==> Lookup(rows, keys[j]) == VisibleAt(session.snapshot, keys[j])
      invariant forall k :: k in rows ==> k in keys[..i]
      invariant session.recorded == old(session.recorded) + PointReads(keys[..i])
    {
      var kvs := session.Read(keys[i], [], 1, false);
      if kvs.Fatal? {
        return Fatal(kvs.error);
      }
      PointRead(session.snapshot, keys[i]);
      Irreflexive(keys[i]);
      assert keys[i] !in keys[..i];
      assert PointReads(keys[..i + 1]) == PointReads(keys[..i]) + [Point(keys[i])];
      if |kvs.value| > 0 {
        rows := rows[keys[i] := kvs.value[0]];
      }
    }
    assert keys[..|keys|] == keys;
    return Ok(rows);
  }

  /** Each compared key is read once; repeated compares share the row. */
  method ReadCompared(session: Session, compares: seq<Compare>) returns (r: Attempt<map<Key, KeyValue>>)
    modifies session
    ensures r.Ok? ==>
              && (forall k :: k in CompareKeys(compares) ==> Lookup(r.value, k) == VisibleAt(session.snapshot, k))
              && session.recorded == old(session.recorded) + PointReads(Enumerate(CompareKeys(compares)))
    ensures r.Fatal? ==> r.error == Transport && session.rpcsLeft == 0
  {
    var keys := CollectKeys(compares);
    EnumerateSorted(keys);
    r := ReadPoints(session, Enumerate(keys));
  }

  method EvaluateCompares(rows: map<Key, KeyValue>, compares: seq<Compare>) returns (r: Attempt<bool>)
    ensures r == EvalCompares(k => Lookup(rows, k), compares)
  {
    ghost var row := k => Lookup(rows, k);
    for i := 0 to |compares|
      invariant EvalCompares(row, compares) == EvalCompares(row, compares[i..])
    {
      assert compares[i..][0] == compares[i] && compares[i..][1..] == compares[i + 1..];
      if !WellFormedCompare(compares[i]) {
        return Fatal(InvalidArgument);
      }
      if !Holds(compares[i], Lookup(rows, compares[i].key)) {
        return Ok(false);
      }
    }
    return Ok(true);
  }

  datatype Plan = Plan(succeeded: bool, mutations: seq<Mutation>, responses: seq<ResponseOp>)

  /** The whole read-and-evaluate phase on a fresh session. */
  method RunBuildTxn(session: Session, t: Txn) returns (r: Attempt<Plan>)
    requires session.recorded == []
    modifies session
    ensures r.Ok? ==>
              BuildTxn(session.snapshot, t)
              == Ok(Built(r.value.succeeded, Effects(r.value.mutations, r.value.responses, session.recorded)))
    ensures r == Fatal(InvalidArgument) ==> BuildTxn(session.snapshot, t).Fatal?
    ensures r == Fatal(Transport) ==> session.rpcsLeft == 0
  {
    var rows := ReadCompared(session, t.compares);
    if rows.Fatal? {
      return Fatal(rows.error);
    }
    assert session.recorded == PointReads(Enumerate(CompareKeys(t.compares)));
    var succeeded := EvaluateCompares(rows.value, t.compares);
    SameCompares(k => Lookup(rows.value, k), k => VisibleAt(session.snapshot, k), t.compares) by {
      forall i | 0 <= i < |t.compares|
        ensures Lookup(rows.value, t.compares[i].key) == VisibleAt(session.snapshot, t.compares[i].key)
      {
        assert t.compares[i].key in CompareKeys(t.compares);
      }
    }
    if succeeded.Fatal? {
      return Fatal(InvalidArgument);
    }
    var writes := RunApplyOps(session, if succeeded.value then t.success else t.failure);
    if writes.Fatal? {
      return Fatal(writes.error);
    }
    return Ok(Plan(succeeded.value, writes.value.mutations, writes.value.responses));
  }
}
