/** The translated transaction against the serial v1 execution, and the reads
    that are enough to validate it. */
module TxnEquivalence {
  import opened Bytes
  import opened KvRange
  import opened Kv
  import opened V1Txn
  import opened V2Compat

  // ----- How a translated row relates to the serial one -----

  /** Rows written inside the transaction (those carrying its own revision) lose
      their metadata and keep their value; other rows are as read. */
  function View(kv: KeyValue, ts: int, keysOnly: bool): KeyValue {
    if kv.modRevision == ts then KeyValue(kv.key, kv.value, 0, 0, 0, kv.leaseId)
    else if keysOnly then ClearValue(kv)
    else kv
  }

  function ViewRows(rows: map<Key, KeyValue>, ts: int, keysOnly: bool): map<Key, KeyValue> {
    map k | k in rows :: View(rows[k], ts, keysOnly)
  }

  function ViewOption(kv: Option<KeyValue>, ts: int, keysOnly: bool): Option<KeyValue> {
    if kv.Some? then Some(View(kv.value, ts, keysOnly)) else None
  }

  /** The translated row `c` against the serial row `v` of the same answer. */
  predicate RowAgrees(c: KeyValue, v: KeyValue, ts: int, keysOnly: bool) {
    && c.key == v.key && c.leaseId == v.leaseId
    && (!keysOnly ==> c.value == v.value)
    && (v.modRevision != ts ==> c == v)
    && (v.modRevision == ts ==> c.createRevision == 0 && c.modRevision == 0 && c.version == 0)
  }

  predicate RowsAgree(c: seq<KeyValue>, v: seq<KeyValue>, ts: int, keysOnly: bool) {
    |c| == |v| && forall i :: 0 <= i < |c| ==> RowAgrees(c[i], v[i], ts, keysOnly)
  }

  predicate Agrees(op: RequestOp, c: ResponseOp, v: ResponseOp, ts: int) {
    match (op, c, v)
    case (RequestPut(_, _, _, _), ResponsePut(p, r), ResponsePut(q, r')) =>
      r == r' && (p.Some? <==> q.Some?) && (p.Some? ==> RowAgrees(p.value, q.value, ts, false))
    case (RequestDelete(_, _, _), ResponseDelete(d, p, r), ResponseDelete(d', q, r')) =>
      r == r' && d == d' && RowsAgree(p, q, ts, false)
    case (RequestRange(_, _, _, _, keysOnly, _), ResponseRange(p, n, r), ResponseRange(q, n', r')) =>
      r == r' && n == n' && RowsAgree(p, q, ts, keysOnly)
    case _ => false
  }

  predicate AllAgree(ops: seq<RequestOp>, c: seq<ResponseOp>, v: seq<ResponseOp>, ts: int) {
    |ops| == |c| == |v| && forall i :: 0 <= i < |ops| ==> Agrees(ops[i], c[i], v[i], ts)
  }

  // ----- Replaying a restricted read is restricting the replayed store -----

  function ReadBase(snap: Store, key: Key, rangeEnd: Key, keysOnly: bool): map<Key, KeyValue> {
    var visible := VisibleRows(snap, key, rangeEnd);
    if keysOnly then ClearValues(visible) else visible
  }

  lemma CollectRead(snap: Store, key: Key, rangeEnd: Key, limit: int, keysOnly: bool)
    requires limit == 0 || IsSingleKey(key, rangeEnd)
    ensures Collect(SessionRead(snap, key, rangeEnd, limit, keysOnly)) == ReadBase(snap, key, rangeEnd, keysOnly)
  {
    CollectListing(ReadBase(snap, key, rangeEnd, keysOnly));
  }

  lemma {:induction false} ReplayTracks(ms: seq<Mutation>, ts: int, snap: Store, key: Key, rangeEnd: Key,
                                        keysOnly: bool, k: Key)
    requires OlderThan(snap, ts) && Matches(key, rangeEnd, k)
    ensures Lookup(ReplayRows(ms, ReadBase(snap, key, rangeEnd, keysOnly)), k)
         == ViewOption(VisibleAt(ApplyAll(ms, ts, snap), k), ts, keysOnly)
  {
    if ms != [] {
      var n := |ms| - 1;
      ReplayTracks(ms[..n], ts, snap, key, rangeEnd, keysOnly, k);
      ReplayTracksOne(ms[n], ts, ApplyAll(ms[..n], ts, snap),
                      ReplayRows(ms[..n], ReadBase(snap, key, rangeEnd, keysOnly)), keysOnly, k);
    }
  }

  lemma ReplayTracksOne(m: Mutation, ts: int, s: Store, rows: map<Key, KeyValue>, keysOnly: bool, k: Key)
    requires Lookup(rows, k) == ViewOption(VisibleAt(s, k), ts, keysOnly)
    ensures Lookup(ReplayOne(m, rows), k) == ViewOption(VisibleAt(Apply(m, ts, s), k), ts, keysOnly)
  {
  }

  /** The rows `replay` returns for a request are the rows the sequential
      execution sees at that point, seen through `View`. */
  lemma ReplayIsSequentialView(ms: seq<Mutation>, ts: int, snap: Store, key: Key, rangeEnd: Key, limit: int,
                               keysOnly: bool)
    requires OlderThan(snap, ts) && (limit == 0 || IsSingleKey(key, rangeEnd))
    ensures ReplayedRows(ms, SessionRead(snap, key, rangeEnd, limit, keysOnly), key, rangeEnd)
         == ViewRows(VisibleRows(ApplyAll(ms, ts, snap), key, rangeEnd), ts, keysOnly)
  {
    CollectRead(snap, key, rangeEnd, limit, keysOnly);
    var a := ReplayedRows(ms, SessionRead(snap, key, rangeEnd, limit, keysOnly), key, rangeEnd);
    var s := ApplyAll(ms, ts, snap);
    var b := ViewRows(VisibleRows(s, key, rangeEnd), ts, keysOnly);
    forall k ensures Lookup(a, k) == Lookup(b, k) {
      if Matches(key, rangeEnd, k) {
        ReplayTracks(ms, ts, snap, key, rangeEnd, keysOnly, k);
      }
    }
    SameLookups(a, b);
  }

  lemma ListingOfView(rows: map<Key, KeyValue>, ts: int, keysOnly: bool)
    ensures var l, v := Listing(rows), Listing(ViewRows(rows, ts, keysOnly));
            |l| == |v| && forall i :: 0 <= i < |l| ==> v[i] == View(l[i], ts, keysOnly)
  {
    var view := ViewRows(rows, ts, keysOnly);
    assert view.Keys == rows.Keys;
    ListingMembers(rows);
    ListingMembers(view);
  }

  // ----- One operation -----

  lemma MutationIsStoreStep(ms: seq<Mutation>, ts: int, snap: Store, op: RequestOp)
    ensures ApplyAll(ms + MutationOf(op), ts, snap) == StoreAfter(ApplyAll(ms, ts, snap), op, ts)
  {
    var s := ApplyAll(ms, ts, snap);
    if MutationOf(op) == [] {
      assert ms + MutationOf(op) == ms;
    } else {
      assert (ms + MutationOf(op))[..|ms|] == ms;
      if op.RequestDelete? {
        var a, b := Apply(DeleteMutation(op.key, op.rangeEnd), ts, s), StoreAfter(s, op, ts);
        forall k ensures Lookup(a, k) == Lookup(b, k) {
        }
        SameLookups(a, b);
      }
    }
  }

  lemma PutAgrees(ms: seq<Mutation>, ts: int, snap: Store, op: RequestOp)
    requires OlderThan(snap, ts) && op.RequestPut?
    ensures Agrees(op, Stamp(OpResponse(snap, ms, op), ts), ResponseTo(ApplyAll(ms, ts, snap), op, ts), ts)
  {
    if op.prevKv {
      ReplayIsSequentialView(ms, ts, snap, op.key, [], 1, false);
      var rows := VisibleRows(ApplyAll(ms, ts, snap), op.key, []);
      assert Lookup(ViewRows(rows, ts, false), op.key)
          == ViewOption(VisibleAt(ApplyAll(ms, ts, snap), op.key), ts, false);
    }
  }

  /** Replayed and serial rows, listed, agree row by row. */
  lemma ListedRowsAgree(ms: seq<Mutation>, ts: int, snap: Store, key: Key, rangeEnd: Key, keysOnly: bool)
    requires OlderThan(snap, ts)
    ensures var c := Listing(ReplayedRows(ms, SessionRead(snap, key, rangeEnd, 0, keysOnly), key, rangeEnd));
            var v := Listing(VisibleRows(ApplyAll(ms, ts, snap), key, rangeEnd));
            |c| == |v| && forall i :: 0 <= i < |c| ==> c[i] == View(v[i], ts, keysOnly)
  {
    ReplayIsSequentialView(ms, ts, snap, key, rangeEnd, 0, keysOnly);
    ListingOfView(VisibleRows(ApplyAll(ms, ts, snap), key, rangeEnd), ts, keysOnly);
  }

  lemma DeleteAgrees(ms: seq<Mutation>, ts: int, snap: Store, op: RequestOp)
    requires OlderThan(snap, ts) && op.RequestDelete?
    ensures Agrees(op, Stamp(OpResponse(snap, ms, op), ts), ResponseTo(ApplyAll(ms, ts, snap), op, ts), ts)
  {
    ListedRowsAgree(ms, ts, snap, op.key, op.rangeEnd, !op.prevKv);
  }

  lemma PagesAgree(c: seq<KeyValue>, v: seq<KeyValue>, limit: int, ts: int, keysOnly: bool)
    requires |c| == |v| && forall i :: 0 <= i < |c| ==> c[i] == View(v[i], ts, keysOnly)
    ensures RowsAgree(Truncate(c, limit),
                      if keysOnly then KeysOnlyRows(Truncate(v, limit)) else Truncate(v, limit), ts, keysOnly)
  {
  }

  lemma RangeShape(ms: seq<Mutation>, ts: int, snap: Store, op: RequestOp)
    requires op.RequestRange? && op.revision == 0
    ensures var keysOnly := op.keysOnly || op.countOnly;
            var rows := SessionRead(snap, op.key, op.rangeEnd, 0, keysOnly);
            var c := Listing(ReplayedRows(ms, rows, op.key, op.rangeEnd));
            OpResponse(snap, ms, op)
            == if op.countOnly then ResponseRange([], |c|, 0)
               else ResponseRange(Truncate(c, op.limit), |Truncate(c, op.limit)|, 0)
  {
  }

  lemma RangeAgrees(ms: seq<Mutation>, ts: int, snap: Store, op: RequestOp)
    requires OlderThan(snap, ts) && op.RequestRange? && op.revision == 0
    ensures Agrees(op, Stamp(OpResponse(snap, ms, op), ts), ResponseTo(ApplyAll(ms, ts, snap), op, ts), ts)
  {
    var keysOnly := op.keysOnly || op.countOnly;
    ListedRowsAgree(ms, ts, snap, op.key, op.rangeEnd, keysOnly);
    RangeShape(ms, ts, snap, op);
    RangeResponsesAgree(
      Listing(ReplayedRows(ms, SessionRead(snap, op.key, op.rangeEnd, 0, keysOnly), op.key, op.rangeEnd)),
      Listing(VisibleRows(ApplyAll(ms, ts, snap), op.key, op.rangeEnd)), ts, op);
  }

  lemma RangeResponsesAgree(c: seq<KeyValue>, v: seq<KeyValue>, ts: int, op: RequestOp)
    requires op.RequestRange? && op.revision == 0 && |c| == |v|
    requires forall i :: 0 <= i < |c| ==> c[i] == View(v[i], ts, op.keysOnly || op.countOnly)
    ensures var page := Truncate(v, op.limit);
            Agrees(op,
                   if op.countOnly then ResponseRange([], |c|, ts)
                   else ResponseRange(Truncate(c, op.limit), |Truncate(c, op.limit)|, ts),
                   if op.countOnly then ResponseRange([], |v|, ts)
                   else ResponseRange(if op.keysOnly then KeysOnlyRows(page) else page, |page|, ts), ts)
  {
    if !op.countOnly {
      PagesAgree(c, v, op.limit, ts, op.keysOnly);
    }
  }

  lemma OpAgrees(ms: seq<Mutation>, ts: int, snap: Store, op: RequestOp)
    requires OlderThan(snap, ts) && WellFormedOp(op)
    ensures Agrees(op, Stamp(OpResponse(snap, ms, op), ts), ResponseTo(ApplyAll(ms, ts, snap), op, ts), ts)
  {
    match op
    case RequestPut(_, _, _, _) => PutAgrees(ms, ts, snap, op);
    case RequestDelete(_, _, _) => DeleteAgrees(ms, ts, snap, op);
    case RequestRange(_, _, _, _, _, _) => RangeAgrees(ms, ts, snap, op);
  }

  // ----- Whole operation lists -----

  /** From any accumulated effects, the remaining operations answer as the serial
      execution does and leave the store it leaves. */
  lemma {:induction false} ApplyOpsIsSerial(snap: Store, ops: seq<RequestOp>, e: Effects, ts: int)
    requires OlderThan(snap, ts) && WellFormedOps(ops)
    ensures var r, v := ApplyOps(snap, ops, e), RunOps(ApplyAll(e.mutations, ts, snap), ops, ts);
            && r.Ok? && e.responses <= r.value.responses
            && v.0 == ApplyAll(r.value.mutations, ts, snap)
            && AllAgree(ops, StampAll(r.value.responses[|e.responses|..], ts), v.1, ts)
    decreases |ops|
  {
    if ops != [] {
      var op := ops[0];
      var c := OpResponse(snap, e.mutations, op);
      var e' := Effects(e.mutations + MutationOf(op), e.responses + [c], e.recorded + OpReads(op));
      OpAgrees(e.mutations, ts, snap, op);
      MutationIsStoreStep(e.mutations, ts, snap, op);
      ApplyOpsIsSerial(snap, ops[1..], e', ts);
      ConsAgree(ops, e, c, ApplyOps(snap, ops[1..], e').value.responses, ts,
                ResponseTo(ApplyAll(e.mutations, ts, snap), op, ts),
                RunOps(ApplyAll(e'.mutations, ts, snap), ops[1..], ts).1);
    }
  }

  lemma ConsAgree(ops: seq<RequestOp>, e: Effects, c: ResponseOp, all: seq<ResponseOp>, ts: int,
                  v: ResponseOp, vs: seq<ResponseOp>)
    requires ops != [] && e.responses + [c] <= all
    requires Agrees(ops[0], Stamp(c, ts), v, ts)
    requires AllAgree(ops[1..], StampAll(all[|e.responses| + 1..], ts), vs, ts)
    ensures AllAgree(ops, StampAll(all[|e.responses|..], ts), [v] + vs, ts)
  {
    var n := |e.responses|;
    var a, b := StampAll(all[n..], ts), StampAll(all[n + 1..], ts);
    assert all[n] == c;
    forall i | 0 <= i < |ops| ensures Agrees(ops[i], a[i], ([v] + vs)[i], ts) {
      if i > 0 {
        assert ops[i] == ops[1..][i - 1];
        assert a[i] == b[i - 1];
      }
    }
  }

  // ----- Compares -----

  lemma AllHoldCons(s: Store, compares: seq<Compare>)
    requires compares != []
    ensures AllHold(s, compares) <==> CompareHolds(s, compares[0]) && AllHold(s, compares[1..])
  {
    assert forall i :: 0 < i < |compares| ==> compares[i] == compares[1..][i - 1];
    assert forall i :: 0 <= i < |compares[1..]| ==> compares[1..][i] == compares[i + 1];
  }

  /** Evaluation up to the first compare that fails, when it is not refused, gives
      the conjunction of all of them; it refuses none that is well formed. */
  lemma {:induction false} ComparesAgree(s: Store, compares: seq<Compare>)
    ensures var r := EvalCompares(k => VisibleAt(s, k), compares);
            && (r.Ok? ==> r.value == AllHold(s, compares))
            && ((forall i :: 0 <= i < |compares| ==> WellFormedCompare(compares[i])) ==> r.Ok?)
    decreases |compares|
  {
    if compares != [] {
      AllHoldCons(s, compares);
      ComparesAgree(s, compares[1..]);
    }
  }

  lemma {:induction false} OpsRefused(snap: Store, ops: seq<RequestOp>, e: Effects)
    ensures ApplyOps(snap, ops, e).Fatal? <==> !WellFormedOps(ops)
    decreases |ops|
  {
    if ops != [] {
      OpsRefused(snap, ops[1..],
                 Effects(e.mutations + MutationOf(ops[0]),
                         e.responses + (if WellFormedOp(ops[0]) then [OpResponse(snap, e.mutations, ops[0])] else []),
                         e.recorded + OpReads(ops[0])));
      if WellFormedOp(ops[0]) && WellFormedOps(ops[1..]) {
        forall i | 0 <= i < |ops| ensures WellFormedOp(ops[i]) {
          assert i > 0 ==> ops[i] == ops[1..][i - 1];
        }
      }
      if WellFormedOps(ops) {
        forall i | 0 <= i < |ops[1..]| ensures WellFormedOp(ops[1..][i]) {
          assert ops[1..][i] == ops[i + 1];
        }
      }
    }
  }

  /** Whenever the translation accepts a transaction on a store, it is the serial
      transaction there: same branch, same store, and responses that agree
      operation by operation. */
  lemma BuildTxnIsSerial(s: Store, t: Txn, ts: int)
    requires OlderThan(s, ts) && BuildTxn(s, t).Ok?
    ensures WellFormedOps(Chosen(s, t))
    ensures var b, v := BuildTxn(s, t).value, RunTxn(s, t, ts);
            && b.succeeded == v.succeeded
            && ApplyAll(b.effects.mutations, ts, s) == v.store
            && AllAgree(Branch(t, v.succeeded), StampAll(b.effects.responses, ts), v.responses, ts)
  {
    ComparesAgree(s, t.compares);
    var ops := Chosen(s, t);
    var e := Effects([], [], PointReads(Enumerate(CompareKeys(t.compares))));
    OpsRefused(s, ops, e);
    ApplyOpsIsSerial(s, ops, e, ts);
    var r := ApplyOps(s, ops, e);
    assert r.value.responses[0..] == r.value.responses;
  }

  // ----- The recorded reads are a sufficient footprint -----

  /** The two stores give the same answer to a recorded read. */
  ghost predicate SameUnder(a: Store, b: Store, r: ReadIntent) {
    forall k :: Covers(r, k) ==> VisibleAt(a, k) == VisibleAt(b, k)
  }

  ghost predicate SameUnderAll(a: Store, b: Store, rs: seq<ReadIntent>) {
    forall i :: 0 <= i < |rs| ==> SameUnder(a, b, rs[i])
  }

  lemma SameRows(a: Store, b: Store, key: Key, rangeEnd: Key)
    requires SameUnder(a, b, IntentOf(key, rangeEnd))
    ensures VisibleRows(a, key, rangeEnd) == VisibleRows(b, key, rangeEnd)
  {
    var x, y := VisibleRows(a, key, rangeEnd), VisibleRows(b, key, rangeEnd);
    forall k ensures Lookup(x, k) == Lookup(y, k) {
      if Matches(key, rangeEnd, k) {
        IntentCovers(key, rangeEnd, k);
        assert VisibleAt(a, k) == VisibleAt(b, k);
      }
    }
    SameLookups(x, y);
  }

  lemma SameOpResponse(a: Store, b: Store, ms: seq<Mutation>, op: RequestOp)
    requires WellFormedOp(op) && SameUnderAll(a, b, OpReads(op))
    ensures OpResponse(a, ms, op) == OpResponse(b, ms, op)
  {
    match op
    case RequestPut(key, _, _, prevKv) =>
      if prevKv {
        assert OpReads(op)[0] == IntentOf(key, []);
        SameRows(a, b, key, []);
      }
    case RequestDelete(key, rangeEnd, _) =>
      assert OpReads(op)[0] == IntentOf(key, rangeEnd);
      SameRows(a, b, key, rangeEnd);
    case RequestRange(key, rangeEnd, _, _, _, _) =>
      assert OpReads(op)[0] == IntentOf(key, rangeEnd);
      SameRows(a, b, key, rangeEnd);
  }

  lemma {:induction false} RecordedGrows(snap: Store, ops: seq<RequestOp>, e: Effects)
    requires ApplyOps(snap, ops, e).Ok?
    ensures e.recorded <= ApplyOps(snap, ops, e).value.recorded
    decreases |ops|
  {
    if ops != [] {
      RecordedGrows(snap, ops[1..],
                    Effects(e.mutations + MutationOf(ops[0]),
                            e.responses + [OpResponse(snap, e.mutations, ops[0])],
                            e.recorded + OpReads(ops[0])));
    }
  }

  lemma {:induction false} SameApplyOps(a: Store, b: Store, ops: seq<RequestOp>, e: Effects)
    requires var r := ApplyOps(a, ops, e); r.Ok? ==> SameUnderAll(a, b, r.value.recorded)
    ensures ApplyOps(a, ops, e).Ok? ==> ApplyOps(b, ops, e) == ApplyOps(a, ops, e)
    decreases |ops|
  {
    if ops != [] && ApplyOps(a, ops, e).Ok? {
      var op := ops[0];
      var e' := Effects(e.mutations + MutationOf(op), e.responses + [OpResponse(a, e.mutations, op)],
                        e.recorded + OpReads(op));
      RecordedGrows(a, ops[1..], e');
      var all := ApplyOps(a, ops, e).value.recorded;
      forall i | 0 <= i < |OpReads(op)| ensures SameUnder(a, b, OpReads(op)[i]) {
        assert all[|e.recorded| + i] == e'.recorded[|e.recorded| + i] == OpReads(op)[i];
      }
      SameOpResponse(a, b, e.mutations, op);
      SameApplyOps(a, b, ops[1..], e');
    }
  }

  lemma {:induction false} SameCompares(f: Key -> Option<KeyValue>, g: Key -> Option<KeyValue>, compares: seq<Compare>)
    requires forall i :: 0 <= i < |compares| ==> f(compares[i].key) == g(compares[i].key)
    ensures EvalCompares(f, compares) == EvalCompares(g, compares)
    decreases |compares|
  {
    if compares != [] {
      assert f(compares[0].key) == g(compares[0].key);
      forall i | 0 <= i < |compares[1..]| ensures f(compares[1..][i].key) == g(compares[1..][i].key) {
        assert compares[1..][i] == compares[i + 1];
      }
      SameCompares(f, g, compares[1..]);
    }
  }

  /** Two stores that agree on every read `build_txn` recorded on the first give
      the same branch, mutations, responses and reads on both. */
  lemma ReadsAreFootprint(a: Store, b: Store, t: Txn)
    requires BuildTxn(a, t).Ok? && SameUnderAll(a, b, BuildTxn(a, t).value.effects.recorded)
    ensures BuildTxn(b, t) == BuildTxn(a, t)
  {
    var keys := Enumerate(CompareKeys(t.compares));
    var e := Effects([], [], PointReads(keys));
    var succeeded := EvalCompares(k => VisibleAt(a, k), t.compares).value;
    var ops := if succeeded then t.success else t.failure;
    RecordedGrows(a, ops, e);
    var all := BuildTxn(a, t).value.effects.recorded;
    forall i | 0 <= i < |t.compares|
      ensures VisibleAt(a, t.compares[i].key) == VisibleAt(b, t.compares[i].key)
    {
      EnumerateSorted(CompareKeys(t.compares));
      assert t.compares[i].key in keys;
      var j :| 0 <= j < |keys| && keys[j] == t.compares[i].key;
      assert all[j] == Point(t.compares[i].key);
      assert SameUnder(a, b, all[j]);
    }
    SameCompares(k => VisibleAt(a, k), k => VisibleAt(b, k), t.compares);
    SameApplyOps(a, b, ops, e);
  }
}
