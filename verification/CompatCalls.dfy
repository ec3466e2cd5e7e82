/** Single-key and range calls built on the same sessions, and the places where
    the translation answers differently from v1. */
module CompatCalls {
  import opened Bytes
  import opened KvRange
  import opened Kv
  import opened V1Txn
  import opened V2Compat
  import opened TxnEquivalence
  import opened Sequencer
  import opened Mvcc
  import opened Cluster
  import opened Serializability
  import opened CompatSession

  // ----- kv_delete -----

  function DeleteTxn(key: Key, rangeEnd: Key): Txn {
    Txn([], [RequestDelete(key, rangeEnd, false)], [])
  }

  datatype DeletePlan = DeletePlan(deleted: int, mutation: Mutation)

  /** `kv_delete` up to its commit: read the hits keys-only, count them, and
      commit one delete. It is the one-operation transaction `DeleteTxn`. */
  method PlanDelete(session: Session, key: Key, rangeEnd: Key) returns (r: Attempt<DeletePlan>)
    requires session.recorded == []
    modifies session
    ensures r.Ok? ==>
              BuildTxn(session.snapshot, DeleteTxn(key, rangeEnd))
              == Ok(Built(true, Effects([r.value.mutation], [ResponseDelete(r.value.deleted, [], 0)],
                                        session.recorded)))
    ensures r.Fatal? ==> r.error == Transport && session.rpcsLeft == 0
  {
    var hits := session.Read(key, rangeEnd, 0, true);
    if hits.Fatal? {
      return Fatal(hits.error);
    }
    DeleteTxnBuild(session.snapshot, key, rangeEnd);
    assert session.recorded == [IntentOf(key, rangeEnd)];
    return Ok(DeletePlan(|hits.value|, DeleteMutation(key, rangeEnd)));
  }

  lemma DeleteResponse(snap: Store, key: Key, rangeEnd: Key)
    ensures OpResponse(snap, [], RequestDelete(key, rangeEnd, false))
         == ResponseDelete(|SessionRead(snap, key, rangeEnd, 0, true)|, [], 0)
  {
    var base := ReadBase(snap, key, rangeEnd, true);
    CollectRead(snap, key, rangeEnd, 0, true);
    assert Restrict(ReplayRows([], base), key, rangeEnd) == base;
  }

  lemma DeleteTxnBuild(snap: Store, key: Key, rangeEnd: Key)
    ensures BuildTxn(snap, DeleteTxn(key, rangeEnd))
         == Ok(Built(true, Effects([DeleteMutation(key, rangeEnd)],
                                   [ResponseDelete(|SessionRead(snap, key, rangeEnd, 0, true)|, [], 0)],
                                   [IntentOf(key, rangeEnd)])))
  {
    var op := RequestDelete(key, rangeEnd, false);
    var compares: seq<Compare> := [];
    assert CompareKeys(compares) == {};
    assert PointReads(Enumerate(CompareKeys(compares))) == [];
    assert EvalCompares(k => VisibleAt(snap, k), compares) == Ok(true);
    DeleteResponse(snap, key, rangeEnd);
    var done := Effects([] + MutationOf(op), [] + [OpResponse(snap, [], op)], [] + OpReads(op));
    assert [op][1..] == [];
    assert ApplyOps(snap, [op], Effects([], [], [])) == ApplyOps(snap, [], done);
    assert done == Effects([DeleteMutation(key, rangeEnd)], [OpResponse(snap, [], op)], [IntentOf(key, rangeEnd)]);
  }

  /** Deleting removes exactly the live matching keys and counts them. */
  lemma DeleteCountsRemoved(s: Store, key: Key, rangeEnd: Key, ts: int)
    ensures var v := RunTxn(s, DeleteTxn(key, rangeEnd), ts);
            var removed := set k | k in Live(s) && Matches(key, rangeEnd, k);
            && Live(v.store) == Live(s) - removed
            && |v.responses| == 1 && v.responses[0].ResponseDelete?
            && v.responses[0].deleted == |removed|
  {
    var op := RequestDelete(key, rangeEnd, false);
    var rows := VisibleRows(s, key, rangeEnd);
    var removed := set k | k in Live(s) && Matches(key, rangeEnd, k);
    assert rows.Keys == removed;
    assert |rows| == |rows.Keys|;
    assert [op][1..] == [];
    var after := StoreAfter(s, op, ts);
    assert RunOps(after, [], ts) == (after, []);
    assert RunOps(s, [op], ts) == (after, [ResponseTo(s, op, ts)] + []);
    assert Live(after) == Live(s) - removed;
  }

  /** In every run, the count a delete reports is the number of keys its commit
      removed from the store as it stood just before. */
  lemma {:induction false} DeleteCountIsExact(run: seq<Step>, cfg: Config, i: nat, key: Key, rangeEnd: Key)
    requires Run(run, cfg).Some? && i < |Run(run, cfg).value.origins|
    requires var s := Run(run, cfg).value;
             s.origins[i].FromCall? && s.origins[i].id in s.calls
             && s.calls[s.origins[i].id].txn == DeleteTxn(key, rangeEnd)
    ensures var s := Run(run, cfg).value;
            && |s.seqr.log| == |s.origins| && |s.origins[i].responses| == 1 && s.origins[i].responses[0].ResponseDelete?
            && var before, after := Live(StoreOf(s.seqr.log[..i])), Live(StoreOf(s.seqr.log[..i + 1]));
               && after <= before
               && before - after == (set k | k in before && Matches(key, rangeEnd, k))
               && s.origins[i].responses[0].deleted == |before - after|
  {
    RunInv(run, cfg);
    var s := Run(run, cfg).value;
    assert OriginInv(s, i);
    var store := StoreOf(s.seqr.log[..i]);
    DeleteCountsRemoved(store, key, rangeEnd, s.seqr.log[i].ts);
    var o := s.origins[i];
    var v := RunTxn(store, DeleteTxn(key, rangeEnd), s.seqr.log[i].ts);
    assert Agrees(DeleteTxn(key, rangeEnd).success[0], o.responses[0], v.responses[0], s.seqr.log[i].ts);
    var removed := set k | k in Live(store) && Matches(key, rangeEnd, k);
    assert Live(store) - (Live(store) - removed) == removed;
  }

  // ----- Which requests are refused -----

  predicate PassesTo(s: Store, cs: seq<Compare>, i: nat)
    requires i <= |cs|
  {
    forall j :: 0 <= j < i ==> CompareHolds(s, cs[j])
  }

  /** A malformed compare is met before any failing one. */
  predicate MalformedFirst(s: Store, cs: seq<Compare>) {
    exists i :: 0 <= i < |cs| && !WellFormedCompare(cs[i]) && PassesTo(s, cs, i)
  }

  predicate FailsFirst(s: Store, cs: seq<Compare>) {
    exists i :: 0 <= i < |cs| && WellFormedCompare(cs[i]) && !Holds(cs[i], VisibleAt(s, cs[i].key))
                && PassesTo(s, cs, i)
  }

  lemma {:induction false} ComparesScan(s: Store, cs: seq<Compare>, n: nat)
    requires n <= |cs| && PassesTo(s, cs, n)
    ensures var r := EvalCompares(k => VisibleAt(s, k), cs[n..]);
            && (r.Fatal? <==> MalformedFirst(s, cs))
            && (r == Ok(false) <==> FailsFirst(s, cs))
    decreases |cs| - n
  {
    if n == |cs| {
      assert cs[n..] == [];
      assert PassesTo(s, cs, |cs|);
    } else {
      assert cs[n..][0] == cs[n] && cs[n..][1..] == cs[n + 1..];
      if CompareHolds(s, cs[n]) {
        assert PassesTo(s, cs, n + 1);
        ComparesScan(s, cs, n + 1);
      } else {
        OnlyStop(s, cs, n);
      }
    }
  }

  /** At most one position stops the scan. */
  lemma OnlyStop(s: Store, cs: seq<Compare>, n: nat)
    requires n < |cs| && PassesTo(s, cs, n)
    requires !CompareHolds(s, cs[n])
    ensures MalformedFirst(s, cs) <==> !WellFormedCompare(cs[n])
    ensures FailsFirst(s, cs) <==> WellFormedCompare(cs[n])
  {
    forall i | 0 <= i < |cs| && PassesTo(s, cs, i) ensures i <= n {
    }
  }

  /** The translation refuses a transaction exactly when a malformed compare is
      reached before a failing one, or the chosen branch holds an operation with
      no payload or a historical revision. Malformed parts it never reaches are
      not noticed. */
  lemma {:induction false} BuildRefusedIff(s: Store, t: Txn)
    ensures BuildTxn(s, t).Fatal? <==>
            || MalformedFirst(s, t.compares)
            || (FailsFirst(s, t.compares) && !WellFormedOps(t.failure))
            || (!FailsFirst(s, t.compares) && !WellFormedOps(t.success))
  {
    assert t.compares[0..] == t.compares;
    ComparesScan(s, t.compares, 0);
    var e := Effects([], [], PointReads(Enumerate(CompareKeys(t.compares))));
    OpsRefused(s, t.success, e);
    OpsRefused(s, t.failure, e);
  }

  /** A malformed compare behind a failing one passes unnoticed. */
  lemma MalformedTailAccepted(s: Store)
    ensures var bad := Compare(9, 0, [], None);
            var t := Txn([Compare(LESS, TARGET_VERSION, [], Some(Version(0))), bad], [], []);
            !WellFormed(t) && (VisibleAt(s, []).None? ==> BuildTxn(s, t).Ok?)
  {
    var bad := Compare(9, 0, [], None);
    var t := Txn([Compare(LESS, TARGET_VERSION, [], Some(Version(0))), bad], [], []);
    assert !WellFormedCompare(t.compares[1]);
    BuildRefusedIff(s, t);
    if VisibleAt(s, []).None? {
      assert PassesTo(s, t.compares, 0);
      OnlyStop(s, t.compares, 0);
    }
  }

  // ----- Which built transactions the server refuses to commit -----

  predicate Committable(op: RequestOp) {
    match op
    case RequestPut(_, _, leaseId, _) => leaseId >= 0
    case RequestDelete(key, rangeEnd, _) => IsSingleKey(key, rangeEnd) || Less(key, rangeEnd)
    case _ => true
  }

  predicate AllCommittable(ops: seq<RequestOp>) {
    forall i :: 0 <= i < |ops| ==> Committable(ops[i])
  }

  lemma OneCommittable(ms: seq<Mutation>, op: RequestOp)
    ensures ValidMutations(ms + MutationOf(op)) <==> ValidMutations(ms) && Committable(op)
  {
    var all := ms + MutationOf(op);
    if ValidMutations(all) {
      assert forall i :: 0 <= i < |ms| ==> all[i] == ms[i];
      assert MutationOf(op) != [] ==> ValidMutation(all[|ms|]);
    }
  }

  lemma {:induction false} OpsCommittable(snap: Store, ops: seq<RequestOp>, e: Effects)
    requires ApplyOps(snap, ops, e).Ok?
    ensures ValidMutations(ApplyOps(snap, ops, e).value.mutations) <==>
            ValidMutations(e.mutations) && AllCommittable(ops)
    decreases |ops|
  {
    if ops != [] {
      var op := ops[0];
      OneCommittable(e.mutations, op);
      OpsCommittable(snap, ops[1..], Effects(e.mutations + MutationOf(op),
                                             e.responses + [OpResponse(snap, e.mutations, op)],
                                             e.recorded + OpReads(op)));
      assert AllCommittable(ops) <==> Committable(op) && AllCommittable(ops[1..]) by {
        assert forall i :: 0 < i < |ops| ==> ops[i] == ops[1..][i - 1];
        assert forall i :: 0 <= i < |ops[1..]| ==> ops[1..][i] == ops[i + 1];
      }
    }
  }

  /** The commit of a built transaction is refused as malformed exactly when its
      branch has a negative lease or an interval delete that names no key. */
  lemma CommitRefusedIff(snap: Store, t: Txn)
    requires BuildTxn(snap, t).Ok?
    ensures var b := BuildTxn(snap, t).value;
            ValidMutations(b.effects.mutations) <==> AllCommittable(Branch(t, b.succeeded))
  {
    var b := BuildTxn(snap, t).value;
    OpsCommittable(snap, Branch(t, b.succeeded), Effects([], [], PointReads(Enumerate(CompareKeys(t.compares)))));
  }

  /** Such a delete does nothing in v1, so refusing it changes no store. */
  lemma RefusedDeleteIsNoOp(s: Store, key: Key, rangeEnd: Key, ts: int)
    requires !Committable(RequestDelete(key, rangeEnd, false))
    ensures var v := RunTxn(s, DeleteTxn(key, rangeEnd), ts);
            && Live(v.store) == Live(s)
            && |v.responses| == 1 && v.responses[0].ResponseDelete? && v.responses[0].deleted == 0
  {
    DeleteCountsRemoved(s, key, rangeEnd, ts);
    forall k ensures !Matches(key, rangeEnd, k) {
      if AtMost(key, k) && Less(k, rangeEnd) {
        AtMostLess(key, k, rangeEnd);
      }
    }
    var removed := set k | k in Live(s) && Matches(key, rangeEnd, k);
    assert removed == {};
  }

  /** Deleting from [7] up to [3]: built without complaint, refused at commit. */
  lemma ReversedDeleteRefused(snap: Store)
    ensures var r := BuildTxn(snap, DeleteTxn([7], [3]));
            r.Ok? && !ValidMutations(r.value.effects.mutations)
  {
    DeleteTxnBuild(snap, [7], [3]);
    var ms := BuildTxn(snap, DeleteTxn([7], [3])).value.effects.mutations;
    assert ms[0] == DeleteRange([7], [3]);
    assert !Less([7], [3]);
  }

  // ----- keys_only -----

  /** A keys-only answer still carries a value exactly for the rows the same
      transaction wrote with a non-empty value. */
  lemma KeysOnlyValues(snap: Store, ms: seq<Mutation>, op: RequestOp, ts: int, i: nat)
    requires OlderThan(snap, ts) && op.RequestRange? && WellFormedOp(op) && op.keysOnly && !op.countOnly
    requires i < |OpResponse(snap, ms, op).kvs|
    ensures var rows := Listing(VisibleRows(ApplyAll(ms, ts, snap), op.key, op.rangeEnd));
            && i < |rows|
            && (OpResponse(snap, ms, op).kvs[i].value != [] <==>
                rows[i].modRevision == ts && rows[i].value != [])
  {
    ListedRowsAgree(ms, ts, snap, op.key, op.rangeEnd, true);
  }

  lemma KeysOnlyLeak()
    ensures var op := RequestRange([7], [], 0, 0, true, false);
            |OpResponse(map[], [Put([7], [42], 0)], op).kvs| == 1
            && OpResponse(map[], [Put([7], [42], 0)], op).kvs[0].value == [42]
  {
    var op := RequestRange([7], [], 0, 0, true, false);
    var ms := [Put([7], [42], 0)];
    ListedRowsAgree(ms, 1, map[], [7], [], true);
    assert ms[..0] == [];
    var s := ApplyAll(ms, 1, map[]);
    assert s == map[[7] := Row([42], 1, 1, 1, 0, false)];
    var rows := VisibleRows(s, [7], []);
    assert rows.Keys == {[7]};
    assert |rows| == 1;
    ListingMembers(rows);
  }
}
