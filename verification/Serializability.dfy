/** Every run of the cluster is equivalent to executing the original v1
    transactions one after another in commit order. */
module Serializability {
  import opened Bytes
  import opened Kv
  import opened V1Txn
  import opened V2Compat
  import opened TxnEquivalence
  import opened ReadSets
  import opened Sequencer
  import opened Mvcc
  import opened Cluster

  // ----- What a call in progress knows -----

  ghost predicate BoundedReads(rs: seq<ReadIntent>) {
    forall i :: 0 <= i < |rs| ==> rs[i].Range? ==> rs[i].end != []
  }

  ghost predicate ComparingInv(t: Txn, snap: Store, got: map<Key, KeyValue>, recorded: seq<ReadIntent>) {
    var order := CompareOrder(t);
    && |recorded| <= |order|
    && recorded == PointReads(order[..|recorded|])
    && (forall j :: 0 <= j < |recorded| ==> Lookup(got, order[j]) == VisibleAt(snap, order[j]))
    && (forall k :: k in got ==> k in order[..|recorded|])
  }

  ghost predicate ApplyingInv(t: Txn, snap: Store, succeeded: bool, next: nat, e: Effects) {
    var ops := Branch(t, succeeded);
    && next <= |ops|
    && EvalCompares(k => VisibleAt(snap, k), t.compares) == Ok(succeeded)
    && ApplyOps(snap, ops, Effects([], [], PointReads(CompareOrder(t)))) == ApplyOps(snap, ops[next..], e)
    && BoundedReads(e.recorded)
  }

  ghost predicate PhaseInv(c: Call, log: seq<Decision>, fence: nat) {
    match c.phase
    case Comparing(startTs, got, recorded) =>
      startTs <= fence && ComparingInv(c.txn, Snapshot(log, startTs), got, recorded)
    case Applying(startTs, succeeded, next, e) =>
      startTs <= fence && ApplyingInv(c.txn, Snapshot(log, startTs), succeeded, next, e)
    case _ => true
  }

  // ----- What a committed call did -----

  /** From `before` to `after` at revision `ts`: the serial execution of `t`. */
  ghost predicate SerialStep(before: Store, after: Store, ts: nat, t: Txn, succeeded: bool, responses: seq<ResponseOp>)
  {
    && WellFormedOps(Chosen(before, t))
    && var v := RunTxn(before, t, ts);
       v.store == after && v.succeeded == succeeded
       && AllAgree(Branch(t, succeeded), responses, v.responses, ts)
  }

  ghost predicate SerialEntry(log: seq<Decision>, i: nat, t: Txn, succeeded: bool, responses: seq<ResponseOp>)
    requires i < |log|
  {
    SerialStep(StoreOf(log[..i]), StoreOf(log[..i + 1]), log[i].ts, t, succeeded, responses)
  }

  ghost predicate OriginInv(s: Cluster, i: nat)
    requires i < |s.origins| == |s.seqr.log|
  {
    s.origins[i].FromCall? ==>
      var o := s.origins[i];
      && o.id in s.calls
      && SerialEntry(s.seqr.log, i, s.calls[o.id].txn, o.succeeded, o.responses)
      && (s.calls[o.id].phase == Returned(Unknown)
          || s.calls[o.id].phase == Returned(Done(o.succeeded, o.responses, s.seqr.log[i].ts)))
  }

  ghost predicate ReplyInv(s: Cluster, id: nat)
    requires id in s.calls && |s.origins| == |s.seqr.log|
  {
    var c := s.calls[id];
    && (c.phase.Returned? && c.phase.reply.Done? ==>
          exists i :: 0 <= i < |s.origins| && s.seqr.log[i].ts == c.phase.reply.revision
                      && s.origins[i] == FromCall(id, c.phase.reply.succeeded, c.phase.reply.responses))
    && (c.phase == Returned(Exhausted) ==> c.conflicts == c.retries + 1)
    && (!c.phase.Returned? ==> c.conflicts <= c.retries)
  }

  ghost predicate ClusterInv(s: Cluster) {
    && Inv(s.seqr)
    && |s.origins| == |s.seqr.log|
    && (forall id :: id in s.calls ==> PhaseInv(s.calls[id], s.seqr.log, s.fence) && ReplyInv(s, id))
    && (forall i :: 0 <= i < |s.origins| ==> OriginInv(s, i))
    && DistinctCalls(s.origins)
  }

  // ----- Steps that touch one call and leave the log alone -----

  lemma OneCallChanges(s: Cluster, s': Cluster, id: nat)
    requires ClusterInv(s) && id in s.calls && !s.calls[id].phase.Returned?
    requires s'.seqr == s.seqr && s'.fence >= s.fence && s'.origins == s.origins
    requires id in s'.calls && s'.calls == s.calls[id := s'.calls[id]] && s'.calls[id].txn == s.calls[id].txn
    requires PhaseInv(s'.calls[id], s.seqr.log, s.fence)
    requires ReplyInv(s', id)
    ensures ClusterInv(s')
  {
    forall x | x in s'.calls
      ensures PhaseInv(s'.calls[x], s'.seqr.log, s'.fence) && ReplyInv(s', x)
    {
      if x != id {
        assert s'.calls[x] == s.calls[x];
        assert ReplyInv(s, x);
      }
    }
    forall i | 0 <= i < |s'.origins| ensures OriginInv(s', i) {
      assert OriginInv(s, i);
    }
  }

  lemma CompareRead(t: Txn, snap: Store, got: map<Key, KeyValue>, recorded: seq<ReadIntent>)
    requires ComparingInv(t, snap, got, recorded) && |recorded| < |CompareOrder(t)|
    ensures var key := CompareOrder(t)[|recorded|];
            var row := VisibleAt(snap, key);
            ComparingInv(t, snap, if row.Some? then got[key := row.value] else got, recorded + [Point(key)])
  {
    var order := CompareOrder(t);
    var n := |recorded|;
    EnumerateSorted(CompareKeys(t.compares));
    Irreflexive(order[n]);
    assert order[n] !in order[..n];
    assert order[..n + 1] == order[..n] + [order[n]];
    assert PointReads(order[..n + 1]) == PointReads(order[..n]) + [Point(order[n])];
  }

  lemma ReadCompareKeeps(s: Cluster, id: nat, cfg: Config)
    requires ClusterInv(s) && Enabled(s, ReadCompare(id), cfg)
    ensures ClusterInv(AfterReadCompare(s, id, cfg))
  {
    var c := s.calls[id];
    var p := c.phase;
    var s' := AfterReadCompare(s, id, cfg);
    assert PhaseInv(c, s.seqr.log, s.fence) && ReplyInv(s, id);
    CompareRead(c.txn, Snapshot(s.seqr.log, p.startTs), p.got, p.recorded);
    OneCallChanges(s, s', id);
  }

  /** What was read for the compares decides the branch as the snapshot does. */
  lemma DecidePhase(t: Txn, snap: Store, got: map<Key, KeyValue>, recorded: seq<ReadIntent>)
    requires ComparingInv(t, snap, got, recorded) && |recorded| == |CompareOrder(t)|
    ensures var r := EvalCompares(k => Lookup(got, k), t.compares);
            && r == EvalCompares(k => VisibleAt(snap, k), t.compares)
            && (r.Ok? ==> ApplyingInv(t, snap, r.value, 0, Effects([], [], recorded)))
  {
    var order := CompareOrder(t);
    assert order[..|order|] == order;
    forall i | 0 <= i < |t.compares| ensures Lookup(got, t.compares[i].key) == VisibleAt(snap, t.compares[i].key) {
      EnumerateSorted(CompareKeys(t.compares));
      assert t.compares[i].key in order;
      var j :| 0 <= j < |order| && order[j] == t.compares[i].key;
    }
    SameCompares(k => Lookup(got, k), k => VisibleAt(snap, k), t.compares);
    assert t.success[0..] == t.success && t.failure[0..] == t.failure;
  }

  lemma DecideKeeps(s: Cluster, id: nat, cfg: Config)
    requires ClusterInv(s) && Enabled(s, Decide(id), cfg)
    ensures ClusterInv(AfterDecide(s, id, cfg))
  {
    var c := s.calls[id];
    assert PhaseInv(c, s.seqr.log, s.fence) && ReplyInv(s, id);
    DecidePhase(c.txn, Snapshot(s.seqr.log, c.phase.startTs), c.phase.got, c.phase.recorded);
    OneCallChanges(s, AfterDecide(s, id, cfg), id);
  }

  lemma {:induction false} RunOpPhase(t: Txn, snap: Store, succeeded: bool, next: nat, e: Effects)
    requires ApplyingInv(t, snap, succeeded, next, e)
    requires next < |Branch(t, succeeded)| && WellFormedOp(Branch(t, succeeded)[next])
    ensures var op := Branch(t, succeeded)[next];
            ApplyingInv(t, snap, succeeded, next + 1,
                        Effects(e.mutations + MutationOf(op), e.responses + [OpResponse(snap, e.mutations, op)],
                                e.recorded + OpReads(op)))
  {
    var ops := Branch(t, succeeded);
    assert ops[next..][0] == ops[next] && ops[next..][1..] == ops[next + 1..];
  }

  lemma RunOpCall(s: Cluster, id: nat, cfg: Config)
    requires Enabled(s, RunOp(id), cfg) && |s.origins| == |s.seqr.log|
    requires PhaseInv(s.calls[id], s.seqr.log, s.fence) && ReplyInv(s, id)
    ensures var s' := AfterRunOp(s, id, cfg);
            && s'.seqr == s.seqr && s'.fence == s.fence && s'.origins == s.origins && id in s'.calls
            && s'.calls == s.calls[id := s'.calls[id]] && s'.calls[id].txn == s.calls[id].txn
            && PhaseInv(s'.calls[id], s.seqr.log, s.fence) && ReplyInv(s', id)
  {
    var p := s.calls[id].phase;
    if AfterRunOp(s, id, cfg).calls[id].phase.Applying? {
      RunOpPhase(s.calls[id].txn, Snapshot(s.seqr.log, p.startTs), p.succeeded, p.next, p.effects);
    }
  }

  lemma RunOpKeeps(s: Cluster, id: nat, cfg: Config)
    requires ClusterInv(s) && Enabled(s, RunOp(id), cfg)
    ensures ClusterInv(AfterRunOp(s, id, cfg))
  {
    assert PhaseInv(s.calls[id], s.seqr.log, s.fence) && ReplyInv(s, id);
    RunOpCall(s, id, cfg);
    OneCallChanges(s, AfterRunOp(s, id, cfg), id);
  }

  // ----- Commits -----

  lemma PhaseStable(c: Call, log: seq<Decision>, d: Decision, fence: nat)
    requires PhaseInv(c, log, fence) && d.ts > fence
    ensures PhaseInv(c, log + [d], fence)
  {
    if c.phase.Comparing? || c.phase.Applying? {
      SnapshotStable(log, d, c.phase.startTs);
    }
  }

  lemma EntryStable(log: seq<Decision>, d: Decision, i: nat, t: Txn, succeeded: bool, responses: seq<ResponseOp>)
    requires i < |log| && SerialEntry(log, i, t, succeeded, responses)
    ensures SerialEntry(log + [d], i, t, succeeded, responses)
  {
    assert (log + [d])[..i] == log[..i];
    assert (log + [d])[..i + 1] == log[..i + 1];
  }

  lemma ForeignOrigin(s: Cluster, s': Cluster, d: Decision, i: nat)
    requires |s.origins| == |s.seqr.log| && s'.seqr.log == s.seqr.log + [d] && s'.calls == s.calls
    requires s'.origins == s.origins + [Foreign] && i < |s'.origins|
    requires i < |s.origins| ==> OriginInv(s, i)
    ensures OriginInv(s', i)
  {
    if i < |s.origins| && s.origins[i].FromCall? {
      var o := s.origins[i];
      EntryStable(s.seqr.log, d, i, s.calls[o.id].txn, o.succeeded, o.responses);
    }
  }

  /** A decision from outside the modelled calls. */
  lemma {:induction false} ForeignKeeps(s: Cluster, c: Candidate, cfg: Config)
    requires ClusterInv(s) && Enabled(s, ForeignCommit(c), cfg)
    ensures ClusterInv(Next(s, ForeignCommit(c), cfg))
  {
    var s' := Next(s, ForeignCommit(c), cfg);
    AfterKeepsInv(s.seqr, c, cfg.limits);
    if Judge(s.seqr, c, cfg.limits).Committed? {
      var d := Decision(c.txnId, c.commitTs, c.mutations);
      forall x | x in s'.calls ensures PhaseInv(s'.calls[x], s'.seqr.log, s'.fence) && ReplyInv(s', x) {
        PhaseStable(s.calls[x], s.seqr.log, d, s.fence);
        ReplyAppend(s, s', x, d, Foreign);
      }
      forall i | 0 <= i < |s'.origins| ensures OriginInv(s', i) {
        assert i < |s.origins| ==> OriginInv(s, i);
        ForeignOrigin(s, s', d, i);
      }
    }
  }

  lemma ReplyAppend(s: Cluster, s': Cluster, x: nat, d: Decision, o: Origin)
    requires |s.origins| == |s.seqr.log| && x in s.calls && ReplyInv(s, x)
    requires x in s'.calls && s'.calls[x] == s.calls[x]
    requires s'.seqr.log == s.seqr.log + [d] && s'.origins == s.origins + [o]
    ensures ReplyInv(s', x)
  {
    var c := s.calls[x];
    if c.phase.Returned? && c.phase.reply.Done? {
      var i :| 0 <= i < |s.origins| && s.seqr.log[i].ts == c.phase.reply.revision
               && s.origins[i] == FromCall(x, c.phase.reply.succeeded, c.phase.reply.responses);
      assert s'.origins[i] == s.origins[i] && s'.seqr.log[i] == s.seqr.log[i];
    }
  }

  /** The reads handed to the sequencer cover everything the build recorded. */
  lemma CandidateCovers(c: Call, commitTs: nat, empties: seq<Interval>, cfg: Config, k: Key)
    requires c.phase.Applying? && ReadSetOf(c.phase.effects.recorded, cfg).Added?
    requires Requested(c.phase.effects.recorded, k)
    ensures CandidateReads(CandidateOf(c, commitTs, empties, cfg), k)
  {
    var recorded := c.phase.effects.recorded;
    var rs := ReadSetOf(recorded, cfg).set';
    RecordAllRepresents(recorded, cfg.maxReadSet);
    RepresentsCoverage(rs, recorded, k);
    if InAny(rs.ranges, k) {
      var i :| 0 <= i < |rs.ranges| && In(rs.ranges[i], k);
      assert (rs.ranges + empties)[i] == rs.ranges[i];
    }
  }

  lemma CandidateBounded(c: Call, commitTs: nat, empties: seq<Interval>, cfg: Config)
    requires c.phase.Applying? && ReadSetOf(c.phase.effects.recorded, cfg).Added?
    requires BoundedReads(c.phase.effects.recorded)
    requires (set e | e in empties) == ReadSetOf(c.phase.effects.recorded, cfg).set'.emptyRanges
    ensures BoundedRanges(CandidateOf(c, commitTs, empties, cfg))
  {
    var recorded := c.phase.effects.recorded;
    var rs := ReadSetOf(recorded, cfg).set';
    RecordAllRepresents(recorded, cfg.maxReadSet);
    var all := rs.ranges + empties;
    forall i | 0 <= i < |all| ensures all[i].end != [] {
      if i < |rs.ranges| {
        NonEmptyStart(rs.ranges[i]);
      } else {
        var e := empties[i - |rs.ranges|];
        assert e in (set e | e in empties);
        assert Range(e.start, e.end) in recorded;
      }
    }
  }

  /** Validation makes the snapshot and the latest store agree on every read. */
  lemma ValidatedReadsAgree(s: Cluster, c: Call, k: Candidate, cfg: Config)
    requires Inv(s.seqr) && c.phase.Applying? && BoundedRanges(k) && Judge(s.seqr, k, cfg.limits).Committed?
    requires k.startTs == c.phase.startTs
    requires forall x :: Requested(c.phase.effects.recorded, x) ==> CandidateReads(k, x)
    ensures SameUnderAll(Snapshot(s.seqr.log, c.phase.startTs), StoreOf(s.seqr.log), c.phase.effects.recorded)
  {
    var rs := c.phase.effects.recorded;
    forall i, x | 0 <= i < |rs| && Covers(rs[i], x)
      ensures VisibleAt(Snapshot(s.seqr.log, c.phase.startTs), x) == VisibleAt(StoreOf(s.seqr.log), x)
    {
      assert Requested(rs, x);
      CommittedReadsAreFresh(s.seqr, k, cfg.limits, x);
      SnapshotAgrees(s.seqr.log, c.phase.startTs, x);
    }
  }

  lemma {:induction false} ApplyingDone(t: Txn, snap: Store, succeeded: bool, next: nat, e: Effects)
    requires ApplyingInv(t, snap, succeeded, next, e) && next == |Branch(t, succeeded)|
    ensures BuildTxn(snap, t) == Ok(Built(succeeded, e))
  {
    assert Branch(t, succeeded)[next..] == [];
  }

  lemma LatestIsOlder(s: State, ts: nat)
    requires LogInv(s) && ts > s.lastTs
    ensures OlderThan(StoreOf(s.log), ts)
  {
    StoreNoNewer(s.log, s.lastTs);
  }

  lemma SerialStepFromBuild(s: Store, ts: nat, t: Txn, b: Built)
    requires OlderThan(s, ts) && BuildTxn(s, t) == Ok(b)
    ensures SerialStep(s, ApplyAll(b.effects.mutations, ts, s), ts, t, b.succeeded, StampAll(b.effects.responses, ts))
  {
    BuildTxnIsSerial(s, t, ts);
  }

  lemma {:induction false} LastEntry(log: seq<Decision>, d: Decision)
    ensures var all, n := log + [d], |log|;
            && all[n] == d && StoreOf(all[..n]) == StoreOf(log)
            && StoreOf(all[..n + 1]) == ApplyAll(d.mutations, d.ts, StoreOf(log))
  {
    assert (log + [d])[..|log|] == log;
    assert (log + [d])[..|log| + 1] == log + [d];
    StoreOfSnoc(log, d);
  }

  lemma EntryFromStep(log: seq<Decision>, i: nat, before: Store, after: Store, t: Txn, succeeded: bool,
                      responses: seq<ResponseOp>)
    requires i < |log| && StoreOf(log[..i]) == before && StoreOf(log[..i + 1]) == after
    requires SerialStep(before, after, log[i].ts, t, succeeded, responses)
    ensures SerialEntry(log, i, t, succeeded, responses)
  {
  }

  lemma {:induction false} SerialFromBuild(log: seq<Decision>, d: Decision, t: Txn, b: Built)
    requires OlderThan(StoreOf(log), d.ts) && BuildTxn(StoreOf(log), t) == Ok(b)
    requires d.mutations == b.effects.mutations
    ensures SerialEntry(log + [d], |log|, t, b.succeeded, StampAll(b.effects.responses, d.ts))
  {
    SerialStepFromBuild(StoreOf(log), d.ts, t, b);
    LastEntry(log, d);
    EntryFromStep(log + [d], |log|, StoreOf(log), ApplyAll(d.mutations, d.ts, StoreOf(log)), t, b.succeeded,
                  StampAll(b.effects.responses, d.ts));
  }

  /** The committed effects are those of the serial transaction at commit time. */
  lemma CommitIsSerial(s: Cluster, c: Call, k: Candidate, cfg: Config)
    requires Inv(s.seqr) && c.phase.Applying? && PhaseInv(c, s.seqr.log, s.fence)
    requires c.phase.next == |Branch(c.txn, c.phase.succeeded)|
    requires BoundedRanges(k) && Judge(s.seqr, k, cfg.limits).Committed?
    requires k.startTs == c.phase.startTs && k.mutations == c.phase.effects.mutations
    requires forall x :: Requested(c.phase.effects.recorded, x) ==> CandidateReads(k, x)
    ensures var d := Decision(k.txnId, k.commitTs, k.mutations);
            SerialEntry(s.seqr.log + [d], |s.seqr.log|, c.txn, c.phase.succeeded,
                        StampAll(c.phase.effects.responses, k.commitTs))
  {
    var snap, latest := Snapshot(s.seqr.log, c.phase.startTs), StoreOf(s.seqr.log);
    ApplyingDone(c.txn, snap, c.phase.succeeded, c.phase.next, c.phase.effects);
    ValidatedReadsAgree(s, c, k, cfg);
    ReadsAreFootprint(snap, latest, c.txn);
    LatestIsOlder(s.seqr, k.commitTs);
    SerialFromBuild(s.seqr.log, Decision(k.txnId, k.commitTs, k.mutations), c.txn,
                    Built(c.phase.succeeded, c.phase.effects));
  }

  ghost predicate OwnAppend(s: Cluster, s': Cluster, id: nat, d: Decision, o: Origin) {
    && id in s.calls && !s.calls[id].phase.Returned? && d.ts > s.fence
    && s'.seqr.log == s.seqr.log + [d] && s'.origins == s.origins + [o]
    && s'.fence == s.fence && o.FromCall? && o.id == id
    && id in s'.calls && s'.calls == s.calls[id := s'.calls[id]] && s'.calls[id].txn == s.calls[id].txn
    && (s'.calls[id].phase == Returned(Unknown)
        || s'.calls[id].phase == Returned(Done(o.succeeded, o.responses, d.ts)))
  }

  lemma AppendKeepsCalls(s: Cluster, s': Cluster, id: nat, d: Decision, o: Origin, x: nat)
    requires ClusterInv(s) && OwnAppend(s, s', id, d, o) && x in s'.calls
    ensures PhaseInv(s'.calls[x], s'.seqr.log, s'.fence) && ReplyInv(s', x)
  {
    if x == id {
      assert s'.origins[|s.origins|] == o && s'.seqr.log[|s.origins|] == d;
    } else {
      PhaseStable(s.calls[x], s.seqr.log, d, s.fence);
      ReplyAppend(s, s', x, d, o);
    }
  }

  lemma AppendKeepsOrigins(s: Cluster, s': Cluster, id: nat, d: Decision, o: Origin, i: nat)
    requires ClusterInv(s) && OwnAppend(s, s', id, d, o) && i < |s.origins|
    ensures s'.origins[i] == s.origins[i] && OriginInv(s', i)
    ensures s.origins[i].FromCall? ==> s.origins[i].id != id
  {
    assert OriginInv(s, i);
    var o' := s.origins[i];
    if o'.FromCall? {
      EntryStable(s.seqr.log, d, i, s.calls[o'.id].txn, o'.succeeded, o'.responses);
    }
  }

  lemma AppendAllOrigins(s: Cluster, s': Cluster, id: nat, d: Decision, o: Origin)
    requires ClusterInv(s) && OwnAppend(s, s', id, d, o)
    requires SerialEntry(s'.seqr.log, |s.seqr.log|, s.calls[id].txn, o.succeeded, o.responses)
    ensures forall i :: 0 <= i < |s'.origins| ==> OriginInv(s', i)
  {
    forall i | 0 <= i < |s'.origins| ensures OriginInv(s', i) {
      if i < |s.origins| {
        AppendKeepsOrigins(s, s', id, d, o, i);
      } else {
        OwnOrigin(s, s', id, d, o);
      }
    }
  }

  ghost predicate DistinctCalls(origins: seq<Origin>) {
    forall i, j :: 0 <= i < j < |origins| && origins[i].FromCall? && origins[j].FromCall? ==>
      origins[i].id != origins[j].id
  }

  lemma AppendDistinct(origins: seq<Origin>, o: Origin)
    requires DistinctCalls(origins) && o.FromCall?
    requires forall i :: 0 <= i < |origins| && origins[i].FromCall? ==> origins[i].id != o.id
    ensures DistinctCalls(origins + [o])
  {
  }

  /** What follows for the whole cluster once the new entry is known serial. */
  lemma AppendOwnEntry(s: Cluster, s': Cluster, id: nat, d: Decision, o: Origin)
    requires ClusterInv(s) && OwnAppend(s, s', id, d, o) && Inv(s'.seqr)
    requires SerialEntry(s'.seqr.log, |s.seqr.log|, s.calls[id].txn, o.succeeded, o.responses)
    ensures ClusterInv(s')
  {
    forall x | x in s'.calls ensures PhaseInv(s'.calls[x], s'.seqr.log, s'.fence) && ReplyInv(s', x) {
      AppendKeepsCalls(s, s', id, d, o, x);
    }
    AppendAllOrigins(s, s', id, d, o);
    forall i | 0 <= i < |s.origins| && s.origins[i].FromCall? ensures s.origins[i].id != o.id {
      AppendKeepsOrigins(s, s', id, d, o, i);
    }
    AppendDistinct(s.origins, o);
  }

  lemma OwnOrigin(s: Cluster, s': Cluster, id: nat, d: Decision, o: Origin)
    requires |s.origins| == |s.seqr.log| && OwnAppend(s, s', id, d, o)
    requires SerialEntry(s'.seqr.log, |s.seqr.log|, s.calls[id].txn, o.succeeded, o.responses)
    ensures OriginInv(s', |s.origins|)
  {
  }

  lemma CommittedShape(s: Cluster, a: Step, cfg: Config)
    requires a.Commit? && Enabled(s, a, cfg)
    requires var k := CandidateOf(s.calls[a.id], a.commitTs, a.empties, cfg);
             ValidMutations(k.mutations) && Judge(s.seqr, k, cfg.limits).Committed?
    ensures var c := s.calls[a.id];
            var k := CandidateOf(c, a.commitTs, a.empties, cfg);
            var s' := AfterCommit(s, a, cfg);
            var o := FromCall(a.id, c.phase.succeeded, StampAll(c.phase.effects.responses, k.commitTs));
            && OwnAppend(s, s', a.id, Decision(k.txnId, k.commitTs, k.mutations), o)
            && s'.seqr == After(s.seqr, k, cfg.limits)
  {
  }

  lemma NotCommittedShape(s: Cluster, a: Step, cfg: Config)
    requires a.Commit? && Enabled(s, a, cfg)
    requires var k := CandidateOf(s.calls[a.id], a.commitTs, a.empties, cfg);
             !(ValidMutations(k.mutations) && Judge(s.seqr, k, cfg.limits).Committed?)
    ensures var c, s' := s.calls[a.id], AfterCommit(s, a, cfg);
            && s'.seqr == s.seqr && s'.fence == s.fence && s'.origins == s.origins
            && a.id in s'.calls && s'.calls == s.calls[a.id := s'.calls[a.id]] && s'.calls[a.id].txn == c.txn
            && (s'.calls[a.id] == c.(phase := Returned(Rejected))
                || s'.calls[a.id] == c.(conflicts := c.conflicts + 1,
                                        phase := if c.conflicts < c.retries then Idle else Returned(Exhausted)))
  {
  }

  lemma CommittedKeeps(s: Cluster, a: Step, cfg: Config)
    requires ClusterInv(s) && a.Commit? && Enabled(s, a, cfg)
    requires var k := CandidateOf(s.calls[a.id], a.commitTs, a.empties, cfg);
             ValidMutations(k.mutations) && Judge(s.seqr, k, cfg.limits).Committed?
    ensures ClusterInv(AfterCommit(s, a, cfg))
  {
    var c := s.calls[a.id];
    var k := CandidateOf(c, a.commitTs, a.empties, cfg);
    var s' := AfterCommit(s, a, cfg);
    assert PhaseInv(c, s.seqr.log, s.fence);
    CandidateBounded(c, a.commitTs, a.empties, cfg);
    forall x | Requested(c.phase.effects.recorded, x) ensures CandidateReads(k, x) {
      CandidateCovers(c, a.commitTs, a.empties, cfg, x);
    }
    CommitIsSerial(s, c, k, cfg);
    AfterKeepsInv(s.seqr, k, cfg.limits);
    CommittedShape(s, a, cfg);
    AppendOwnEntry(s, s', a.id, Decision(k.txnId, k.commitTs, k.mutations),
                   FromCall(a.id, c.phase.succeeded, StampAll(c.phase.effects.responses, k.commitTs)));
  }

  lemma NotCommittedKeeps(s: Cluster, a: Step, cfg: Config)
    requires ClusterInv(s) && a.Commit? && Enabled(s, a, cfg)
    requires var k := CandidateOf(s.calls[a.id], a.commitTs, a.empties, cfg);
             !(ValidMutations(k.mutations) && Judge(s.seqr, k, cfg.limits).Committed?)
    ensures ClusterInv(AfterCommit(s, a, cfg))
  {
    assert ReplyInv(s, a.id);
    NotCommittedShape(s, a, cfg);
    OneCallChanges(s, AfterCommit(s, a, cfg), a.id);
  }

  lemma CommitKeeps(s: Cluster, a: Step, cfg: Config)
    requires ClusterInv(s) && a.Commit? && Enabled(s, a, cfg)
    ensures ClusterInv(AfterCommit(s, a, cfg))
  {
    var k := CandidateOf(s.calls[a.id], a.commitTs, a.empties, cfg);
    if ValidMutations(k.mutations) && Judge(s.seqr, k, cfg.limits).Committed? {
      CommittedKeeps(s, a, cfg);
    } else {
      NotCommittedKeeps(s, a, cfg);
    }
  }

  // ----- Whole runs -----

  /** A new call and a rising fence touch nothing else. */
  lemma StartKeeps(s: Cluster, a: Step, cfg: Config)
    requires ClusterInv(s) && Enabled(s, a, cfg) && (a.StartCall? || a.PublishFence?)
    ensures ClusterInv(Next(s, a, cfg))
  {
    var s' := Next(s, a, cfg);
    forall x | x in s'.calls ensures PhaseInv(s'.calls[x], s'.seqr.log, s'.fence) && ReplyInv(s', x) {
      if x in s.calls {
        assert ReplyInv(s, x);
      }
    }
    forall i | 0 <= i < |s'.origins| ensures OriginInv(s', i) {
      assert OriginInv(s, i);
    }
  }

  lemma NextKeeps(s: Cluster, a: Step, cfg: Config)
    requires ClusterInv(s) && Enabled(s, a, cfg)
    ensures ClusterInv(Next(s, a, cfg))
  {
    match a
    case StartCall(_, _, _) => StartKeeps(s, a, cfg);
    case Begin(id, _, startTs) =>
      assert ReplyInv(s, id);
      assert PointReads([]) == [];
      OneCallChanges(s, Next(s, a, cfg), id);
    case ReadCompare(id) => ReadCompareKeeps(s, id, cfg);
    case Decide(id) => DecideKeeps(s, id, cfg);
    case RunOp(id) => RunOpKeeps(s, id, cfg);
    case Commit(_, _, _, _) => CommitKeeps(s, a, cfg);
    case Fail(id) =>
      assert ReplyInv(s, id);
      OneCallChanges(s, Next(s, a, cfg), id);
    case PublishFence(_) => StartKeeps(s, a, cfg);
    case ForeignCommit(c) => ForeignKeeps(s, c, cfg);
  }

  lemma {:induction false} RunInv(run: seq<Step>, cfg: Config)
    requires Run(run, cfg).Some?
    ensures ClusterInv(Run(run, cfg).value)
  {
    if run != [] {
      var n := |run| - 1;
      RunInv(run[..n], cfg);
      NextKeeps(Run(run[..n], cfg).value, run[n], cfg);
    }
  }

  // ----- The theorems -----

  /** The first `n` committed transactions executed serially: v1 transactions by
      their original request, other writers by their mutations. */
  ghost function SerialStore(s: Cluster, n: nat): Store
    requires n <= |s.origins| == |s.seqr.log|
  {
    if n == 0 then map[]
    else
      var before := SerialStore(s, n - 1);
      var o, d := s.origins[n - 1], s.seqr.log[n - 1];
      if o.Foreign? then ApplyAll(d.mutations, d.ts, before)
      else if o.id in s.calls && WellFormedOps(Chosen(before, s.calls[o.id].txn)) then
        RunTxn(before, s.calls[o.id].txn, d.ts).store
      else before
  }

  lemma {:induction false} SerialStoreStep(s: Cluster, n: nat)
    requires n < |s.origins| == |s.seqr.log| && OriginInv(s, n)
    requires SerialStore(s, n) == StoreOf(s.seqr.log[..n])
    ensures SerialStore(s, n + 1) == StoreOf(s.seqr.log[..n + 1])
  {
    var log, o := s.seqr.log, s.origins[n];
    if o.FromCall? {
      assert SerialStep(StoreOf(log[..n]), StoreOf(log[..n + 1]), log[n].ts, s.calls[o.id].txn, o.succeeded,
                        o.responses);
    } else {
      assert log[..n + 1] == log[..n] + [log[n]];
      StoreOfSnoc(log[..n], log[n]);
    }
  }

  lemma {:induction false} SerialStoreIsLog(s: Cluster, n: nat)
    requires ClusterInv(s) && n <= |s.origins|
    ensures SerialStore(s, n) == StoreOf(s.seqr.log[..n])
  {
    if n > 0 {
      SerialStoreIsLog(s, n - 1);
      assert OriginInv(s, n - 1);
      SerialStoreStep(s, n - 1);
    }
  }

  /** Entry `i`, when it comes from a v1 transaction, is the serial execution of
      that transaction on the serial store before it, which its compares lead to
      an executable branch. */
  ghost predicate SerialAt(s: Cluster, i: nat)
    requires i < |s.origins| == |s.seqr.log|
  {
    s.origins[i].FromCall? ==>
      var o := s.origins[i];
      && o.id in s.calls
      && SerialStep(SerialStore(s, i), SerialStore(s, i + 1), s.seqr.log[i].ts, s.calls[o.id].txn, o.succeeded,
                    o.responses)
  }

  /** Every committed v1 transaction has the branch and the responses it would
      have had in the serial execution, whose final store is the cluster's. */
  lemma {:induction false} Serializable(run: seq<Step>, cfg: Config)
    requires Run(run, cfg).Some?
    ensures var s := Run(run, cfg).value;
            && |s.origins| == |s.seqr.log|
            && SerialStore(s, |s.origins|) == StoreOf(s.seqr.log)
            && (forall i, j :: 0 <= i < j < |s.seqr.log| ==> s.seqr.log[i].ts < s.seqr.log[j].ts)
            && forall i :: 0 <= i < |s.origins| ==> SerialAt(s, i)
  {
    RunInv(run, cfg);
    var s := Run(run, cfg).value;
    SerialStoreIsLog(s, |s.origins|);
    assert s.seqr.log[..|s.origins|] == s.seqr.log;
    LogIncreases(s.seqr);
    forall i | 0 <= i < |s.origins| ensures SerialAt(s, i) {
      SerialAtEach(s, i);
    }
  }

  lemma {:induction false} SerialAtEach(s: Cluster, i: nat)
    requires ClusterInv(s) && i < |s.origins|
    ensures SerialAt(s, i)
  {
    SerialStoreIsLog(s, i);
    SerialStoreIsLog(s, i + 1);
    assert OriginInv(s, i);
  }

  lemma LogIncreases(s: State)
    requires Inv(s)
    ensures forall i, j :: 0 <= i < j < |s.log| ==> s.log[i].ts < s.log[j].ts
  {
  }

  /** Entries of the log that belong to a call. */
  ghost function EntriesOf(s: Cluster, id: nat): set<int> {
    set i | 0 <= i < |s.origins| && s.origins[i].FromCall? && s.origins[i].id == id
  }

  /** A call decides at most once. A successful reply names its one entry; a call
      that was rejected, gave up or is still running left no trace; giving up takes
      one more conflict than the allowed reruns. */
  lemma {:induction false} RepliesAreHonest(run: seq<Step>, cfg: Config, id: nat)
    requires Run(run, cfg).Some? && id in Run(run, cfg).value.calls
    ensures var s := Run(run, cfg).value;
            var c := s.calls[id];
            && |s.origins| == |s.seqr.log|
            && (forall i, j :: i in EntriesOf(s, id) && j in EntriesOf(s, id) ==> i == j)
            && (c.phase.Returned? && c.phase.reply.Done? ==>
                  exists i :: i in EntriesOf(s, id) && s.seqr.log[i].ts == c.phase.reply.revision
                              && s.origins[i].succeeded == c.phase.reply.succeeded
                              && s.origins[i].responses == c.phase.reply.responses)
            && (!c.phase.Returned? || c.phase.reply.Rejected? || c.phase.reply.Exhausted? ==> EntriesOf(s, id) == {})
            && (c.phase == Returned(Exhausted) ==> c.conflicts == c.retries + 1)
  {
    RunInv(run, cfg);
    var s := Run(run, cfg).value;
    var c := s.calls[id];
    assert ReplyInv(s, id);
    if c.phase.Returned? && c.phase.reply.Done? {
      var i :| 0 <= i < |s.origins| && s.seqr.log[i].ts == c.phase.reply.revision
               && s.origins[i] == FromCall(id, c.phase.reply.succeeded, c.phase.reply.responses);
      assert i in EntriesOf(s, id);
    }
    forall i | i in EntriesOf(s, id)
      ensures c.phase == Returned(Unknown) || (c.phase.Returned? && c.phase.reply.Done?)
    {
      assert OriginInv(s, i);
    }
  }

  /** Nothing beyond the recorded reads is handed to the sequencer. */
  lemma CandidateReadsRequested(c: Call, commitTs: nat, empties: seq<Interval>, cfg: Config, k: Key)
    requires c.phase.Applying? && ReadSetOf(c.phase.effects.recorded, cfg).Added?
    requires (set e | e in empties) == ReadSetOf(c.phase.effects.recorded, cfg).set'.emptyRanges
    requires CandidateReads(CandidateOf(c, commitTs, empties, cfg), k)
    ensures Requested(c.phase.effects.recorded, k)
  {
    var recorded := c.phase.effects.recorded;
    var rs := ReadSetOf(recorded, cfg).set';
    RecordAllRepresents(recorded, cfg.maxReadSet);
    forall i | 0 <= i < |empties| ensures !In(empties[i], k) {
      assert empties[i] in (set e | e in empties);
      EmptyCoversNothing(empties[i], k);
    }
    RepresentsCoverage(rs, recorded, k);
    if k !in rs.points {
      var all := rs.ranges + empties;
      var i :| 0 <= i < |all| && In(all[i], k);
      assert i < |rs.ranges| && all[i] == rs.ranges[i];
    }
  }

  /** A conflict verdict is never spurious: some key the attempt read was written
      after its snapshot. */
  lemma {:induction false} ConflictHasRival(run: seq<Step>, cfg: Config, a: Step)
    requires Run(run, cfg).Some? && a.Commit? && Enabled(Run(run, cfg).value, a, cfg)
    requires var s := Run(run, cfg).value;
             Judge(s.seqr, CandidateOf(s.calls[a.id], a.commitTs, a.empties, cfg), cfg.limits) == Conflict
    ensures var s := Run(run, cfg).value;
            var p := s.calls[a.id].phase;
            exists k :: Requested(p.effects.recorded, k) && WrittenAfter(s.seqr.log, p.startTs, k)
  {
    RunInv(run, cfg);
    var s := Run(run, cfg).value;
    var c := s.calls[a.id];
    var x := CandidateOf(c, a.commitTs, a.empties, cfg);
    assert PhaseInv(c, s.seqr.log, s.fence);
    CandidateBounded(c, a.commitTs, a.empties, cfg);
    ConflictIsReal(s.seqr, x, cfg.limits);
    var k :| CandidateReads(x, k) && WrittenAfter(s.seqr.log, x.startTs, k);
    CandidateReadsRequested(c, a.commitTs, a.empties, cfg, k);
  }
}
