/** Read-your-writes across the clones of one client: a shared floor under every
    latest-revision read, and a shared routing epoch, beside a running cluster. */
module ReadFloor {
  import opened Bytes
  import opened Numbers
  import opened Sequencer
  import opened Mvcc
  import C = Cluster
  import S = Serializability

  // ----- What the clones share -----

  datatype Shared = Shared(readFloor: nat, routingEpoch: nat)

  function Observe(s: Shared, ts: nat): Shared {
    s.(readFloor := Max(s.readFloor, ts))
  }

  /** Only an `EPOCH_STALE` status with a readable trailer teaches an epoch. */
  function Learn(s: Shared, epochStale: bool, version: Option<nat>): Shared {
    if epochStale && version.Some? then s.(routingEpoch := Max(s.routingEpoch, version.value)) else s
  }

  /** The timestamp a range asks for; None is `InvalidArgument`. */
  function ReadTs(s: Shared, revision: int): Option<nat> {
    if revision == 0 then Some(s.readFloor)
    else if revision > 0 then Some(revision)
    else None
  }

  /** The timestamp the server reads at: its own safe one when none was asked for. */
  function Resolve(requested: nat, safeTs: nat): nat {
    if requested == 0 then safeTs else requested
  }

  class Client {
    var readFloor: nat
    var routingEpoch: nat

    constructor ()
      ensures Contents() == Shared(0, 0)
    {
      readFloor, routingEpoch := 0, 0;
    }

    ghost function Contents(): Shared
      reads this
    {
      Shared(readFloor, routingEpoch)
    }

    method ObserveCommitTs(ts: nat)
      modifies this
      ensures Contents() == Observe(old(Contents()), ts)
    {
      readFloor := Max(readFloor, ts);
    }

    method LearnRoutingEpoch(epochStale: bool, version: Option<nat>)
      modifies this
      ensures Contents() == Learn(old(Contents()), epochStale, version)
    {
      if !epochStale || version.None? {
        return;
      }
      routingEpoch := Max(routingEpoch, version.value);
    }

    method RangeReadTs(revision: int) returns (ts: Option<nat>)
      ensures ts == ReadTs(Contents(), revision)
    {
      if revision == 0 {
        return Some(readFloor);
      }
      return if revision > 0 then Some(revision) else None;
    }
  }

  // ----- The clones beside the cluster -----

  /** In the order of the atomic updates. `AckTxn`: a clone got the answer of a
      translated transaction; `AckWrite`: of a blind write, which is one of the
      other commits of the cluster. `Ask`: a clone issues a range, loading the floor
      into the request. `Serve`: a node whose safe timestamp is `safeTs` serves that
      request, having waited for the timestamp it asks for. */
  datatype Event =
    | Server(step: C.Step)
    | AckTxn(id: nat)
    | AckWrite(entry: nat)
    | Refused(epochStale: bool, version: Option<nat>)
    | Ask(range: nat, revision: int)
    | Serve(range: nat, safeTs: nat)

  /** A range on its way: the timestamp it asks for, and the commits that had been
      acknowledged when it was issued. */
  datatype Asked = Asked(revision: int, requested: nat, acked: set<nat>)

  /** `acked` and `taught`: every commit acknowledged and every epoch taught so far. */
  datatype World = World(cluster: C.Cluster, shared: Shared, acked: set<nat>, taught: set<nat>,
                         ranges: map<nat, Asked>)

  const START := World(C.START, Shared(0, 0), {}, {}, map[])

  predicate Enabled(w: World, e: Event, cfg: C.Config) {
    match e
    case Server(a) => C.Enabled(w.cluster, a, cfg)
    case AckTxn(id) =>
      id in w.cluster.calls && w.cluster.calls[id].phase.Returned? && w.cluster.calls[id].phase.reply.Done?
    case AckWrite(i) => i < |w.cluster.seqr.log| && i < |w.cluster.origins| && w.cluster.origins[i].Foreign?
    case Refused(_, _) => true
    case Ask(range, revision) => range !in w.ranges && ReadTs(w.shared, revision).Some?
    case Serve(range, safeTs) =>
      range in w.ranges && Resolve(w.ranges[range].requested, safeTs) <= safeTs <= w.cluster.fence
  }

  function Acknowledge(w: World, ts: nat): World {
    w.(shared := Observe(w.shared, ts), acked := w.acked + {ts})
  }

  function Next(w: World, e: Event, cfg: C.Config): World
    requires Enabled(w, e, cfg)
  {
    match e
    case Server(a) => w.(cluster := C.Next(w.cluster, a, cfg))
    case AckTxn(id) => Acknowledge(w, w.cluster.calls[id].phase.reply.revision)
    case AckWrite(i) => Acknowledge(w, w.cluster.seqr.log[i].ts)
    case Refused(stale, version) =>
      w.(shared := Learn(w.shared, stale, version),
         taught := if stale && version.Some? then w.taught + {version.value} else w.taught)
    case Ask(range, revision) =>
      w.(ranges := w.ranges[range := Asked(revision, ReadTs(w.shared, revision).value, w.acked)])
    case Serve(_, _) => w
  }

  function RunFrom(w: World, events: seq<Event>, cfg: C.Config): Option<World> {
    if events == [] then Some(w)
    else
      var n := |events| - 1;
      match RunFrom(w, events[..n], cfg)
      case None => None
      case Some(v) => if Enabled(v, events[n], cfg) then Some(Next(v, events[n], cfg)) else None
  }

  // ----- The shared values are maxima -----

  ghost predicate Logged(log: seq<Decision>, ts: nat) {
    exists i :: 0 <= i < |log| && log[i].ts == ts
  }

  ghost predicate WorldInv(w: World) {
    && S.ClusterInv(w.cluster)
    && (forall ts :: ts in w.acked ==> Logged(w.cluster.seqr.log, ts) && ts <= w.shared.readFloor)
    && (w.shared.readFloor == 0 || w.shared.readFloor in w.acked)
    && (forall v :: v in w.taught ==> v <= w.shared.routingEpoch)
    && (w.shared.routingEpoch == 0 || w.shared.routingEpoch in w.taught)
    && (forall r :: r in w.ranges ==> AskedInv(w, w.ranges[r]))
  }

  /** A latest-revision range asks for no less than what was acknowledged by then. */
  ghost predicate AskedInv(w: World, a: Asked) {
    && a.acked <= w.acked
    && (a.revision == 0 ==> forall ts :: ts in a.acked ==> ts <= a.requested)
  }

  /** A step of the cluster appends at most one decision, above the fence, which
      never goes back. */
  lemma StepAppends(s: C.Cluster, a: C.Step, cfg: C.Config)
    requires C.Enabled(s, a, cfg)
    ensures var s' := C.Next(s, a, cfg);
            && s'.fence >= s.fence
            && (s'.seqr.log == s.seqr.log
                || exists d: Decision :: d.ts > s.fence && s'.seqr.log == s.seqr.log + [d])
  {
    match a
    case Commit(id, commitTs, empties, _) =>
      var k := C.CandidateOf(s.calls[id], commitTs, empties, cfg);
      var d := Decision(k.txnId, k.commitTs, k.mutations);
      assert C.Next(s, a, cfg).seqr.log == s.seqr.log || C.Next(s, a, cfg).seqr.log == s.seqr.log + [d];
    case ForeignCommit(c) =>
      var d := Decision(c.txnId, c.commitTs, c.mutations);
      assert C.Next(s, a, cfg).seqr.log == s.seqr.log || C.Next(s, a, cfg).seqr.log == s.seqr.log + [d];
    case _ =>
  }

  lemma LoggedGrows(log: seq<Decision>, more: seq<Decision>, ts: nat)
    requires Logged(log, ts)
    ensures Logged(log + more, ts)
  {
    var i :| 0 <= i < |log| && log[i].ts == ts;
    assert (log + more)[i].ts == ts;
  }

  lemma ServerKeeps(w: World, a: C.Step, cfg: C.Config)
    requires WorldInv(w) && C.Enabled(w.cluster, a, cfg)
    ensures WorldInv(Next(w, Server(a), cfg))
  {
    S.NextKeeps(w.cluster, a, cfg);
    StepAppends(w.cluster, a, cfg);
    var w' := Next(w, Server(a), cfg);
    forall r | r in w'.ranges ensures AskedInv(w', w'.ranges[r]) { assert AskedInv(w, w.ranges[r]); }
    var log, log' := w.cluster.seqr.log, C.Next(w.cluster, a, cfg).seqr.log;
    forall ts | ts in w.acked ensures Logged(log', ts) {
      if log' != log {
        var d: Decision :| log' == log + [d];
        LoggedGrows(log, [d], ts);
      }
    }
  }

  lemma AckKeeps(w: World, e: Event, cfg: C.Config)
    requires WorldInv(w) && Enabled(w, e, cfg) && (e.AckTxn? || e.AckWrite?)
    ensures WorldInv(Next(w, e, cfg))
  {
    var w' := Next(w, e, cfg);
    forall r | r in w'.ranges ensures AskedInv(w', w'.ranges[r]) { assert AskedInv(w, w.ranges[r]); }
    if e.AckTxn? {
      assert S.ReplyInv(w.cluster, e.id);
    }
  }

  lemma AskKeeps(w: World, e: Event, cfg: C.Config)
    requires WorldInv(w) && Enabled(w, e, cfg) && (e.Ask? || e.Serve? || e.Refused?)
    ensures WorldInv(Next(w, e, cfg))
  {
    var w' := Next(w, e, cfg);
    forall r | r in w'.ranges ensures AskedInv(w', w'.ranges[r]) {
      assert r in w.ranges ==> AskedInv(w, w.ranges[r]);
    }
  }

  lemma {:induction false} RunInv(events: seq<Event>, cfg: C.Config)
    requires RunFrom(START, events, cfg).Some?
    ensures WorldInv(RunFrom(START, events, cfg).value)
  {
    if events == [] {
      S.RunInv([], cfg);
    } else {
      var n := |events| - 1;
      RunInv(events[..n], cfg);
      var w, e := RunFrom(START, events[..n], cfg).value, events[n];
      match e
      case Server(a) => ServerKeeps(w, a, cfg);
      case AckTxn(_) => AckKeeps(w, e, cfg);
      case AckWrite(_) => AckKeeps(w, e, cfg);
      case _ => AskKeeps(w, e, cfg);
    }
  }

  /** In every run the floor is the largest acknowledged commit and the epoch the
      largest one taught; each is zero when there was none. */
  lemma {:induction false} SharedAreMaxima(events: seq<Event>, cfg: C.Config)
    requires RunFrom(START, events, cfg).Some?
    ensures var w := RunFrom(START, events, cfg).value;
            && (forall ts :: ts in w.acked ==> ts <= w.shared.readFloor)
            && (w.shared.readFloor == 0 || w.shared.readFloor in w.acked)
            && (forall v :: v in w.taught ==> v <= w.shared.routingEpoch)
            && (w.shared.routingEpoch == 0 || w.shared.routingEpoch in w.taught)
  {
    RunInv(events, cfg);
  }

  lemma {:induction false} SharedNeverDecrease(w: World, events: seq<Event>, cfg: C.Config)
    requires RunFrom(w, events, cfg).Some?
    ensures var v := RunFrom(w, events, cfg).value;
            && w.shared.readFloor <= v.shared.readFloor && w.shared.routingEpoch <= v.shared.routingEpoch
            && w.cluster.fence <= v.cluster.fence && w.acked <= v.acked
            && (forall r :: r in w.ranges ==> r in v.ranges && v.ranges[r] == w.ranges[r])
  {
    if events != [] {
      var n := |events| - 1;
      SharedNeverDecrease(w, events[..n], cfg);
      if events[n].Server? {
        StepAppends(RunFrom(w, events[..n], cfg).value.cluster, events[n].step, cfg);
      }
    }
  }

  // ----- What a read at the floor sees -----

  /** How many decisions a read at `ts` sees. */
  function Seen(log: seq<Decision>, ts: nat): nat {
    if log == [] then 0
    else if log[|log| - 1].ts <= ts then |log|
    else Seen(log[..|log| - 1], ts)
  }

  /** A snapshot is the store after a prefix of the log: the decisions up to `ts`. */
  lemma {:induction false} SnapshotIsPrefix(log: seq<Decision>, ts: nat)
    requires IncreasingLog(log)
    ensures Seen(log, ts) <= |log|
    ensures Snapshot(log, ts) == StoreOf(log[..Seen(log, ts)])
    ensures forall i :: 0 <= i < |log| ==> (log[i].ts <= ts <==> i < Seen(log, ts))
  {
    if log != [] {
      var n := |log| - 1;
      if log[n].ts <= ts {
        assert log[..|log|] == log;
        SnapshotComplete(log, ts);
      } else {
        SnapshotIsPrefix(log[..n], ts);
        assert log[..n][..Seen(log, ts)] == log[..Seen(log, ts)];
        forall i | 0 <= i < |log| ensures log[i].ts <= ts <==> i < Seen(log, ts) {
          assert i < n ==> log[..n][i] == log[i];
        }
      }
    }
  }

  /** Whenever a latest-revision range of any clone is served, the timestamp the
      server reads at is at least every commit that had been acknowledged to any
      clone when the range was issued, and what it reads is the store after a prefix
      of the decisions that holds them all. */
  lemma {:induction false} ReadYourWrites(events: seq<Event>, cfg: C.Config, range: nat, safeTs: nat)
    requires RunFrom(START, events, cfg).Some? && Enabled(RunFrom(START, events, cfg).value, Serve(range, safeTs), cfg)
    requires RunFrom(START, events, cfg).value.ranges[range].revision == 0
    ensures var w := RunFrom(START, events, cfg).value;
            var a, log := w.ranges[range], w.cluster.seqr.log;
            var ts := Resolve(a.requested, safeTs);
            && Seen(log, ts) <= |log|
            && Snapshot(log, ts) == StoreOf(log[..Seen(log, ts)])
            && (forall t :: t in a.acked ==> t <= ts && Logged(log, t))
            && (forall i :: 0 <= i < |log| && log[i].ts in a.acked ==> i < Seen(log, ts))
  {
    RunInv(events, cfg);
    var w := RunFrom(START, events, cfg).value;
    assert AskedInv(w, w.ranges[range]);
    LogIsIncreasing(w.cluster);
    SnapshotIsPrefix(w.cluster.seqr.log, Resolve(w.ranges[range].requested, safeTs));
  }

  /** What a range asks for is settled when it is issued: the commits acknowledged
      then, all of them, and no later acknowledgement changes the request. */
  lemma {:induction false} AskSettles(events: seq<Event>, more: seq<Event>, cfg: C.Config, range: nat)
    requires RunFrom(START, events, cfg).Some? && Enabled(RunFrom(START, events, cfg).value, Ask(range, 0), cfg)
    requires RunFrom(Next(RunFrom(START, events, cfg).value, Ask(range, 0), cfg), more, cfg).Some?
    ensures var w := RunFrom(START, events, cfg).value;
            var v := RunFrom(Next(w, Ask(range, 0), cfg), more, cfg).value;
            range in v.ranges && v.ranges[range] == Asked(0, w.shared.readFloor, w.acked)
  {
    var w := RunFrom(START, events, cfg).value;
    SharedNeverDecrease(Next(w, Ask(range, 0), cfg), more, cfg);
  }

  lemma LogIsIncreasing(s: C.Cluster)
    requires S.ClusterInv(s)
    ensures IncreasingLog(s.seqr.log)
  {
    S.LogIncreases(s.seqr);
  }

  /** What is read at or below the fence is settled: no later step changes it. */
  lemma {:induction false} ServedIsSettled(w: World, more: seq<Event>, cfg: C.Config, ts: nat)
    requires RunFrom(w, more, cfg).Some? && ts <= w.cluster.fence
    ensures Snapshot(RunFrom(w, more, cfg).value.cluster.seqr.log, ts) == Snapshot(w.cluster.seqr.log, ts)
  {
    if more != [] {
      var n := |more| - 1;
      ServedIsSettled(w, more[..n], cfg, ts);
      SharedNeverDecrease(w, more[..n], cfg);
      var v := RunFrom(w, more[..n], cfg).value;
      if more[n].Server? {
        StepAppends(v.cluster, more[n].step, cfg);
        var log' := C.Next(v.cluster, more[n].step, cfg).seqr.log;
        if log' != v.cluster.seqr.log {
          var d: Decision :| d.ts > v.cluster.fence && log' == v.cluster.seqr.log + [d];
          SnapshotStable(v.cluster.seqr.log, d, ts);
        }
      }
    }
  }
}
