/** Any number of clients running translated transactions, one RPC at a time,
    against the sequencer; every run is serializable in commit order. */
module Cluster {
  import opened Bytes
  import opened Kv
  import opened V1Txn
  import opened V2Compat
  import opened ReadSets
  import opened Sequencer
  import opened Mvcc

  datatype Reply =
    | Done(succeeded: bool, responses: seq<ResponseOp>, revision: nat)
    | Exhausted            // kept conflicting after the configured retries
    | Rejected             // refused without a decision
    | Unknown              // transport failure; a decision may or may not exist

  datatype Phase =
    | Idle
    | Comparing(startTs: nat, got: map<Key, KeyValue>, recorded: seq<ReadIntent>)
    | Applying(startTs: nat, succeeded: bool, next: nat, effects: Effects)
    | Returned(reply: Reply)

  /** One `txn` call: `conflicts` attempts failed so far, at most `retries` reruns. */
  datatype Call = Call(txn: Txn, retries: nat, conflicts: nat, session: Key, phase: Phase)

  datatype Origin = Foreign | FromCall(id: nat, succeeded: bool, responses: seq<ResponseOp>)

  datatype Config = Config(maxReadSet: nat, limits: Limits)

  /** `fence`: the published safe timestamp; snapshots are taken at or below it
      and commit timestamps are allocated above it. */
  datatype Cluster = Cluster(seqr: State, fence: nat, calls: map<nat, Call>, origins: seq<Origin>,
                             sessions: set<Key>)

  const START := Cluster(INITIAL, 0, map[], [], {})

  datatype Step =
    | StartCall(id: nat, txn: Txn, retries: nat)
    | Begin(id: nat, session: Key, startTs: nat)
    | ReadCompare(id: nat)
    | Decide(id: nat)
    | RunOp(id: nat)
    | Commit(id: nat, commitTs: nat, empties: seq<Interval>, lost: bool)
    | Fail(id: nat)
    | PublishFence(ts: nat)
    | ForeignCommit(c: Candidate)

  function CompareOrder(t: Txn): seq<Key> {
    Enumerate(CompareKeys(t.compares))
  }

  function ReadSetOf(recorded: seq<ReadIntent>, cfg: Config): Added {
    RecordAll(recorded, cfg.maxReadSet)
  }

  function CandidateOf(c: Call, commitTs: nat, empties: seq<Interval>, cfg: Config): Candidate
    requires c.phase.Applying? && ReadSetOf(c.phase.effects.recorded, cfg).Added?
  {
    var rs := ReadSetOf(c.phase.effects.recorded, cfg).set';
    Candidate(c.session, c.phase.startTs, commitTs, rs.points, rs.ranges + empties, c.phase.effects.mutations)
  }

  predicate Enabled(s: Cluster, a: Step, cfg: Config) {
    match a
    case StartCall(id, _, _) => id !in s.calls
    case Begin(id, session, startTs) =>
      id in s.calls && s.calls[id].phase == Idle && startTs <= s.fence
      && session != [] && session !in s.sessions
    case ReadCompare(id) =>
      && id in s.calls && s.calls[id].phase.Comparing?
      && |s.calls[id].phase.recorded| < |CompareOrder(s.calls[id].txn)|
    case Decide(id) =>
      && id in s.calls && s.calls[id].phase.Comparing?
      && |s.calls[id].phase.recorded| == |CompareOrder(s.calls[id].txn)|
    case RunOp(id) =>
      && id in s.calls && s.calls[id].phase.Applying?
      && s.calls[id].phase.next < |Branch(s.calls[id].txn, s.calls[id].phase.succeeded)|
    case Commit(id, commitTs, empties, _) =>
      && id in s.calls && s.calls[id].phase.Applying?
      && s.calls[id].phase.next == |Branch(s.calls[id].txn, s.calls[id].phase.succeeded)|
      && commitTs > s.fence
      && ReadSetOf(s.calls[id].phase.effects.recorded, cfg).Added?
      && (set e | e in empties) == ReadSetOf(s.calls[id].phase.effects.recorded, cfg).set'.emptyRanges
    case Fail(id) => id in s.calls && !s.calls[id].phase.Returned?
    case PublishFence(ts) => ts >= s.fence
    case ForeignCommit(c) => c.commitTs > s.fence && ValidMutations(c.mutations) && c.txnId !in s.sessions
  }

  function SetPhase(s: Cluster, id: nat, p: Phase): Cluster
    requires id in s.calls
  {
    s.(calls := s.calls[id := s.calls[id].(phase := p)])
  }

  function Return(s: Cluster, id: nat, r: Reply): Cluster
    requires id in s.calls
  {
    SetPhase(s, id, Returned(r))
  }

  function AfterReadCompare(s: Cluster, id: nat, cfg: Config): Cluster
    requires Enabled(s, ReadCompare(id), cfg)
  {
    var c := s.calls[id];
    var n := |c.phase.recorded|;
    var key := CompareOrder(c.txn)[n];
    var recorded := c.phase.recorded + [Point(key)];
    var row := VisibleAt(Snapshot(s.seqr.log, c.phase.startTs), key);
    if ReadSetOf(recorded, cfg).LimitReached? then Return(s, id, Rejected)
    else SetPhase(s, id, Comparing(c.phase.startTs,
                                   if row.Some? then c.phase.got[key := row.value] else c.phase.got,
                                   recorded))
  }

  function AfterDecide(s: Cluster, id: nat, cfg: Config): Cluster
    requires Enabled(s, Decide(id), cfg)
  {
    var c := s.calls[id];
    match EvalCompares(k => Lookup(c.phase.got, k), c.txn.compares)
    case Fatal(_) => Return(s, id, Rejected)
    case Ok(succeeded) =>
      SetPhase(s, id, Applying(c.phase.startTs, succeeded, 0, Effects([], [], c.phase.recorded)))
  }

  function AfterRunOp(s: Cluster, id: nat, cfg: Config): Cluster
    requires Enabled(s, RunOp(id), cfg)
  {
    var c := s.calls[id];
    var p := c.phase;
    var op := Branch(c.txn, p.succeeded)[p.next];
    if !WellFormedOp(op) then Return(s, id, Rejected)
    else
      var e := Effects(p.effects.mutations + MutationOf(op),
                       p.effects.responses + [OpResponse(Snapshot(s.seqr.log, p.startTs), p.effects.mutations, op)],
                       p.effects.recorded + OpReads(op));
      if ReadSetOf(e.recorded, cfg).LimitReached? then Return(s, id, Rejected)
      else SetPhase(s, id, p.(next := p.next + 1, effects := e))
  }

  function AfterCommit(s: Cluster, a: Step, cfg: Config): Cluster
    requires a.Commit? && Enabled(s, a, cfg)
  {
    var c := s.calls[a.id];
    var k := CandidateOf(c, a.commitTs, a.empties, cfg);
    if !ValidMutations(k.mutations) then Return(s, a.id, Rejected)
    else match Judge(s.seqr, k, cfg.limits)
      case Committed(ts) =>
        var responses := StampAll(c.phase.effects.responses, ts);
        var reply := if a.lost then Unknown else Done(c.phase.succeeded, responses, ts);
        Return(s, a.id, reply).(seqr := After(s.seqr, k, cfg.limits),
                                origins := s.origins + [FromCall(a.id, c.phase.succeeded, responses)])
      case Conflict =>
        var c' := c.(conflicts := c.conflicts + 1,
                     phase := if c.conflicts < c.retries then Idle else Returned(Exhausted));
        s.(calls := s.calls[a.id := c'])
      case _ => Return(s, a.id, Rejected)
  }

  function Next(s: Cluster, a: Step, cfg: Config): Cluster
    requires Enabled(s, a, cfg)
  {
    match a
    case StartCall(id, txn, retries) => s.(calls := s.calls[id := Call(txn, retries, 0, [], Idle)])
    case Begin(id, session, startTs) =>
      s.(calls := s.calls[id := s.calls[id].(session := session, phase := Comparing(startTs, map[], []))],
         sessions := s.sessions + {session})
    case ReadCompare(id) => AfterReadCompare(s, id, cfg)
    case Decide(id) => AfterDecide(s, id, cfg)
    case RunOp(id) => AfterRunOp(s, id, cfg)
    case Commit(_, _, _, _) => AfterCommit(s, a, cfg)
    case Fail(id) => Return(s, id, Unknown)
    case PublishFence(ts) => s.(fence := ts)
    case ForeignCommit(c) =>
      if Judge(s.seqr, c, cfg.limits).Committed? then
        s.(seqr := After(s.seqr, c, cfg.limits), origins := s.origins + [Foreign])
      else s
  }

  /** The state after a sequence of steps, if each is enabled in turn. */
  function Run(run: seq<Step>, cfg: Config): Option<Cluster> {
    if run == [] then Some(START)
    else
      match Run(run[..|run| - 1], cfg)
      case None => None
      case Some(s) => if Enabled(s, run[|run| - 1], cfg) then Some(Next(s, run[|run| - 1], cfg)) else None
  }
}
