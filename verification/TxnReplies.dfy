/** What a call answers, told from the steps of the run alone: conflicts are rerun
    until the budget is spent, and nothing is refused without a cause. */
module TxnReplies {
  import opened Bytes
  import opened Kv
  import opened V1Txn
  import opened V2Compat
  import opened TxnEquivalence
  import opened ReadSets
  import opened Sequencer
  import opened Mvcc
  import opened Cluster
  import opened Serializability
  import opened CompatCalls

  // ----- What a step does to a call -----

  datatype Event =
    | Conflicted        // a commit was judged a conflict
    | Refused           // the request, its size or the verdict forbids it
    | Acknowledged      // the commit was decided and its reply arrived
    | Lost              // the transport failed, before the decision or after it

  predicate TooManyReads(recorded: seq<ReadIntent>, cfg: Config) {
    ReadSetOf(recorded, cfg).LimitReached?
  }

  function SnapshotOf(s: Cluster, c: Call): Store
    requires c.phase.Comparing? || c.phase.Applying?
  {
    Snapshot(s.seqr.log, c.phase.startTs)
  }

  /** The compare key that is read next, and the operation that is run next. */
  function NextCompare(c: Call): ReadIntent
    requires c.phase.Comparing? && |c.phase.recorded| < |CompareOrder(c.txn)|
  {
    Point(CompareOrder(c.txn)[|c.phase.recorded|])
  }

  function NextOp(c: Call): RequestOp
    requires c.phase.Applying? && c.phase.next < |Branch(c.txn, c.phase.succeeded)|
  {
    Branch(c.txn, c.phase.succeeded)[c.phase.next]
  }

  function EventOf(s: Cluster, a: Step, cfg: Config): Option<Event>
    requires Enabled(s, a, cfg)
  {
    match a
    case ReadCompare(id) =>
      var c := s.calls[id];
      if TooManyReads(c.phase.recorded + [NextCompare(c)], cfg) then Some(Refused) else None
    case Decide(id) =>
      if MalformedFirst(SnapshotOf(s, s.calls[id]), s.calls[id].txn.compares) then Some(Refused) else None
    case RunOp(id) =>
      var c := s.calls[id];
      var op := NextOp(c);
      if !WellFormedOp(op) || TooManyReads(c.phase.effects.recorded + OpReads(op), cfg) then Some(Refused) else None
    case Commit(id, commitTs, empties, lost) =>
      var k := CandidateOf(s.calls[id], commitTs, empties, cfg);
      if !ValidMutations(k.mutations) then Some(Refused)
      else (match Judge(s.seqr, k, cfg.limits)
            case Committed(_) => Some(if lost then Lost else Acknowledged)
            case Conflict => Some(Conflicted)
            case _ => Some(Refused))
    case Fail(_) => Some(Lost)
    case _ => None
  }

  function Names(a: Step, id: nat): bool {
    match a
    case PublishFence(_) => false
    case ForeignCommit(_) => false
    case _ => a.id == id
  }

  /** The events of one call, in order. */
  function Events(run: seq<Step>, cfg: Config, id: nat): seq<Event>
    requires Run(run, cfg).Some?
  {
    if run == [] then []
    else
      var n := |run| - 1;
      var s := Run(run[..n], cfg).value;
      var e := if Names(run[n], id) then EventOf(s, run[n], cfg) else None;
      Events(run[..n], cfg, id) + if e.Some? then [e.value] else []
  }

  function Conflicts(events: seq<Event>): nat {
    if events == [] then 0
    else Conflicts(events[..|events| - 1]) + if events[|events| - 1].Conflicted? then 1 else 0
  }

  predicate AllConflicted(events: seq<Event>) {
    forall i :: 0 <= i < |events| ==> events[i].Conflicted?
  }

  /** Only conflicts came before the last event. */
  predicate EndsWith(events: seq<Event>, e: Event) {
    events != [] && AllConflicted(events[..|events| - 1]) && events[|events| - 1] == e
  }

  /** The phase of a call is what its events make it. */
  predicate Follows(c: Call, events: seq<Event>) {
    && c.conflicts == Conflicts(events)
    && match c.phase
       case Returned(Done(_, _, _)) => EndsWith(events, Acknowledged) && |events| <= c.retries + 1
       case Returned(Exhausted) => AllConflicted(events) && |events| == c.retries + 1
       case Returned(Rejected) => EndsWith(events, Refused) && |events| <= c.retries + 1
       case Returned(Unknown) => EndsWith(events, Lost) && |events| <= c.retries + 1
       case _ => AllConflicted(events) && |events| <= c.retries
  }

  lemma {:induction false} CountAll(events: seq<Event>)
    requires AllConflicted(events)
    ensures Conflicts(events) == |events|
  {
    if events != [] {
      CountAll(events[..|events| - 1]);
    }
  }

  lemma SnocEvent(events: seq<Event>, e: Event)
    requires AllConflicted(events)
    ensures EndsWith(events + [e], e)
    ensures Conflicts(events + [e]) == |events| + if e.Conflicted? then 1 else 0
    ensures e.Conflicted? ==> AllConflicted(events + [e])
  {
    assert (events + [e])[..|events|] == events;
    CountAll(events);
  }

  // ----- Each step keeps it -----

  lemma OtherSteps(s: Cluster, a: Step, cfg: Config, id: nat)
    requires Enabled(s, a, cfg) && !Names(a, id)
    ensures id in s.calls <==> id in Next(s, a, cfg).calls
    ensures id in s.calls ==> Next(s, a, cfg).calls[id] == s.calls[id]
  {
  }

  /** Nothing but `StartCall` names a call that is not under way. */
  lemma NamedIsOpen(s: Cluster, a: Step, cfg: Config, id: nat)
    requires Enabled(s, a, cfg) && Names(a, id) && !a.StartCall?
    ensures id in s.calls && !s.calls[id].phase.Returned?
  {
  }

  /** What is compared with the rows read so far is compared with the snapshot. */
  lemma DecideSeesSnapshot(s: Cluster, id: nat, cfg: Config)
    requires Enabled(s, Decide(id), cfg) && PhaseInv(s.calls[id], s.seqr.log, s.fence)
    ensures var c := s.calls[id];
            EvalCompares(k => Lookup(c.phase.got, k), c.txn.compares).Fatal?
            <==> MalformedFirst(SnapshotOf(s, c), c.txn.compares)
  {
    var c := s.calls[id];
    var snap := SnapshotOf(s, c);
    DecidePhase(c.txn, snap, c.phase.got, c.phase.recorded);
    assert c.txn.compares[0..] == c.txn.compares;
    assert PassesTo(snap, c.txn.compares, 0);
    ComparesScan(snap, c.txn.compares, 0);
  }

  /** The call after its event: a conflict within the budget leaves it to be rerun. */
  predicate Moved(c: Call, c': Call, e: Option<Event>) {
    && c'.txn == c.txn && c'.retries == c.retries
    && c'.conflicts == c.conflicts + (if e == Some(Conflicted) then 1 else 0)
    && match e
       case None => !c'.phase.Returned?
       case Some(Conflicted) => c'.phase == if c.conflicts < c.retries then Idle else Returned(Exhausted)
       case Some(Refused) => c'.phase == Returned(Rejected)
       case Some(Acknowledged) => c'.phase.Returned? && c'.phase.reply.Done?
       case Some(Lost) => c'.phase == Returned(Unknown)
  }

  lemma CommitMoves(s: Cluster, a: Step, cfg: Config)
    requires a.Commit? && Enabled(s, a, cfg)
    ensures a.id in Next(s, a, cfg).calls && Moved(s.calls[a.id], Next(s, a, cfg).calls[a.id], EventOf(s, a, cfg))
  {
  }

  lemma StepMoves(s: Cluster, a: Step, cfg: Config, id: nat)
    requires Enabled(s, a, cfg) && Names(a, id) && !a.StartCall?
    requires PhaseInv(s.calls[id], s.seqr.log, s.fence)
    ensures id in Next(s, a, cfg).calls && Moved(s.calls[id], Next(s, a, cfg).calls[id], EventOf(s, a, cfg))
  {
    if a.Commit? {
      CommitMoves(s, a, cfg);
    } else if a.Decide? {
      DecideSeesSnapshot(s, id, cfg);
    }
  }

  lemma MovedFollows(c: Call, c': Call, e: Option<Event>, events: seq<Event>)
    requires Follows(c, events) && !c.phase.Returned? && Moved(c, c', e)
    ensures Follows(c', events + if e.Some? then [e.value] else [])
  {
    CountAll(events);
    if e.Some? {
      SnocEvent(events, e.value);
    } else {
      assert events + [] == events;
    }
  }

  lemma {:induction false} RunFollows(run: seq<Step>, cfg: Config, id: nat)
    requires Run(run, cfg).Some?
    ensures id in Run(run, cfg).value.calls ==> Follows(Run(run, cfg).value.calls[id], Events(run, cfg, id))
    ensures id !in Run(run, cfg).value.calls ==> Events(run, cfg, id) == []
  {
    if run != [] {
      var n := |run| - 1;
      var s, before := Run(run[..n], cfg).value, Events(run[..n], cfg, id);
      RunFollows(run[..n], cfg, id);
      RunInv(run[..n], cfg);
      if !Names(run[n], id) {
        OtherSteps(s, run[n], cfg, id);
        assert before + [] == before;
      } else if run[n].StartCall? {
        assert before + [] == before;
      } else {
        NamedIsOpen(s, run[n], cfg, id);
        StepMoves(s, run[n], cfg, id);
        MovedFollows(s.calls[id], Next(s, run[n], cfg).calls[id], EventOf(s, run[n], cfg), before);
      }
    }
  }

  // ----- The theorems -----

  lemma FollowsIff(c: Call, events: seq<Event>)
    requires Follows(c, events)
    ensures Conflicts(events) <= c.retries + 1
    ensures c.phase == Returned(Exhausted) <==> Conflicts(events) == c.retries + 1
    ensures c.phase == Returned(Rejected) <==> Refused in events
    ensures c.phase == Returned(Unknown) <==> Lost in events
    ensures (c.phase.Returned? && c.phase.reply.Done?) <==> Acknowledged in events
  {
    if AllConflicted(events) {
      CountAll(events);
    } else {
      var n := |events| - 1;
      CountAll(events[..n]);
      assert events == events[..n] + [events[n]];
    }
  }

  lemma NewIsStarted(s: Cluster, a: Step, cfg: Config, id: nat)
    requires Enabled(s, a, cfg) && id !in s.calls && id in Next(s, a, cfg).calls
    ensures var c := Next(s, a, cfg).calls[id]; a == StartCall(id, c.txn, c.retries)
  {
  }

  lemma {:induction false} StartedAs(run: seq<Step>, cfg: Config, id: nat)
    requires Run(run, cfg).Some? && id in Run(run, cfg).value.calls
    ensures var c := Run(run, cfg).value.calls[id]; StartCall(id, c.txn, c.retries) in run
  {
    var n := |run| - 1;
    var s := Run(run[..n], cfg).value;
    assert run == run[..n] + [run[n]];
    if id in s.calls {
      StartedAs(run[..n], cfg, id);
      if Names(run[n], id) {
        RunInv(run[..n], cfg);
        StepMoves(s, run[n], cfg, id);
      } else {
        OtherSteps(s, run[n], cfg, id);
      }
    } else {
      NewIsStarted(s, run[n], cfg, id);
    }
  }

  /** A call has given up exactly when `retries + 1` of its commits were judged
      conflicts. It is refused, acknowledged or in doubt exactly when one of its
      steps was a refusal, an acknowledged commit or a loss. */
  lemma {:induction false} RepliesTellEvents(run: seq<Step>, cfg: Config, id: nat)
    requires Run(run, cfg).Some? && id in Run(run, cfg).value.calls
    ensures var c, events := Run(run, cfg).value.calls[id], Events(run, cfg, id);
            && StartCall(id, c.txn, c.retries) in run
            && Conflicts(events) <= c.retries + 1
            && (c.phase == Returned(Exhausted) <==> Conflicts(events) == c.retries + 1)
            && (c.phase == Returned(Rejected) <==> Refused in events)
            && (c.phase == Returned(Unknown) <==> Lost in events)
            && ((c.phase.Returned? && c.phase.reply.Done?) <==> Acknowledged in events)
  {
    StartedAs(run, cfg, id);
    RunFollows(run, cfg, id);
    FollowsIff(Run(run, cfg).value.calls[id], Events(run, cfg, id));
  }

  /** A commit judged a conflict is rerun from the beginning while fewer than
      `retries` came before it, and decides nothing. */
  lemma {:induction false} ConflictIsRerun(run: seq<Step>, cfg: Config, a: Step)
    requires Run(run, cfg).Some? && Enabled(Run(run, cfg).value, a, cfg)
    requires a.Commit? && EventOf(Run(run, cfg).value, a, cfg) == Some(Conflicted)
    ensures var s := Run(run, cfg).value;
            var s' := Next(s, a, cfg);
            && s'.seqr == s.seqr && a.id in s'.calls
            && s'.calls[a.id].phase
               == (if Conflicts(Events(run, cfg, a.id)) < s.calls[a.id].retries then Idle else Returned(Exhausted))
            && (forall x :: x in s.calls && x != a.id ==> x in s'.calls && s'.calls[x] == s.calls[x])
  {
    RunFollows(run, cfg, a.id);
    CommitMoves(Run(run, cfg).value, a, cfg);
  }

  /** Why a step may refuse a call: the translation does not accept the transaction
      on its snapshot, it reads too much, its branch cannot be committed, or the
      verdict is neither a commit nor a conflict. */
  ghost predicate HasCause(s: Cluster, a: Step, cfg: Config)
    requires Enabled(s, a, cfg)
  {
    match a
    case ReadCompare(id) => TooManyReads(s.calls[id].phase.recorded + [NextCompare(s.calls[id])], cfg)
    case Decide(id) => BuildTxn(SnapshotOf(s, s.calls[id]), s.calls[id].txn).Fatal?
    case RunOp(id) =>
      || BuildTxn(SnapshotOf(s, s.calls[id]), s.calls[id].txn).Fatal?
      || TooManyReads(s.calls[id].phase.effects.recorded + OpReads(NextOp(s.calls[id])), cfg)
    case Commit(id, commitTs, empties, _) =>
      || !AllCommittable(Branch(s.calls[id].txn, s.calls[id].phase.succeeded))
      || var v := Judge(s.seqr, CandidateOf(s.calls[id], commitTs, empties, cfg), cfg.limits);
         !v.Committed? && !v.Conflict?
    case _ => false
  }

  lemma {:induction false} RefusalHasCause(run: seq<Step>, cfg: Config, a: Step)
    requires Run(run, cfg).Some? && Enabled(Run(run, cfg).value, a, cfg)
    requires EventOf(Run(run, cfg).value, a, cfg) == Some(Refused)
    ensures HasCause(Run(run, cfg).value, a, cfg)
  {
    RunInv(run, cfg);
    var s := Run(run, cfg).value;
    assert PhaseInv(s.calls[a.id], s.seqr.log, s.fence);
    RefusalCause(s, a, cfg);
  }

  lemma RefusalCause(s: Cluster, a: Step, cfg: Config)
    requires Enabled(s, a, cfg) && EventOf(s, a, cfg) == Some(Refused)
    requires PhaseInv(s.calls[a.id], s.seqr.log, s.fence)
    ensures HasCause(s, a, cfg)
  {
    var c := s.calls[a.id];
    if a.Decide? {
      BuildRefusedIff(SnapshotOf(s, c), c.txn);
    } else if a.RunOp? || a.Commit? {
      ApplyingRefused(c.txn, SnapshotOf(s, c), c.phase.succeeded, c.phase.next, c.phase.effects);
    }
  }

  /** While the operations run, what the translation will make of the branch. */
  lemma ApplyingRefused(t: Txn, snap: Store, succeeded: bool, next: nat, e: Effects)
    requires ApplyingInv(t, snap, succeeded, next, e)
    ensures !WellFormedOps(Branch(t, succeeded)) ==> BuildTxn(snap, t).Fatal?
    ensures next == |Branch(t, succeeded)| ==>
              (ValidMutations(e.mutations) <==> AllCommittable(Branch(t, succeeded)))
  {
    var ops, first := Branch(t, succeeded), Effects([], [], PointReads(CompareOrder(t)));
    OpsRefused(snap, ops, first);
    if next == |ops| {
      assert ops[next..] == [];
      OpsCommittable(snap, ops, first);
    }
  }

  // ----- The log -----

  /** What a step adds to the log: the decision of a commit that was accepted. */
  function Decides(s: Cluster, a: Step, cfg: Config): seq<Decision>
    requires Enabled(s, a, cfg)
  {
    match a
    case Commit(id, ts, empties, _) =>
      var k := CandidateOf(s.calls[id], ts, empties, cfg);
      if ValidMutations(k.mutations) && Judge(s.seqr, k, cfg.limits).Committed?
      then [Decision(s.calls[id].session, ts, s.calls[id].phase.effects.mutations)] else []
    case ForeignCommit(c) =>
      if Judge(s.seqr, c, cfg.limits).Committed? then [Decision(c.txnId, c.commitTs, c.mutations)] else []
    case _ => []
  }

  function Decisions(run: seq<Step>, cfg: Config): seq<Decision>
    requires Run(run, cfg).Some?
  {
    if run == [] then []
    else
      var n := |run| - 1;
      Decisions(run[..n], cfg) + Decides(Run(run[..n], cfg).value, run[n], cfg)
  }

  lemma StepAppends(s: Cluster, a: Step, cfg: Config)
    requires Enabled(s, a, cfg)
    ensures Next(s, a, cfg).seqr.log == s.seqr.log + Decides(s, a, cfg)
  {
  }

  /** The log is exactly the accepted commits of the run, in order, whether or not
      their replies arrived. */
  lemma {:induction false} LogTellsCommits(run: seq<Step>, cfg: Config)
    requires Run(run, cfg).Some?
    ensures Run(run, cfg).value.seqr.log == Decisions(run, cfg)
  {
    if run != [] {
      var n := |run| - 1;
      LogTellsCommits(run[..n], cfg);
      StepAppends(Run(run[..n], cfg).value, run[n], cfg);
    }
  }
}
