/** What every run of the session registry keeps. */
module ProxySafety {
  import opened Bytes
  import opened Proxy

  /** Slots keep their ids, and the registry may only lose entries. */
  ghost predicate Shrinks(s: System, s': System) {
    && s'.slots.Keys == s.slots.Keys && (forall x :: x in s.slots ==> s'.slots[x].id == s.slots[x].id)
    && (forall id :: id in s'.registry ==> id in s.registry && s'.registry[id] == s.registry[id])
    && s'.begun == s.begun
  }

  /** No request becomes an owner or decided that was not. */
  ghost predicate NoNewOwner(s: System, s': System) {
    forall q :: q in s'.reqs && (Owns(s'.reqs[q]) || IsDecided(s'.reqs[q].phase)) ==>
      && q in s.reqs && s'.reqs[q].id == s.reqs[q].id
      && (Owns(s'.reqs[q]) ==> Owns(s.reqs[q])) && (IsDecided(s'.reqs[q].phase) ==> IsDecided(s.reqs[q].phase))
  }

  lemma TokensShrink(s: System, s': System)
    requires TokenInv(s) && DecidedOnce(s) && Shrinks(s, s') && NoNewOwner(s, s') && s'.closed == s.closed
    ensures TokenInv(s') && DecidedOnce(s')
  {
  }

  lemma FindKeeps(s: System, q: nat)
    requires SystemInv(s) && Enabled(s, Find(q))
    ensures SystemInv(AfterFind(s, q))
  {
    FindRequests(s, q);
    FindSlots(s, q);
    FindTokens(s, q);
  }

  lemma FindRequests(s: System, q: nat)
    requires SystemInv(s) && Enabled(s, Find(q))
    ensures forall p :: p in AfterFind(s, q).reqs ==> ReqInv(AfterFind(s, q), p)
  {
    var s' := AfterFind(s, q);
    assert ReqInv(s, q);
    forall p | p in s'.reqs ensures ReqInv(s', p) {
      assert ReqInv(s, p);
    }
  }

  lemma FindSlots(s: System, q: nat)
    requires SystemInv(s) && Enabled(s, Find(q))
    ensures forall x :: x in AfterFind(s, q).slots ==> SlotInv(AfterFind(s, q), x)
  {
    var s' := AfterFind(s, q);
    assert ReqInv(s, q);
    forall x | x in s'.slots ensures SlotInv(s', x) {
      assert SlotInv(s, x);
    }
  }

  lemma FindTokens(s: System, q: nat)
    requires SystemInv(s) && Enabled(s, Find(q))
    ensures TokenInv(AfterFind(s, q)) && DecidedOnce(AfterFind(s, q))
  {
    var s', r := AfterFind(s, q), s.reqs[q];
    assert ReqInv(s, q);
    forall id | id in s'.registry ensures s'.registry[id] in s'.slots && s'.slots[s'.registry[id]].id == id {
      assert s'.registry[id] == s.registry[id];
    }
    forall p | p in s'.reqs && Owns(s'.reqs[p])
      ensures s'.reqs[p].id !in s'.registry && s'.reqs[p].id !in s'.closed
      ensures p != q && Owns(s'.reqs[q]) ==> s'.reqs[p].id != s'.reqs[q].id
    {
      if p == q {
        assert r.id in s.registry;
      }
    }
  }

  lemma LockKeeps(s: System, q: nat)
    requires SystemInv(s) && Enabled(s, Lock(q))
    ensures SystemInv(AfterLock(s, q))
  {
    LockRequests(s, q);
    LockSlots(s, q);
    LockTokens(s, q);
  }

  lemma LockRequests(s: System, q: nat)
    requires SystemInv(s) && Enabled(s, Lock(q))
    ensures forall p :: p in AfterLock(s, q).reqs ==> ReqInv(AfterLock(s, q), p)
  {
    var s' := AfterLock(s, q);
    assert ReqInv(s, q);
    forall p | p in s'.reqs ensures ReqInv(s', p) {
      assert ReqInv(s, p);
    }
  }

  lemma LockSlots(s: System, q: nat)
    requires SystemInv(s) && Enabled(s, Lock(q))
    ensures forall x :: x in AfterLock(s, q).slots ==> SlotInv(AfterLock(s, q), x)
  {
    var s' := AfterLock(s, q);
    assert ReqInv(s, q);
    forall x | x in s'.slots ensures SlotInv(s', x) {
      assert SlotInv(s, x);
    }
  }

  lemma LockTokens(s: System, q: nat)
    requires TokenInv(s) && DecidedOnce(s) && Enabled(s, Lock(q))
    ensures TokenInv(AfterLock(s, q)) && DecidedOnce(AfterLock(s, q))
  {
    TokensShrink(s, AfterLock(s, q));
  }

  lemma ReplyKeeps(s: System, q: nat, outcome: Outcome)
    requires SystemInv(s) && Enabled(s, Reply(q, outcome))
    ensures SystemInv(AfterReply(s, q, outcome))
  {
    ReplyRequests(s, q, outcome);
    ReplySlots(s, q, outcome);
    assert ReqInv(s, q);
    assert SlotInv(s, s.reqs[q].phase.slot);
    forall p | p in s.reqs && IsDecided(s.reqs[p].phase) ensures s.reqs[p].id in s.closed { assert ReqInv(s, p); }
    ReplyTokens(s, q, outcome);
  }

  lemma ReplyRequests(s: System, q: nat, outcome: Outcome)
    requires SystemInv(s) && Enabled(s, Reply(q, outcome))
    ensures forall p :: p in AfterReply(s, q, outcome).reqs ==> ReqInv(AfterReply(s, q, outcome), p)
  {
    var s' := AfterReply(s, q, outcome);
    assert ReqInv(s, q);
    forall p | p in s'.reqs ensures ReqInv(s', p) {
      assert ReqInv(s, p);
    }
  }

  lemma ReplySlots(s: System, q: nat, outcome: Outcome)
    requires SystemInv(s) && Enabled(s, Reply(q, outcome))
    ensures forall x :: x in AfterReply(s, q, outcome).slots ==> SlotInv(AfterReply(s, q, outcome), x)
  {
    var s' := AfterReply(s, q, outcome);
    assert ReqInv(s, q);
    forall x | x in s'.slots ensures SlotInv(s', x) {
      assert SlotInv(s, x);
    }
  }

  lemma ReplyTokens(s: System, q: nat, outcome: Outcome)
    requires TokenInv(s) && DecidedOnce(s) && Enabled(s, Reply(q, outcome))
    requires s.slots[s.reqs[q].phase.slot].id == s.reqs[q].id && s.reqs[q].id in s.begun
    requires forall p :: p in s.reqs && IsDecided(s.reqs[p].phase) ==> s.reqs[p].id in s.closed
    ensures TokenInv(AfterReply(s, q, outcome)) && DecidedOnce(AfterReply(s, q, outcome))
  {
    if outcome.Decided? {
      DecisionTokens(s, q, outcome);
    } else {
      ReplyShrinks(s, q, outcome);
      TokensShrink(s, AfterReply(s, q, outcome));
    }
  }

  lemma ReplyShrinks(s: System, q: nat, outcome: Outcome)
    requires Enabled(s, Reply(q, outcome)) && !outcome.Decided?
    ensures var s' := AfterReply(s, q, outcome); Shrinks(s, s') && NoNewOwner(s, s') && s'.closed == s.closed
  {
    var s' := AfterReply(s, q, outcome);
    forall p | p in s'.reqs && p != q ensures s'.reqs[p] == s.reqs[p] {
    }
  }

  /** The owner that gets the decision hands its right over to `closed`. */
  lemma DecisionTokens(s: System, q: nat, outcome: Outcome)
    requires Enabled(s, Reply(q, outcome)) && outcome.Decided? && TokenInv(s) && DecidedOnce(s)
    requires s.slots[s.reqs[q].phase.slot].id == s.reqs[q].id && s.reqs[q].id in s.begun
    requires forall p :: p in s.reqs && IsDecided(s.reqs[p].phase) ==> s.reqs[p].id in s.closed
    ensures TokenInv(AfterReply(s, q, outcome)) && DecidedOnce(AfterReply(s, q, outcome))
  {
    var s' := AfterReply(s, q, outcome);
    assert Owns(s.reqs[q]);
    forall p | p in s'.reqs && Owns(s'.reqs[p])
      ensures s'.reqs[p].id !in s'.registry && s'.reqs[p].id !in s'.closed
    {
      assert p != q && Owns(s.reqs[p]);
    }
  }

  lemma CancelKeeps(s: System, q: nat)
    requires SystemInv(s) && Enabled(s, Cancel(q))
    ensures SystemInv(AfterCancel(s, q))
  {
    CancelRequests(s, q);
    CancelSlots(s, q);
    CancelTokens(s, q);
  }

  lemma CancelRequests(s: System, q: nat)
    requires SystemInv(s) && Enabled(s, Cancel(q))
    ensures forall p :: p in AfterCancel(s, q).reqs ==> ReqInv(AfterCancel(s, q), p)
  {
    var s' := AfterCancel(s, q);
    assert ReqInv(s, q);
    forall p | p in s'.reqs ensures ReqInv(s', p) {
      assert ReqInv(s, p);
    }
  }

  lemma CancelSlots(s: System, q: nat)
    requires SystemInv(s) && Enabled(s, Cancel(q))
    ensures forall x :: x in AfterCancel(s, q).slots ==> SlotInv(AfterCancel(s, q), x)
  {
    var s' := AfterCancel(s, q);
    assert ReqInv(s, q);
    forall x | x in s'.slots ensures SlotInv(s', x) {
      assert SlotInv(s, x);
    }
  }

  lemma CancelTokens(s: System, q: nat)
    requires TokenInv(s) && DecidedOnce(s) && Enabled(s, Cancel(q))
    ensures TokenInv(AfterCancel(s, q)) && DecidedOnce(AfterCancel(s, q))
  {
    TokensShrink(s, AfterCancel(s, q));
  }

  lemma BeginKeeps(s: System, a: Step)
    requires SystemInv(s) && Enabled(s, a) && a.Begin?
    ensures SystemInv(Next(s, a))
  {
    var s' := Next(s, a);
    forall x | x in s.slots ensures s.slots[x].id in s.begun { assert SlotInv(s, x); }
    forall p | p in s.reqs && OnSlot(s.reqs[p].phase) ensures s.reqs[p].id in s.begun { assert ReqInv(s, p); }
    forall p | p in s'.reqs ensures ReqInv(s', p) { assert ReqInv(s, p); }
    forall x | x in s'.slots ensures SlotInv(s', x) { assert x in s.slots ==> SlotInv(s, x); }
  }

  lemma ArriveKeeps(s: System, a: Step)
    requires SystemInv(s) && Enabled(s, a) && a.Arrive?
    ensures SystemInv(Next(s, a))
  {
    var s' := Next(s, a);
    forall p | p in s'.reqs ensures ReqInv(s', p) { assert p in s.reqs ==> ReqInv(s, p); }
    forall x | x in s'.slots ensures SlotInv(s', x) { assert SlotInv(s, x); }
    TokensShrink(s, s');
  }

  /** Dropping registry entries never hurts. */
  lemma ForgetKeeps(s: System, a: Step)
    requires SystemInv(s) && Enabled(s, a) && a.Forget?
    ensures SystemInv(Next(s, a))
  {
    var s' := Next(s, a);
    forall p | p in s'.reqs ensures ReqInv(s', p) { assert ReqInv(s, p); }
    forall x | x in s'.slots ensures SlotInv(s', x) { assert SlotInv(s, x); }
    TokensShrink(s, s');
  }

  lemma ReinsertKeeps(s: System, a: Step)
    requires SystemInv(s) && Enabled(s, a) && a.Reinsert?
    ensures SystemInv(Next(s, a))
  {
    var s' := Next(s, a);
    assert ReqInv(s, a.req) && Owns(s.reqs[a.req]);
    forall p | p in s'.reqs ensures ReqInv(s', p) { assert ReqInv(s, p); }
    forall x | x in s'.slots ensures SlotInv(s', x) { assert SlotInv(s, x); }
  }

  lemma ClockKeeps(s: System, a: Step)
    requires SystemInv(s) && Enabled(s, a) && (a.Sweep? || a.Tick?)
    ensures SystemInv(Next(s, a))
  {
    var s' := Next(s, a);
    forall p | p in s'.reqs ensures ReqInv(s', p) { assert ReqInv(s, p); }
    forall x | x in s'.slots ensures SlotInv(s', x) { assert SlotInv(s, x); }
    TokensShrink(s, s');
  }

  lemma NextKeeps(s: System, a: Step)
    requires SystemInv(s) && Enabled(s, a)
    ensures SystemInv(Next(s, a))
  {
    match a
    case Begin(_, _, _) => BeginKeeps(s, a);
    case Arrive(_, _, _) => ArriveKeeps(s, a);
    case Find(q) => FindKeeps(s, q);
    case Lock(q) => LockKeeps(s, q);
    case Reply(q, outcome) => ReplyKeeps(s, q, outcome);
    case Forget(_) => ForgetKeeps(s, a);
    case Reinsert(_) => ReinsertKeeps(s, a);
    case Cancel(q) => CancelKeeps(s, q);
    case Sweep => ClockKeeps(s, a);
    case Tick(_) => ClockKeeps(s, a);
  }

  /** At most one holder of the right to decide each transaction, in every run:
      the registry, or one commit or abort, or nobody once it was decided. */
  lemma {:induction false} RunInv(run: seq<Step>)
    requires Run(run).Some?
    ensures SystemInv(Run(run).value)
    ensures var s := Run(run).value;
            forall q :: q in s.reqs && Owns(s.reqs[q]) ==> s.reqs[q].id !in s.registry && s.reqs[q].id !in s.closed
  {
    if run != [] {
      var last := |run| - 1;
      RunInv(run[..last]);
      NextKeeps(Run(run[..last]).value, run[last]);
    }
  }

  // ----- The theorems -----

  /** At most one upstream call per transaction id is outstanding, of any kind: two
      commits never race, and no read runs beside a commit. */
  lemma {:induction false} OneUpstreamCall(run: seq<Step>, p: nat, q: nat)
    requires Run(run).Some? && p in Run(run).value.reqs && q in Run(run).value.reqs
    requires var s := Run(run).value;
             s.reqs[p].phase.InFlight? && s.reqs[q].phase.InFlight? && s.reqs[p].id == s.reqs[q].id
    ensures p == q
  {
    RunInv(run);
    assert ReqInv(Run(run).value, p) && ReqInv(Run(run).value, q);
  }

  lemma DecidedStep(s: System, a: Step, q: nat)
    requires Enabled(s, a) && q in s.reqs && IsDecided(s.reqs[q].phase)
    ensures q in Next(s, a).reqs && Next(s, a).reqs[q] == s.reqs[q]
  {
  }

  lemma {:induction false} DecisionPersists(run: seq<Step>, n: nat, q: nat)
    requires Run(run).Some? && n <= |run| && Run(run[..n]).Some?
    requires q in Run(run[..n]).value.reqs && IsDecided(Run(run[..n]).value.reqs[q].phase)
    ensures q in Run(run).value.reqs && Run(run).value.reqs[q] == Run(run[..n]).value.reqs[q]
  {
    if n < |run| {
      var m := |run| - 1;
      assert run[..m][..n] == run[..n];
      DecisionPersists(run[..m], n, q);
      DecidedStep(Run(run[..m]).value, run[m], q);
    } else {
      assert run[..n] == run;
    }
  }

  /** Once a commit was answered with a decision, that answer is the only one for
      its transaction id, and no later request for the id reaches upstream. */
  lemma {:induction false} DecisionIsFinal(run: seq<Step>, n: nat, q: nat, p: nat)
    requires Run(run).Some? && n <= |run| && Run(run[..n]).Some?
    requires q in Run(run[..n]).value.reqs && IsDecided(Run(run[..n]).value.reqs[q].phase)
    requires p in Run(run).value.reqs && Run(run).value.reqs[p].id == Run(run[..n]).value.reqs[q].id
    ensures !Run(run).value.reqs[p].phase.InFlight?
    ensures IsDecided(Run(run).value.reqs[p].phase) ==> p == q
  {
    RunInv(run);
    DecisionPersists(run, n, q);
    var s := Run(run).value;
    assert ReqInv(s, p) && ReqInv(s, q);
    assert forall x :: x in s.slots ==> SlotInv(s, x);
  }

  /** A commit that failed upstream leaves the same session registered again under
      its id, ready for the retry. */
  lemma {:induction false} FailedCommitCanRetry(run: seq<Step>, q: nat)
    requires Run(run).Some? && Enabled(Run(run).value, Reinsert(q))
    ensures var s := Run(run).value;
            var id, x, s' := s.reqs[q].id, s.reqs[q].phase.slot, Next(s, Reinsert(q));
            && id in s'.registry && s'.registry[id] == x
            && x in s'.slots && s'.slots[x].id == id && s'.slots[x].session == Some(s'.slots[x].handle)
            && (forall y :: y in s'.slots && s'.slots[y].id == id ==> y == x)
  {
    RunInv(run);
    assert ReqInv(Run(run).value, q);
  }

  /** The first commit to arrive is alone: while it is under way the registry has
      no entry for its id, so a second one is answered `NotFound` at once. */
  lemma {:induction false} SecondCommitFindsNothing(run: seq<Step>, p: nat, q: nat)
    requires Run(run).Some? && p in Run(run).value.reqs && Enabled(Run(run).value, Find(q))
    requires var s := Run(run).value;
             Owns(s.reqs[p]) && s.reqs[q].kind.Committing? && s.reqs[q].id == s.reqs[p].id && s.reqs[q].id != []
    ensures Next(Run(run).value, Find(q)).reqs[q].phase == Answered(NotFound)
  {
    RunInv(run);
  }
}
