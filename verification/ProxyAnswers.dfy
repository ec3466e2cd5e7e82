/** What a request is answered, told from the steps of the run alone. */
module ProxyAnswers {
  import opened Bytes
  import opened Proxy
  import opened ProxySafety

  predicate Names(a: Step, q: nat) {
    match a
    case Begin(_, _, _) => false
    case Sweep => false
    case Tick(_) => false
    case _ => a.req == q
  }

  /** The last step of the run that names the request. */
  function LastStep(run: seq<Step>, q: nat): Option<Step> {
    if run == [] then None
    else if Names(run[|run| - 1], q) then Some(run[|run| - 1])
    else LastStep(run[..|run| - 1], q)
  }

  /** What an upstream outcome makes of a request. */
  predicate OutcomeShows(r: Req, o: Outcome) {
    match o
    case Okay => !r.kind.Committing? && r.phase == Answered(if r.kind.Reading? then Served else AbortOk)
    case Decided(conflict) => r.kind.Committing? && r.phase == Answered(if conflict then Conflict else Committed)
    case GoneUpstream =>
      (match r.kind
       case Reading => r.phase == Forgetting
       case Committing => r.phase.Reinserting?
       case Aborting => r.phase == Answered(UpstreamError))
    case Error => if r.kind.Committing? then r.phase.Reinserting? else r.phase == Answered(UpstreamError)
  }

  /** The request stands where its last step left it. */
  predicate Shows(r: Req, a: Step) {
    match a
    case Arrive(_, kind, id) => r == Req(kind, id, Arrived)
    case Find(_) =>
      || r.phase.Waiting?
      || r.phase == Answered(if r.kind.Committing? && r.id == [] then Invalid
                             else if r.kind.Aborting? then AbortOk else NotFound)
    case Lock(_) => r.phase.InFlight? || r.phase == Answered(if r.kind.Aborting? then AbortOk else NotFound)
    case Reply(_, o) => OutcomeShows(r, o)
    case Forget(_) => r.kind.Reading? && r.phase == Answered(NotFound)
    case Reinsert(_) => r.kind.Committing? && r.phase == Answered(UpstreamError)
    case Cancel(_) => r.phase == Answered(Cancelled)
    case _ => false
  }

  lemma OtherSteps(s: System, a: Step, q: nat)
    requires Enabled(s, a) && !Names(a, q)
    ensures q in Next(s, a).reqs <==> q in s.reqs
    ensures q in s.reqs ==> Next(s, a).reqs[q] == s.reqs[q]
  {
  }

  /** Only reads are forgotten upstream, and only commits put their session back. */
  ghost predicate KindInv(s: System, q: nat)
    requires q in s.reqs
  {
    && (s.reqs[q].phase.Forgetting? ==> s.reqs[q].kind.Reading?)
    && (s.reqs[q].phase.Reinserting? ==> s.reqs[q].kind.Committing?)
    && (s.reqs[q].phase.Waiting? || s.reqs[q].phase.InFlight? ==> !(s.reqs[q].kind.Committing? && s.reqs[q].id == []))
  }

  lemma NamedShows(s: System, a: Step, q: nat)
    requires Enabled(s, a) && Names(a, q) && (q in s.reqs ==> KindInv(s, q))
    ensures q in Next(s, a).reqs && Shows(Next(s, a).reqs[q], a) && KindInv(Next(s, a), q)
    ensures q in s.reqs ==> Next(s, a).reqs[q].kind == s.reqs[q].kind && Next(s, a).reqs[q].id == s.reqs[q].id
  {
  }

  lemma {:induction false} RunShows(run: seq<Step>, q: nat)
    requires Run(run).Some?
    ensures q in Run(run).value.reqs <==> LastStep(run, q).Some?
    ensures q in Run(run).value.reqs ==>
              Shows(Run(run).value.reqs[q], LastStep(run, q).value) && KindInv(Run(run).value, q)
  {
    if run != [] {
      var n := |run| - 1;
      var s := Run(run[..n]).value;
      RunShows(run[..n], q);
      if Names(run[n], q) {
        NamedShows(s, run[n], q);
      } else {
        OtherSteps(s, run[n], q);
      }
    }
  }

  /** Which step is the last one of a request of this kind, once `a` was taken. */
  predicate Closes(kind: Kind, a: Step, last: Step) {
    match a
    case Reply(q, GoneUpstream) =>
      last == a || (kind.Reading? && last == Forget(q)) || (kind.Committing? && last == Reinsert(q))
    case Reply(q, Error) => last == a || (kind.Committing? && last == Reinsert(q))
    case Reply(_, _) => last == a
    case Forget(_) => last == a
    case Reinsert(_) => last == a
    case Cancel(_) => last == a
    case _ => true
  }

  lemma {:induction false} StepStays(run: seq<Step>, q: nat, a: Step)
    requires Run(run).Some? && a in run && Names(a, q)
    ensures q in Run(run).value.reqs && LastStep(run, q).Some?
    ensures Closes(Run(run).value.reqs[q].kind, a, LastStep(run, q).value)
  {
    var n := |run| - 1;
    var s := Run(run[..n]).value;
    assert run == run[..n] + [run[n]];
    RunShows(run[..n], q);
    if Names(run[n], q) {
      NamedShows(s, run[n], q);
    } else {
      OtherSteps(s, run[n], q);
    }
    if a in run[..n] {
      StepStays(run[..n], q, a);
      LastInRun(run[..n], q);
    }
  }

  lemma {:induction false} LastInRun(run: seq<Step>, q: nat)
    requires LastStep(run, q).Some?
    ensures LastStep(run, q).value in run && Names(LastStep(run, q).value, q)
  {
    var n := |run| - 1;
    if !Names(run[n], q) {
      LastInRun(run[..n], q);
    }
  }

  lemma InRunIff(run: seq<Step>, q: nat, a: Step)
    requires Run(run).Some? && q in Run(run).value.reqs && Names(a, q)
    ensures LastStep(run, q).Some? && Names(LastStep(run, q).value, q)
    ensures a in run ==> Closes(Run(run).value.reqs[q].kind, a, LastStep(run, q).value)
    ensures LastStep(run, q) == Some(a) ==> a in run
  {
    RunShows(run, q);
    LastInRun(run, q);
    if a in run {
      StepStays(run, q, a);
    }
  }

  /** A request is answered with a commit or a conflict exactly when upstream decided
      so in reply to it, with a read exactly when upstream served it, and with an
      upstream error exactly when upstream failed it, for a commit once its session
      is registered again. */
  lemma {:induction false} AnswersTellReplies(run: seq<Step>, q: nat)
    requires Run(run).Some? && q in Run(run).value.reqs
    ensures var r := Run(run).value.reqs[q];
            && (r.phase == Answered(Committed) <==> Reply(q, Decided(false)) in run)
            && (r.phase == Answered(Conflict) <==> Reply(q, Decided(true)) in run)
            && (r.phase == Answered(Served) <==> r.kind.Reading? && Reply(q, Okay) in run)
            && (r.phase == Answered(Cancelled) <==> Cancel(q) in run)
            && (r.phase == Answered(UpstreamError) <==>
                || Reinsert(q) in run
                || (!r.kind.Committing? && Reply(q, Error) in run)
                || (r.kind.Aborting? && Reply(q, GoneUpstream) in run))
            && (Forget(q) in run ==> r.phase == Answered(NotFound))
            && (r.kind.Aborting? && Reply(q, Okay) in run ==> r.phase == Answered(AbortOk))
  {
    RunShows(run, q);
    InRunIff(run, q, Reply(q, Decided(false)));
    InRunIff(run, q, Reply(q, Decided(true)));
    InRunIff(run, q, Reply(q, Okay));
    InRunIff(run, q, Reply(q, Error));
    InRunIff(run, q, Reply(q, GoneUpstream));
    InRunIff(run, q, Reinsert(q));
    InRunIff(run, q, Forget(q));
    InRunIff(run, q, Cancel(q));
  }

  /** Nothing that was found missing, cancelled or refused ever reached upstream
      with a decision. */
  lemma {:induction false} DecidedIsAnswered(run: seq<Step>, q: nat, conflict: bool)
    requires Run(run).Some? && Reply(q, Decided(conflict)) in run
    ensures q in Run(run).value.reqs
    ensures Run(run).value.reqs[q].phase == Answered(if conflict then Conflict else Committed)
  {
    StepStays(run, q, Reply(q, Decided(conflict)));
    RunShows(run, q);
  }

  lemma {:induction false} ArrivedAs(run: seq<Step>, q: nat)
    requires Run(run).Some? && q in Run(run).value.reqs
    ensures var r := Run(run).value.reqs[q]; Arrive(q, r.kind, r.id) in run
  {
    var n := |run| - 1;
    var s := Run(run[..n]).value;
    assert run == run[..n] + [run[n]];
    RunShows(run[..n], q);
    if Names(run[n], q) {
      NamedShows(s, run[n], q);
    } else {
      OtherSteps(s, run[n], q);
    }
    if q in s.reqs {
      ArrivedAs(run[..n], q);
    }
  }

  // ----- Which sessions are open -----

  function Clock(run: seq<Step>): nat {
    if run == [] then 0
    else if run[|run| - 1].Tick? then run[|run| - 1].now
    else Clock(run[..|run| - 1])
  }

  /** The run ends with a read of `id` going upstream. */
  predicate ReadsNow(run: seq<Step>, id: Key)
    requires Run(run).Some? && run != []
  {
    && run[|run| - 1].Lock?
    && var q := run[|run| - 1].req; var reqs := Run(run).value.reqs;
       q in reqs && reqs[q].kind == Reading && reqs[q].id == id && reqs[q].phase.InFlight?
  }

  /** When the session of `id` was begun or last read. */
  function LastUse(run: seq<Step>, id: Key): nat
    requires Run(run).Some?
  {
    if run == [] then 0
    else
      var n := |run| - 1;
      if (run[n].Begin? && run[n].id == id) || ReadsNow(run, id) then Clock(run[..n]) else LastUse(run[..n], id)
  }

  /** A session is open from its beginning, or from the return of a commit that
      failed, until a commit or abort looks it up, a read finds it gone upstream, or
      a sweep finds it idle for too long. */
  predicate Open(run: seq<Step>, id: Key)
    requires Run(run).Some?
  {
    run != [] &&
    var n := |run| - 1;
    var before, reqs := Open(run[..n], id), Run(run[..n]).value.reqs;
    match run[n]
    case Begin(x, _, _) => x == id || before
    case Reinsert(q) => reqs[q].id == id || before
    case Find(q) => before && !(reqs[q].id == id && Takes(reqs[q]))
    case Forget(q) => before && reqs[q].id != id
    case Sweep => before && Clock(run[..n]) - LastUse(run[..n], id) < 3_660_000
    case _ => before
  }

  /** A commit or an abort, unless it is refused for its empty id. */
  predicate Takes(r: Req) {
    r.kind == Aborting || (r.kind == Committing && r.id != [])
  }

  ghost predicate UseInv(s: System, id: Key, used: nat) {
    forall x :: x in s.slots && s.slots[x].id == id ==> s.slots[x].lastUsed == used
  }

  ghost predicate LiveInv(s: System, id: Key) {
    id in s.registry ==> s.registry[id] in s.slots && s.slots[s.registry[id]].session.Some?
  }

  lemma {:induction false} ClockIs(run: seq<Step>)
    requires Run(run).Some?
    ensures Run(run).value.now == Clock(run)
  {
    if run != [] {
      ClockIs(run[..|run| - 1]);
      assert run[|run| - 1].Tick? || Run(run).value.now == Run(run[..|run| - 1]).value.now;
    }
  }

  /** The step begins the session of `id`, or sends a read of it upstream. */
  predicate Uses(s: System, a: Step, id: Key)
    requires Enabled(s, a)
  {
    || (a.Begin? && a.id == id)
    || (a.Lock? && s.reqs[a.req].kind == Reading && s.reqs[a.req].id == id && Next(s, a).reqs[a.req].phase.InFlight?)
  }

  predicate StaysOpen(s: System, a: Step, id: Key, before: bool, used: nat)
    requires Enabled(s, a)
  {
    match a
    case Begin(x, _, _) => x == id || before
    case Reinsert(q) => s.reqs[q].id == id || before
    case Find(q) => before && !(s.reqs[q].id == id && Takes(s.reqs[q]))
    case Forget(q) => before && s.reqs[q].id != id
    case Sweep => before && s.now - used < 3_660_000
    case _ => before
  }

  lemma UseStep(s: System, a: Step, id: Key, used: nat)
    requires SystemInv(s) && Enabled(s, a) && UseInv(s, id, used)
    ensures UseInv(Next(s, a), id, if Uses(s, a, id) then s.now else used)
  {
    if a.Begin? {
      assert forall x :: x in s.slots ==> SlotInv(s, x);
    } else if a.Lock? || a.Reply? || a.Cancel? {
      assert ReqInv(s, a.req);
    }
  }

  lemma LiveStep(s: System, a: Step, id: Key)
    requires SystemInv(s) && Enabled(s, a) && LiveInv(s, id)
    ensures LiveInv(Next(s, a), id)
  {
    if a.Lock? || a.Reply? || a.Cancel? || a.Reinsert? {
      assert ReqInv(s, a.req);
    }
  }

  lemma OpenStep(s: System, a: Step, id: Key, used: nat)
    requires SystemInv(s) && Enabled(s, a) && UseInv(s, id, used)
    ensures id in Next(s, a).registry <==> StaysOpen(s, a, id, id in s.registry, used)
  {
    if a.Sweep? && id in s.registry {
      assert s.slots[s.registry[id]].id == id;
    }
  }

  lemma {:induction false} OpenInv(run: seq<Step>, id: Key)
    requires Run(run).Some?
    ensures var s := Run(run).value;
            UseInv(s, id, LastUse(run, id)) && LiveInv(s, id) && (id in s.registry <==> Open(run, id))
  {
    if run != [] {
      var n := |run| - 1;
      var s := Run(run[..n]).value;
      RunInv(run[..n]);
      OpenInv(run[..n], id);
      ClockIs(run[..n]);
      UseStep(s, run[n], id, LastUse(run[..n], id));
      LiveStep(s, run[n], id);
      OpenStep(s, run[n], id, LastUse(run[..n], id));
      if run[n].Lock? {
        RunShows(run[..n], run[n].req);
        NamedShows(s, run[n], run[n].req);
      }
    }
  }

  /** A lookup finds the session exactly when it is open, and is answered at once
      otherwise; a session that is open has its upstream handle, so a request that
      found it and gets the mutex next goes upstream. */
  lemma {:induction false} LookupFindsIff(run: seq<Step>, q: nat)
    requires Run(run).Some? && Enabled(Run(run).value, Find(q))
    ensures var s := Run(run).value;
            var r, t := s.reqs[q], Next(s, Find(q));
            && Arrive(q, r.kind, r.id) in run
            && if r.kind == Committing && r.id == [] then t.reqs[q].phase == Answered(Invalid)
               else if !Open(run, r.id) then
                 t.reqs[q].phase == Answered(if r.kind == Aborting then AbortOk else NotFound)
               else
                 && t.reqs[q].phase.Waiting?
                 && (Enabled(t, Lock(q)) ==> Next(t, Lock(q)).reqs[q].phase.InFlight?)
  {
    RunInv(run);
    ArrivedAs(run, q);
    OpenInv(run, Run(run).value.reqs[q].id);
  }
}
