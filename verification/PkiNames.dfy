/** Which names and lifetimes certificates carry, and what requests are answered,
    in every run of the certificate protocol. */
module PkiNames {
  import opened Bytes
  import opened PkiStore
  import opened PkiRequest
  import opened PkiMeaning
  import opened PkiProtocol
  import opened PkiSafety

  /** A certificate made for `q` to replace `previous`. */
  predicate MadeFor(q: Request, previous: Option<CertRecord>, r: CertRecord) {
    r.commonName == q.cn && r.notAfter == r.notBefore + q.wantTtl
    && Carries(q, previous, r.dnsNames, r.ipAddresses)
  }

  function Previous(c: seq<Issued>, i: nat): Option<CertRecord>
    requires i <= |c|
  {
    if i == 0 then None else Some(c[i - 1].record)
  }

  ghost predicate EntryInv(s: System, cn: Name, i: nat)
    requires i < |Chain(s, cn)|
  {
    var x := Chain(s, cn)[i];
    && x.author in s.calls && !Unsettled(s.calls[x.author].phase)
    && s.calls[x.author].request.cn == cn
    && MadeFor(s.calls[x.author].request, Previous(Chain(s, cn), i), x.record)
  }

  /** The call may still change its request or write. */
  predicate Unsettled(p: Phase) {
    p.ScanActive? || p.ScanHistory? || p.Ready? || p.HasRead? || p.HasSigned? || p.Beaten?
  }

  /** What a call is about to sign, has signed, or was answered. */
  ghost predicate WorkInv(s: System, id: nat)
    requires id in s.calls
  {
    var q, c := s.calls[id].request, Chain(s, s.calls[id].request.cn);
    match s.calls[id].phase
    case HasRead(_, seen, san) => Carries(q, RecordOf(seen), san.dnsNames, san.ipAddresses)
    case HasSigned(_, seen, r) => MadeFor(q, RecordOf(seen), r)
    case Written(r, i, _) => i < |c| && c[i] == Issued(r, id)
    case Answered(r, at, i) => i < |c| && c[i].record == r && (c[i] == Issued(r, id) || Reusable(q, r, at))
    case _ => true
  }

  ghost predicate NamesInv(s: System) {
    && (forall cn, i :: 0 <= i < |Chain(s, cn)| ==> EntryInv(s, cn, i))
    && (forall id :: id in s.calls ==> WorkInv(s, id))
  }

  // ----- Steps that leave the chains alone -----

  /** Only call `id` changes, and not what it had written. */
  ghost predicate OneMoves(s: System, s': System, id: nat) {
    && s'.chains == s.chains
    && (forall x :: x in s.calls && x != id ==> x in s'.calls && s'.calls[x] == s.calls[x])
    && (forall x :: x in s'.calls && x != id ==> x in s.calls)
    && (id in s.calls && !Unsettled(s.calls[id].phase) ==>
          id in s'.calls && s'.calls[id].request == s.calls[id].request && !Unsettled(s'.calls[id].phase))
  }

  lemma MoveKeeps(s: System, s': System, id: nat)
    requires NamesInv(s) && OneMoves(s, s', id) && (id in s'.calls ==> WorkInv(s', id))
    ensures NamesInv(s')
  {
    forall cn, i | 0 <= i < |Chain(s', cn)| ensures EntryInv(s', cn, i) {
      assert Chain(s', cn) == Chain(s, cn) && EntryInv(s, cn, i);
    }
    forall x | x in s'.calls ensures WorkInv(s', x) {
      if x != id {
        assert WorkInv(s, x) && Chain(s', s.calls[x].request.cn) == Chain(s, s.calls[x].request.cn);
      }
    }
  }

  lemma SetPhaseMoves(s: System, id: nat, p: Phase)
    requires id in s.calls && (Unsettled(s.calls[id].phase) || !Unsettled(p))
    ensures OneMoves(s, SetPhase(s, id, p), id)
  {
  }

  lemma ReadWorks(s: System, id: nat, at: nat)
    requires id in s.calls && s.calls[id].phase.Ready? && at < |s.past| && CallInv(s, id)
    requires CallInv(AfterRead(s, id, at), id)
    ensures id in AfterRead(s, id, at).calls && WorkInv(AfterRead(s, id, at), id)
    ensures OneMoves(s, AfterRead(s, id, at), id)
  {
    var q, seen := s.calls[id].request, ActiveOf(s.past[at], s.calls[id].request.cn);
    DecideIff(q, seen, s.now);
    ReadSetsPhase(s, id, at);
    SetPhaseMoves(s, id, AfterRead(s, id, at).calls[id].phase);
    assert Chain(AfterRead(s, id, at), q.cn) == Chain(s, q.cn);
  }

  lemma SignWorks(s: System, id: nat, serial: Key, material: Key)
    requires id in s.calls && s.calls[id].phase.HasRead? && WorkInv(s, id)
    ensures var s' := AfterSign(s, id, serial, material); id in s'.calls && WorkInv(s', id) && OneMoves(s, s', id)
  {
  }

  lemma AckWorks(s: System, id: nat, lost: bool)
    requires id in s.calls && (s.calls[id].phase.Written? || s.calls[id].phase.Beaten?) && WorkInv(s, id)
    ensures var s' := AfterAck(s, id, lost); id in s'.calls && WorkInv(s', id) && OneMoves(s, s', id)
  {
    assert Chain(AfterAck(s, id, lost), s.calls[id].request.cn) == Chain(s, s.calls[id].request.cn);
  }

  // ----- The write that wins -----

  lemma WinAppends(s: System, id: nat)
    requires Writing(s, id) && Wins(s, id) && WorkInv(s, id)
    ensures var s', cn, r := AfterWrite(s, id), s.calls[id].request.cn, s.calls[id].phase.record;
            && Chain(s', cn) == Chain(s, cn) + [Issued(r, id)]
            && (forall x :: x != cn ==> Chain(s', x) == Chain(s, x))
            && MadeFor(s.calls[id].request, Previous(Chain(s, cn), |Chain(s, cn)|), r)
            && s'.calls == s.calls[id := s'.calls[id]] && s'.calls[id].request == s.calls[id].request
            && s'.calls[id].phase == PkiProtocol.Written(r, |Chain(s, cn)|, |s.past|)
  {
    SwapIff(s, id);
  }

  lemma WinKeeps(s: System, id: nat)
    requires NamesInv(s) && Writing(s, id) && Wins(s, id)
    ensures NamesInv(AfterWrite(s, id))
  {
    assert WorkInv(s, id);
    WinAppends(s, id);
    var s', cn := AfterWrite(s, id), s.calls[id].request.cn;
    forall x, i | 0 <= i < |Chain(s', x)| ensures EntryInv(s', x, i) {
      if x == cn && i == |Chain(s, cn)| {
        assert s'.calls[id].request == s.calls[id].request;
      } else {
        assert EntryInv(s, x, i) && Chain(s', x)[i] == Chain(s, x)[i];
        assert Previous(Chain(s', x), i) == Previous(Chain(s, x), i);
      }
    }
    forall x | x in s'.calls ensures WorkInv(s', x) {
      if x != id {
        assert WorkInv(s, x) && s'.calls[x] == s.calls[x];
      }
    }
  }

  lemma LoseKeeps(s: System, id: nat)
    requires NamesInv(s) && Writing(s, id) && !Wins(s, id)
    ensures NamesInv(AfterWrite(s, id))
  {
    MoveKeeps(s, AfterWrite(s, id), id);
  }

  // ----- Every step -----

  lemma BeginWorks(s: System, a: Step)
    requires Enabled(s, a) && (a.Begin? || a.BeginRenew? || a.Fail?)
    ensures var s' := Next(s, a); a.id in s'.calls && WorkInv(s', a.id) && OneMoves(s, s', a.id)
  {
  }

  lemma EnterWorks(s: System, id: nat, cn: Name)
    requires id in s.calls && Unsettled(s.calls[id].phase)
    ensures var s' := Enter(s, id, cn); id in s'.calls && WorkInv(s', id) && OneMoves(s, s', id)
  {
  }

  lemma AskWorks(s: System, a: Step)
    requires Enabled(s, a) && a.Ask?
    ensures var s' := Next(s, a); a.id in s'.calls && WorkInv(s', a.id) && OneMoves(s, s', a.id)
  {
  }

  lemma LookWorks(s: System, a: Step)
    requires Enabled(s, a) && (a.LookActive? || a.LookHistory?)
    ensures var s' := Next(s, a); a.id in s'.calls && WorkInv(s', a.id) && OneMoves(s, s', a.id)
  {
    if a.found.Some? {
      EnterWorks(s, a.id, a.found.value.commonName);
    } else {
      SetPhaseMoves(s, a.id, if a.LookActive? then ScanHistory(s.calls[a.id].phase.serial) else NotFound);
    }
  }

  lemma WriteKeeps(s: System, a: Step)
    requires SystemInv(s) && NamesInv(s) && Enabled(s, a) && a.Write?
    ensures NamesInv(Next(s, a))
  {
    assert CallInv(s, a.id) && ChainInv(s, s.calls[a.id].request.cn);
    if Wins(s, a.id) {
      WinKeeps(s, a.id);
    } else {
      LoseKeeps(s, a.id);
    }
  }

  lemma MoveWorks(s: System, a: Step)
    requires SystemInv(s) && NamesInv(s) && Enabled(s, a) && !a.Write? && !a.Observe? && !a.SetClock?
    ensures var s' := Next(s, a); a.id in s'.calls && WorkInv(s', a.id) && OneMoves(s, s', a.id)
  {
    match a
    case Read(id, at) =>
      NextKeeps(s, a);
      assert CallInv(s, id) && CallInv(Next(s, a), id);
      ReadWorks(s, id, at);
    case Sign(id, serial, material) =>
      assert WorkInv(s, id);
      SignWorks(s, id, serial, material);
    case Ack(id, lost) =>
      assert WorkInv(s, id);
      AckWorks(s, id, lost);
    case Ask(_) => AskWorks(s, a);
    case LookActive(_, _, _) => LookWorks(s, a);
    case LookHistory(_, _, _) => LookWorks(s, a);
    case _ => BeginWorks(s, a);
  }

  lemma NextKeepsNames(s: System, a: Step)
    requires SystemInv(s) && NamesInv(s) && Enabled(s, a)
    ensures NamesInv(Next(s, a))
  {
    if a.Write? {
      WriteKeeps(s, a);
    } else if a.Observe? || a.SetClock? {
      IdleKeeps(s, a);
    } else {
      MoveWorks(s, a);
      MoveKeeps(s, Next(s, a), a.id);
    }
  }

  lemma IdleKeeps(s: System, a: Step)
    requires NamesInv(s) && Enabled(s, a) && (a.Observe? || a.SetClock?)
    ensures NamesInv(Next(s, a))
  {
    if 0 in s.calls {
      assert WorkInv(s, 0);
    }
    MoveKeeps(s, Next(s, a), 0);
  }

  lemma {:induction false} RunNames(run: seq<Step>, v2: set<nat>)
    requires Run(run, v2).Some?
    ensures NamesInv(Run(run, v2).value)
  {
    if run != [] {
      var n := |run| - 1;
      RunInv(run[..n], v2);
      RunNames(run[..n], v2);
      NextKeepsNames(Run(run[..n], v2).value, run[n]);
    }
  }

  // ----- The requests, told from the steps -----

  /** What a call asks for is what the step that began it said; a renewal asks for
      new keys under the name its lookup found, with the names it had. */
  ghost predicate AskedIn(run: seq<Step>, id: nat, call: Call) {
    || Begin(id, call.agent, call.request) in run
    || exists serial, ttl :: BeginRenew(id, call.agent, serial, ttl) in run
                             && call.request == Request(call.request.cn, ttl, true, NO_SAN, true)
  }

  predicate Looks(p: Phase) {
    p.ScanActive? || p.ScanHistory?
  }

  predicate SameAsk(a: Call, b: Call) {
    b.agent == a.agent && b.request == a.request.(cn := b.request.cn)
    && (b.request.cn != a.request.cn ==> Looks(a.phase))
  }

  /** One step of a call, as far as its request goes. */
  predicate KeepsAsk(a: Call, b: Call) {
    SameAsk(a, b) && (Looks(b.phase) ==> Looks(a.phase))
  }

  lemma OthersStay(s: System, a: Step, id: nat)
    requires Enabled(s, a) && id in s.calls && (a.Observe? || a.SetClock? || a.id != id)
    ensures id in Next(s, a).calls && Next(s, a).calls[id] == s.calls[id]
  {
    if a.Read? {
      ReadSetsPhase(s, a.id, a.at);
    }
  }

  lemma WriteKeepsAsk(s: System, a: Step)
    requires Enabled(s, a) && a.Write?
    ensures a.id in Next(s, a).calls && KeepsAsk(s.calls[a.id], Next(s, a).calls[a.id])
  {
  }

  lemma RaceKeepsAsk(s: System, a: Step)
    requires Enabled(s, a) && (a.Read? || a.Sign? || a.Ack? || a.Fail?)
    ensures a.id in Next(s, a).calls && KeepsAsk(s.calls[a.id], Next(s, a).calls[a.id])
  {
    if a.Read? {
      ReadSetsPhase(s, a.id, a.at);
    }
  }

  lemma LookKeepsAsk(s: System, a: Step)
    requires Enabled(s, a) && (a.Ask? || a.LookActive? || a.LookHistory?)
    ensures a.id in Next(s, a).calls && KeepsAsk(s.calls[a.id], Next(s, a).calls[a.id])
  {
  }

  lemma StepKeepsAsk(s: System, a: Step, id: nat)
    requires Enabled(s, a) && id in s.calls
    ensures id in Next(s, a).calls && KeepsAsk(s.calls[id], Next(s, a).calls[id])
  {
    if a.Observe? || a.SetClock? || a.id != id {
      OthersStay(s, a, id);
    } else if a.Ask? || a.LookActive? || a.LookHistory? {
      LookKeepsAsk(s, a);
    } else if a.Write? {
      WriteKeepsAsk(s, a);
    } else {
      RaceKeepsAsk(s, a);
    }
  }

  lemma NewCalls(s: System, a: Step, id: nat)
    requires Enabled(s, a) && id !in s.calls && id in Next(s, a).calls
    ensures (a.Begin? || a.BeginRenew?) && a.id == id
  {
    if a.Read? {
      ReadSetsPhase(s, a.id, a.at);
    }
  }

  lemma StepBegins(s: System, a: Step, id: nat)
    requires Enabled(s, a) && id !in s.calls && id in Next(s, a).calls
    ensures AskedIn([a], id, Next(s, a).calls[id])
    ensures Looks(Next(s, a).calls[id].phase) ==> a.BeginRenew? && a.id == id
  {
    NewCalls(s, a, id);
    assert a in [a];
  }

  lemma AskedGrows(run: seq<Step>, more: seq<Step>, id: nat, call: Call, call': Call)
    requires AskedIn(run, id, call) || AskedIn(more, id, call)
    requires SameAsk(call, call')
    requires call'.request.cn != call.request.cn ==> Begin(id, call.agent, call.request) !in run + more
    ensures AskedIn(run + more, id, call')
  {
    if Begin(id, call.agent, call.request) in run + more {
      assert call'.request == call.request;
    } else {
      var serial, ttl :| BeginRenew(id, call.agent, serial, ttl) in run + more
                         && call.request == Request(call.request.cn, ttl, true, NO_SAN, true);
      assert BeginRenew(id, call'.agent, serial, ttl) in run + more;
    }
  }

  /** A call that still looks up its name was not begun with one. */
  lemma {:induction false} BegunAs(run: seq<Step>, v2: set<nat>, id: nat)
    requires Run(run, v2).Some? && id in Run(run, v2).value.calls
    ensures var call := Run(run, v2).value.calls[id];
            && AskedIn(run, id, call)
            && (Looks(call.phase) ==> forall agent, q :: Begin(id, agent, q) !in run)
  {
    var n := |run| - 1;
    var s := Run(run[..n], v2).value;
    var call' := Next(s, run[n]).calls[id];
    assert run == run[..n] + [run[n]];
    if id in s.calls {
      BegunAs(run[..n], v2, id);
      StepKeepsAsk(s, run[n], id);
      AskedGrows(run[..n], [run[n]], id, s.calls[id], call');
    } else {
      NotBegun(run[..n], v2, id);
      StepBegins(s, run[n], id);
      AskedGrows(run[..n], [run[n]], id, call', call');
    }
  }

  lemma {:induction false} NotBegun(run: seq<Step>, v2: set<nat>, id: nat)
    requires Run(run, v2).Some? && id !in Run(run, v2).value.calls
    ensures forall agent, q :: Begin(id, agent, q) !in run
  {
    if run != [] {
      var n := |run| - 1;
      assert run == run[..n] + [run[n]];
      if id in Run(run[..n], v2).value.calls {
        StepKeepsAsk(Run(run[..n], v2).value, run[n], id);
      }
      NotBegun(run[..n], v2, id);
    }
  }

  // ----- The theorems -----

  /** Every certificate carries the names and the lifetime that the request of its
      author asked for: the requested names, else for a rotation or renewal those
      of the certificate before it, else the common name alone. */
  lemma {:induction false} CertificatesCarryNames(run: seq<Step>, v2: set<nat>, cn: Name, i: nat)
    requires Run(run, v2).Some? && i < |Chain(Run(run, v2).value, cn)|
    ensures var s := Run(run, v2).value;
            var x := Chain(s, cn)[i];
            && x.author in s.calls && AskedIn(run, x.author, s.calls[x.author])
            && s.calls[x.author].request.cn == cn
            && MadeFor(s.calls[x.author].request, Previous(Chain(s, cn), i), x.record)
  {
    RunNames(run, v2);
    assert EntryInv(Run(run, v2).value, cn, i);
    BegunAs(run, v2, Chain(Run(run, v2).value, cn)[i].author);
  }

  /** A caller is answered a certificate it wrote itself, or, if it did not ask for a
      new one, one that has exactly the names and lifetime it asked for and had not
      expired when that was decided. */
  lemma {:induction false} AnswerIsAsAsked(run: seq<Step>, v2: set<nat>, id: nat)
    requires Run(run, v2).Some? && id in Run(run, v2).value.calls && Run(run, v2).value.calls[id].phase.Answered?
    ensures var s := Run(run, v2).value;
            var q, p := s.calls[id].request, s.calls[id].phase;
            && AskedIn(run, id, s.calls[id])
            && p.index < |Chain(s, q.cn)| && Chain(s, q.cn)[p.index].record == p.record
            && (Chain(s, q.cn)[p.index].author == id || Reusable(q, p.record, p.decidedAt))
            && (q.force ==> Chain(s, q.cn)[p.index].author == id)
  {
    RunNames(run, v2);
    BegunAs(run, v2, id);
    assert WorkInv(Run(run, v2).value, id);
  }
}
