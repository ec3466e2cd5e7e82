/** When certificates were signed and answers decided, told from the run. */
module PkiTimes {
  import opened Bytes
  import opened PkiStore
  import opened PkiProtocol
  import opened PkiSafety
  import opened PkiNames

  /** What the clock shows after these steps. */
  function ClockOf(run: seq<Step>): int {
    if run == [] then 0
    else if run[|run| - 1].SetClock? then run[|run| - 1].now
    else ClockOf(run[..|run| - 1])
  }

  lemma StepClock(s: System, a: Step)
    requires Enabled(s, a)
    ensures Next(s, a).now == if a.SetClock? then a.now else s.now
  {
    if a.Read? {
      ReadSetsPhase(s, a.id, a.at);
    }
  }

  lemma {:induction false} ClockIs(run: seq<Step>, v2: set<nat>)
    requires Run(run, v2).Some?
    ensures Run(run, v2).value.now == ClockOf(run)
  {
    if run != [] {
      ClockIs(run[..|run| - 1], v2);
      StepClock(Run(run[..|run| - 1], v2).value, run[|run| - 1]);
    }
  }

  predicate SignedAt(run: seq<Step>, n: nat, id: nat, r: CertRecord) {
    n < |run| && run[n] == Sign(id, r.serial, r.material) && r.notBefore == ClockOf(run[..n])
  }

  /** The call signed this record, and it is valid from that moment. */
  ghost predicate SignedBy(run: seq<Step>, id: nat, r: CertRecord) {
    exists n: nat :: SignedAt(run, n, id, r)
  }

  predicate ReadAt(run: seq<Step>, n: nat, id: nat, at: int) {
    n < |run| && run[n].Read? && run[n].id == id && at == ClockOf(run[..n])
  }

  ghost predicate ReadBy(run: seq<Step>, id: nat, at: int) {
    exists n: nat :: ReadAt(run, n, id, at)
  }

  ghost predicate TimeInv(run: seq<Step>, id: nat, p: Phase) {
    match p
    case HasSigned(_, _, r) => SignedBy(run, id, r)
    case Written(r, _, _) => SignedBy(run, id, r)
    case Answered(r, at, _) => (SignedBy(run, id, r) && at == r.notBefore) || ReadBy(run, id, at)
    case _ => true
  }

  lemma SignedGrows(run: seq<Step>, a: Step, id: nat, r: CertRecord)
    requires SignedBy(run, id, r)
    ensures SignedBy(run + [a], id, r)
  {
    var n: nat :| SignedAt(run, n, id, r);
    assert (run + [a])[..n] == run[..n];
    assert SignedAt(run + [a], n, id, r);
  }

  lemma TimeGrows(run: seq<Step>, a: Step, id: nat, p: Phase)
    requires TimeInv(run, id, p)
    ensures TimeInv(run + [a], id, p)
  {
    if p.Answered? && ReadBy(run, id, p.decidedAt) {
      var n: nat :| ReadAt(run, n, id, p.decidedAt);
      assert (run + [a])[..n] == run[..n];
      assert ReadAt(run + [a], n, id, p.decidedAt);
    } else if p.HasSigned? || p.Written? || p.Answered? {
      SignedGrows(run, a, id, p.record);
    }
  }

  // ----- Each step -----

  lemma ReadTime(s: System, a: Step, run: seq<Step>)
    requires Enabled(s, a) && a.Read? && s.now == ClockOf(run)
    ensures a.id in Next(s, a).calls && TimeInv(run + [a], a.id, Next(s, a).calls[a.id].phase)
  {
    assert (run + [a])[..|run|] == run;
    assert ReadAt(run + [a], |run|, a.id, s.now);
  }

  lemma SignTime(s: System, a: Step, run: seq<Step>)
    requires Enabled(s, a) && a.Sign? && s.now == ClockOf(run)
    ensures a.id in Next(s, a).calls && TimeInv(run + [a], a.id, Next(s, a).calls[a.id].phase)
  {
    assert (run + [a])[..|run|] == run;
    assert SignedAt(run + [a], |run|, a.id, Next(s, a).calls[a.id].phase.record);
  }

  lemma WriteTime(s: System, a: Step, run: seq<Step>)
    requires Enabled(s, a) && (a.Write? || a.Ack?) && TimeInv(run, a.id, s.calls[a.id].phase)
    ensures a.id in Next(s, a).calls && TimeInv(run + [a], a.id, Next(s, a).calls[a.id].phase)
  {
    TimeGrows(run, a, a.id, s.calls[a.id].phase);
  }

  lemma PlainTime(s: System, a: Step, run: seq<Step>)
    requires Enabled(s, a) && (a.Begin? || a.BeginRenew? || a.Ask? || a.LookActive? || a.LookHistory? || a.Fail?)
    ensures a.id in Next(s, a).calls && TimeInv(run + [a], a.id, Next(s, a).calls[a.id].phase)
  {
  }

  lemma StepTime(s: System, a: Step, run: seq<Step>, id: nat)
    requires Enabled(s, a) && s.now == ClockOf(run) && id in Next(s, a).calls
    requires id in s.calls ==> TimeInv(run, id, s.calls[id].phase)
    ensures TimeInv(run + [a], id, Next(s, a).calls[id].phase)
  {
    if id !in s.calls {
      NewCalls(s, a, id);
      PlainTime(s, a, run);
    } else if a.Observe? || a.SetClock? || a.id != id {
      OthersStay(s, a, id);
      TimeGrows(run, a, id, s.calls[id].phase);
    } else if a.Read? {
      ReadTime(s, a, run);
    } else if a.Sign? {
      SignTime(s, a, run);
    } else if a.Write? || a.Ack? {
      WriteTime(s, a, run);
    } else {
      PlainTime(s, a, run);
    }
  }

  /** A step adds to a chain only what its call had signed. */
  lemma StepChains(s: System, a: Step, cn: Name, i: nat)
    requires Enabled(s, a) && i < |Chain(Next(s, a), cn)|
    ensures (i < |Chain(s, cn)| && Chain(Next(s, a), cn)[i] == Chain(s, cn)[i])
            || (a.Write? && Chain(Next(s, a), cn)[i] == Issued(s.calls[a.id].phase.record, a.id))
  {
    if a.Read? {
      ReadSetsPhase(s, a.id, a.at);
    }
  }

  lemma {:induction false} CallTimes(run: seq<Step>, v2: set<nat>, id: nat)
    requires Run(run, v2).Some? && id in Run(run, v2).value.calls
    ensures TimeInv(run, id, Run(run, v2).value.calls[id].phase)
  {
    var n := |run| - 1;
    var s := Run(run[..n], v2).value;
    if id in s.calls {
      CallTimes(run[..n], v2, id);
    }
    ClockIs(run[..n], v2);
    assert run[..n] + [run[n]] == run;
    StepTime(s, run[n], run[..n], id);
  }

  lemma {:induction false} ChainTimes(run: seq<Step>, v2: set<nat>, cn: Name, i: nat)
    requires Run(run, v2).Some? && i < |Chain(Run(run, v2).value, cn)|
    ensures SignedBy(run, Chain(Run(run, v2).value, cn)[i].author, Chain(Run(run, v2).value, cn)[i].record)
  {
    var n := |run| - 1;
    var s := Run(run[..n], v2).value;
    assert run[..n] + [run[n]] == run;
    StepChains(s, run[n], cn, i);
    if i < |Chain(s, cn)| && Chain(Run(run, v2).value, cn)[i] == Chain(s, cn)[i] {
      ChainTimes(run[..n], v2, cn, i);
      SignedGrows(run[..n], run[n], Chain(s, cn)[i].author, Chain(s, cn)[i].record);
    } else {
      CallTimes(run[..n], v2, run[n].id);
      SignedGrows(run[..n], run[n], run[n].id, s.calls[run[n].id].phase.record);
    }
  }

  // ----- The theorem -----

  /** Every certificate was signed by its author at the moment its validity begins,
      under the serial and material drawn then. An answer was decided when the call
      signed it, or else at one of the call's own reads. */
  lemma {:induction false} CertificatesAreTimely(run: seq<Step>, v2: set<nat>, id: nat)
    requires Run(run, v2).Some? && id in Run(run, v2).value.calls
    ensures var s := Run(run, v2).value;
            && (forall cn, i :: 0 <= i < |Chain(s, cn)| ==>
                  SignedBy(run, Chain(s, cn)[i].author, Chain(s, cn)[i].record))
            && var p := s.calls[id].phase;
               p.Answered? ==>
                 (SignedBy(run, id, p.record) && p.decidedAt == p.record.notBefore) || ReadBy(run, id, p.decidedAt)
  {
    CallTimes(run, v2, id);
    var s := Run(run, v2).value;
    forall cn, i | 0 <= i < |Chain(s, cn)| ensures SignedBy(run, Chain(s, cn)[i].author, Chain(s, cn)[i].record) {
      ChainTimes(run, v2, cn, i);
    }
  }
}
