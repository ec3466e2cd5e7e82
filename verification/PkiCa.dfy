/** Initialising the certificate authority: many agents, one root. */
module PkiCa {
  import opened Bytes

  datatype CaMaterial = CaMaterial(certPem: Key, keyPem: Key)

  datatype CaRecord = CaRecord(material: CaMaterial, commonName: Key)

  datatype Phase =
    | Looking                       // about to read the store
    | Generating
    | Creating(record: CaRecord)
    | Rereading
    | Ready                         // `init_ca` returned Ok
    | LoadFailed                    // the store had no record to reread
    | Failed

  datatype Call = Call(agent: nat, phase: Phase)

  datatype System = System(store: Option<CaRecord>, loaded: map<nat, CaMaterial>, calls: map<nat, Call>)

  const START := System(None, map[], map[])

  /** `parses` says whether the loader accepts a stored private key; `stale`, that a
      first read at an old floor misses the record. After a refused creation the
      floor stands at that refusal, so the reread is never stale. */
  datatype Step =
    | Begin(id: nat, agent: nat)
    | Get(id: nat, parses: bool, stale: bool)
    | Generate(id: nat, record: CaRecord)
    | Create(id: nat, parses: bool, lost: bool)
    | Reread(id: nat, parses: bool)
    | Fail(id: nat)

  predicate At(s: System, id: nat, p: Phase) {
    id in s.calls && s.calls[id].phase == p
  }

  predicate Enabled(s: System, a: Step) {
    match a
    case Begin(id, _) => id !in s.calls
    case Get(id, _, _) => At(s, id, Looking)
    case Generate(id, _) => At(s, id, Generating)
    case Create(id, _, _) => id in s.calls && s.calls[id].phase.Creating?
    case Reread(id, _) => At(s, id, Rereading)
    case Fail(id) => id in s.calls && !s.calls[id].phase.Ready?
  }

  function Move(s: System, id: nat, p: Phase): System
    requires id in s.calls
  {
    s.(calls := s.calls[id := s.calls[id].(phase := p)])
  }

  function Load(s: System, id: nat, r: CaRecord, parses: bool): System
    requires id in s.calls
  {
    if parses then Move(s, id, Ready).(loaded := s.loaded[s.calls[id].agent := r.material])
    else Move(s, id, Failed)
  }

  function Next(s: System, a: Step): System
    requires Enabled(s, a)
  {
    match a
    case Begin(id, agent) =>
      s.(calls := s.calls[id := Call(agent, if agent in s.loaded then Ready else Looking)])
    case Get(id, parses, stale) =>
      if s.store.Some? && !stale then Load(s, id, s.store.value, parses) else Move(s, id, Generating)
    case Generate(id, r) => Move(s, id, Creating(r))
    case Create(id, parses, lost) =>
      var r := s.calls[id].phase.record;
      if s.store.Some? then Move(s, id, if lost then Failed else Rereading)
      else
        var t := s.(store := Some(r));
        if lost then Move(t, id, Failed) else Load(t, id, r, parses)
    case Reread(id, parses) =>
      if s.store.Some? then Load(s, id, s.store.value, parses) else Move(s, id, LoadFailed)
    case Fail(id) => Move(s, id, Failed)
  }

  function RunFrom(s: System, run: seq<Step>): Option<System>
    decreases |run|
  {
    if run == [] then Some(s)
    else if Enabled(s, run[0]) then RunFrom(Next(s, run[0]), run[1..])
    else None
  }

  ghost predicate Inv(s: System) {
    && (forall a :: a in s.loaded ==> s.store.Some? && s.loaded[a] == s.store.value.material)
    && (forall id :: id in s.calls ==>
          && !s.calls[id].phase.LoadFailed?
          && (s.calls[id].phase.Rereading? ==> s.store.Some?)
          && (s.calls[id].phase.Ready? ==> s.calls[id].agent in s.loaded))
  }

  /** Nothing that was decided is ever changed. */
  ghost predicate Keeps(s: System, t: System) {
    && (s.store.Some? ==> t.store == s.store)
    && (forall a :: a in s.loaded ==> a in t.loaded && t.loaded[a] == s.loaded[a])
  }

  lemma {:induction false} RunKeeps(s: System, run: seq<Step>)
    requires Inv(s) && RunFrom(s, run).Some?
    ensures Inv(RunFrom(s, run).value) && Keeps(s, RunFrom(s, run).value)
    decreases |run|
  {
    if run != [] {
      var t := Next(s, run[0]);
      assert Inv(t) && Keeps(s, t);
      RunKeeps(t, run[1..]);
    }
  }

  /** Agents whose initialisation succeeded hold the same authority, the stored
      one, in every reachable state. A rereader never finds the store empty. */
  lemma {:induction false} CaAgreement(run: seq<Step>, x: nat, y: nat)
    requires RunFrom(START, run).Some?
    requires var s := RunFrom(START, run).value; At(s, x, Ready) && At(s, y, Ready)
    ensures var s := RunFrom(START, run).value;
            var a, b := s.calls[x].agent, s.calls[y].agent;
            && a in s.loaded && b in s.loaded && s.loaded[a] == s.loaded[b]
            && s.store.Some? && s.loaded[a] == s.store.value.material
            && forall id :: id in s.calls ==> !s.calls[id].phase.LoadFailed?
  {
    RunKeeps(START, run);
  }

  /** Once an agent holds an authority, no later step of anyone replaces it. */
  lemma {:induction false} CaIsForever(run: seq<Step>, more: seq<Step>, a: nat)
    requires RunFrom(START, run).Some? && RunFrom(RunFrom(START, run).value, more).Some?
    requires a in RunFrom(START, run).value.loaded
    ensures var s := RunFrom(START, run).value;
            var t := RunFrom(s, more).value;
            a in t.loaded && t.loaded[a] == s.loaded[a] && t.store == s.store
  {
    RunKeeps(START, run);
    RunKeeps(RunFrom(START, run).value, more);
  }

  /** The step breaks off the call, or finds a key it cannot load. */
  predicate Spoils(a: Step, id: nat) {
    match a
    case Get(x, parses, _) => x == id && !parses
    case Create(x, parses, lost) => x == id && (lost || !parses)
    case Reread(x, parses) => x == id && !parses
    case Fail(x) => x == id
    case _ => false
  }

  lemma StepSpoils(s: System, a: Step, id: nat)
    requires Enabled(s, a) && id in Next(s, a).calls && !At(s, id, Failed) && At(Next(s, a), id, Failed)
    ensures Spoils(a, id)
  {
  }

  /** Initialisation fails only for a cause: the call was broken off, the reply to
      its creation was lost, or the key it was to load does not parse. */
  lemma {:induction false} FailureHasCause(s: System, run: seq<Step>, id: nat)
    requires RunFrom(s, run).Some? && !At(s, id, Failed) && At(RunFrom(s, run).value, id, Failed)
    ensures exists i :: 0 <= i < |run| && Spoils(run[i], id)
    decreases |run|
  {
    var t := Next(s, run[0]);
    if At(t, id, Failed) {
      StepSpoils(s, run[0], id);
    } else {
      FailureHasCause(t, run[1..], id);
      var i :| 0 <= i < |run[1..]| && Spoils(run[1..][i], id);
      assert run[i + 1] == run[1..][i];
    }
  }
}
