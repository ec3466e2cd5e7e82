/** Any number of agents issuing, rotating and renewing certificates against one
    shared store, one message at a time. An agent on the v1 data plane reads the
    latest store. One on the v2 plane reads at its client's floor, the largest commit
    that had been acknowledged to it when the read was issued; before the first
    acknowledgement, anything up to now. */
module PkiProtocol {
  import opened Bytes
  import opened PkiStore
  import opened PkiRequest
  import opened Numbers

  const MAX_REPLACE_ATTEMPTS := 5

  datatype Phase =
    | ScanActive(serial: Key)                                       // renew: looking up the common name
    | ScanHistory(serial: Key)
    | Ready(attempt: nat)
    | HasRead(attempt: nat, seen: Option<Slot>, san: San)
    | HasSigned(attempt: nat, seen: Option<Slot>, record: CertRecord)
    | Written(record: CertRecord, index: nat, upTo: nat)            // applied, the reply is on its way
    | Beaten(attempt: nat, endLen: nat, upTo: nat)                  // refused, the reply is on its way
    | Answered(record: CertRecord, decidedAt: int, index: nat)
    | Lost(index: nat)                                              // written, but the reply never came
    | NotFound
    | Exhausted(endLen: nat)
    | Failed                                                        // refused or broken, nothing written

  /** Whether a read is on its way, with the floor it was issued at. */
  datatype Ask = NotAsked | Asked(floor: Option<nat>)

  /** What held when the call began: how many certificates its name had had
      (`startLen`), how many of them the agent's reads were sure to show
      (`shownLen`), and whether they were sure to show its serial (`known`). */
  datatype Call = Call(agent: nat, request: Request, startLen: nat, shownLen: int, known: bool, ask: Ask,
                       phase: Phase)

  /** A certificate that became active, and the call that wrote it. */
  datatype Issued = Issued(record: CertRecord, author: nat)

  datatype SerialUse = Pending(id: nat) | Spent | Placed(cn: Name, index: nat)

  /** `past` holds every store so far, the current one last; `floors` says at
      which of them an agent's floor stands; `v2` are the agents on that plane. */
  datatype System = System(certs: Certs, past: seq<Certs>, floors: map<nat, nat>, v2: set<nat>,
                           chains: map<Name, seq<Issued>>, serials: map<Key, SerialUse>,
                           calls: map<nat, Call>, now: int)

  function Start(v2: set<nat>): System {
    System(NO_CERTS, [NO_CERTS], map[], v2, map[], map[], map[], 0)
  }

  function Chain(s: System, cn: Name): seq<Issued> {
    if cn in s.chains then s.chains[cn] else []
  }

  predicate IsPlaced(s: System, serial: Key) {
    serial in s.serials && s.serials[serial].Placed?
  }

  /** The stores that a read issued at `floor` may answer from. */
  predicate ReadableAt(s: System, agent: nat, floor: Option<nat>, at: nat) {
    && at < |s.past|
    && (agent !in s.v2 ==> at == |s.past| - 1)
    && (agent in s.v2 && floor.Some? ==> at == floor.value)
  }

  function FloorOf(s: System, agent: nat): Option<nat> {
    if agent in s.floors then Some(s.floors[agent]) else None
  }

  /** How many certificates of a name a read issued at `floor` is sure to show. */
  function ShownAt(s: System, agent: nat, floor: Option<nat>, cn: Name): int {
    if agent !in s.v2 then |Chain(s, cn)|
    else if floor.Some? && floor.value < |s.past| then VersionOf(s.past[floor.value], cn)
    else 0
  }

  /** The same for a read that the agent issues now. */
  function ShownLen(s: System, agent: nat, cn: Name): int {
    ShownAt(s, agent, FloorOf(s, agent), cn)
  }

  predicate IsKnown(s: System, agent: nat, serial: Key) {
    IsPlaced(s, serial) && s.serials[serial].index < ShownLen(s, agent, s.serials[serial].cn)
  }

  /** An acknowledgement raises the agent's floor to the commit acknowledged. */
  function Raise(s: System, agent: nat, upTo: nat): System {
    s.(floors := s.floors[agent := if agent in s.floors then Max(s.floors[agent], upTo) else upTo])
  }

  datatype Step =
    | Begin(id: nat, agent: nat, request: Request)
    | BeginRenew(id: nat, agent: nat, serial: Key, wantTtl: nat)
    | Ask(id: nat)                              // a lookup or read is issued
    | LookActive(id: nat, at: nat, found: Option<CertRecord>)
    | LookHistory(id: nat, at: nat, found: Option<CertRecord>)
    | Read(id: nat, at: nat)
    | Sign(id: nat, serial: Key, material: Key)
    | Write(id: nat)
    | Ack(id: nat, lost: bool)                  // the reply to the write arrives, or never does
    | Fail(id: nat)
    | Observe(agent: nat, upTo: nat)            // some other commit is acknowledged to the agent
    | SetClock(now: int)

  /** A scan answers some matching record, or none when there is none. */
  ghost predicate ActiveScan(st: Certs, serial: Key, found: Option<CertRecord>) {
    match found
    case Some(r) => InActive(st, serial, r)
    case None => forall r :: !InActive(st, serial, r)
  }

  ghost predicate HistoryScan(st: Certs, serial: Key, found: Option<CertRecord>) {
    match found
    case Some(r) => InHistory(st, serial, r)
    case None => forall r :: !InHistory(st, serial, r)
  }

  ghost predicate Enabled(s: System, a: Step) {
    s.past != [] &&
    match a
    case Begin(id, _, q) => id !in s.calls && q.force == q.inherit && IsNormal(q.san)
    case BeginRenew(id, _, _, _) => id !in s.calls
    case Ask(id) => id in s.calls && s.calls[id].ask.NotAsked? && Reads(s.calls[id].phase)
    case LookActive(id, at, found) =>
      Answers(s, id, at) && s.calls[id].phase.ScanActive?
      && ActiveScan(s.past[at], s.calls[id].phase.serial, found)
    case LookHistory(id, at, found) =>
      Answers(s, id, at) && s.calls[id].phase.ScanHistory?
      && HistoryScan(s.past[at], s.calls[id].phase.serial, found)
    case Read(id, at) => Answers(s, id, at) && s.calls[id].phase.Ready?
    case Sign(id, serial, _) => id in s.calls && s.calls[id].phase.HasRead? && serial !in s.serials
    case Write(id) => id in s.calls && s.calls[id].phase.HasSigned?
    case Ack(id, _) => id in s.calls && (s.calls[id].phase.Written? || s.calls[id].phase.Beaten?)
    case Fail(id) => id in s.calls && !Final(s.calls[id].phase) && !s.calls[id].phase.Written?
    case Observe(_, upTo) => upTo < |s.past|
    case SetClock(_) => true
  }

  predicate Reads(p: Phase) {
    p.ScanActive? || p.ScanHistory? || p.Ready?
  }

  /** Store `at` may answer the read that call `id` has issued. */
  predicate Answers(s: System, id: nat, at: nat) {
    && id in s.calls && s.calls[id].ask.Asked?
    && ReadableAt(s, s.calls[id].agent, s.calls[id].ask.floor, at)
  }

  predicate Final(p: Phase) {
    p.Answered? || p.Lost? || p.NotFound? || p.Exhausted? || p.Failed?
  }

  function SetPhase(s: System, id: nat, p: Phase): System
    requires id in s.calls
  {
    s.(calls := s.calls[id := s.calls[id].(phase := p, ask := NotAsked)])
  }

  /** The lookup answered: from here on it is `ensure_cert` for that name. */
  function Enter(s: System, id: nat, cn: Name): System
    requires id in s.calls
  {
    var c := s.calls[id];
    s.(calls := s.calls[id := c.(request := c.request.(cn := cn), startLen := |Chain(s, cn)|,
                                 shownLen := ShownLen(s, c.agent, cn), ask := NotAsked, phase := Ready(0))])
  }

  function AfterRead(s: System, id: nat, at: nat): System
    requires id in s.calls && s.calls[id].phase.Ready? && at < |s.past|
  {
    var c := s.calls[id];
    var seen := ActiveOf(s.past[at], c.request.cn);
    match Decide(c.request, seen, s.now)
    case Answer(r) =>
      var index := if seen.Some? && seen.value.version > 0 then seen.value.version - 1 else 0;
      SetPhase(s, id, Answered(r, s.now, index))
    case SignNew(san) => SetPhase(s, id, HasRead(c.phase.attempt, seen, san))
    case InvalidRequest => SetPhase(s, id, Failed)
  }

  /** Signing: a fresh serial, and validity from now for the wanted lifetime. */
  function AfterSign(s: System, id: nat, serial: Key, material: Key): System
    requires id in s.calls && s.calls[id].phase.HasRead?
  {
    var q, p := s.calls[id].request, s.calls[id].phase;
    var parent := if p.seen.Some? then Some(p.seen.value.record.serial) else None;
    var r := CertRecord(q.cn, material, s.now, s.now + q.wantTtl, serial, Active, parent,
                        p.san.dnsNames, p.san.ipAddresses);
    SetPhase(s, id, HasSigned(p.attempt, p.seen, r)).(serials := s.serials[serial := Pending(id)])
  }

  function Swap(st: Certs, cn: Name, seen: Option<Slot>, record: CertRecord): Option<Certs> {
    match seen
    case None => CreateCert(st, cn, record)
    case Some(slot) => ReplaceActive(st, cn, slot.version, record, Retire(slot.record))
  }

  /** The compare-and-swap takes effect; a refusal is a commit too, of no write. */
  function AfterWrite(s: System, id: nat): System
    requires id in s.calls && s.calls[id].phase.HasSigned? && s.past != []
  {
    var cn, p := s.calls[id].request.cn, s.calls[id].phase;
    var n := |Chain(s, cn)|;
    match Swap(s.certs, cn, p.seen, p.record)
    case Some(st) =>
      SetPhase(s, id, Written(p.record, n, |s.past|))
        .(certs := st,
          past := s.past + [st],
          chains := s.chains[cn := Chain(s, cn) + [Issued(p.record, id)]],
          serials := s.serials[p.record.serial := Placed(cn, n)])
    case None =>
      SetPhase(s, id, Beaten(p.attempt, n, |s.past| - 1)).(serials := s.serials[p.record.serial := Spent])
  }

  function AfterAck(s: System, id: nat, lost: bool): System
    requires id in s.calls && (s.calls[id].phase.Written? || s.calls[id].phase.Beaten?)
  {
    var p, agent := s.calls[id].phase, s.calls[id].agent;
    if lost then SetPhase(s, id, if p.Written? then Lost(p.index) else Failed)
    else
      var next := if p.Written? then Answered(p.record, p.record.notBefore, p.index)
                  else if p.attempt + 1 == MAX_REPLACE_ATTEMPTS then Exhausted(p.endLen)
                  else Ready(p.attempt + 1);
      Raise(SetPhase(s, id, next), agent, p.upTo)
  }

  ghost function Next(s: System, a: Step): System
    requires Enabled(s, a)
  {
    match a
    case Begin(id, agent, q) =>
      s.(calls := s.calls[id := Call(agent, q, |Chain(s, q.cn)|, ShownLen(s, agent, q.cn), false, NotAsked, Ready(0))])
    case BeginRenew(id, agent, serial, ttl) =>
      s.(calls := s.calls[id := Call(agent, Request([], ttl, true, NO_SAN, true), 0, 0, IsKnown(s, agent, serial),
                                     NotAsked, ScanActive(serial))])
    case Ask(id) =>
      s.(calls := s.calls[id := s.calls[id].(ask := Asked(FloorOf(s, s.calls[id].agent)))])
    case LookActive(id, _, found) =>
      if found.Some? then Enter(s, id, found.value.commonName)
      else SetPhase(s, id, ScanHistory(s.calls[id].phase.serial))
    case LookHistory(id, _, found) =>
      if found.Some? then Enter(s, id, found.value.commonName) else SetPhase(s, id, NotFound)
    case Read(id, at) => AfterRead(s, id, at)
    case Sign(id, serial, material) => AfterSign(s, id, serial, material)
    case Write(id) => AfterWrite(s, id)
    case Ack(id, lost) => AfterAck(s, id, lost)
    case Fail(id) => SetPhase(s, id, Failed)
    case Observe(agent, upTo) => Raise(s, agent, upTo)
    case SetClock(now) => s.(now := now)
  }

  /** The state after a sequence of steps, if each is enabled in turn. */
  ghost function Run(run: seq<Step>, v2: set<nat>): Option<System> {
    if run == [] then Some(Start(v2))
    else
      match Run(run[..|run| - 1], v2)
      case None => None
      case Some(s) => if Enabled(s, run[|run| - 1]) then Some(Next(s, run[|run| - 1])) else None
  }
}
