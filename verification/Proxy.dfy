/** The agent's registry of transaction sessions: requests on one transaction id
    race through lookup, lock, upstream call and reply. */
module Proxy {
  import opened Bytes

  /** Milliseconds: one hour and a minute. */
  const TXN_PROXY_MAX_IDLE := 3_660_000

  function Idle(now: nat, lastUsed: nat): nat {
    if now >= lastUsed then now - lastUsed else 0
  }

  // ----- Requests racing on the registry -----

  datatype Kind = Reading | Committing | Aborting

  datatype Answer = Served | Committed | Conflict | UpstreamError | NotFound | AbortOk | Invalid | Cancelled

  datatype Phase =
    | Arrived
    | Waiting(slot: nat)         // holds the slot, waits for its mutex
    | InFlight(slot: nat)        // holds the mutex, upstream call outstanding
    | Reinserting(slot: nat)     // commit failed, session already put back
    | Forgetting                 // upstream no longer knows the session
    | Answered(answer: Answer)

  datatype Req = Req(kind: Kind, id: Key, phase: Phase)

  /** `handle` is the upstream session the slot was created with. */
  datatype Slot = Slot(id: Key, handle: nat, session: Option<nat>, holder: Option<nat>, lastUsed: nat)

  /** `begun` and `closed`: the transaction ids ever begun, and those answered
      with a commit or a conflict. */
  datatype System = System(registry: map<Key, nat>, slots: map<nat, Slot>, reqs: map<nat, Req>,
                           begun: set<Key>, closed: set<Key>, now: nat)

  const START := System(map[], map[], map[], {}, {}, 0)

  datatype Outcome = Okay | Decided(conflict: bool) | GoneUpstream | Error

  datatype Step =
    | Begin(id: Key, slot: nat, handle: nat)
    | Arrive(req: nat, kind: Kind, id: Key)
    | Find(req: nat)
    | Lock(req: nat)
    | Reply(req: nat, outcome: Outcome)
    | Forget(req: nat)
    | Reinsert(req: nat)
    | Cancel(req: nat)
    | Sweep
    | Tick(now: nat)

  predicate Enabled(s: System, a: Step) {
    match a
    case Begin(id, slot, _) => slot !in s.slots && id !in s.begun
    case Arrive(q, _, _) => q !in s.reqs
    case Find(q) => q in s.reqs && s.reqs[q].phase.Arrived?
    case Lock(q) =>
      q in s.reqs && s.reqs[q].phase.Waiting?
      && s.reqs[q].phase.slot in s.slots && s.slots[s.reqs[q].phase.slot].holder.None?
    case Reply(q, outcome) =>
      q in s.reqs && s.reqs[q].phase.InFlight? && s.reqs[q].phase.slot in s.slots
      && (outcome.Decided? ==> s.reqs[q].kind.Committing?)
      && (outcome.Okay? ==> !s.reqs[q].kind.Committing?)
    case Forget(q) => q in s.reqs && s.reqs[q].phase.Forgetting?
    case Reinsert(q) => q in s.reqs && s.reqs[q].phase.Reinserting?
    case Cancel(q) => q in s.reqs && (s.reqs[q].phase.Arrived? || s.reqs[q].phase.Waiting? || s.reqs[q].phase.InFlight?)
    case Sweep => true
    case Tick(now) => now >= s.now
  }

  function Move(s: System, q: nat, p: Phase): System
    requires q in s.reqs
  {
    s.(reqs := s.reqs[q := s.reqs[q].(phase := p)])
  }

  function SetSlot(s: System, x: nat, slot: Slot): System {
    s.(slots := s.slots[x := slot])
  }

  /** The answer when there is no session to use. */
  function Missing(kind: Kind): Answer {
    if kind.Aborting? then AbortOk else NotFound
  }

  /** A read borrows the registry entry; commit and abort take it out. */
  function AfterFind(s: System, q: nat): System
    requires Enabled(s, Find(q))
  {
    var r := s.reqs[q];
    if r.kind.Committing? && r.id == [] then Move(s, q, Answered(Invalid))
    else if r.id !in s.registry then Move(s, q, Answered(Missing(r.kind)))
    else
      var t := Move(s, q, Waiting(s.registry[r.id]));
      if r.kind.Reading? then t else t.(registry := s.registry - {r.id})
  }

  /** A read leaves the session in the slot; commit and abort take it. */
  function AfterLock(s: System, q: nat): System
    requires Enabled(s, Lock(q))
  {
    var r := s.reqs[q];
    var x := r.phase.slot;
    var slot := s.slots[x];
    if slot.session.None? then Move(s, q, Answered(Missing(r.kind)))
    else
      SetSlot(Move(s, q, InFlight(x)), x,
              if r.kind.Reading? then slot.(holder := Some(q), lastUsed := s.now)
              else slot.(holder := Some(q), session := None))
  }

  function AfterReply(s: System, q: nat, outcome: Outcome): System
    requires Enabled(s, Reply(q, outcome))
  {
    var r := s.reqs[q];
    var x := r.phase.slot;
    var slot := s.slots[x].(holder := None);
    match r.kind
    case Reading =>
      SetSlot(Move(s, q, if outcome.GoneUpstream? then Forgetting
                         else Answered(if outcome.Okay? then Served else UpstreamError)), x, slot)
    case Committing =>
      if outcome.Decided? then
        SetSlot(Move(s, q, Answered(if outcome.conflict then Conflict else Committed)), x, slot)
          .(closed := s.closed + {r.id})
      else
        SetSlot(Move(s, q, Reinserting(x)), x, slot.(session := Some(slot.handle)))
    case Aborting => SetSlot(Move(s, q, Answered(if outcome.Okay? then AbortOk else UpstreamError)), x, slot)
  }

  function AfterCancel(s: System, q: nat): System
    requires Enabled(s, Cancel(q))
  {
    var r := s.reqs[q];
    var t := Move(s, q, Answered(Cancelled));
    if r.phase.InFlight? && r.phase.slot in s.slots then
      SetSlot(t, r.phase.slot, s.slots[r.phase.slot].(holder := None))
    else t
  }

  function Swept(s: System): map<Key, nat> {
    map id | id in s.registry && s.registry[id] in s.slots
             && Idle(s.now, s.slots[s.registry[id]].lastUsed) < TXN_PROXY_MAX_IDLE :: s.registry[id]
  }

  function Next(s: System, a: Step): System
    requires Enabled(s, a)
  {
    match a
    case Begin(id, x, handle) =>
      s.(registry := s.registry[id := x], slots := s.slots[x := Slot(id, handle, Some(handle), None, s.now)],
         begun := s.begun + {id})
    case Arrive(q, kind, id) => s.(reqs := s.reqs[q := Req(kind, id, Arrived)])
    case Find(q) => AfterFind(s, q)
    case Lock(q) => AfterLock(s, q)
    case Reply(q, outcome) => AfterReply(s, q, outcome)
    case Forget(q) => Move(s, q, Answered(NotFound)).(registry := s.registry - {s.reqs[q].id})
    case Reinsert(q) =>
      Move(s, q, Answered(UpstreamError)).(registry := s.registry[s.reqs[q].id := s.reqs[q].phase.slot])
    case Cancel(q) => AfterCancel(s, q)
    case Sweep => s.(registry := Swept(s))
    case Tick(now) => s.(now := now)
  }

  function Run(run: seq<Step>): Option<System> {
    if run == [] then Some(START)
    else
      match Run(run[..|run| - 1])
      case None => None
      case Some(s) => if Enabled(s, run[|run| - 1]) then Some(Next(s, run[|run| - 1])) else None
  }

  // ----- What every step keeps -----

  predicate OnSlot(p: Phase) {
    p.Waiting? || p.InFlight? || p.Reinserting?
  }

  /** A commit or abort that has taken its slot out of the registry. */
  predicate Owns(r: Req) {
    !r.kind.Reading? && OnSlot(r.phase)
  }

  ghost predicate ReqInv(s: System, q: nat)
    requires q in s.reqs
  {
    var r := s.reqs[q];
    && (OnSlot(r.phase) ==>
          r.phase.slot in s.slots && s.slots[r.phase.slot].id == r.id)
    && (r.phase.InFlight? ==>
          s.slots[r.phase.slot].holder == Some(q)
          && (s.slots[r.phase.slot].session.Some? <==> r.kind.Reading?))
    && (r.phase.Reinserting? ==>
          r.kind.Committing? && s.slots[r.phase.slot].session == Some(s.slots[r.phase.slot].handle))
    && (r.phase == Answered(Committed) || r.phase == Answered(Conflict) ==> r.kind.Committing? && r.id in s.closed)
  }

  ghost predicate SlotInv(s: System, x: nat)
    requires x in s.slots
  {
    var slot := s.slots[x];
    && (slot.session.Some? ==> slot.session.value == slot.handle)
    && (slot.holder.Some? ==> slot.holder.value in s.reqs && s.reqs[slot.holder.value].phase == InFlight(x))
    && slot.id in s.begun
    && (slot.id in s.closed ==> slot.session.None? && slot.holder.None?)
  }

  /** The right to commit or abort a slot is never duplicated. */
  ghost predicate TokenInv(s: System) {
    && (forall id :: id in s.registry ==> s.registry[id] in s.slots && s.slots[s.registry[id]].id == id)
    && (forall x, y :: x in s.slots && y in s.slots && s.slots[x].id == s.slots[y].id ==> x == y)
    && (forall q :: q in s.reqs && Owns(s.reqs[q]) ==>
          s.reqs[q].id !in s.registry && s.reqs[q].id !in s.closed)
    && (forall p, q :: p in s.reqs && q in s.reqs && Owns(s.reqs[p]) && Owns(s.reqs[q]) && p != q ==>
          s.reqs[p].id != s.reqs[q].id)
    && (forall id :: id in s.closed ==> id !in s.registry && id in s.begun)
  }

  ghost predicate DecidedOnce(s: System) {
    forall p, q ::
      p in s.reqs && q in s.reqs && IsDecided(s.reqs[p].phase) && IsDecided(s.reqs[q].phase) && p != q ==>
        s.reqs[p].id != s.reqs[q].id
  }

  predicate IsDecided(p: Phase) {
    p == Answered(Committed) || p == Answered(Conflict)
  }

  ghost predicate SystemInv(s: System) {
    && (forall q :: q in s.reqs ==> ReqInv(s, q))
    && (forall x :: x in s.slots ==> SlotInv(s, x))
    && TokenInv(s)
    && DecidedOnce(s)
  }
}
