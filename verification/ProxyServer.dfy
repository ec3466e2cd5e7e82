/** The proxy as it runs: a registry of shared slots, each updated in place by the
    request that holds its mutex. Every method is one step of the machine. */
module ProxyServer {
  import opened Bytes
  import opened Proxy
  import opened ProxySafety

  class TxnSlot {
    const number: nat
    const id: Key
    const handle: nat
    var session: Option<nat>
    var holder: Option<nat>
    var lastUsed: nat

    constructor (number: nat, id: Key, handle: nat, now: nat)
      ensures this.number == number && Value() == Slot(id, handle, Some(handle), None, now)
    {
      this.number, this.id, this.handle := number, id, handle;
      session, holder, lastUsed := Some(handle), None, now;
    }

    ghost function Value(): Slot
      reads this
    {
      Slot(id, handle, session, holder, lastUsed)
    }
  }

  /** `slots` are the slots kept alive by the registry or by a request; `begun` and
      `closed` only record what happened. */
  class TxnV2Proxy {
    var byId: map<Key, TxnSlot>
    var slots: map<nat, TxnSlot>
    var reqs: map<nat, Req>
    var now: nat
    ghost var begun: set<Key>
    ghost var closed: set<Key>

    ghost predicate Valid()
      reads this
    {
      && (forall x :: x in slots ==> slots[x].number == x)
      && (forall id :: id in byId ==> byId[id].number in slots && slots[byId[id].number] == byId[id])
    }

    ghost function Registry(): map<Key, nat>
      reads this
    {
      map id | id in byId :: byId[id].number
    }

    ghost function Slots(): map<nat, Slot>
      reads this, slots.Values
    {
      map x | x in slots :: slots[x].Value()
    }

    ghost function Contents(): System
      reads this, slots.Values
    {
      System(Registry(), Slots(), reqs, begun, closed, now)
    }

    constructor ()
      ensures Valid() && slots == map[] && Contents() == START
    {
      byId, slots, reqs, now := map[], map[], map[], 0;
      begun, closed := {}, {};
    }

    method Begin(id: Key, number: nat, handle: nat)
      requires Valid() && Enabled(Contents(), Step.Begin(id, number, handle))
      modifies this
      ensures Valid() && Contents() == Next(old(Contents()), Step.Begin(id, number, handle))
      ensures slots.Keys == old(slots.Keys) + {number} && fresh(slots[number])
      ensures forall x :: x in old(slots) ==> slots[x] == old(slots[x])
    {
      var slot := new TxnSlot(number, id, handle, now);
      Register(slot);
      begun := begun + {id};
    }

    /** Adding a new slot leaves the others as they are. */
    method Register(slot: TxnSlot)
      requires Valid() && slot.number !in slots
      modifies this`byId, this`slots
      ensures Valid() && slots == old(slots)[slot.number := slot]
      ensures Registry() == old(Registry())[slot.id := slot.number]
      ensures Slots() == old(Slots())[slot.number := slot.Value()]
    {
      byId := byId[slot.id := slot];
      slots := slots[slot.number := slot];
    }

    method Arrive(q: nat, kind: Kind, id: Key)
      requires Valid() && Enabled(Contents(), Step.Arrive(q, kind, id))
      modifies this
      ensures Valid() && slots == old(slots) && Contents() == Next(old(Contents()), Step.Arrive(q, kind, id))
    {
      reqs := reqs[q := Req(kind, id, Arrived)];
    }

    method Answer(q: nat, p: Phase)
      requires Valid() && q in reqs
      modifies this`reqs
      ensures Valid() && Contents() == Move(old(Contents()), q, p)
    {
      reqs := reqs[q := reqs[q].(phase := p)];
    }

    /** Reads share the registered slot; commit and abort take it out, so that a
        second one finds nothing. */
    method Find(q: nat)
      requires Valid() && Enabled(Contents(), Step.Find(q))
      modifies this
      ensures Valid() && slots == old(slots) && Contents() == Next(old(Contents()), Step.Find(q))
    {
      var r := reqs[q];
      if r.kind.Committing? && r.id == [] {
        Answer(q, Answered(Invalid));
      } else if r.id !in byId {
        Answer(q, Answered(Missing(r.kind)));
      } else {
        var slot := byId[r.id];
        if !r.kind.Reading? {
          byId := byId - {r.id};
        }
        reqs := reqs[q := r.(phase := Waiting(slot.number))];
      }
    }

    /** With the mutex held: a read leaves the session in the slot and touches it,
        commit and abort take the session. */
    method Lock(q: nat)
      requires Valid() && Enabled(Contents(), Step.Lock(q))
      modifies this, slots.Values
      ensures Valid() && slots == old(slots) && Contents() == Next(old(Contents()), Step.Lock(q))
    {
      var r := reqs[q];
      var slot := slots[r.phase.slot];
      if slot.session.None? {
        Answer(q, Answered(Missing(r.kind)));
        return;
      }
      slot.holder := Some(q);
      if r.kind.Reading? {
        slot.lastUsed := now;
      } else {
        slot.session := None;
      }
      reqs := reqs[q := r.(phase := InFlight(slot.number))];
      assert forall x :: x in slots && x != slot.number ==> slots[x] != slot;
    }

    /** Unlocks slot `x`, with or without the session put back. */
    method Release(x: nat, putBack: bool)
      requires Valid() && x in slots
      modifies slots[x]
      ensures Valid()
      ensures var was := old(Slots())[x];
              Slots() == old(Slots())[x := if putBack then was.(holder := None, session := Some(was.handle))
                                           else was.(holder := None)]
    {
      var slot := slots[x];
      slot.holder := None;
      if putBack {
        slot.session := Some(slot.handle);
      }
      assert forall y :: y in slots && y != x ==> slots[y] != slot;
    }

    /** The upstream answer: a commit that failed puts its session back. */
    method Reply(q: nat, outcome: Outcome)
      requires Valid() && Enabled(Contents(), Step.Reply(q, outcome))
      modifies this, slots.Values
      ensures Valid() && slots == old(slots) && Contents() == Next(old(Contents()), Step.Reply(q, outcome))
    {
      var r := reqs[q];
      var x := r.phase.slot;
      var failedCommit := r.kind.Committing? && !outcome.Decided?;
      Release(x, failedCommit);
      var p: Phase;
      match r.kind {
        case Reading =>
          p := if outcome.GoneUpstream? then Forgetting
               else Answered(if outcome.Okay? then Served else UpstreamError);
        case Committing =>
          p := if failedCommit then Reinserting(x) else Answered(if outcome.conflict then Conflict else Committed);
        case Aborting => p := Answered(if outcome.Okay? then AbortOk else UpstreamError);
      }
      Answer(q, p);
      if outcome.Decided? {
        closed := closed + {r.id};
      }
    }

    method Forget(q: nat)
      requires Valid() && Enabled(Contents(), Step.Forget(q))
      modifies this
      ensures Valid() && slots == old(slots) && Contents() == Next(old(Contents()), Step.Forget(q))
    {
      byId := byId - {reqs[q].id};
      reqs := reqs[q := reqs[q].(phase := Answered(NotFound))];
    }

    method Reinsert(q: nat)
      requires Valid() && Enabled(Contents(), Step.Reinsert(q)) && reqs[q].phase.slot in slots
      modifies this
      ensures Valid() && slots == old(slots) && Contents() == Next(old(Contents()), Step.Reinsert(q))
    {
      byId := byId[reqs[q].id := slots[reqs[q].phase.slot]];
      reqs := reqs[q := reqs[q].(phase := Answered(UpstreamError))];
    }

    /** Dropping a request drops the mutex with it, and a session it had taken. */
    method Cancel(q: nat)
      requires Valid() && Enabled(Contents(), Step.Cancel(q))
      modifies this, slots.Values
      ensures Valid() && slots == old(slots) && Contents() == Next(old(Contents()), Step.Cancel(q))
    {
      var r := reqs[q];
      if r.phase.InFlight? && r.phase.slot in slots {
        Release(r.phase.slot, false);
      }
      Answer(q, Answered(Cancelled));
    }

    predicate Recent(id: Key)
      requires id in byId
      reads this, byId[id]
    {
      Idle(now, byId[id].lastUsed) < TXN_PROXY_MAX_IDLE
    }

    method RecentEntries() returns (kept: map<Key, TxnSlot>)
      ensures kept == map id | id in byId && Recent(id) :: byId[id]
    {
      kept := map[];
      var todo := byId.Keys;
      while todo != {}
        invariant todo <= byId.Keys
        invariant kept == map id | id in byId && id !in todo && Recent(id) :: byId[id]
        decreases |todo|
      {
        var id :| id in todo;
        if Recent(id) {
          kept := kept[id := byId[id]];
        }
        todo := todo - {id};
      }
    }

    lemma RecentIsSwept()
      requires Valid()
      ensures Swept(Contents()) == map id | id in byId && Recent(id) :: byId[id].number
    {
      assert forall id :: id in byId ==> Slots()[byId[id].number] == byId[id].Value();
    }

    /** Keeps exactly the entries used within the idle bound. */
    method Sweep()
      requires Valid()
      modifies this
      ensures Valid() && slots == old(slots) && Contents() == Next(old(Contents()), Step.Sweep)
    {
      RecentIsSwept();
      byId := RecentEntries();
      assert Registry() == Swept(old(Contents()));
    }

    method Tick(t: nat)
      requires Valid() && t >= now
      modifies this
      ensures Valid() && slots == old(slots) && Contents() == Next(old(Contents()), Step.Tick(t))
    {
      now := t;
    }
  }

  /** Serves a whole run of steps, and ends in the state the machine ends in. */
  method Serve(run: seq<Step>) returns (proxy: TxnV2Proxy)
    requires Run(run).Some?
    ensures proxy.Valid() && proxy.Contents() == Run(run).value
  {
    proxy := new TxnV2Proxy();
    assert run[..0] == [];
    for i := 0 to |run|
      invariant fresh(proxy) && (forall x :: x in proxy.slots ==> fresh(proxy.slots[x]))
      invariant proxy.Valid() && Run(run[..i]) == Some(proxy.Contents())
    {
      OneMore(run, i);
      RunInv(run[..i]);
      match run[i] {
        case Begin(id, x, handle) => proxy.Begin(id, x, handle);
        case Arrive(q, kind, id) => proxy.Arrive(q, kind, id);
        case Find(q) => proxy.Find(q);
        case Lock(q) => proxy.Lock(q);
        case Reply(q, outcome) => proxy.Reply(q, outcome);
        case Forget(q) => proxy.Forget(q);
        case Reinsert(q) =>
          assert ReqInv(Run(run[..i]).value, q);
          proxy.Reinsert(q);
        case Cancel(q) => proxy.Cancel(q);
        case Sweep => proxy.Sweep();
        case Tick(t) => proxy.Tick(t);
      }
    }
    assert run[..|run|] == run;
  }

  lemma {:induction false} OneMore(run: seq<Step>, n: nat)
    requires Run(run).Some? && n < |run|
    ensures Run(run[..n]).Some? && Enabled(Run(run[..n]).value, run[n])
    ensures Run(run[..n + 1]) == Some(Next(Run(run[..n]).value, run[n]))
    decreases |run| - n
  {
    if n + 1 == |run| {
      assert run[..n + 1] == run;
    } else {
      OneMore(run, n + 1);
    }
    assert run[..n + 1][..n] == run[..n];
  }
}
