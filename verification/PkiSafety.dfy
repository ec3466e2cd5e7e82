/** What every interleaving of the certificate protocol keeps. */
module PkiSafety {
  import opened Bytes
  import opened PkiStore
  import opened PkiRequest
  import opened PkiProtocol

  // ----- One common name -----

  /** Each certificate names the one before it as its parent. */
  ghost predicate Linked(c: seq<Issued>, cn: Name) {
    c == [] ||
    var n := |c| - 1;
    && c[n].record.commonName == cn
    && c[n].record.status == Active
    && c[n].record.parentSerial == (if n == 0 then None else Some(c[n - 1].record.serial))
    && Linked(c[..n], cn)
  }

  lemma {:induction false} LinkedAt(c: seq<Issued>, cn: Name, i: nat)
    requires Linked(c, cn) && i < |c|
    ensures c[i].record.commonName == cn && c[i].record.status == Active
    ensures c[i].record.parentSerial == (if i == 0 then None else Some(c[i - 1].record.serial))
  {
    var n := |c| - 1;
    if i < n {
      LinkedAt(c[..n], cn, i);
    }
  }

  /** All certificates but the last, retired, by serial. */
  ghost function RetiredOf(c: seq<Issued>): map<Key, CertRecord> {
    if |c| <= 1 then map[]
    else
      var n := |c| - 1;
      RetiredOf(c[..n])[c[n - 1].record.serial := Retire(c[n - 1].record)]
  }

  ghost predicate DistinctSerials(c: seq<Issued>) {
    forall i, j :: 0 <= i < j < |c| ==> c[i].record.serial != c[j].record.serial
  }

  /** With distinct serials the history holds each earlier certificate, retired,
      under its own serial, and nothing else. */
  lemma {:induction false} RetiredExact(c: seq<Issued>)
    requires DistinctSerials(c)
    ensures forall i :: 0 <= i < |c| - 1 ==>
              c[i].record.serial in RetiredOf(c) && RetiredOf(c)[c[i].record.serial] == Retire(c[i].record)
    ensures forall x :: x in RetiredOf(c) ==> exists i :: 0 <= i < |c| - 1 && c[i].record.serial == x
  {
    if |c| > 1 {
      var n := |c| - 1;
      var d := c[..n];
      RetiredExact(d);
      forall i | 0 <= i < n
        ensures c[i].record.serial in RetiredOf(c) && RetiredOf(c)[c[i].record.serial] == Retire(c[i].record)
      {
        assert d[i] == c[i];
      }
      forall x | x in RetiredOf(c) ensures exists i :: 0 <= i < n && c[i].record.serial == x {
        if x == c[n - 1].record.serial {
        } else {
          assert x in RetiredOf(d);
          var i :| 0 <= i < |d| - 1 && d[i].record.serial == x;
          assert c[i].record.serial == x;
        }
      }
    }
  }

  /** The store shows exactly these certificates of a name: the last one active,
      the others in its history. */
  ghost predicate Shows(st: Certs, cn: Name, c: seq<Issued>) {
    && ActiveOf(st, cn) == (if c == [] then None else Some(Slot(c[|c| - 1].record, |c|)))
    && HistoryOf(st, cn) == RetiredOf(c)
  }

  ghost predicate ChainInv(s: System, cn: Name) {
    var c := Chain(s, cn);
    && Shows(s.certs, cn, c)
    && Linked(c, cn)
    && (forall i :: 0 <= i < |c| ==>
          c[i].record.serial in s.serials && s.serials[c[i].record.serial] == Placed(cn, i))
  }

  /** A call in this phase has written certificate `i` of its name. */
  predicate Wrote(p: Phase, i: nat, r: CertRecord) {
    || p == Lost(i)
    || (p.Written? && p.index == i && p.record == r)
    || (p.Answered? && p.index == i && p.record == r)
  }

  ghost predicate AuthorInv(s: System, cn: Name) {
    var c := Chain(s, cn);
    forall i :: 0 <= i < |c| ==>
      && c[i].author in s.calls && s.calls[c[i].author].request.cn == cn
      && Wrote(s.calls[c[i].author].phase, i, c[i].record)
  }

  ghost predicate SerialInv(s: System, serial: Key)
    requires IsPlaced(s, serial)
  {
    var u := s.serials[serial];
    u.index < |Chain(s, u.cn)| && Chain(s, u.cn)[u.index].record.serial == serial
  }

  // ----- The stores so far -----

  /** An earlier store shows an initial part of the chain. */
  ghost predicate ShowsPrefix(st: Certs, cn: Name, c: seq<Issued>) {
    0 <= VersionOf(st, cn) <= |c| && Shows(st, cn, c[..VersionOf(st, cn)])
  }

  ghost predicate PastAt(s: System, k: nat, cn: Name)
    requires k < |s.past|
  {
    ShowsPrefix(s.past[k], cn, Chain(s, cn))
  }

  ghost predicate Ordered(s: System, j: nat, k: nat, cn: Name)
    requires j <= k < |s.past|
  {
    VersionOf(s.past[j], cn) <= VersionOf(s.past[k], cn)
  }

  ghost predicate PastInv(s: System) {
    && s.past != [] && s.past[|s.past| - 1] == s.certs
    && FloorsInPast(s)
    && (forall k, cn :: 0 <= k < |s.past| ==> PastAt(s, k, cn))
    && (forall j, k, cn :: 0 <= j <= k < |s.past| ==> Ordered(s, j, k, cn))
  }

  /** A read shows at least what the agent is sure to see, and exactly that unless
      nothing was acknowledged to it yet. */
  lemma ReadShows(s: System, agent: nat, floor: Option<nat>, at: nat, cn: Name)
    requires PastInv(s) && ChainInv(s, cn) && ReadableAt(s, agent, floor, at)
    ensures 0 <= ShownAt(s, agent, floor, cn) <= VersionOf(s.past[at], cn) <= |Chain(s, cn)|
    ensures Shows(s.past[at], cn, Chain(s, cn)[..VersionOf(s.past[at], cn)])
    ensures ShownAt(s, agent, floor, cn) > 0 ==> VersionOf(s.past[at], cn) == ShownAt(s, agent, floor, cn)
  {
    assert PastAt(s, at, cn);
  }

  // ----- One call -----

  function SeenVersion(seen: Option<Slot>): int {
    if seen.Some? then seen.value.version else 0
  }

  ghost predicate SeenInv(c: seq<Issued>, seen: Option<Slot>) {
    seen.Some? ==> 0 < seen.value.version <= |c| && c[seen.value.version - 1].record == seen.value.record
  }

  /** After `k` lost races: each was lost to a certificate of its own beyond those
      shown at the start, and all but the first to one written since the start. */
  ghost predicate Paid(call: Call, k: nat, n: int) {
    call.shownLen + k <= n && (k > 0 ==> call.startLen + k - 1 <= n)
  }

  /** A record that an issue request with these parameters would accept. */
  ghost predicate Fits(q: Request, san: San) {
    !q.force ==> EffectiveSan(q.cn, q.san, false, None) == Some(san)
  }

  ghost predicate SignedInv(q: Request, seen: Option<Slot>, r: CertRecord) {
    && r.commonName == q.cn && r.status == Active
    && r.parentSerial == (if seen.Some? then Some(seen.value.record.serial) else None)
    && r.notAfter == r.notBefore + q.wantTtl
    && Fits(q, San(r.dnsNames, r.ipAddresses))
  }

  ghost predicate AnsweredInv(q: Request, r: CertRecord, at: int) {
    && !IsExpired(r, at)
    && (!q.force ==> RecordTtl(r) == q.wantTtl)
    && Fits(q, San(r.dnsNames, r.ipAddresses))
  }

  /** The floor of the read on its way, or else of the next one. */
  function CallFloor(s: System, call: Call): Option<nat> {
    if call.ask.Asked? then call.ask.floor else FloorOf(s, call.agent)
  }

  function ShownTo(s: System, call: Call, cn: Name): int {
    ShownAt(s, call.agent, CallFloor(s, call), cn)
  }

  ghost predicate AskInv(s: System, call: Call) {
    && (call.ask.Asked? ==> Reads(call.phase))
    && (call.ask.Asked? && call.ask.floor.Some? ==>
          call.agent in s.floors && call.ask.floor.value <= s.floors[call.agent])
  }

  ghost predicate LookupInv(s: System, call: Call) {
    match call.phase
    case ScanActive(serial) =>
      call.known ==> IsPlaced(s, serial) && s.serials[serial].index < ShownTo(s, call, s.serials[serial].cn)
    case ScanHistory(serial) =>
      call.known ==> IsPlaced(s, serial) && s.serials[serial].index + 1 < ShownTo(s, call, s.serials[serial].cn)
    case NotFound => !call.known
    case _ => true
  }

  ghost predicate RaceInv(s: System, id: nat, call: Call) {
    var q, c := call.request, Chain(s, call.request.cn);
    match call.phase
    case Ready(k) => k < MAX_REPLACE_ATTEMPTS && Paid(call, k, ShownTo(s, call, q.cn))
    case HasRead(k, seen, san) =>
      k < MAX_REPLACE_ATTEMPTS && SeenInv(c, seen) && Paid(call, k, SeenVersion(seen)) && Fits(q, san)
    case HasSigned(k, seen, r) =>
      k < MAX_REPLACE_ATTEMPTS && SeenInv(c, seen) && Paid(call, k, SeenVersion(seen)) && SignedInv(q, seen, r)
      && r.serial in s.serials && s.serials[r.serial] == Pending(id)
    case Written(r, i, upTo) =>
      i < |c| && c[i].record == r && AnsweredInv(q, r, r.notBefore) && upTo < |s.past|
    case Beaten(k, n, upTo) =>
      && k < MAX_REPLACE_ATTEMPTS && n <= |c| && Paid(call, k + 1, n)
      && upTo < |s.past| && VersionOf(s.past[upTo], q.cn) == n
    case Answered(r, at, i) => i < |c| && c[i].record == r && AnsweredInv(q, r, at)
    case Lost(i) => i < |c|
    case Exhausted(e) => e <= |c| && Paid(call, MAX_REPLACE_ATTEMPTS, e)
    case _ => true
  }

  ghost predicate CallInv(s: System, id: nat)
    requires id in s.calls
  {
    var call := s.calls[id];
    && call.request.force == call.request.inherit
    && call.startLen <= |Chain(s, call.request.cn)|
    && call.shownLen <= call.startLen
    && (call.agent !in s.v2 ==> call.shownLen == call.startLen)
    && AskInv(s, call)
    && LookupInv(s, call)
    && RaceInv(s, id, call)
  }

  ghost predicate SystemInv(s: System) {
    && PastInv(s)
    && (forall cn :: ChainInv(s, cn) && AuthorInv(s, cn))
    && (forall serial :: IsPlaced(s, serial) ==> SerialInv(s, serial))
    && (forall id :: id in s.calls ==> CallInv(s, id))
  }

  // ----- What no step takes back -----

  /** Stores, chains and floors only advance; placed serials stay placed. */
  ghost predicate Advances(s: System, s': System) {
    && s.past <= s'.past && s'.v2 == s.v2
    && (forall a :: a in s.floors ==> a in s'.floors && s.floors[a] <= s'.floors[a])
    && (forall cn :: Chain(s, cn) <= Chain(s', cn))
    && (forall x :: IsPlaced(s, x) ==> IsPlaced(s', x) && s'.serials[x] == s.serials[x])
  }

  /** A later floor shows at least as much. */
  lemma ShownOrdered(s: System, agent: nat, floor: Option<nat>, later: Option<nat>, cn: Name)
    requires PastInv(s) && (later.Some? ==> later.value < |s.past|)
    requires floor.Some? ==> later.Some? && floor.value <= later.value
    ensures 0 <= ShownAt(s, agent, floor, cn) <= ShownAt(s, agent, later, cn)
  {
    if floor.Some? {
      assert PastAt(s, floor.value, cn) && Ordered(s, floor.value, later.value, cn);
    } else if later.Some? {
      assert PastAt(s, later.value, cn);
    }
  }

  lemma ShownGrows(s: System, s': System, call: Call, cn: Name)
    requires PastInv(s) && PastInv(s') && Advances(s, s') && AskInv(s, call)
    ensures ShownTo(s, call, cn) <= ShownTo(s', call, cn)
  {
    var floor, later := CallFloor(s, call), CallFloor(s', call);
    assert |Chain(s, cn)| <= |Chain(s', cn)|;
    assert floor.Some? ==> s'.past[floor.value] == s.past[floor.value];
    ShownOrdered(s', call.agent, floor, later, cn);
  }

  lemma LookupAdvances(s: System, s': System, call: Call)
    requires PastInv(s) && PastInv(s') && Advances(s, s') && AskInv(s, call) && LookupInv(s, call)
    ensures LookupInv(s', call)
  {
    if (call.phase.ScanActive? || call.phase.ScanHistory?) && call.known {
      ShownGrows(s, s', call, s.serials[call.phase.serial].cn);
    }
  }

  lemma RaceAdvances(s: System, s': System, id: nat, call: Call)
    requires PastInv(s) && PastInv(s') && Advances(s, s') && AskInv(s, call) && RaceInv(s, id, call)
    requires forall x :: x in s.serials && s.serials[x] == Pending(id) ==>
                           x in s'.serials && s'.serials[x] == Pending(id)
    ensures RaceInv(s', id, call)
  {
    assert Chain(s, call.request.cn) <= Chain(s', call.request.cn);
    ShownGrows(s, s', call, call.request.cn);
    if call.phase.Beaten? {
      assert s'.past[call.phase.upTo] == s.past[call.phase.upTo];
    }
  }

  /** A call that the step does not concern keeps its invariant. */
  lemma CallAdvances(s: System, s': System, id: nat)
    requires PastInv(s) && PastInv(s') && Advances(s, s')
    requires id in s.calls && id in s'.calls && s'.calls[id] == s.calls[id] && CallInv(s, id)
    requires forall x :: x in s.serials && s.serials[x] == Pending(id) ==>
                           x in s'.serials && s'.serials[x] == Pending(id)
    ensures CallInv(s', id)
  {
    assert Chain(s, s.calls[id].request.cn) <= Chain(s', s.calls[id].request.cn);
    LookupAdvances(s, s', s.calls[id]);
    RaceAdvances(s, s', id, s.calls[id]);
  }

  // ----- Steps that leave the certificates alone -----

  /** Same certificates; serials other than those pending for `id` keep their use. */
  ghost predicate Frame(s: System, s': System, id: nat) {
    && s'.certs == s.certs && s'.past == s.past && s'.v2 == s.v2 && s'.chains == s.chains
    && (forall a :: a in s.floors ==> a in s'.floors && s.floors[a] <= s'.floors[a])
    && (forall a :: a in s'.floors ==> s'.floors[a] < |s.past|)
    && (forall x :: IsPlaced(s', x) <==> IsPlaced(s, x))
    && (forall x :: x in s.serials && s.serials[x] != Pending(id) ==> x in s'.serials && s'.serials[x] == s.serials[x])
  }

  lemma PastFrame(s: System, s': System, id: nat)
    requires Frame(s, s', id) && PastInv(s)
    ensures PastInv(s') && Advances(s, s')
  {
    forall k, cn | 0 <= k < |s'.past| ensures PastAt(s', k, cn) {
      assert PastAt(s, k, cn);
    }
    forall j, k, cn | 0 <= j <= k < |s'.past| ensures Ordered(s', j, k, cn) {
      assert Ordered(s, j, k, cn);
    }
  }

  lemma ChainFrame(s: System, s': System, id: nat, cn: Name)
    requires Frame(s, s', id) && ChainInv(s, cn)
    ensures ChainInv(s', cn) && Chain(s', cn) == Chain(s, cn)
  {
  }

  lemma SerialFrame(s: System, s': System, id: nat, x: Key)
    requires Frame(s, s', id) && IsPlaced(s', x) && SerialInv(s, x)
    ensures SerialInv(s', x)
  {
    assert Chain(s', s.serials[x].cn) == Chain(s, s.serials[x].cn);
  }

  /** Whoever has written a certificate is still on record for it. */
  ghost predicate KeepsCredit(s: System, s': System, x: nat)
    requires x in s.calls
  {
    x in s'.calls && forall i, r :: Wrote(s.calls[x].phase, i, r) ==>
                       Wrote(s'.calls[x].phase, i, r) && s'.calls[x].request.cn == s.calls[x].request.cn
  }

  lemma AuthorFrame(s: System, s': System, cn: Name)
    requires s'.chains == s.chains && AuthorInv(s, cn)
    requires forall x :: x in s.calls ==> KeepsCredit(s, s', x)
    ensures AuthorInv(s', cn)
  {
    assert Chain(s', cn) == Chain(s, cn);
  }

  lemma CallFrame(s: System, s': System, id: nat, x: nat)
    requires Frame(s, s', id) && PastInv(s) && PastInv(s') && Advances(s, s') && x != id
    requires x in s.calls && x in s'.calls && s'.calls[x] == s.calls[x] && CallInv(s, x)
    ensures CallInv(s', x)
  {
    CallAdvances(s, s', x);
  }

  /** Nothing but calls, floors, serials and the clock: what holds of the stores,
      and of every call but `id`, still holds. */
  lemma FrameKeeps(s: System, s': System, id: nat)
    requires SystemInv(s) && Frame(s, s', id)
    requires forall x :: x in s.calls && x != id ==> x in s'.calls && s'.calls[x] == s.calls[x]
    requires forall x :: x in s'.calls && x != id ==> x in s.calls
    requires id in s.calls ==> KeepsCredit(s, s', id)
    requires id in s'.calls ==> CallInv(s', id)
    ensures SystemInv(s')
  {
    PastFrame(s, s', id);
    forall x | x in s.calls ensures KeepsCredit(s, s', x) {
    }
    forall cn ensures ChainInv(s', cn) && AuthorInv(s', cn) {
      ChainFrame(s, s', id, cn);
      AuthorFrame(s, s', cn);
    }
    forall x | IsPlaced(s', x) ensures SerialInv(s', x) {
      SerialFrame(s, s', id, x);
    }
    forall x | x in s'.calls ensures CallInv(s', x) {
      if x != id {
        CallFrame(s, s', id, x);
      }
    }
  }

  /** One unfinished call changes; serials may be taken or spent, not placed. */
  lemma OneCallChanges(s: System, s': System, id: nat)
    requires SystemInv(s) && Frame(s, s', id)
    requires id in s.calls ==> KeepsCredit(s, s', id)
    requires id in s'.calls && s'.calls == s.calls[id := s'.calls[id]]
    requires CallInv(s', id)
    ensures SystemInv(s')
  {
    FrameKeeps(s, s', id);
  }

  lemma ShownBounded(s: System, agent: nat, floor: Option<nat>, cn: Name)
    requires PastInv(s)
    ensures 0 <= ShownAt(s, agent, floor, cn) <= |Chain(s, cn)|
  {
    if floor.Some? && floor.value < |s.past| {
      assert PastAt(s, floor.value, cn);
    }
  }

  lemma BeginKeeps(s: System, a: Step)
    requires SystemInv(s) && Enabled(s, a) && (a.Begin? || a.BeginRenew?)
    ensures SystemInv(Next(s, a))
  {
    var s' := Next(s, a);
    if a.Begin? {
      ShownBounded(s, a.agent, FloorOf(s, a.agent), a.request.cn);
      assert Chain(s', a.request.cn) == Chain(s, a.request.cn);
    }
    assert CallInv(s', a.id);
    OneCallChanges(s, s', a.id);
  }

  lemma EnterCall(s: System, id: nat, cn: Name)
    requires PastInv(s) && id in s.calls && CallInv(s, id)
    ensures CallInv(Enter(s, id, cn), id)
  {
    ShownBounded(s, s.calls[id].agent, FloorOf(s, s.calls[id].agent), cn);
    assert Chain(Enter(s, id, cn), cn) == Chain(s, cn);
  }

  lemma ChainDistinct(s: System, cn: Name)
    requires ChainInv(s, cn)
    ensures DistinctSerials(Chain(s, cn))
  {
  }

  lemma PrefixDistinct(c: seq<Issued>, n: nat)
    requires DistinctSerials(c) && n <= |c|
    ensures DistinctSerials(c[..n])
  {
  }

  lemma LastIsActive(st: Certs, cn: Name, c: seq<Issued>)
    requires Shows(st, cn, c) && c != []
    ensures InActive(st, c[|c| - 1].record.serial, c[|c| - 1].record)
  {
    assert ActiveOf(st, cn) == Some(st.active[cn]);
  }

  lemma EarlierIsRetired(st: Certs, cn: Name, c: seq<Issued>, i: nat)
    requires Shows(st, cn, c) && DistinctSerials(c) && i + 1 < |c|
    ensures InHistory(st, c[i].record.serial, Retire(c[i].record))
  {
    RetiredExact(c);
    assert cn in st.history;
  }

  /** A serial that a scan of the active records is sure to cover, and misses, is
      in the history for good. */
  lemma MissedIsRetired(s: System, agent: nat, floor: Option<nat>, at: nat, serial: Key)
    requires PastInv(s) && ReadableAt(s, agent, floor, at) && IsPlaced(s, serial)
    requires s.serials[serial].index < ShownAt(s, agent, floor, s.serials[serial].cn)
    requires SerialInv(s, serial) && ChainInv(s, s.serials[serial].cn)
    requires forall r :: !InActive(s.past[at], serial, r)
    ensures s.serials[serial].index + 1 < ShownAt(s, agent, floor, s.serials[serial].cn)
  {
    var u := s.serials[serial];
    ReadShows(s, agent, floor, at, u.cn);
    var n := VersionOf(s.past[at], u.cn);
    LastIsActive(s.past[at], u.cn, Chain(s, u.cn)[..n]);
  }

  lemma RetiredIsFound(s: System, agent: nat, floor: Option<nat>, at: nat, serial: Key)
    requires PastInv(s) && ReadableAt(s, agent, floor, at) && IsPlaced(s, serial)
    requires SerialInv(s, serial) && ChainInv(s, s.serials[serial].cn)
    requires s.serials[serial].index + 1 < ShownAt(s, agent, floor, s.serials[serial].cn)
    ensures exists r :: InHistory(s.past[at], serial, r)
  {
    var u := s.serials[serial];
    var c := Chain(s, u.cn);
    ReadShows(s, agent, floor, at, u.cn);
    var n := VersionOf(s.past[at], u.cn);
    ChainDistinct(s, u.cn);
    PrefixDistinct(c, n);
    EarlierIsRetired(s.past[at], u.cn, c[..n], u.index);
  }

  lemma SetPhaseFrame(s: System, id: nat, p: Phase)
    requires id in s.calls && FloorsInPast(s) && !Final(s.calls[id].phase) && !s.calls[id].phase.Written?
    ensures var s' := SetPhase(s, id, p);
            KeepsCredit(s, s', id) && Frame(s, s', id) && id in s'.calls && s'.calls == s.calls[id := s'.calls[id]]
  {
  }

  lemma EnterFrame(s: System, id: nat, cn: Name)
    requires id in s.calls && FloorsInPast(s) && Reads(s.calls[id].phase)
    ensures var s' := Enter(s, id, cn);
            KeepsCredit(s, s', id) && Frame(s, s', id) && id in s'.calls && s'.calls == s.calls[id := s'.calls[id]]
  {
  }

  lemma LookFrame(s: System, a: Step)
    requires (a.LookActive? || a.LookHistory?) && Enabled(s, a) && FloorsInPast(s)
    ensures var s', id := Next(s, a), a.id;
            KeepsCredit(s, s', id) && Frame(s, s', id) && id in s'.calls && s'.calls == s.calls[id := s'.calls[id]]
  {
    if a.found.Some? {
      EnterFrame(s, a.id, a.found.value.commonName);
    } else {
      SetPhaseFrame(s, a.id, Next(s, a).calls[a.id].phase);
    }
  }

  lemma LookActiveCall(s: System, a: Step)
    requires a.LookActive? && Enabled(s, a) && PastInv(s) && CallInv(s, a.id)
    requires s.calls[a.id].known ==>
               SerialInv(s, s.calls[a.id].phase.serial) && ChainInv(s, s.serials[s.calls[a.id].phase.serial].cn)
    ensures CallInv(Next(s, a), a.id)
  {
    var call := s.calls[a.id];
    if a.found.Some? {
      EnterCall(s, a.id, a.found.value.commonName);
    } else {
      if call.known {
        MissedIsRetired(s, call.agent, call.ask.floor, a.at, call.phase.serial);
        ShownOrdered(s, call.agent, call.ask.floor, FloorOf(s, call.agent), s.serials[call.phase.serial].cn);
      }
      var s' := SetPhase(s, a.id, ScanHistory(call.phase.serial));
      assert LookupInv(s', s'.calls[a.id]);
      assert Chain(s', call.request.cn) == Chain(s, call.request.cn);
    }
  }

  lemma LookActiveKeeps(s: System, a: Step)
    requires SystemInv(s) && Enabled(s, a) && a.LookActive?
    ensures SystemInv(Next(s, a))
  {
    var call := s.calls[a.id];
    assert CallInv(s, a.id);
    if call.known {
      assert SerialInv(s, call.phase.serial) && ChainInv(s, s.serials[call.phase.serial].cn);
    }
    LookActiveCall(s, a);
    LookFrame(s, a);
    OneCallChanges(s, Next(s, a), a.id);
  }

  lemma LookHistoryCall(s: System, a: Step)
    requires a.LookHistory? && Enabled(s, a) && PastInv(s) && CallInv(s, a.id)
    requires s.calls[a.id].known ==>
               SerialInv(s, s.calls[a.id].phase.serial) && ChainInv(s, s.serials[s.calls[a.id].phase.serial].cn)
    ensures CallInv(Next(s, a), a.id)
  {
    var call := s.calls[a.id];
    if a.found.Some? {
      EnterCall(s, a.id, a.found.value.commonName);
    } else {
      if call.known {
        RetiredIsFound(s, call.agent, call.ask.floor, a.at, call.phase.serial);
      }
      assert Chain(Next(s, a), call.request.cn) == Chain(s, call.request.cn);
    }
  }

  lemma LookHistoryKeeps(s: System, a: Step)
    requires SystemInv(s) && Enabled(s, a) && a.LookHistory?
    ensures SystemInv(Next(s, a))
  {
    var call := s.calls[a.id];
    assert CallInv(s, a.id);
    if call.known {
      assert SerialInv(s, call.phase.serial) && ChainInv(s, s.serials[call.phase.serial].cn);
    }
    LookHistoryCall(s, a);
    LookFrame(s, a);
    OneCallChanges(s, Next(s, a), a.id);
  }

  lemma DecideFits(q: Request, seen: Option<Slot>, now: int)
    requires q.force == q.inherit
    ensures var d := Decide(q, seen, now);
            && (d.Answer? ==> seen.Some? && d.record == seen.value.record && AnsweredInv(q, d.record, now))
            && (d.SignNew? ==> Fits(q, d.san))
  {
  }

  lemma SeenIsShown(st: Certs, cn: Name, c: seq<Issued>)
    requires ShowsPrefix(st, cn, c)
    ensures SeenInv(c, ActiveOf(st, cn)) && SeenVersion(ActiveOf(st, cn)) == VersionOf(st, cn)
  {
  }

  /** The three outcomes of a read, each within the invariant of its phase. */
  lemma ReadRace(s: System, id: nat, at: nat)
    requires id in s.calls && s.calls[id].phase.Ready? && at < |s.past| && RaceInv(s, id, s.calls[id])
    requires s.calls[id].request.force == s.calls[id].request.inherit
    requires ShowsPrefix(s.past[at], s.calls[id].request.cn, Chain(s, s.calls[id].request.cn))
    requires ShownTo(s, s.calls[id], s.calls[id].request.cn) <= VersionOf(s.past[at], s.calls[id].request.cn)
    ensures RaceInv(AfterRead(s, id, at), id, AfterRead(s, id, at).calls[id])
  {
    var call, cn := s.calls[id], s.calls[id].request.cn;
    var seen := ActiveOf(s.past[at], cn);
    SeenIsShown(s.past[at], cn, Chain(s, cn));
    DecideFits(call.request, seen, s.now);
    var s' := AfterRead(s, id, at);
    assert Chain(s', cn) == Chain(s, cn);
  }

  ghost predicate FloorsInPast(s: System) {
    forall a :: a in s.floors ==> s.floors[a] < |s.past|
  }

  lemma ReadSetsPhase(s: System, id: nat, at: nat)
    requires id in s.calls && s.calls[id].phase.Ready? && at < |s.past|
    ensures var s' := AfterRead(s, id, at);
            && id in s'.calls && s' == SetPhase(s, id, s'.calls[id].phase)
            && !s'.calls[id].phase.ScanActive? && !s'.calls[id].phase.ScanHistory? && !s'.calls[id].phase.NotFound?
  {
  }

  lemma ReadCall(s: System, id: nat, at: nat)
    requires id in s.calls && s.calls[id].phase.Ready? && CallInv(s, id) && ChainInv(s, s.calls[id].request.cn)
    requires PastInv(s) && Answers(s, id, at)
    ensures CallInv(AfterRead(s, id, at), id)
  {
    ReadSetsPhase(s, id, at);
    var call, cn := s.calls[id], s.calls[id].request.cn;
    ReadShows(s, call.agent, call.ask.floor, at, cn);
    ReadRace(s, id, at);
    assert Chain(AfterRead(s, id, at), cn) == Chain(s, cn);
  }

  lemma ReadKeeps(s: System, a: Step)
    requires SystemInv(s) && Enabled(s, a) && a.Read?
    ensures SystemInv(Next(s, a))
  {
    assert CallInv(s, a.id) && ChainInv(s, s.calls[a.id].request.cn);
    ReadSetsPhase(s, a.id, a.at);
    SetPhaseFrame(s, a.id, AfterRead(s, a.id, a.at).calls[a.id].phase);
    ReadCall(s, a.id, a.at);
    OneCallChanges(s, AfterRead(s, a.id, a.at), a.id);
  }

  lemma SignCall(s: System, a: Step)
    requires a.Sign? && Enabled(s, a) && CallInv(s, a.id)
    ensures CallInv(Next(s, a), a.id)
  {
    assert Chain(Next(s, a), s.calls[a.id].request.cn) == Chain(s, s.calls[a.id].request.cn);
  }

  lemma SignKeeps(s: System, a: Step)
    requires SystemInv(s) && Enabled(s, a) && a.Sign?
    ensures SystemInv(Next(s, a))
  {
    assert CallInv(s, a.id);
    SignCall(s, a);
    OneCallChanges(s, Next(s, a), a.id);
  }

  // ----- The compare-and-swap -----

  /** It succeeds exactly when the name was not written since the store that was read. */
  lemma SwapIff(s: System, id: nat)
    requires id in s.calls && s.calls[id].phase.HasSigned? && CallInv(s, id) && ChainInv(s, s.calls[id].request.cn)
    ensures var call := s.calls[id];
            Swap(s.certs, call.request.cn, call.phase.seen, call.phase.record).Some?
            <==> |Chain(s, call.request.cn)| == SeenVersion(call.phase.seen)
  {
  }

  predicate Wins(s: System, id: nat)
    requires id in s.calls && s.calls[id].phase.HasSigned?
  {
    var call := s.calls[id];
    Swap(s.certs, call.request.cn, call.phase.seen, call.phase.record).Some?
  }

  ghost predicate Writing(s: System, id: nat) {
    && PastInv(s) && id in s.calls && s.calls[id].phase.HasSigned?
    && CallInv(s, id) && ChainInv(s, s.calls[id].request.cn)
  }

  lemma LostRaceFrame(s: System, id: nat)
    requires Writing(s, id) && !Wins(s, id)
    ensures Frame(s, AfterWrite(s, id), id) && KeepsCredit(s, AfterWrite(s, id), id)
  {
  }

  lemma LostRaceCall(s: System, id: nat)
    requires Writing(s, id) && !Wins(s, id)
    ensures CallInv(AfterWrite(s, id), id)
  {
    var cn, s' := s.calls[id].request.cn, AfterWrite(s, id);
    SwapIff(s, id);
    ShownWhole(s.certs, cn, Chain(s, cn));
    assert Chain(s', cn) == Chain(s, cn);
  }

  lemma LostRaceKeeps(s: System, a: Step)
    requires SystemInv(s) && Enabled(s, a) && a.Write? && !Wins(s, a.id)
    ensures SystemInv(Next(s, a))
  {
    assert CallInv(s, a.id) && ChainInv(s, s.calls[a.id].request.cn);
    LostRaceFrame(s, a.id);
    LostRaceCall(s, a.id);
    OneCallChanges(s, AfterWrite(s, a.id), a.id);
  }

  // ----- The reply to it -----

  lemma AckFrame(s: System, id: nat, lost: bool)
    requires PastInv(s) && id in s.calls && CallInv(s, id) && (s.calls[id].phase.Written? || s.calls[id].phase.Beaten?)
    ensures Frame(s, AfterAck(s, id, lost), id) && KeepsCredit(s, AfterAck(s, id, lost), id)
    ensures var s' := AfterAck(s, id, lost);
            id in s'.calls && s'.calls == s.calls[id := s'.calls[id]]
  {
  }

  /** After a refusal every later read of the call shows what beat it. */
  lemma AckShows(s: System, id: nat)
    requires PastInv(s) && id in s.calls && CallInv(s, id) && s.calls[id].phase.Beaten?
    ensures var s' := AfterAck(s, id, false);
            ShownLen(s', s.calls[id].agent, s.calls[id].request.cn) >= s.calls[id].phase.endLen
  {
    var s', call := AfterAck(s, id, false), s.calls[id];
    var cn := call.request.cn;
    AckFrame(s, id, false);
    PastFrame(s, s', id);
    assert Chain(s', cn) == Chain(s, cn);
    ShownOrdered(s', call.agent, Some(call.phase.upTo), FloorOf(s', call.agent), cn);
  }

  lemma AckCall(s: System, id: nat, lost: bool)
    requires PastInv(s) && id in s.calls && CallInv(s, id) && (s.calls[id].phase.Written? || s.calls[id].phase.Beaten?)
    ensures CallInv(AfterAck(s, id, lost), id)
  {
    var s', cn := AfterAck(s, id, lost), s.calls[id].request.cn;
    assert Chain(s', cn) == Chain(s, cn);
    if s.calls[id].phase.Beaten? && !lost {
      AckShows(s, id);
    }
  }

  lemma AckKeeps(s: System, a: Step)
    requires SystemInv(s) && Enabled(s, a) && a.Ack?
    ensures SystemInv(Next(s, a))
  {
    assert CallInv(s, a.id);
    AckFrame(s, a.id, a.lost);
    AckCall(s, a.id, a.lost);
    OneCallChanges(s, AfterAck(s, a.id, a.lost), a.id);
  }

  lemma AskKeeps(s: System, a: Step)
    requires SystemInv(s) && Enabled(s, a) && a.Ask?
    ensures SystemInv(Next(s, a))
  {
    var s' := Next(s, a);
    assert CallInv(s, a.id);
    assert Chain(s', s.calls[a.id].request.cn) == Chain(s, s.calls[a.id].request.cn);
    AskCall(s, a);
    OneCallChanges(s, s', a.id);
  }

  lemma AskCall(s: System, a: Step)
    requires a.Ask? && Enabled(s, a) && CallInv(s, a.id)
    ensures CallInv(Next(s, a), a.id)
  {
    var s', call := Next(s, a), s.calls[a.id];
    assert Chain(s', call.request.cn) == Chain(s, call.request.cn);
    assert ShownTo(s', s'.calls[a.id], call.request.cn) == ShownTo(s, call, call.request.cn);
    if !call.phase.Ready? && call.known {
      var cn := s.serials[call.phase.serial].cn;
      assert Chain(s', cn) == Chain(s, cn);
      assert ShownTo(s', s'.calls[a.id], cn) == ShownTo(s, call, cn);
    }
  }

  lemma RetiredSnoc(c: seq<Issued>, x: Issued)
    ensures RetiredOf(c + [x])
         == if c == [] then map[] else RetiredOf(c)[c[|c| - 1].record.serial := Retire(c[|c| - 1].record)]
  {
    assert (c + [x])[..|c|] == c;
  }

  lemma SwapTouchesOne(st: Certs, cn: Name, seen: Option<Slot>, record: CertRecord, x: Name)
    requires Swap(st, cn, seen, record).Some? && x != cn
    ensures var st' := Swap(st, cn, seen, record).value;
            ActiveOf(st', x) == ActiveOf(st, x) && HistoryOf(st', x) == HistoryOf(st, x)
  {
  }

  /** The winner's certificate is appended, its parent the one it replaced. */
  lemma WonRaceStore(s: System, id: nat)
    requires Writing(s, id) && Wins(s, id)
    ensures var s', cn := AfterWrite(s, id), s.calls[id].request.cn;
            var c' := Chain(s, cn) + [Issued(s.calls[id].phase.record, id)];
            && Chain(s', cn) == c' && Shows(s'.certs, cn, c') && Linked(c', cn)
            && (forall x :: x != cn ==> ActiveOf(s'.certs, x) == ActiveOf(s.certs, x)
                                        && HistoryOf(s'.certs, x) == HistoryOf(s.certs, x))
  {
    var c, r := Chain(s, s.calls[id].request.cn), s.calls[id].phase.record;
    SwapIff(s, id);
    RetiredSnoc(c, Issued(r, id));
    assert (c + [Issued(r, id)])[..|c|] == c;
    var cn, seen := s.calls[id].request.cn, s.calls[id].phase.seen;
    forall x | x != cn
      ensures var s' := AfterWrite(s, id);
              ActiveOf(s'.certs, x) == ActiveOf(s.certs, x) && HistoryOf(s'.certs, x) == HistoryOf(s.certs, x)
    {
      SwapTouchesOne(s.certs, cn, seen, r, x);
    }
  }

  lemma WonRaceSerials(s: System, id: nat, cn: Name)
    requires Writing(s, id) && Wins(s, id) && ChainInv(s, cn)
    ensures var s' := AfterWrite(s, id);
            forall i :: 0 <= i < |Chain(s, cn)| ==>
              var x := Chain(s, cn)[i].record.serial; x in s'.serials && s'.serials[x] == Placed(cn, i)
  {
  }

  lemma SameShows(st: Certs, st': Certs, cn: Name, c: seq<Issued>)
    requires Shows(st, cn, c) && ActiveOf(st', cn) == ActiveOf(st, cn) && HistoryOf(st', cn) == HistoryOf(st, cn)
    ensures Shows(st', cn, c)
  {
  }

  lemma WonRaceShows(s: System, id: nat, cn: Name)
    requires Writing(s, id) && Wins(s, id) && ChainInv(s, cn)
    ensures var s' := AfterWrite(s, id); Shows(s'.certs, cn, Chain(s', cn)) && Linked(Chain(s', cn), cn)
  {
    var s' := AfterWrite(s, id);
    WonRaceStore(s, id);
    if cn != s.calls[id].request.cn {
      assert Chain(s', cn) == Chain(s, cn);
      SameShows(s.certs, s'.certs, cn, Chain(s, cn));
    }
  }

  lemma WonRaceChain(s: System, id: nat, cn: Name)
    requires Writing(s, id) && Wins(s, id) && ChainInv(s, cn)
    ensures ChainInv(AfterWrite(s, id), cn)
  {
    var s', c := AfterWrite(s, id), Chain(s, cn);
    WonRaceShows(s, id, cn);
    WonRaceSerials(s, id, cn);
    forall i | 0 <= i < |Chain(s', cn)|
      ensures var x := Chain(s', cn)[i].record.serial; x in s'.serials && s'.serials[x] == Placed(cn, i)
    {
      if i < |c| {
        assert Chain(s', cn)[i] == c[i];
      }
    }
  }

  lemma WonRaceAuthors(s: System, id: nat, x: Name)
    requires Writing(s, id) && Wins(s, id) && AuthorInv(s, x)
    ensures AuthorInv(AfterWrite(s, id), x)
  {
    var s' := AfterWrite(s, id);
    forall i | 0 <= i < |Chain(s, x)| ensures Chain(s', x)[i] == Chain(s, x)[i] && Chain(s, x)[i].author != id {
    }
  }

  lemma WonRaceAdvances(s: System, id: nat)
    requires Writing(s, id) && Wins(s, id)
    ensures Advances(s, AfterWrite(s, id))
  {
    var s' := AfterWrite(s, id);
    forall cn ensures Chain(s, cn) <= Chain(s', cn) {
    }
  }

  lemma PrefixStays(st: Certs, cn: Name, c: seq<Issued>, d: seq<Issued>)
    requires ShowsPrefix(st, cn, c) && c <= d
    ensures ShowsPrefix(st, cn, d)
  {
    assert d[..VersionOf(st, cn)] == c[..VersionOf(st, cn)];
  }

  lemma ShownWhole(st: Certs, cn: Name, c: seq<Issued>)
    requires Shows(st, cn, c)
    ensures VersionOf(st, cn) == |c| && ShowsPrefix(st, cn, c)
  {
    assert c[..|c|] == c;
    assert ActiveOf(st, cn).Some? <==> cn in st.active;
  }

  lemma WonRaceOrdered(s: System, id: nat, j: nat, k: nat, cn: Name)
    requires Writing(s, id) && Wins(s, id) && ChainInv(s, cn) && j <= k <= |s.past|
    ensures Ordered(AfterWrite(s, id), j, k, cn)
  {
    var s', n := AfterWrite(s, id), |s.past|;
    if k < n {
      assert Ordered(s, j, k, cn);
    } else if j < n {
      assert PastAt(s, j, cn);
      WonRaceAdvances(s, id);
      assert Chain(s, cn) <= Chain(s', cn);
      WonRaceChain(s, id, cn);
      ShownWhole(s'.certs, cn, Chain(s', cn));
    }
  }

  lemma WonRacePast(s: System, id: nat)
    requires SystemInv(s) && Writing(s, id) && Wins(s, id)
    ensures PastInv(AfterWrite(s, id))
  {
    var s' := AfterWrite(s, id);
    forall k, cn | 0 <= k < |s'.past| ensures PastAt(s', k, cn) {
      WonRacePastAt(s, id, k, cn);
    }
    forall j, k, cn | 0 <= j <= k < |s'.past| ensures Ordered(s', j, k, cn) {
      WonRaceOrdered(s, id, j, k, cn);
    }
  }

  lemma WonRacePastAt(s: System, id: nat, k: nat, cn: Name)
    requires Writing(s, id) && Wins(s, id) && ChainInv(s, cn) && k <= |s.past|
    ensures PastAt(AfterWrite(s, id), k, cn)
  {
    var s' := AfterWrite(s, id);
    WonRaceAdvances(s, id);
    if k < |s.past| {
      assert PastAt(s, k, cn);
      PrefixStays(s.past[k], cn, Chain(s, cn), Chain(s', cn));
    } else {
      WonRaceChain(s, id, cn);
      ShownWhole(s'.certs, cn, Chain(s', cn));
    }
  }

  lemma WonRaceOwner(s: System, id: nat)
    requires Writing(s, id) && Wins(s, id)
    ensures CallInv(AfterWrite(s, id), id)
  {
  }

  lemma WonRaceSerial(s: System, id: nat, x: Key)
    requires Writing(s, id) && Wins(s, id)
    requires IsPlaced(AfterWrite(s, id), x) && (IsPlaced(s, x) ==> SerialInv(s, x))
    ensures SerialInv(AfterWrite(s, id), x)
  {
    if x != s.calls[id].phase.record.serial {
      WonRaceAdvances(s, id);
      assert Chain(s, s.serials[x].cn) <= Chain(AfterWrite(s, id), s.serials[x].cn);
    }
  }

  lemma WonRaceCall(s: System, id: nat, x: nat)
    requires Writing(s, id) && Wins(s, id) && PastInv(AfterWrite(s, id)) && x in s.calls && CallInv(s, x)
    ensures CallInv(AfterWrite(s, id), x)
  {
    if x == id {
      WonRaceOwner(s, id);
    } else {
      WonRaceAdvances(s, id);
      CallAdvances(s, AfterWrite(s, id), x);
    }
  }

  lemma WonRaceKeeps(s: System, a: Step)
    requires SystemInv(s) && Enabled(s, a) && a.Write? && Wins(s, a.id)
    ensures SystemInv(Next(s, a))
  {
    var s' := AfterWrite(s, a.id);
    assert CallInv(s, a.id) && ChainInv(s, s.calls[a.id].request.cn);
    assert Writing(s, a.id);
    WonRacePast(s, a.id);
    forall x ensures ChainInv(s', x) && AuthorInv(s', x) {
      assert ChainInv(s, x) && AuthorInv(s, x);
      WonRaceAuthors(s, a.id, x);
      WonRaceChain(s, a.id, x);
    }
    forall x | IsPlaced(s', x) ensures SerialInv(s', x) {
      WonRaceSerial(s, a.id, x);
    }
    forall x | x in s'.calls ensures CallInv(s', x) {
      WonRaceCall(s, a.id, x);
    }
  }

  /** A floor that rises, or a clock that moves, breaks nothing. */
  lemma ObserveKeeps(s: System, a: Step)
    requires SystemInv(s) && Enabled(s, a) && (a.Observe? || a.SetClock?)
    ensures SystemInv(Next(s, a))
  {
    var s' := Next(s, a);
    if 0 in s.calls {
      PastFrame(s, s', 0);
      CallAdvances(s, s', 0);
    }
    FrameKeeps(s, s', 0);
  }

  lemma NextKeeps(s: System, a: Step)
    requires SystemInv(s) && Enabled(s, a)
    ensures SystemInv(Next(s, a))
  {
    match a
    case Begin(_, _, _) => BeginKeeps(s, a);
    case BeginRenew(_, _, _, _) => BeginKeeps(s, a);
    case Ask(_) => AskKeeps(s, a);
    case LookActive(_, _, _) => LookActiveKeeps(s, a);
    case LookHistory(_, _, _) => LookHistoryKeeps(s, a);
    case Read(_, _) => ReadKeeps(s, a);
    case Sign(_, _, _) => SignKeeps(s, a);
    case Write(id) =>
      if Wins(s, id) {
        WonRaceKeeps(s, a);
      } else {
        LostRaceKeeps(s, a);
      }
    case Ack(_, _) => AckKeeps(s, a);
    case Fail(id) =>
      assert CallInv(s, id);
      SetPhaseFrame(s, id, Failed);
      OneCallChanges(s, Next(s, a), id);
    case Observe(_, _) => ObserveKeeps(s, a);
    case SetClock(_) => ObserveKeeps(s, a);
  }

  lemma StartInv(v2: set<nat>)
    ensures SystemInv(Start(v2))
  {
    var s := Start(v2);
    forall k, cn | 0 <= k < |s.past| ensures PastAt(s, k, cn) {
    }
  }

  lemma {:induction false} RunInv(run: seq<Step>, v2: set<nat>)
    requires Run(run, v2).Some?
    ensures SystemInv(Run(run, v2).value)
  {
    if run == [] {
      StartInv(v2);
    } else {
      var n := |run| - 1;
      RunInv(run[..n], v2);
      NextKeeps(Run(run[..n], v2).value, run[n]);
    }
  }
}
