/** The promises of the certificate service, for every run of the protocol. */
module PkiTheorems {
  import opened Bytes
  import opened PkiStore
  import opened PkiRequest
  import opened PkiProtocol
  import opened PkiSafety

  lemma LinksAt(c: seq<Issued>, cn: Name)
    requires Linked(c, cn)
    ensures forall i :: 0 <= i < |c| ==> c[i].record.commonName == cn
    ensures c != [] ==> c[0].record.parentSerial == None
    ensures forall i, j :: 0 <= i < j < |c| && j == i + 1 ==> c[j].record.parentSerial == Some(c[i].record.serial)
  {
    forall i | 0 <= i < |c| ensures c[i].record.commonName == cn {
      LinkedAt(c, cn, i);
    }
    if c != [] {
      LinkedAt(c, cn, 0);
    }
    forall i, j | 0 <= i < j < |c| && j == i + 1 ensures c[j].record.parentSerial == Some(c[i].record.serial) {
      LinkedAt(c, cn, j);
    }
  }

  /** The certificates of a name form one chain from the first to the single
      active one; the version is its length; the history is the rest, retired. */
  lemma {:induction false} LinearHistory(run: seq<Step>, v2: set<nat>, cn: Name)
    requires Run(run, v2).Some?
    ensures var s := Run(run, v2).value;
            var c, past := Chain(s, cn), HistoryOf(s.certs, cn);
            && ActiveOf(s.certs, cn) == (if c == [] then None else Some(Slot(c[|c| - 1].record, |c|)))
            && (forall i :: 0 <= i < |c| ==> c[i].record.commonName == cn)
            && (c != [] ==> c[0].record.parentSerial == None)
            && (forall i, j :: 0 <= i < j < |c| && j == i + 1 ==>
                  c[j].record.parentSerial == Some(c[i].record.serial))
            && (forall i :: 0 <= i < |c| - 1 ==>
                  c[i].record.serial in past && past[c[i].record.serial] == Retire(c[i].record))
            && (forall x :: x in past ==> exists i :: 0 <= i < |c| - 1 && c[i].record.serial == x)
  {
    RunInv(run, v2);
    var s := Run(run, v2).value;
    assert ChainInv(s, cn);
    ChainDistinct(s, cn);
    RetiredExact(Chain(s, cn));
    LinksAt(Chain(s, cn), cn);
  }

  /** Serials never repeat, within a name or across names. */
  lemma {:induction false} SerialsAreUnique(run: seq<Step>, v2: set<nat>, a: Name, i: nat, b: Name, j: nat)
    requires Run(run, v2).Some?
    requires i < |Chain(Run(run, v2).value, a)| && j < |Chain(Run(run, v2).value, b)|
    requires Chain(Run(run, v2).value, a)[i].record.serial == Chain(Run(run, v2).value, b)[j].record.serial
    ensures a == b && i == j
  {
    RunInv(run, v2);
    assert ChainInv(Run(run, v2).value, a) && ChainInv(Run(run, v2).value, b);
  }

  // ----- Searching the stores by serial -----

  /** The certificate with this serial had been written by the time of store `k`. */
  predicate PlacedBy(s: System, k: nat, serial: Key)
    requires k < |s.past|
  {
    IsPlaced(s, serial) && s.serials[serial].index < VersionOf(s.past[k], s.serials[serial].cn)
  }

  /** What a scan of a store may answer is what was placed under the serial. */
  ghost predicate IsOf(s: System, serial: Key, r: CertRecord)
    requires IsPlaced(s, serial) && SerialInv(s, serial)
  {
    var x := Chain(s, s.serials[serial].cn)[s.serials[serial].index].record;
    r.commonName == s.serials[serial].cn && (r == x || r == Retire(x))
  }

  lemma ActiveInChain(s: System, k: nat, cn: Name, r: CertRecord)
    requires k < |s.past| && PastAt(s, k, cn) && ChainInv(s, cn)
    requires cn in s.past[k].active && s.past[k].active[cn].record == r
    ensures IsPlaced(s, r.serial) && SerialInv(s, r.serial) && PlacedBy(s, k, r.serial) && IsOf(s, r.serial, r)
  {
    var n := VersionOf(s.past[k], cn);
    assert ActiveOf(s.past[k], cn) == Some(s.past[k].active[cn]);
    LinkedAt(Chain(s, cn), cn, n - 1);
  }

  lemma PastInChain(s: System, k: nat, cn: Name, serial: Key, r: CertRecord)
    requires k < |s.past| && PastAt(s, k, cn) && ChainInv(s, cn)
    requires cn in s.past[k].history && serial in s.past[k].history[cn] && s.past[k].history[cn][serial] == r
    ensures IsPlaced(s, serial) && SerialInv(s, serial) && PlacedBy(s, k, serial) && IsOf(s, serial, r)
  {
    var c, n := Chain(s, cn), VersionOf(s.past[k], cn);
    assert HistoryOf(s.past[k], cn) == s.past[k].history[cn];
    ChainDistinct(s, cn);
    PrefixDistinct(c, n);
    RetiredExact(c[..n]);
    var i :| 0 <= i < n - 1 && c[..n][i].record.serial == serial;
    assert c[i] == c[..n][i];
    LinkedAt(c, cn, i);
  }

  /** A scan of an earlier store answers only what was placed there. */
  lemma FoundIsPlaced(s: System, k: nat, serial: Key, r: CertRecord)
    requires SystemInv(s) && k < |s.past| && (InActive(s.past[k], serial, r) || InHistory(s.past[k], serial, r))
    ensures IsPlaced(s, serial) && SerialInv(s, serial) && PlacedBy(s, k, serial) && IsOf(s, serial, r)
  {
    if InActive(s.past[k], serial, r) {
      var cn :| cn in s.past[k].active && s.past[k].active[cn].record == r;
      assert PastAt(s, k, cn) && ChainInv(s, cn);
      ActiveInChain(s, k, cn, r);
    } else {
      var cn :| cn in s.past[k].history && serial in s.past[k].history[cn] && s.past[k].history[cn][serial] == r;
      assert PastAt(s, k, cn) && ChainInv(s, cn);
      PastInChain(s, k, cn, serial, r);
    }
  }

  lemma PlacedIsFound(s: System, k: nat, serial: Key) returns (r: CertRecord)
    requires SystemInv(s) && k < |s.past| && PlacedBy(s, k, serial)
    ensures InActive(s.past[k], serial, r) || InHistory(s.past[k], serial, r)
  {
    var u := s.serials[serial];
    assert SerialInv(s, serial) && ChainInv(s, u.cn) && PastAt(s, k, u.cn);
    r := PlacedInStore(s.past[k], u.cn, Chain(s, u.cn), u.index);
  }

  lemma PlacedInStore(st: Certs, cn: Name, c: seq<Issued>, i: nat) returns (r: CertRecord)
    requires ShowsPrefix(st, cn, c) && DistinctSerials(c) && i < VersionOf(st, cn)
    ensures InActive(st, c[i].record.serial, r) || InHistory(st, c[i].record.serial, r)
  {
    var n := VersionOf(st, cn);
    PrefixDistinct(c, n);
    if i + 1 == n {
      r := c[i].record;
      LastIsActive(st, cn, c[..n]);
    } else {
      r := Retire(c[i].record);
      EarlierIsRetired(st, cn, c[..n], i);
    }
  }

  ghost predicate CanFind(st: Certs, serial: Key) {
    exists r :: InActive(st, serial, r) || InHistory(st, serial, r)
  }

  /** Scanning any earlier store, active records and history, finds a serial if and
      only if its certificate had been written by then. */
  lemma {:induction false} ScanFindsIff(run: seq<Step>, v2: set<nat>, k: nat, serial: Key)
    requires Run(run, v2).Some? && k < |Run(run, v2).value.past|
    ensures CanFind(Run(run, v2).value.past[k], serial) <==> PlacedBy(Run(run, v2).value, k, serial)
  {
    RunInv(run, v2);
    var s := Run(run, v2).value;
    if CanFind(s.past[k], serial) {
      var r :| InActive(s.past[k], serial, r) || InHistory(s.past[k], serial, r);
      FoundIsPlaced(s, k, serial, r);
    }
    if PlacedBy(s, k, serial) {
      var r := PlacedIsFound(s, k, serial);
    }
  }

  lemma LatestFinds(s: System, serial: Key)
    requires SystemInv(s) && IsPlaced(s, serial)
    ensures exists x :: FindsSerial(s.certs, serial, x)
  {
    var k := |s.past| - 1;
    assert SerialInv(s, serial) && ChainInv(s, s.serials[serial].cn);
    ShownWhole(s.certs, s.serials[serial].cn, Chain(s, s.serials[serial].cn));
    var r := PlacedIsFound(s, k, serial);
    if y :| InActive(s.certs, serial, y) {
      assert FindsSerial(s.certs, serial, y);
    } else {
      assert FindsSerial(s.certs, serial, r);
    }
  }

  /** Every certificate ever handed to a caller was unexpired when that was
      decided, and a search by its serial still answers it, with its true name;
      only its status may have changed. */
  lemma {:induction false} AnsweredStaysFindable(run: seq<Step>, v2: set<nat>, id: nat)
    requires Run(run, v2).Some? && id in Run(run, v2).value.calls && Run(run, v2).value.calls[id].phase.Answered?
    ensures var s := Run(run, v2).value;
            var r, at := s.calls[id].phase.record, s.calls[id].phase.decidedAt;
            && !IsExpired(r, at)
            && r.commonName == s.calls[id].request.cn
            && (exists x :: FindsSerial(s.certs, r.serial, x))
            && (forall x :: FindsSerial(s.certs, r.serial, x) ==> x == r || x == Retire(r))
  {
    RunInv(run, v2);
    var s := Run(run, v2).value;
    var cn, i, r := s.calls[id].request.cn, s.calls[id].phase.index, s.calls[id].phase.record;
    assert CallInv(s, id) && ChainInv(s, cn);
    LinkedAt(Chain(s, cn), cn, i);
    assert IsPlaced(s, r.serial);
    LatestFinds(s, r.serial);
    forall x | FindsSerial(s.certs, r.serial, x) ensures x == r || x == Retire(r) {
      FoundIsPlaced(s, |s.past| - 1, r.serial, x);
    }
  }

  /** A call that gives up was beaten by at least `MAX_REPLACE_ATTEMPTS` writes to
      its name beyond those its agent was sure to see when it began, by that many
      different other calls. All but the first of them fell during the call, and
      that one too unless the agent's floor was behind. */
  lemma {:induction false} ExhaustionIsPaid(run: seq<Step>, v2: set<nat>, id: nat)
    requires Run(run, v2).Some? && id in Run(run, v2).value.calls && Run(run, v2).value.calls[id].phase.Exhausted?
    ensures var s := Run(run, v2).value;
            var call := s.calls[id];
            var c, to := Chain(s, call.request.cn), call.phase.endLen;
            && call.shownLen + MAX_REPLACE_ATTEMPTS <= to <= |c|
            && call.startLen + MAX_REPLACE_ATTEMPTS - 1 <= to
            && call.shownLen <= call.startLen && (call.agent !in v2 ==> call.shownLen == call.startLen)
            && (forall i :: 0 <= i < to ==> c[i].author != id)
            && (forall i, j :: 0 <= i < j < to ==> c[i].author != c[j].author)
  {
    RunInv(run, v2);
    SamePlanes(run, v2);
    var s := Run(run, v2).value;
    assert CallInv(s, id) && AuthorInv(s, s.calls[id].request.cn);
  }

  lemma NextPlanes(s: System, a: Step)
    requires Enabled(s, a)
    ensures Next(s, a).v2 == s.v2
  {
  }

  lemma {:induction false} SamePlanes(run: seq<Step>, v2: set<nat>)
    requires Run(run, v2).Some?
    ensures Run(run, v2).value.v2 == v2
  {
    if run != [] {
      var n := |run| - 1;
      SamePlanes(run[..n], v2);
      NextPlanes(Run(run[..n], v2).value, run[n]);
    }
  }

  /** A renewal reaches the name its serial was issued under. It misses no serial
      that its agent's reads were sure to show when it began, whatever is rotated
      between its two scans: on the v1 plane every serial then issued, on the v2
      plane those at or below the agent's floor. */
  lemma {:induction false} RenewFindsTrueName(run: seq<Step>, v2: set<nat>, a: Step)
    requires Run(run, v2).Some? && Enabled(Run(run, v2).value, a) && (a.LookActive? || a.LookHistory?)
    ensures var s := Run(run, v2).value;
            var serial := s.calls[a.id].phase.serial;
            && (a.found.Some? ==>
                  IsPlaced(s, serial) && s.serials[serial].cn == a.found.value.commonName
                  && Next(s, a).calls[a.id].request.cn == a.found.value.commonName)
            && (a.LookHistory? && a.found.None? ==> !s.calls[a.id].known)
  {
    RunInv(run, v2);
    var s := Run(run, v2).value;
    var serial := s.calls[a.id].phase.serial;
    assert CallInv(s, a.id);
    if a.found.Some? {
      FoundIsPlaced(s, a.at, serial, a.found.value);
    } else {
      NextKeeps(s, a);
      assert CallInv(Next(s, a), a.id);
    }
  }

  /** `known` is what the agent's floor shows when the renewal begins. */
  lemma {:induction false} KnownIff(run: seq<Step>, v2: set<nat>, a: Step)
    requires Run(run, v2).Some? && Enabled(Run(run, v2).value, a) && a.BeginRenew?
    ensures var s := Run(run, v2).value;
            Next(s, a).calls[a.id].known <==>
            if a.agent !in v2 then IsPlaced(s, a.serial)
            else a.agent in s.floors && s.floors[a.agent] < |s.past| && PlacedBy(s, s.floors[a.agent], a.serial)
  {
    RunInv(run, v2);
    SamePlanes(run, v2);
    var s := Run(run, v2).value;
    if IsPlaced(s, a.serial) {
      assert SerialInv(s, a.serial);
    }
  }

  /** `q` asks again for what an issuing call asked for, the names given in
      whatever order. */
  ghost predicate AsksAgain(p: Request, q: Request, first: San, again: San, isIp: Name -> bool) {
    && !p.force && !q.force && q.cn == p.cn && q.wantTtl == p.wantTtl
    && Normalized(first, isIp) == Some(p.san) && Normalized(again, isIp) == Some(q.san) && SameSans(first, again)
  }

  /** Call `id` was answered the last certificate of its name, which has not expired. */
  predicate HoldsLast(s: System, id: nat) {
    && id in s.calls && s.calls[id].phase.Answered? && !IsExpired(s.calls[id].phase.record, s.now)
    && s.calls[id].phase.index + 1 == |Chain(s, s.calls[id].request.cn)|
  }

  /** Store `at` may answer a read that was issued at a floor showing `cn` in full. */
  predicate ShowsAll(s: System, agent: nat, floor: Option<nat>, at: nat, cn: Name) {
    ReadableAt(s, agent, floor, at) && ShownAt(s, agent, floor, cn) >= |Chain(s, cn)|
  }

  /** Issuing again with the same name, lifetime and sets of alternative names,
      before expiry and with no write in between, answers the identical record:
      whatever store answers a read whose floor, when issued, showed that record. */
  lemma {:induction false} IssueIsIdempotent(run: seq<Step>, v2: set<nat>, id: nat, agent: nat, floor: Option<nat>,
                                             at: nat, q: Request, first: San, again: San, isIp: Name -> bool)
    requires Run(run, v2).Some? && HoldsLast(Run(run, v2).value, id)
    requires AsksAgain(Run(run, v2).value.calls[id].request, q, first, again, isIp)
    requires ShowsAll(Run(run, v2).value, agent, floor, at, q.cn)
    ensures var s := Run(run, v2).value;
            Decide(q, ActiveOf(s.past[at], q.cn), s.now) == Answer(s.calls[id].phase.record)
  {
    RunInv(run, v2);
    var s := Run(run, v2).value;
    assert CallInv(s, id) && ChainInv(s, q.cn);
    NormalizedCanonical(first, again, isIp);
    SameAnswer(s, id, agent, floor, at, q);
  }

  lemma SameAnswer(s: System, id: nat, agent: nat, floor: Option<nat>, at: nat, q: Request)
    requires HoldsLast(s, id) && PastInv(s) && CallInv(s, id) && ChainInv(s, q.cn)
    requires q == s.calls[id].request.(inherit := q.inherit) && !q.force && ShowsAll(s, agent, floor, at, q.cn)
    ensures Decide(q, ActiveOf(s.past[at], q.cn), s.now) == Answer(s.calls[id].phase.record)
  {
    LastIsShown(s, agent, floor, at, q.cn);
    DecideAgain(s.calls[id].request, q, s.calls[id].phase.record, |Chain(s, q.cn)|, s.now);
  }

  lemma LastIsShown(s: System, agent: nat, floor: Option<nat>, at: nat, cn: Name)
    requires PastInv(s) && ChainInv(s, cn) && Chain(s, cn) != [] && ShowsAll(s, agent, floor, at, cn)
    ensures var c := Chain(s, cn); ActiveOf(s.past[at], cn) == Some(Slot(c[|c| - 1].record, |c|))
  {
    ReadShows(s, agent, floor, at, cn);
    assert Chain(s, cn)[..|Chain(s, cn)|] == Chain(s, cn);
  }

  lemma DecideAgain(p: Request, q: Request, r: CertRecord, version: int, now: int)
    requires !p.force && !q.force && q.cn == p.cn && q.san == p.san && q.wantTtl == p.wantTtl
    requires Fits(p, San(r.dnsNames, r.ipAddresses)) && RecordTtl(r) == p.wantTtl && !IsExpired(r, now)
    ensures Decide(q, Some(Slot(r, version)), now) == Answer(r)
  {
  }
}
