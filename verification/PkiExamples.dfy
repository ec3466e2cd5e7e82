/** Runs with an agent on the v2 plane to which nothing was acknowledged yet: its
    first reads may still show the store before the first certificate. */
module PkiExamples {
  import opened Bytes
  import opened PkiStore
  import opened PkiRequest
  import opened PkiProtocol

  const NAME: Name := [97]

  const ROTATE := Request(NAME, 10, true, NO_SAN, true)

  function Serial(n: nat): (r: Key)
    ensures |r| == n
  {
    seq(n, i => 0)
  }

  lemma Extend(run: seq<Step>, v2: set<nat>, a: Step)
    requires Run(run, v2).Some? && Enabled(Run(run, v2).value, a)
    ensures Run(run + [a], v2) == Some(Next(Run(run, v2).value, a))
  {
    assert (run + [a])[..|run|] == run;
  }

  // ----- One attempt of a rotation -----

  /** Call numbers and serial lengths from `n` on are unused, and agent 1 alone is
      on the v2 plane. */
  ghost predicate OpenFrom(s: System, n: nat) {
    && (forall x :: x in s.calls ==> x < n) && (forall x :: x in s.serials ==> |x| < n)
    && s.v2 == {1} && s.past != [] && s.past[|s.past| - 1] == s.certs
  }

  /** Call `id` is about to issue the read of its attempt `k`. */
  predicate Attempts(s: System, id: nat, k: nat) {
    id in s.calls && s.calls[id].request == ROTATE && s.calls[id].ask == NotAsked && s.calls[id].phase == Ready(k)
  }

  /** Call `id` has signed a record under `serial` after it saw `seen`. */
  predicate Signed(s: System, id: nat, k: nat, seen: Option<Slot>, serial: Key) {
    && id in s.calls && s.calls[id].request == ROTATE
    && s.calls[id].phase.HasSigned? && s.calls[id].phase.attempt == k && s.calls[id].phase.seen == seen
    && s.calls[id].phase.record.serial == serial
  }

  lemma RotateDecides(seen: Option<Slot>, now: int)
    ensures Decide(ROTATE, seen, now).SignNew?
  {
    assert IsDnsName(NAME);
  }

  lemma Reading(run: seq<Step>, id: nat, k: nat, at: nat) returns (more: seq<Step>, san: San)
    requires Run(run, {1}).Some? && Attempts(Run(run, {1}).value, id, k)
    requires var s := Run(run, {1}).value; ReadableAt(s, s.calls[id].agent, FloorOf(s, s.calls[id].agent), at)
    ensures var s := Run(run, {1}).value;
            Run(more, {1}) == Some(SetPhase(s, id, HasRead(k, ActiveOf(s.past[at], NAME), san)))
  {
    var s := Run(run, {1}).value;
    Extend(run, {1}, Step.Ask(id));
    Extend(run + [Step.Ask(id)], {1}, Read(id, at));
    more := run + [Step.Ask(id)] + [Read(id, at)];
    RotateDecides(ActiveOf(s.past[at], NAME), s.now);
    san := Decide(ROTATE, ActiveOf(s.past[at], NAME), s.now).san;
    var c := s.calls[id].(ask := Asked(FloorOf(s, s.calls[id].agent)));
    assert s.calls[id := c][id := c.(phase := HasRead(k, ActiveOf(s.past[at], NAME), san), ask := NotAsked)]
        == s.calls[id := s.calls[id].(phase := HasRead(k, ActiveOf(s.past[at], NAME), san), ask := NotAsked)];
  }

  lemma Signing(run: seq<Step>, id: nat, n: nat) returns (more: seq<Step>)
    requires Run(run, {1}).Some? && id in Run(run, {1}).value.calls && Run(run, {1}).value.calls[id].phase.HasRead?
    requires OpenFrom(Run(run, {1}).value, n)
    ensures Run(more, {1}) == Some(AfterSign(Run(run, {1}).value, id, Serial(n), []))
    ensures OpenFrom(Run(more, {1}).value, n + 1)
  {
    Extend(run, {1}, Sign(id, Serial(n), []));
    more := run + [Sign(id, Serial(n), [])];
  }

  function Acknowledged(s: System, id: nat): System
    requires id in s.calls && s.calls[id].phase.HasSigned? && s.past != []
  {
    AfterAck(AfterWrite(s, id), id, false)
  }

  lemma Writing(run: seq<Step>, id: nat) returns (more: seq<Step>)
    requires Run(run, {1}).Some? && id in Run(run, {1}).value.calls && Run(run, {1}).value.calls[id].phase.HasSigned?
    requires Run(run, {1}).value.past != []
    ensures Run(more, {1}) == Some(Acknowledged(Run(run, {1}).value, id))
  {
    Extend(run, {1}, Write(id));
    Extend(run + [Write(id)], {1}, Ack(id, false));
    more := run + [Write(id)] + [Ack(id, false)];
  }

  lemma CurrentSwaps(st: Certs, record: CertRecord)
    ensures var st' := Swap(st, NAME, ActiveOf(st, NAME), record);
            st'.Some? && NAME in st'.value.active && VersionOf(st'.value, NAME) == VersionOf(st, NAME) + 1
  {
  }

  ghost predicate Won(s: System, s': System, id: nat, serial: Key, n: nat) {
    && OpenFrom(s', n) && |Chain(s', NAME)| == |Chain(s, NAME)| + 1 && IsPlaced(s', serial)
    && NAME in s'.certs.active && VersionOf(s'.certs, NAME) == VersionOf(s.certs, NAME) + 1
    && s'.past == s.past + [s'.certs] && s'.calls.Keys == s.calls.Keys
    && (forall x :: x in s.calls && x != id ==> s'.calls[x] == s.calls[x])
    && FloorOf(s', 1) == FloorOf(s, 1)
  }

  lemma Winning(s: System, id: nat, k: nat, serial: Key, n: nat)
    requires OpenFrom(s, n) && Signed(s, id, k, ActiveOf(s.certs, NAME), serial) && |serial| < n
    requires s.calls[id].agent != 1
    ensures Won(s, Acknowledged(s, id), id, serial, n)
  {
    CurrentSwaps(s.certs, s.calls[id].phase.record);
    assert Acknowledged(s, id).calls.Keys == s.calls.Keys;
  }

  predicate Stale(seen: Option<Slot>, st: Certs) {
    NAME in st.active && (seen.Some? ==> seen.value.version != st.active[NAME].version)
  }

  lemma Losing(s: System, id: nat, k: nat, seen: Option<Slot>, serial: Key, n: nat)
    requires OpenFrom(s, n) && Signed(s, id, k, seen, serial) && |serial| < n && Stale(seen, s.certs)
    requires FloorOf(s, s.calls[id].agent).Some? ==> FloorOf(s, s.calls[id].agent).value < |s.past|
    ensures var s', c := Acknowledged(s, id), s.calls[id];
            && OpenFrom(s', n) && Chain(s', NAME) == Chain(s, NAME)
            && id in s'.calls && s'.calls[id] == c.(phase := s'.calls[id].phase, ask := NotAsked)
            && s'.calls[id].phase
               == (if k + 1 == MAX_REPLACE_ATTEMPTS then Exhausted(|Chain(s, NAME)|) else Ready(k + 1))
            && s'.past == s.past && FloorOf(s', c.agent) == Some(|s.past| - 1)
  {
    assert Swap(s.certs, NAME, seen, s.calls[id].phase.record).None?;
  }

  /** Same certificates and floors, and call `id` may be new. */
  ghost predicate OnlyCall(s: System, t: System, id: nat) {
    && t.certs == s.certs && t.past == s.past && t.chains == s.chains && t.floors == s.floors
    && t.calls.Keys == s.calls.Keys + {id}
    && (forall x :: x in s.calls && x != id ==> t.calls[x] == s.calls[x])
  }

  lemma SigningKeeps(s: System, id: nat, k: nat, seen: Option<Slot>, san: San, n: nat)
    requires OpenFrom(s, n) && Attempts(s, id, k)
    ensures OpenFrom(SetPhase(s, id, HasRead(k, seen, san)), n)
    ensures var t := AfterSign(SetPhase(s, id, HasRead(k, seen, san)), id, Serial(n), []);
            && OnlyCall(s, t, id) && Signed(t, id, k, seen, Serial(n))
            && t.calls[id].agent == s.calls[id].agent && t.calls[id].startLen == s.calls[id].startLen
  {
  }

  lemma ReadAndSign(run: seq<Step>, id: nat, k: nat, at: nat, n: nat) returns (more: seq<Step>)
    requires Run(run, {1}).Some? && OpenFrom(Run(run, {1}).value, n) && Attempts(Run(run, {1}).value, id, k)
    requires var s := Run(run, {1}).value; ReadableAt(s, s.calls[id].agent, FloorOf(s, s.calls[id].agent), at)
    ensures Run(more, {1}).Some?
    ensures var s, t := Run(run, {1}).value, Run(more, {1}).value;
            && OpenFrom(t, n + 1) && OnlyCall(s, t, id) && Signed(t, id, k, ActiveOf(s.past[at], NAME), Serial(n))
            && t.calls[id].agent == s.calls[id].agent && t.calls[id].startLen == s.calls[id].startLen
  {
    var san;
    more, san := Reading(run, id, k, at);
    SigningKeeps(Run(run, {1}).value, id, k, ActiveOf(Run(run, {1}).value.past[at], NAME), san, n);
    more := Signing(more, id, n);
  }

  lemma BeginAndSign(run: seq<Step>, id: nat, agent: nat, at: nat, n: nat) returns (more: seq<Step>)
    requires Run(run, {1}).Some? && OpenFrom(Run(run, {1}).value, n) && id < n && id !in Run(run, {1}).value.calls
    requires var s := Run(run, {1}).value; ReadableAt(s, agent, FloorOf(s, agent), at)
    ensures Run(more, {1}).Some?
    ensures var s, t := Run(run, {1}).value, Run(more, {1}).value;
            && OpenFrom(t, n + 1) && OnlyCall(s, t, id) && Signed(t, id, 0, ActiveOf(s.past[at], NAME), Serial(n))
            && t.calls[id].agent == agent && t.calls[id].startLen == |Chain(s, NAME)|
  {
    Extend(run, {1}, Begin(id, agent, ROTATE));
    more := ReadAndSign(run + [Begin(id, agent, ROTATE)], id, 0, at, n);
  }

  ghost predicate Rotated(s: System, s': System, id: nat, n: nat) {
    && OpenFrom(s', n + 1) && |Chain(s', NAME)| == |Chain(s, NAME)| + 1 && IsPlaced(s', Serial(n))
    && NAME in s'.certs.active && VersionOf(s'.certs, NAME) == VersionOf(s.certs, NAME) + 1
    && s'.past == s.past + [s'.certs] && s'.calls.Keys == s.calls.Keys + {id}
    && (forall x :: x in s.calls ==> s'.calls[x] == s.calls[x])
    && FloorOf(s', 1) == FloorOf(s, 1)
  }

  /** One undisturbed rotation by agent 0. */
  lemma Rotation(run: seq<Step>, id: nat, n: nat) returns (more: seq<Step>)
    requires Run(run, {1}).Some? && OpenFrom(Run(run, {1}).value, n) && id < n && id !in Run(run, {1}).value.calls
    ensures Run(more, {1}).Some? && Rotated(Run(run, {1}).value, Run(more, {1}).value, id, n)
  {
    var s := Run(run, {1}).value;
    more := BeginAndSign(run, id, 0, |s.past| - 1, n);
    var t := Run(more, {1}).value;
    Winning(t, id, 0, Serial(n), n + 1);
    more := Writing(more, id);
    RotationKeeps(s, t, Run(more, {1}).value, id, n);
  }

  lemma RotationKeeps(s: System, t: System, s': System, id: nat, n: nat)
    requires id !in s.calls && OnlyCall(s, t, id) && Won(t, s', id, Serial(n), n + 1)
    ensures Rotated(s, s', id, n)
  {
    assert Chain(t, NAME) == Chain(s, NAME);
  }

  // ----- A floor that is behind -----

  /** One certificate was issued, before agent 1 made its first call. */
  ghost predicate JustIssued(s: System) {
    && OpenFrom(s, 2) && s.calls.Keys == {0} && |Chain(s, NAME)| == 1 && IsPlaced(s, Serial(1))
    && s.past == [NO_CERTS, s.certs] && NAME in s.certs.active && FloorOf(s, 1) == None
  }

  lemma Issue() returns (run: seq<Step>)
    ensures Run(run, {1}).Some? && JustIssued(Run(run, {1}).value)
  {
    run := Rotation([], 0, 1);
  }

  function Renewal(serial: Key): seq<Step> {
    [BeginRenew(1, 1, serial, 10), Step.Ask(1), LookActive(1, 0, None), Step.Ask(1), LookHistory(1, 0, None)]
  }

  /** A renewal that begins after `before` misses a serial issued in it. */
  ghost predicate RenewalMisses(before: seq<Step>, serial: Key) {
    && Run(before, {1}).Some? && IsPlaced(Run(before, {1}).value, serial)
    && Run(before + Renewal(serial), {1}).Some?
    && 1 in Run(before + Renewal(serial), {1}).value.calls
    && Run(before + Renewal(serial), {1}).value.calls[1].phase == NotFound
  }

  /** Call 1 may still read the store before the first certificate. */
  ghost predicate Unaware(s: System) {
    && 1 in s.calls && s.calls[1].agent == 1 && s.calls[1].ask == NotAsked && FloorOf(s, 1) == None
    && s.past != [] && s.past[0] == NO_CERTS && s.v2 == {1}
  }

  lemma ActiveMisses(run: seq<Step>)
    requires Run(run, {1}).Some? && Unaware(Run(run, {1}).value)
    requires Run(run, {1}).value.calls[1].phase.ScanActive?
    ensures var s := Run(run, {1}).value;
            var t := SetPhase(s, 1, ScanHistory(s.calls[1].phase.serial));
            Run(run + [Step.Ask(1)] + [LookActive(1, 0, None)], {1}) == Some(t) && Unaware(t)
  {
    var s := Run(run, {1}).value;
    Extend(run, {1}, Step.Ask(1));
    Extend(run + [Step.Ask(1)], {1}, LookActive(1, 0, None));
    var c := s.calls[1].(phase := ScanHistory(s.calls[1].phase.serial));
    assert s.calls[1 := s.calls[1].(ask := Asked(None))][1 := c] == s.calls[1 := c];
  }

  lemma HistoryMisses(run: seq<Step>)
    requires Run(run, {1}).Some? && Unaware(Run(run, {1}).value)
    requires Run(run, {1}).value.calls[1].phase.ScanHistory?
    ensures var more := run + [Step.Ask(1)] + [LookHistory(1, 0, None)];
            Run(more, {1}).Some? && 1 in Run(more, {1}).value.calls && Run(more, {1}).value.calls[1].phase == NotFound
  {
    Extend(run, {1}, Step.Ask(1));
    Extend(run + [Step.Ask(1)], {1}, LookHistory(1, 0, None));
  }

  /** A renewal can miss a serial that was issued before it began. */
  lemma RenewalMissesAboveFloor() returns (before: seq<Step>)
    ensures RenewalMisses(before, Serial(1))
  {
    before := Issue();
    var run := before + [BeginRenew(1, 1, Serial(1), 10)];
    Extend(before, {1}, BeginRenew(1, 1, Serial(1), 10));
    ActiveMisses(run);
    run := run + [Step.Ask(1)] + [LookActive(1, 0, None)];
    HistoryMisses(run);
    assert run + [Step.Ask(1)] + [LookHistory(1, 0, None)] == before + Renewal(Serial(1));
  }

  /** Call 1 of agent 1 has lost `k` races, and its next read shows the latest store. */
  ghost predicate Behind(s: System, k: nat, n: nat) {
    OpenFrom(s, n) && Attempts(s, 1, k) && s.calls[1].agent == 1 && FloorOf(s, 1) == Some(|s.past| - 1)
  }

  /** The first race of a call can be lost to a write made before it began. */
  lemma FirstRaceLostToEarlierWrite() returns (run: seq<Step>)
    ensures Run(run, {1}).Some?
    ensures var s := Run(run, {1}).value;
            Behind(s, 1, 3) && s.calls[1].startLen == |Chain(s, NAME)| == 1
  {
    run := Issue();
    run := BeginAndSign(run, 1, 1, 0, 2);
    var t := Run(run, {1}).value;
    run := Writing(run, 1);
    Losing(t, 1, 0, None, Serial(2), 3);
  }

  ghost predicate RoundLost(s: System, s': System, k: nat, n: nat) {
    && |Chain(s', NAME)| == |Chain(s, NAME)| + 1
    && 1 in s.calls && 1 in s'.calls && s'.calls[1].startLen == s.calls[1].startLen && s'.calls[1].request == ROTATE
    && if k + 1 == MAX_REPLACE_ATTEMPTS then s'.calls[1].phase == Exhausted(|Chain(s', NAME)|)
       else Behind(s', k + 1, n + 2)
  }

  /** Call 1 reads, is overtaken by a rotation, and loses. */
  lemma Round(run: seq<Step>, k: nat, n: nat) returns (more: seq<Step>)
    requires Run(run, {1}).Some? && Behind(Run(run, {1}).value, k, n)
    ensures Run(more, {1}).Some? && RoundLost(Run(run, {1}).value, Run(more, {1}).value, k, n)
  {
    var s := Run(run, {1}).value;
    more := ReadAndSign(run, 1, k, |s.past| - 1, n);
    var t := Run(more, {1}).value;
    more := Rotation(more, n, n + 1);
    var u := Run(more, {1}).value;
    more := Writing(more, 1);
    RoundLoses(s, t, u, k, n);
  }

  lemma RoundLoses(s: System, t: System, u: System, k: nat, n: nat)
    requires Behind(s, k, n) && OpenFrom(t, n + 1) && OnlyCall(s, t, 1) && Rotated(t, u, n, n + 1)
    requires Signed(t, 1, k, ActiveOf(s.certs, NAME), Serial(n))
    requires t.calls[1].agent == 1 && t.calls[1].startLen == s.calls[1].startLen
    ensures RoundLost(s, Acknowledged(u, 1), k, n)
  {
    assert Signed(u, 1, k, ActiveOf(s.certs, NAME), Serial(n));
    Losing(u, 1, k, ActiveOf(s.certs, NAME), Serial(n), n + 2);
    assert Chain(t, NAME) == Chain(s, NAME);
  }

  /** `ExhaustionIsPaid` asks for no more than it must: a call can be beaten
      `MAX_REPLACE_ATTEMPTS` times with one write fewer made while it ran. */
  lemma ExhaustionIsTight() returns (run: seq<Step>)
    ensures Run(run, {1}).Some? && 1 in Run(run, {1}).value.calls
    ensures var s := Run(run, {1}).value;
            var call := s.calls[1];
            call.phase == Exhausted(|Chain(s, call.request.cn)|)
            && |Chain(s, call.request.cn)| == call.startLen + MAX_REPLACE_ATTEMPTS - 1
  {
    run := FirstRaceLostToEarlierWrite();
    for k := 1 to MAX_REPLACE_ATTEMPTS
      invariant Run(run, {1}).Some? && 1 in Run(run, {1}).value.calls
      invariant var s := Run(run, {1}).value;
                && s.calls[1].startLen == 1 && s.calls[1].request == ROTATE && |Chain(s, NAME)| == k
                && if k == MAX_REPLACE_ATTEMPTS then s.calls[1].phase == Exhausted(k) else Behind(s, k, 2 * k + 1)
    {
      run := Round(run, k, 2 * k + 1);
    }
  }
}
