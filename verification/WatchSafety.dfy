/** What a watch delivers, whatever its stream goes through. */
module WatchSafety {
  import opened Bytes
  import opened Retry
  import opened Watch

  ghost predicate BatchOk(log: seq<Event>, b: Item) {
    && b.Batch? && b.from < b.to <= |log| && b.events == log[b.from..b.to]
    && (b.cursor.Some? ==> b.cursor.value <= b.to)
    && (b.own ==> b.cursor == Some(b.to))
  }

  /** Where item `j` should begin: where the one before it ended. */
  ghost function Due(out: seq<Item>, j: nat, base: (nat, nat)): nat
    requires j <= |out|
  {
    if j <= base.1 || !out[j - 1].Batch? then base.0 else out[j - 1].to
  }

  /** Nothing lies between item `j` and the one before; it reaches back only when
      that one had come without a cursor. */
  ghost predicate Follows(out: seq<Item>, j: nat, base: (nat, nat))
    requires j < |out|
  {
    out[j].Batch? ==>
      && base.0 <= out[j].from <= Due(out, j, base)
      && (out[j].from < Due(out, j, base) ==> j > base.1 && out[j - 1].Batch? && !out[j - 1].own)
  }

  ghost predicate OutInv(s: State, log: seq<Event>) {
    && (forall j :: 0 <= j < |s.out| ==>
          BatchOk(log, s.out[j]) || (s.out[j].Failure? && s.phase.Done? && j == |s.out| - 1))
    && (s.base.Some? ==> s.base.value.1 <= |s.out|
                         && forall j :: s.base.value.1 <= j < |s.out| ==> Follows(s.out, j, s.base.value))
  }

  /** No stepping back is possible: the last batch carried its cursor. */
  ghost predicate Tight(out: seq<Item>, base: (nat, nat)) {
    |out| <= base.1 || (out[|out| - 1].Batch? && out[|out| - 1].own)
  }

  ghost predicate ResumeInv(resume: Option<nat>, out: seq<Item>, base: (nat, nat), o: Options, log: seq<Event>) {
    var due := Due(out, |out|, base);
    match resume
    case Some(c) => base.0 <= c <= due && (Tight(out, base) ==> c == due)
    case None =>
      && o.startCursor.None? && Origin(o, log) == Some(base.0)
      && base.0 <= due && (Tight(out, base) ==> |out| <= base.1)
  }

  ghost predicate BasedInv(s: State, base: (nat, nat), o: Options, log: seq<Event>) {
    var due := Due(s.out, |s.out|, base);
    match s.phase
    case Opening => ResumeInv(s.resume, s.out, base, o, log)
    case Sleeping(_) => ResumeInv(s.resume, s.out, base, o, log)
    case Streaming(pos) =>
      && ResumeInv(s.resume, s.out, base, o, log)
      && base.0 <= pos <= due && (Tight(s.out, base) ==> pos == due)
    case Sending(b) =>
      && b.Batch? && base.0 <= b.from <= due && (Tight(s.out, base) ==> b.from == due)
      && ResumeInv(s.resume, s.out + [b], base, o, log)
    case _ => true
  }

  ghost predicate RetryInv(s: State, p: Policy) {
    && s.attempts <= p.maxRetries
    && (s.phase.Sending? ==> s.attempts == 0)
    && (s.phase == Reporting(ReconnectsExhausted) ==> s.attempts == p.maxRetries)
  }

  ghost predicate Inv(s: State, o: Options, log: seq<Event>, p: Policy) {
    && RetryInv(s, p)
    && OutInv(s, log)
    && (s.phase.Streaming? && s.resume.Some? ==> s.resume.value <= s.phase.pos)
    && (s.phase.Sending? ==> BatchOk(log, s.phase.batch))
    && (s.phase.Sending? && s.resume.Some? ==> s.resume.value <= s.phase.batch.to)
    && (s.base.None? ==> s.resume.None?)
    && (Origin(o, log).Some? ==> s.base == Some((Origin(o, log).value, 0)))
    && (s.base.Some? ==> BasedInv(s, s.base.value, o, log))
  }

  // ----- Each awaited result keeps it -----

  lemma DueSnoc(out: seq<Item>, x: Item, j: nat, base: (nat, nat))
    requires j <= |out|
    ensures Due(out + [x], j, base) == Due(out, j, base)
    ensures j < |out| ==> (Follows(out + [x], j, base) <==> Follows(out, j, base))
  {
  }

  lemma TakenKeeps(s: State, o: Options, log: seq<Event>, p: Policy)
    requires Inv(s, o, log, p) && Enabled(s, Taken, log)
    ensures Inv(Next(s, Taken, o, log, p), o, log, p)
  {
    var s' := Next(s, Taken, o, log, p);
    var x := s'.out[|s.out|];
    if s.base.Some? {
      var base := s.base.value;
      forall j | base.1 <= j < |s'.out| ensures Follows(s'.out, j, base) {
        DueSnoc(s.out, x, j, base);
        if j < |s.out| { assert Follows(s.out, j, base); }
      }
    }
  }

  lemma ResponseKeeps(s: State, i: Input, o: Options, log: seq<Event>, p: Policy)
    requires Inv(s, o, log, p) && i.Response? && Enabled(s, i, log)
    ensures Inv(AfterResponse(s, i, log), o, log, p)
  {
    var s' := AfterResponse(s, i, log);
    if s'.base.Some? && s'.phase.Sending? {
      DueSnoc(s.out, s'.phase.batch, |s.out|, s'.base.value);
    }
  }

  lemma {:induction false} NextKeeps(s: State, i: Input, o: Options, log: seq<Event>, p: Policy)
    requires Inv(s, o, log, p) && Enabled(s, i, log) && Accepted(o)
    ensures Inv(Next(s, i, o, log, p), o, log, p)
  {
    match i
    case Taken => TakenKeeps(s, o, log, p);
    case Response(_, _, _) => ResponseKeeps(s, i, o, log, p);
    case _ =>
  }

  lemma {:induction false} RunInv(inputs: seq<Input>, o: Options, log: seq<Event>, p: Policy)
    requires Run(inputs, o, log, p).Some? && Accepted(o)
    ensures Inv(Run(inputs, o, log, p).value, o, log, p)
  {
    if inputs != [] {
      var n := |inputs| - 1;
      RunInv(inputs[..n], o, log, p);
      NextKeeps(Run(inputs[..n], o, log, p).value, inputs[n], o, log, p);
    }
  }

  // ----- The theorems -----

  /** Some item from `lo` to `hi` holds position `x` of the log. */
  predicate Delivered(out: seq<Item>, x: nat, lo: nat, hi: nat)
    requires hi < |out|
  {
    exists j :: lo <= j <= hi && out[j].Batch? && out[j].from <= x < out[j].to
  }

  lemma {:induction false} CoveredTo(out: seq<Item>, base: (nat, nat), hi: nat, x: nat, log: seq<Event>)
    requires base.1 <= hi < |out|
    requires forall j :: base.1 <= j <= hi ==> BatchOk(log, out[j])
    requires forall j :: base.1 <= j <= hi ==> Follows(out, j, base)
    requires out[hi].Batch? && base.0 <= x < out[hi].to
    ensures Delivered(out, x, base.1, hi)
  {
    assert Follows(out, hi, base);
    if out[hi].from > x {
      assert BatchOk(log, out[hi - 1]);
      CoveredTo(out, base, hi - 1, x, log);
    }
  }

  /** From an explicit start, or from the first cursor received on, the batches
      are successive stretches of the log: each begins where the previous ended, or
      earlier when that one came without a cursor. Every position from the start
      to the end of any of them was delivered; and so was every position before a
      batch's own cursor, so that restarting there skips nothing. */
  lemma {:induction false} NothingSkipped(inputs: seq<Input>, o: Options, log: seq<Event>, p: Policy, j: nat)
    requires Run(inputs, o, log, p).Some? && Accepted(o)
    requires var s := Run(inputs, o, log, p).value;
             s.base.Some? && s.base.value.1 <= j < |s.out| && s.out[j].Batch?
    ensures var s := Run(inputs, o, log, p).value;
            var a, n, b := s.base.value.0, s.base.value.1, s.out[j];
            && b.from < b.to <= |log| && b.events == log[b.from..b.to]
            && (j == n ==> b.from == a)
            && (j > n ==> s.out[j - 1].Batch?
                          && b.from <= s.out[j - 1].to && (b.from < s.out[j - 1].to ==> !s.out[j - 1].own))
            && (forall x :: a <= x < b.to ==> Delivered(s.out, x, n, j))
            && (b.cursor.Some? ==>
                  b.cursor.value <= b.to && forall x :: a <= x < b.cursor.value ==> Delivered(s.out, x, n, j))
            && (b.own ==> b.cursor == Some(b.to))
  {
    RunInv(inputs, o, log, p);
    var s := Run(inputs, o, log, p).value;
    var base := s.base.value;
    assert Follows(s.out, j, base) && BatchOk(log, s.out[j]);
    assert j > base.1 ==> BatchOk(log, s.out[j - 1]);
    forall x | base.0 <= x < s.out[j].to ensures Delivered(s.out, x, base.1, j) {
      CoveredTo(s.out, base, j, x, log);
    }
  }

  /** With an explicit start the no-skip stretch begins right there. */
  lemma {:induction false} ExplicitStart(inputs: seq<Input>, o: Options, log: seq<Event>, p: Policy)
    requires Run(inputs, o, log, p).Some? && Accepted(o) && Origin(o, log).Some?
    ensures Run(inputs, o, log, p).value.base == Some((Origin(o, log).value, 0))
  {
    RunInv(inputs, o, log, p);
  }

  /** A watch reports at most one error, and nothing after it. */
  lemma {:induction false} ErrorIsLast(inputs: seq<Input>, o: Options, log: seq<Event>, p: Policy, j: nat)
    requires Run(inputs, o, log, p).Some? && Accepted(o)
    requires j < |Run(inputs, o, log, p).value.out| && Run(inputs, o, log, p).value.out[j].Failure?
    ensures var s := Run(inputs, o, log, p).value; j == |s.out| - 1 && s.phase == Done
  {
    RunInv(inputs, o, log, p);
    var s := Run(inputs, o, log, p).value;
    assert BatchOk(log, s.out[j]) || (s.out[j].Failure? && s.phase.Done? && j == |s.out| - 1);
  }

  /** How often the loop woke to reopen the stream since it last handed an item
      over, read off what it awaited. */
  function Reopenings(inputs: seq<Input>): nat {
    if inputs == [] then 0
    else ReopenedAfter(Reopenings(inputs[..|inputs| - 1]), inputs[|inputs| - 1])
  }

  ghost predicate ReopenInv(s: State, reopened: nat, p: Policy) {
    && reopened <= p.maxRetries
    && (s.phase.Opening? || s.phase.Streaming? ==> reopened == s.attempts)
    && (s.phase.Sleeping? ==> reopened + 1 == s.attempts && s.phase.wait == WaitAfter(reopened, p))
    && (s.phase == Reporting(ReconnectsExhausted) ==> reopened == p.maxRetries)
  }

  function ReopenedAfter(k: nat, i: Input): nat {
    match i
    case Taken => 0
    case Slept => k + 1
    case _ => k
  }

  lemma ReopenStep(s: State, i: Input, k: nat, o: Options, log: seq<Event>, p: Policy)
    requires ReopenInv(s, k, p) && s.attempts <= p.maxRetries && Enabled(s, i, log)
    requires s.phase.Sending? ==> s.phase.batch.Batch? && s.attempts == 0
    ensures ReopenInv(Next(s, i, o, log, p), ReopenedAfter(k, i), p)
  {
  }

  lemma {:induction false} RunReopens(inputs: seq<Input>, o: Options, log: seq<Event>, p: Policy)
    requires Run(inputs, o, log, p).Some? && Accepted(o)
    ensures ReopenInv(Run(inputs, o, log, p).value, Reopenings(inputs), p)
  {
    if inputs != [] {
      var n := |inputs| - 1;
      RunReopens(inputs[..n], o, log, p);
      RunInv(inputs[..n], o, log, p);
      ReopenStep(Run(inputs[..n], o, log, p).value, inputs[n], Reopenings(inputs[..n]), o, log, p);
    }
  }

  /** Between two batches the stream is reopened at most `maxRetries` times, the
      wait before reopening number k + 1 being the one the policy prescribes; giving
      up means that all of them were used. */
  lemma {:induction false} ReconnectsBounded(inputs: seq<Input>, o: Options, log: seq<Event>, p: Policy)
    requires Run(inputs, o, log, p).Some? && Accepted(o)
    ensures var s, k := Run(inputs, o, log, p).value, Reopenings(inputs);
            && k <= p.maxRetries
            && (s.phase.Sleeping? ==> k < p.maxRetries && s.phase.wait == WaitAfter(k, p))
            && (s.phase == Reporting(ReconnectsExhausted) ==> k == p.maxRetries)
  {
    RunReopens(inputs, o, log, p);
    RunInv(inputs, o, log, p);
  }

  /** Only the report of the failure can follow a status that ends the watch. */
  lemma {:induction false} EndedStaysEnded(inputs: seq<Input>, more: seq<Input>, o: Options, log: seq<Event>, p: Policy,
                                           error: WatchError)
    requires Run(inputs, o, log, p).Some? && Run(inputs, o, log, p).value.phase == Reporting(error)
    requires Run(inputs + more, o, log, p).Some?
    ensures var s, t := Run(inputs, o, log, p).value, Run(inputs + more, o, log, p).value;
            (t.phase == Reporting(error) && t.out == s.out)
            || (t.phase == Done && (t.out == s.out || t.out == s.out + [Failure(error)]))
    decreases |more|
  {
    if more == [] {
      assert inputs + more == inputs;
    } else {
      var n := |more| - 1;
      assert (inputs + more)[..|inputs + more| - 1] == inputs + more[..n];
      EndedStaysEnded(inputs, more[..n], o, log, p, error);
    }
  }

  /** Losing the history is terminal, whatever the transport code says and whether
      the stream broke or refused to open: no reconnect and no batch ever follows,
      only the report of that error. */
  lemma {:induction false} HistoryGoneIsTerminal(inputs: seq<Input>, last: Input, more: seq<Input>, o: Options,
                                                 log: seq<Event>, p: Policy, grpc: GrpcCode)
    requires last == Broken(Status(HistoryUnavailable, grpc)) || last == OpenFailed(Status(HistoryUnavailable, grpc))
    requires Run(inputs, o, log, p).Some? && Run(inputs + [last], o, log, p).Some?
    requires Run(inputs + [last] + more, o, log, p).Some?
    ensures var error := FromStatus(Status(HistoryUnavailable, grpc));
            var s, t := Run(inputs, o, log, p).value, Run(inputs + [last] + more, o, log, p).value;
            (t.phase == Reporting(error) && t.out == s.out)
            || (t.phase == Done && (t.out == s.out || t.out == s.out + [Failure(error)]))
  {
    assert (inputs + [last])[..|inputs|] == inputs;
    EndedStaysEnded(inputs + [last], more, o, log, p, FromStatus(Status(HistoryUnavailable, grpc)));
  }
}
