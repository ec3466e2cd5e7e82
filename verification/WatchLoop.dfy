/** The watch loop as it runs: its variables, updated by whatever it awaits next. */
module WatchLoop {
  import opened Bytes
  import opened Numbers
  import opened Retry
  import opened Watch

  /** The state after the first `n` inputs. */
  ghost function After(inputs: seq<Input>, n: nat, o: Options, log: seq<Event>, p: Policy): State
    requires n <= |inputs| && Run(inputs[..n], o, log, p).Some?
  {
    Run(inputs[..n], o, log, p).value
  }

  lemma {:induction false} PrefixRuns(inputs: seq<Input>, n: nat, o: Options, log: seq<Event>, p: Policy)
    requires Run(inputs, o, log, p).Some? && n <= |inputs|
    ensures Run(inputs[..n], o, log, p).Some?
  {
    if n < |inputs| {
      PrefixRuns(inputs[..|inputs| - 1], n, o, log, p);
      assert inputs[..|inputs| - 1][..n] == inputs[..n];
    } else {
      assert inputs[..n] == inputs;
    }
  }

  lemma OneMore(inputs: seq<Input>, n: nat, o: Options, log: seq<Event>, p: Policy)
    requires Run(inputs, o, log, p).Some? && n < |inputs|
    ensures Run(inputs[..n], o, log, p).Some? && Run(inputs[..n + 1], o, log, p).Some?
    ensures Enabled(After(inputs, n, o, log, p), inputs[n], log)
    ensures After(inputs, n + 1, o, log, p) == Next(After(inputs, n, o, log, p), inputs[n], o, log, p)
  {
    PrefixRuns(inputs, n, o, log, p);
    PrefixRuns(inputs, n + 1, o, log, p);
    assert inputs[..n + 1][..n] == inputs[..n];
  }

  lemma DoneIsEnd(inputs: seq<Input>, n: nat, o: Options, log: seq<Event>, p: Policy)
    requires Run(inputs, o, log, p).Some? && n <= |inputs| && Run(inputs[..n], o, log, p).Some?
    requires After(inputs, n, o, log, p).phase.Done?
    ensures n == |inputs| && inputs[..n] == inputs
  {
    if n < |inputs| {
      OneMore(inputs, n, o, log, p);
    }
  }

  /** The variables of the loop, as the machine's state sees them. */
  ghost predicate Matches(s: State, phase: Phase, resume: Option<nat>, attempts: nat, out: seq<Item>) {
    s.phase == phase && s.resume == resume && s.attempts == attempts && s.out == out
  }

  /** Asks for the next wait; without one, the error to report is `exhausted`. */
  method Backoff(retry: RetryState, ghost s: State) returns (phase: Phase)
    requires retry.Valid() && s.attempts == retry.attempts
    modifies retry
    ensures retry.Valid()
    ensures var t := Watch.Backoff(s, retry.policy); phase == t.phase && retry.attempts == t.attempts
  {
    var wait := retry.NextAttempt();
    phase := if wait.Some? then Sleeping(wait.value) else Reporting(ReconnectsExhausted);
  }

  method HandleStatus(st: Status, retry: RetryState, ghost s: State) returns (phase: Phase)
    requires retry.Valid() && s.attempts == retry.attempts
    modifies retry
    ensures retry.Valid()
    ensures var t := AfterStatus(s, st, retry.policy); phase == t.phase && retry.attempts == t.attempts
  {
    if Retryable(st) {
      phase := Backoff(retry, s);
    } else {
      phase := Reporting(FromStatus(st));
    }
  }

  /** One response of the stream: the cursor first, then the events. */
  method HandleResponse(i: Input, pos: nat, retry: RetryState, log: seq<Event>, resume: Option<nat>, ghost s: State)
    returns (phase: Phase, resume': Option<nat>)
    requires retry.Valid() && i.Response? && Enabled(s, i, log) && s.phase == Streaming(pos)
    requires s.attempts == retry.attempts && s.resume == resume
    modifies retry
    ensures retry.Valid()
    ensures var t := AfterResponse(s, i, log);
            phase == t.phase && resume' == t.resume && retry.attempts == t.attempts && t.out == s.out
  {
    resume' := if i.cursored then Some(pos + i.count) else resume;
    if i.malformed {
      phase := Reporting(MalformedEvent);
    } else if i.count == 0 {
      phase := Streaming(pos);
    } else {
      retry.Reset();
      phase := Sending(Batch(pos, pos + i.count, log[pos..pos + i.count], resume', i.cursored));
    }
  }

  /** `run`: what it sends, where it would resume, and whether it has ended. */
  method RunTask(o: Options, log: seq<Event>, p: Policy, inputs: seq<Input>)
    returns (out: seq<Item>, resume: Option<nat>, ended: bool)
    requires Run(inputs, o, log, p).Some?
    ensures var s := Run(inputs, o, log, p).value;
            out == s.out && resume == s.resume && ended == s.phase.Done?
  {
    var retry := new RetryState(p);
    resume, out := o.startCursor, [];
    var phase := Opening;
    var i := 0;
    while i < |inputs| && !phase.Done?
      invariant 0 <= i <= |inputs| && retry.Valid() && retry.policy == p && fresh(retry)
      invariant Run(inputs[..i], o, log, p).Some?
      invariant Matches(After(inputs, i, o, log, p), phase, resume, retry.attempts, out)
      decreases |inputs| - i
    {
      OneMore(inputs, i, o, log, p);
      ghost var s := After(inputs, i, o, log, p);
      var input := inputs[i];
      if input.Stop? || input.ReceiverGone? {
        phase := Done;
      } else {
        match phase {
          case Opening =>
            match input {
              case Opened(now) =>
                phase := Streaming(if resume.Some? then resume.value
                                   else if o.startRevision != 0 then Before(log, Min(o.startRevision, I64_MAX))
                                   else now);
              case OpenFailed(st) => phase := HandleStatus(st, retry, s);
            }
          case Streaming(pos) =>
            match input {
              case Response(_, _, _) => phase, resume := HandleResponse(input, pos, retry, log, resume, s);
              case Closed => phase := Backoff(retry, s);
              case Broken(st) => phase := HandleStatus(st, retry, s);
            }
          case Sending(batch) =>
            out := out + [batch];
            phase := if batch.Batch? then Streaming(batch.to) else Done;
          case Reporting(error) =>
            out := out + [Failure(error)];
            phase := Done;
          case Sleeping(_) => phase := Opening;
        }
      }
      i := i + 1;
    }
    ended := phase.Done?;
    if ended {
      DoneIsEnd(inputs, i, o, log, p);
    }
    assert inputs[..|inputs|] == inputs;
  }
}
