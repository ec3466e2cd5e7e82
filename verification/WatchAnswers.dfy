/** Where the watch loop stands after any inputs, told from the inputs alone: when
    it reconnects, where it resumes, and what it hands over. */
module WatchAnswers {
  import opened Bytes
  import opened Numbers
  import opened Retry
  import opened Watch
  import opened WatchSafety

  /** The events before a revision are those committed earlier, in a log in order. */
  lemma {:induction false} BeforeSplits(log: seq<Event>, rev: nat)
    requires forall i, j :: 0 <= i < j < |log| ==> log[i].commitTs <= log[j].commitTs
    ensures Before(log, rev) <= |log|
    ensures forall i :: 0 <= i < |log| ==> (i < Before(log, rev) <==> log[i].commitTs < rev)
  {
    if log != [] {
      BeforeSplits(log[1..], rev);
      forall i | 0 <= i < |log| ensures i < Before(log, rev) <==> log[i].commitTs < rev {
        if i > 0 {
          assert log[i] == log[1..][i - 1];
        }
      }
    }
  }

  // ----- Read off the inputs -----

  /** Transport failures and a stale routing epoch; never a lost history. */
  predicate Transient(st: Status) {
    && st.code != HistoryUnavailable
    && (st.code == EpochStale || st.grpc in {Unavailable, DeadlineExceeded, ResourceExhausted, GrpcCode.Cancelled})
  }

  /** The last cursor received, or else the one given. */
  function Cursor(inputs: seq<Input>, o: Options, log: seq<Event>): Option<nat>
    decreases |inputs|, 0
  {
    if inputs == [] then o.startCursor
    else
      var n := |inputs| - 1;
      match inputs[n]
      case Response(count, true, _) => Some(At(inputs[..n], o, log) + count)
      case _ => Cursor(inputs[..n], o, log)
  }

  /** The position in the log that the stream has reached. */
  function At(inputs: seq<Input>, o: Options, log: seq<Event>): nat
    decreases |inputs|, 1
  {
    if inputs == [] then 0
    else
      var n := |inputs| - 1;
      match inputs[n]
      case Response(count, _, _) => At(inputs[..n], o, log) + count
      case Opened(now) =>
        (match Cursor(inputs[..n], o, log)
         case Some(c) => c
         case None => if o.startRevision == 0 then now else Before(log, Min(o.startRevision, I64_MAX)))
      case _ => At(inputs[..n], o, log)
  }

  /** The batch that the last input, a response, hands over. */
  function BatchOf(inputs: seq<Input>, o: Options, log: seq<Event>): Item
    requires inputs != [] && inputs[|inputs| - 1].Response? && At(inputs, o, log) <= |log|
  {
    var n := |inputs| - 1;
    var from, to := At(inputs[..n], o, log), At(inputs, o, log);
    Batch(from, to, log[from..to], Cursor(inputs, o, log), inputs[n].cursored)
  }

  predicate HandsOver(i: Input) {
    i.Response? && i.count > 0 && !i.malformed
  }

  /** After a failure that can be retried: the next wait, or giving up. */
  function Retrying(k: nat, p: Policy): Phase {
    if k < p.maxRetries then Sleeping(WaitAfter(k, p)) else Reporting(ReconnectsExhausted)
  }

  /** The phase, told from the inputs. */
  predicate Stands(s: State, inputs: seq<Input>, o: Options, log: seq<Event>, p: Policy) {
    if inputs == [] then s.phase == Opening
    else
      var n := |inputs| - 1;
      match inputs[n]
      case Opened(_) => s.phase == Streaming(At(inputs, o, log))
      case OpenFailed(st) =>
        s.phase == if Transient(st) then Retrying(Reopenings(inputs), p) else Reporting(FromStatus(st))
      case Broken(st) =>
        s.phase == if Transient(st) then Retrying(Reopenings(inputs), p) else Reporting(FromStatus(st))
      case Closed => s.phase == Retrying(Reopenings(inputs), p)
      case Response(count, _, malformed) =>
        if malformed then s.phase == Reporting(MalformedEvent)
        else if count == 0 then s.phase == Streaming(At(inputs, o, log))
        else At(inputs, o, log) <= |log| && s.phase == Sending(BatchOf(inputs, o, log))
      case Taken =>
        s.phase == if n > 0 && HandsOver(inputs[n - 1]) then Streaming(At(inputs, o, log)) else Done
      case Slept => s.phase == Opening
      case ReceiverGone => s.phase == Done
      case Stop => s.phase == Done
  }

  /** What has been handed over, told from the inputs. */
  predicate HandedOver(s: State, t: State, inputs: seq<Input>, o: Options, log: seq<Event>)
    requires inputs != []
  {
    var n := |inputs| - 1;
    if !inputs[n].Taken? then t.out == s.out
    else if n > 0 && HandsOver(inputs[n - 1]) then
      At(inputs[..n], o, log) <= |log| && t.out == s.out + [BatchOf(inputs[..n], o, log)]
    else s.phase.Reporting? && t.out == s.out + [Failure(s.phase.error)]
  }

  ghost predicate TracksInv(s: State, inputs: seq<Input>, o: Options, log: seq<Event>, p: Policy) {
    && s.resume == Cursor(inputs, o, log)
    && (s.phase.Streaming? ==> s.phase.pos == At(inputs, o, log))
    && (s.phase.Sending? ==>
          inputs != [] && HandsOver(inputs[|inputs| - 1])
          && At(inputs, o, log) <= |log| && s.phase.batch == BatchOf(inputs, o, log))
    && (s.phase.Reporting? ==> inputs != [] && !HandsOver(inputs[|inputs| - 1]))
    && Stands(s, inputs, o, log, p)
  }

  lemma RetryableIff(st: Status)
    ensures Retryable(st) <==> Transient(st)
  {
  }

  lemma FailureStands(s: State, k: nat, p: Policy)
    requires ReopenInv(s, k, p) && (s.phase.Opening? || s.phase.Streaming?)
    ensures Backoff(s, p).phase == Retrying(k, p)
    ensures Backoff(s, p).resume == s.resume && Backoff(s, p).out == s.out
  {
  }

  lemma ResponseStands(s: State, inputs: seq<Input>, i: Input, o: Options, log: seq<Event>, p: Policy)
    requires TracksInv(s, inputs, o, log, p) && i.Response? && Enabled(s, i, log)
    ensures TracksInv(AfterResponse(s, i, log), inputs + [i], o, log, p)
  {
    assert (inputs + [i])[..|inputs|] == inputs;
  }

  lemma FailedStands(s: State, inputs: seq<Input>, i: Input, o: Options, log: seq<Event>, p: Policy)
    requires TracksInv(s, inputs, o, log, p) && ReopenInv(s, Reopenings(inputs), p)
    requires (i.OpenFailed? || i.Broken? || i.Closed?) && Enabled(s, i, log)
    ensures TracksInv(Next(s, i, o, log, p), inputs + [i], o, log, p)
  {
    assert (inputs + [i])[..|inputs|] == inputs;
    FailureStands(s, Reopenings(inputs), p);
    if !i.Closed? {
      RetryableIff(i.status);
    }
  }

  lemma OtherStands(s: State, inputs: seq<Input>, i: Input, o: Options, log: seq<Event>, p: Policy)
    requires TracksInv(s, inputs, o, log, p) && Enabled(s, i, log)
    requires !i.Response? && !i.OpenFailed? && !i.Broken? && !i.Closed?
    ensures TracksInv(Next(s, i, o, log, p), inputs + [i], o, log, p)
  {
    assert (inputs + [i])[..|inputs|] == inputs;
  }

  lemma StepStands(s: State, inputs: seq<Input>, i: Input, o: Options, log: seq<Event>, p: Policy)
    requires TracksInv(s, inputs, o, log, p) && ReopenInv(s, Reopenings(inputs), p) && Enabled(s, i, log)
    ensures TracksInv(Next(s, i, o, log, p), inputs + [i], o, log, p)
    ensures HandedOver(s, Next(s, i, o, log, p), inputs + [i], o, log)
  {
    assert (inputs + [i])[..|inputs|] == inputs;
    if i.Response? {
      ResponseStands(s, inputs, i, o, log, p);
    } else if i.OpenFailed? || i.Broken? || i.Closed? {
      FailedStands(s, inputs, i, o, log, p);
      FailureStands(s, Reopenings(inputs), p);
    } else {
      OtherStands(s, inputs, i, o, log, p);
    }
  }

  lemma {:induction false} RunTracks(inputs: seq<Input>, o: Options, log: seq<Event>, p: Policy)
    requires Run(inputs, o, log, p).Some? && Accepted(o)
    ensures TracksInv(Run(inputs, o, log, p).value, inputs, o, log, p)
  {
    if inputs != [] {
      var n := |inputs| - 1;
      RunTracks(inputs[..n], o, log, p);
      RunReopens(inputs[..n], o, log, p);
      assert inputs[..n] + [inputs[n]] == inputs;
      StepStands(Run(inputs[..n], o, log, p).value, inputs[..n], inputs[n], o, log, p);
    }
  }

  // ----- The theorem -----

  /** The loop always stands where its inputs put it. It sleeps the prescribed wait
      after every failure that can be retried, as long as fewer than `maxRetries`
      reopenings came since the last item, and then gives up; any other failure is
      reported as it is. It reopens at the last cursor, else at the start asked for,
      else from now on. Each response with events is handed over once, in full. */
  lemma {:induction false} LoopStandsWhere(inputs: seq<Input>, o: Options, log: seq<Event>, p: Policy)
    requires Run(inputs, o, log, p).Some? && Accepted(o)
    ensures var s := Run(inputs, o, log, p).value;
            && Stands(s, inputs, o, log, p)
            && s.resume == Cursor(inputs, o, log)
            && (inputs == [] ==> s.out == [])
            && (inputs != [] ==>
                  && Run(inputs[..|inputs| - 1], o, log, p).Some?
                  && HandedOver(Run(inputs[..|inputs| - 1], o, log, p).value, s, inputs, o, log))
  {
    RunTracks(inputs, o, log, p);
    if inputs != [] {
      var n := |inputs| - 1;
      RunTracks(inputs[..n], o, log, p);
      RunReopens(inputs[..n], o, log, p);
      assert inputs[..n] + [inputs[n]] == inputs;
      StepStands(Run(inputs[..n], o, log, p).value, inputs[..n], inputs[n], o, log, p);
    }
  }
}
