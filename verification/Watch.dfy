/** The resumable watch: a loop that reopens its stream from the last cursor.
    The server's matching events are one append-only log; a cursor stands for the
    number of events before it. */
module Watch {
  import opened Bytes
  import opened Numbers
  import opened Retry

  datatype Event = Event(commitTs: nat, body: Key)

  /** How many events of the log come before revision `rev`. */
  function Before(log: seq<Event>, rev: nat): nat {
    if log == [] || log[0].commitTs >= rev then 0 else 1 + Before(log[1..], rev)
  }

  // ----- Which failures reopen the stream -----

  datatype ErrorCode = HistoryUnavailable | EpochStale | OtherCode

  datatype GrpcCode = Unavailable | DeadlineExceeded | ResourceExhausted | Cancelled | OtherGrpc

  datatype Status = Status(code: ErrorCode, grpc: GrpcCode)

  predicate Retryable(st: Status) {
    match st.code
    case HistoryUnavailable => false
    case EpochStale => true
    case OtherCode => !st.grpc.OtherGrpc?
  }

  // ----- The loop as a machine over what it awaits -----

  const I64_MAX := 0x7FFF_FFFF_FFFF_FFFF

  /** At most one of the two starts may be given; revision 0 means from now on. */
  datatype Options = Options(startRevision: nat, startCursor: Option<nat>)

  predicate Accepted(o: Options) {
    o.startRevision == 0 || o.startCursor.None?
  }

  datatype WatchError = FromStatus(status: Status) | MalformedEvent | ReconnectsExhausted

  /** Batches carry the log stretch `[from, to)` they hold; `own` says whether
      the response came with a cursor, `cursor` is what the caller sees. */
  datatype Item =
    | Batch(from: nat, to: nat, events: seq<Event>, cursor: Option<nat>, own: bool)
    | Failure(error: WatchError)

  datatype Phase =
    | Opening
    | Streaming(pos: nat)
    | Sending(batch: Item)
    | Reporting(error: WatchError)
    | Sleeping(wait: nat)
    | Done

  /** `base` is the position from which nothing may be
      skipped, with how many items were out when it was fixed. */
  datatype State = State(phase: Phase, resume: Option<nat>, attempts: nat, out: seq<Item>,
                         base: Option<(nat, nat)>)

  datatype Input =
    | Opened(now: nat)
    | OpenFailed(status: Status)
    | Response(count: nat, cursored: bool, malformed: bool)
    | Closed
    | Broken(status: Status)
    | Taken                          // the consumer took the item
    | ReceiverGone
    | Slept
    | Stop

  function Origin(o: Options, log: seq<Event>): Option<nat> {
    if o.startCursor.Some? then o.startCursor
    else if o.startRevision != 0 then Some(Before(log, Min(o.startRevision, I64_MAX)))
    else None
  }

  function Start(o: Options, log: seq<Event>): State {
    var origin := Origin(o, log);
    State(Opening, o.startCursor, 0, [], if origin.Some? then Some((origin.value, 0)) else None)
  }

  /** Where the server starts the stream of a create request. */
  function OpenAt(o: Options, resume: Option<nat>, log: seq<Event>, now: nat): nat {
    if resume.Some? then resume.value
    else if o.startRevision != 0 then Before(log, Min(o.startRevision, I64_MAX))
    else now
  }

  predicate Enabled(s: State, i: Input, log: seq<Event>) {
    match i
    case Opened(now) => s.phase.Opening? && now <= |log|
    case OpenFailed(_) => s.phase.Opening?
    case Response(count, _, _) => s.phase.Streaming? && (count > 0 ==> s.phase.pos + count <= |log|)
    case Closed => s.phase.Streaming?
    case Broken(_) => s.phase.Streaming?
    case Taken => s.phase.Sending? || s.phase.Reporting?
    case ReceiverGone => s.phase.Sending? || s.phase.Reporting?
    case Slept => s.phase.Sleeping?
    case Stop => !s.phase.Done?
  }

  /** After a retryable failure: the next wait, or give up. */
  function Backoff(s: State, p: Policy): State {
    if s.attempts < p.maxRetries then
      var wait := WaitAfter(s.attempts, p);
      s.(phase := Sleeping(wait), attempts := s.attempts + 1)
    else s.(phase := Reporting(ReconnectsExhausted))
  }

  function AfterStatus(s: State, st: Status, p: Policy): State {
    if Retryable(st) then Backoff(s, p) else s.(phase := Reporting(FromStatus(st)))
  }

  function AfterResponse(s: State, i: Input, log: seq<Event>): State
    requires i.Response? && Enabled(s, i, log)
  {
    var pos := s.phase.pos;
    var to := pos + i.count;
    var resume := if i.cursored then Some(to) else s.resume;
    var base := if s.base.None? && i.cursored then Some((pos, |s.out|)) else s.base;
    if i.malformed then s.(resume := resume, base := base, phase := Reporting(MalformedEvent))
    else if i.count == 0 then s.(resume := resume, base := base)
    else State(Sending(Batch(pos, to, log[pos..to], resume, i.cursored)), resume, 0, s.out, base)
  }

  function Next(s: State, i: Input, o: Options, log: seq<Event>, p: Policy): State
    requires Enabled(s, i, log)
  {
    match i
    case Opened(now) => s.(phase := Streaming(OpenAt(o, s.resume, log, now)))
    case OpenFailed(st) => AfterStatus(s, st, p)
    case Response(_, _, _) => AfterResponse(s, i, log)
    case Closed => Backoff(s, p)
    case Broken(st) => AfterStatus(s, st, p)
    case Taken =>
      if s.phase.Sending? then s.(phase := if s.phase.batch.Batch? then Streaming(s.phase.batch.to) else Done,
                                  out := s.out + [s.phase.batch])
      else s.(phase := Done, out := s.out + [Failure(s.phase.error)])
    case ReceiverGone => s.(phase := Done)
    case Slept => s.(phase := Opening)
    case Stop => s.(phase := Done)
  }

  /** The state after the loop has awaited these results, if each was possible. */
  function Run(inputs: seq<Input>, o: Options, log: seq<Event>, p: Policy): Option<State> {
    if inputs == [] then Some(Start(o, log))
    else
      var n := |inputs| - 1;
      match Run(inputs[..n], o, log, p)
      case None => None
      case Some(s) => if Enabled(s, inputs[n], log) then Some(Next(s, inputs[n], o, log, p)) else None
  }
}
