/** The commit sequencer: OCC validation against last-write indexes. */
module Sequencer {
  import opened Bytes
  import opened KvRange
  import opened Kv
  import opened V2Compat
  import opened ReadSets

  datatype Decision = Decision(txnId: Key, ts: nat, mutations: seq<Mutation>)

  /** Last commit timestamp per written key and per range-deleted interval. */
  datatype Index = Index(points: map<Key, nat>, intervals: map<Interval, nat>)

  function Raise<K>(m: map<K, nat>, k: K, ts: nat): map<K, nat> {
    if k in m && ts <= m[k] then m else m[k := ts]
  }

  function IndexOne(m: Mutation, ts: nat, x: Index): Index {
    match m
    case Put(key, _, _) => x.(points := Raise(x.points, key, ts))
    case Delete(key) => x.(points := Raise(x.points, key, ts))
    case DeleteRange(lo, hi) => x.(intervals := Raise(x.intervals, Interval(lo, hi), ts))
    case Unspecified(_) => x
  }

  function IndexAll(ms: seq<Mutation>, ts: nat, x: Index): Index {
    if ms == [] then x else IndexOne(ms[|ms| - 1], ts, IndexAll(ms[..|ms| - 1], ts, x))
  }

  // ----- Probing the index -----

  predicate PointHit(x: Index, key: Key, startTs: nat) {
    || (key in x.points && x.points[key] > startTs)
    || exists iv :: iv in x.intervals && x.intervals[iv] > startTs && In(iv, key)
  }

  /** An empty `end` means unbounded here; `start >= end` selects nothing. */
  predicate RangeHit(x: Index, lo: Key, hi: Key, startTs: nat) {
    (hi == [] || Less(lo, hi)) &&
    (|| (exists k :: k in x.points && x.points[k] > startTs && AtMost(lo, k) && (hi == [] || Less(k, hi)))
     || (exists iv :: iv in x.intervals && x.intervals[iv] > startTs
                      && (hi == [] || Less(iv.start, hi)) && (iv.end == [] || Less(lo, iv.end))))
  }

  // ----- The index against the decision log -----

  ghost predicate WrittenAfter(log: seq<Decision>, startTs: nat, k: Key) {
    exists i :: 0 <= i < |log| && log[i].ts > startTs && WritesAny(log[i].mutations, k)
  }

  /** A range delete that names at least one key, as Commit requires. */
  predicate ValidMutation(m: Mutation) {
    match m
    case Put(_, _, leaseId) => leaseId >= 0
    case Delete(_) => true
    case DeleteRange(lo, hi) => hi != [] && Less(lo, hi)
    case Unspecified(_) => false
  }

  predicate ValidMutations(ms: seq<Mutation>) {
    forall i :: 0 <= i < |ms| ==> ValidMutation(ms[i])
  }

  ghost predicate LogsPoint(log: seq<Decision>, k: Key, ts: nat) {
    exists i, j :: 0 <= i < |log| && 0 <= j < |log[i].mutations| && log[i].ts == ts
                   && (log[i].mutations[j].Put? || log[i].mutations[j].Delete?) && log[i].mutations[j].key == k
  }

  ghost predicate LogsInterval(log: seq<Decision>, iv: Interval, ts: nat) {
    exists i, j :: 0 <= i < |log| && 0 <= j < |log[i].mutations| && log[i].ts == ts
                   && log[i].mutations[j] == DeleteRange(iv.start, iv.end)
  }

  /** The index holds, per key and per interval, the latest logged write. */
  ghost predicate Summarizes(x: Index, log: seq<Decision>) {
    && (forall k :: k in x.points ==> LogsPoint(log, k, x.points[k]))
    && (forall iv :: iv in x.intervals ==> LogsInterval(log, iv, x.intervals[iv]))
    && (forall k, ts :: LogsPoint(log, k, ts) ==> k in x.points && ts <= x.points[k])
    && (forall iv, ts :: LogsInterval(log, iv, ts) ==> iv in x.intervals && ts <= x.intervals[iv])
  }

  ghost predicate ValidLog(log: seq<Decision>) {
    forall i :: 0 <= i < |log| ==> ValidMutations(log[i].mutations)
  }

  // ----- Keeping the index in step with the log -----

  lemma LogsPointSnoc(log: seq<Decision>, d: Decision, k: Key, ts: nat)
    requires d.mutations != []
    ensures var n := |d.mutations| - 1; var m := d.mutations[n];
            LogsPoint(log + [d], k, ts) <==>
            LogsPoint(log + [d.(mutations := d.mutations[..n])], k, ts)
            || (ts == d.ts && (m.Put? || m.Delete?) && m.key == k)
  {
    var n := |d.mutations| - 1;
    var a, b := log + [d], log + [d.(mutations := d.mutations[..n])];
    if LogsPoint(a, k, ts) {
      var i, j :| 0 <= i < |a| && 0 <= j < |a[i].mutations| && a[i].ts == ts
                  && (a[i].mutations[j].Put? || a[i].mutations[j].Delete?) && a[i].mutations[j].key == k;
      if !(i == |log| && j == n) {
        assert b[i].mutations[j] == a[i].mutations[j];
      }
    }
    if LogsPoint(b, k, ts) {
      var i, j :| 0 <= i < |b| && 0 <= j < |b[i].mutations| && b[i].ts == ts
                  && (b[i].mutations[j].Put? || b[i].mutations[j].Delete?) && b[i].mutations[j].key == k;
      assert a[i].mutations[j] == b[i].mutations[j];
    }
    assert a[|log|].mutations[n] == d.mutations[n];
  }

  lemma LogsIntervalSnoc(log: seq<Decision>, d: Decision, iv: Interval, ts: nat)
    requires d.mutations != []
    ensures var n := |d.mutations| - 1;
            LogsInterval(log + [d], iv, ts) <==>
            LogsInterval(log + [d.(mutations := d.mutations[..n])], iv, ts)
            || (ts == d.ts && d.mutations[n] == DeleteRange(iv.start, iv.end))
  {
    var n := |d.mutations| - 1;
    var a, b := log + [d], log + [d.(mutations := d.mutations[..n])];
    if LogsInterval(a, iv, ts) {
      var i, j :| 0 <= i < |a| && 0 <= j < |a[i].mutations| && a[i].ts == ts
                  && a[i].mutations[j] == DeleteRange(iv.start, iv.end);
      if !(i == |log| && j == n) {
        assert b[i].mutations[j] == a[i].mutations[j];
      }
    }
    if LogsInterval(b, iv, ts) {
      var i, j :| 0 <= i < |b| && 0 <= j < |b[i].mutations| && b[i].ts == ts
                  && b[i].mutations[j] == DeleteRange(iv.start, iv.end);
      assert a[i].mutations[j] == b[i].mutations[j];
    }
    assert a[|log|].mutations[n] == d.mutations[n];
  }

  lemma EmptyDecisionLogsNothing(log: seq<Decision>, d: Decision, k: Key, iv: Interval, ts: nat)
    requires d.mutations == []
    ensures LogsPoint(log + [d], k, ts) <==> LogsPoint(log, k, ts)
    ensures LogsInterval(log + [d], iv, ts) <==> LogsInterval(log, iv, ts)
  {
    var a := log + [d];
    assert forall i :: 0 <= i < |log| ==> a[i] == log[i];
  }

  lemma IndexOneSummarizes(m: Mutation, d: Decision, x: Index, log: seq<Decision>)
    requires d.mutations != [] && d.mutations[|d.mutations| - 1] == m
    requires Summarizes(x, log + [d.(mutations := d.mutations[..|d.mutations| - 1])])
    ensures Summarizes(IndexOne(m, d.ts, x), log + [d])
  {
    forall k, ts ensures LogsPoint(log + [d], k, ts) <==>
        LogsPoint(log + [d.(mutations := d.mutations[..|d.mutations| - 1])], k, ts)
        || (ts == d.ts && (m.Put? || m.Delete?) && m.key == k)
    {
      LogsPointSnoc(log, d, k, ts);
    }
    forall iv, ts ensures LogsInterval(log + [d], iv, ts) <==>
        LogsInterval(log + [d.(mutations := d.mutations[..|d.mutations| - 1])], iv, ts)
        || (ts == d.ts && m == DeleteRange(iv.start, iv.end))
    {
      LogsIntervalSnoc(log, d, iv, ts);
    }
  }

  lemma {:induction false} IndexAllSummarizes(d: Decision, x: Index, log: seq<Decision>)
    requires Summarizes(x, log)
    ensures Summarizes(IndexAll(d.mutations, d.ts, x), log + [d])
    decreases |d.mutations|
  {
    if d.mutations == [] {
      forall k, ts ensures LogsPoint(log + [d], k, ts) <==> LogsPoint(log, k, ts) {
        EmptyDecisionLogsNothing(log, d, k, Interval([], []), ts);
      }
      forall iv, ts ensures LogsInterval(log + [d], iv, ts) <==> LogsInterval(log, iv, ts) {
        EmptyDecisionLogsNothing(log, d, [], iv, ts);
      }
    } else {
      var n := |d.mutations| - 1;
      IndexAllSummarizes(d.(mutations := d.mutations[..n]), x, log);
      IndexOneSummarizes(d.mutations[n], d, IndexAll(d.mutations[..n], d.ts, x), log);
    }
  }

  // ----- The index answers as a scan of the log would -----

  lemma WriteIsLogged(log: seq<Decision>, startTs: nat, k: Key) returns (ts: nat, iv: Interval)
    requires WrittenAfter(log, startTs, k)
    ensures ts > startTs && (LogsPoint(log, k, ts) || (LogsInterval(log, iv, ts) && In(iv, k)))
  {
    var i :| 0 <= i < |log| && log[i].ts > startTs && WritesAny(log[i].mutations, k);
    var j :| 0 <= j < |log[i].mutations| && Writes(log[i].mutations[j], k);
    var m := log[i].mutations[j];
    ts, iv := log[i].ts, Interval([], []);
    if m.DeleteRange? {
      iv := Interval(m.key, m.rangeEnd);
      assert m == DeleteRange(iv.start, iv.end);
    }
  }

  lemma LoggedIsWrite(log: seq<Decision>, startTs: nat, k: Key, ts: nat, iv: Interval)
    requires ts > startTs && (LogsPoint(log, k, ts) || (LogsInterval(log, iv, ts) && In(iv, k)))
    ensures WrittenAfter(log, startTs, k)
  {
    if LogsPoint(log, k, ts) {
      var i, j :| 0 <= i < |log| && 0 <= j < |log[i].mutations| && log[i].ts == ts
                  && (log[i].mutations[j].Put? || log[i].mutations[j].Delete?) && log[i].mutations[j].key == k;
      assert Writes(log[i].mutations[j], k);
    } else {
      var i, j :| 0 <= i < |log| && 0 <= j < |log[i].mutations| && log[i].ts == ts
                  && log[i].mutations[j] == DeleteRange(iv.start, iv.end);
      assert Writes(log[i].mutations[j], k);
    }
  }

  lemma PointHitExact(x: Index, log: seq<Decision>, k: Key, startTs: nat)
    requires Summarizes(x, log)
    ensures PointHit(x, k, startTs) <==> WrittenAfter(log, startTs, k)
  {
    if PointHit(x, k, startTs) {
      if k in x.points && x.points[k] > startTs {
        LoggedIsWrite(log, startTs, k, x.points[k], Interval([], []));
      } else {
        var iv :| iv in x.intervals && x.intervals[iv] > startTs && In(iv, k);
        LoggedIsWrite(log, startTs, k, x.intervals[iv], iv);
      }
    }
    if WrittenAfter(log, startTs, k) {
      var ts, iv := WriteIsLogged(log, startTs, k);
      if !LogsPoint(log, k, ts) {
        assert iv in x.intervals && x.intervals[iv] > startTs && In(iv, k);
      }
    }
  }

  ghost predicate RangeWrittenAfter(log: seq<Decision>, startTs: nat, lo: Key, hi: Key) {
    exists k :: InInterval(lo, hi, k) && WrittenAfter(log, startTs, k)
  }

  /** Two non-empty intervals that overlap share the larger of their starts. */
  lemma OverlapWitness(lo: Key, hi: Key, iv: Interval) returns (k: Key)
    requires Less(lo, hi) && Less(iv.start, iv.end) && Less(iv.start, hi) && Less(lo, iv.end)
    ensures InInterval(lo, hi, k) && In(iv, k)
  {
    Total(lo, iv.start);
    k := if Less(lo, iv.start) then iv.start else lo;
  }

  lemma LoggedIntervalValid(log: seq<Decision>, iv: Interval, ts: nat)
    requires ValidLog(log) && LogsInterval(log, iv, ts)
    ensures iv.end != [] && Less(iv.start, iv.end)
  {
    var i, j :| 0 <= i < |log| && 0 <= j < |log[i].mutations| && log[i].ts == ts
                && log[i].mutations[j] == DeleteRange(iv.start, iv.end);
    assert ValidMutation(log[i].mutations[j]);
  }

  lemma RangeHitExact(x: Index, log: seq<Decision>, lo: Key, hi: Key, startTs: nat)
    requires Summarizes(x, log) && ValidLog(log) && hi != []
    ensures RangeHit(x, lo, hi, startTs) <==> RangeWrittenAfter(log, startTs, lo, hi)
  {
    if RangeHit(x, lo, hi, startTs) {
      if k :| k in x.points && x.points[k] > startTs && AtMost(lo, k) && Less(k, hi) {
        LoggedIsWrite(log, startTs, k, x.points[k], Interval([], []));
        assert InInterval(lo, hi, k);
      } else {
        var iv :| iv in x.intervals && x.intervals[iv] > startTs
                  && Less(iv.start, hi) && (iv.end == [] || Less(lo, iv.end));
        LoggedIntervalValid(log, iv, x.intervals[iv]);
        var k := OverlapWitness(lo, hi, iv);
        LoggedIsWrite(log, startTs, k, x.intervals[iv], iv);
      }
    }
    if RangeWrittenAfter(log, startTs, lo, hi) {
      var k :| InInterval(lo, hi, k) && WrittenAfter(log, startTs, k);
      AtMostLess(lo, k, hi);
      var ts, iv := WriteIsLogged(log, startTs, k);
      if LogsPoint(log, k, ts) {
        assert k in x.points && x.points[k] > startTs;
      } else {
        AtMostLess(iv.start, k, hi);
        AtMostLess(lo, k, iv.end);
        assert iv in x.intervals && x.intervals[iv] > startTs;
      }
    }
  }

  // ----- Judging a candidate -----

  datatype Candidate = Candidate(txnId: Key, startTs: nat, commitTs: nat, points: set<Key>,
                                 ranges: seq<Interval>, mutations: seq<Mutation>)

  datatype Limits = Limits(maxReadSet: nat, maxRange: nat)

  datatype Outcome =
    | Committed(commitTs: nat)
    | Duplicate(commitTs: nat)
    | OutOfOrder
    | Invalid
    | Conflict

  datatype State = State(log: seq<Decision>, index: Index, lastTs: nat, decided: map<Key, nat>)

  const INITIAL := State([], Index(map[], map[]), 0, map[])

  datatype Probe = Clear | Hit | Exceeded

  function PointsWithin(x: Index, lo: Key, hi: Key): set<Key> {
    set k | k in x.points && AtMost(lo, k) && (hi == [] || Less(k, hi))
  }

  /** Range keys first, then the interval index; each scan is bounded. */
  function ProbeRange(x: Index, lo: Key, hi: Key, startTs: nat, maxRange: nat): Probe {
    if hi != [] && !Less(lo, hi) then Clear
    else if maxRange > 0 && |PointsWithin(x, lo, hi)| > maxRange then Exceeded
    else if exists k :: k in x.points && x.points[k] > startTs && AtMost(lo, k) && (hi == [] || Less(k, hi)) then Hit
    else if maxRange > 0 && |x.intervals| > maxRange then Exceeded
    else if exists iv :: iv in x.intervals && x.intervals[iv] > startTs
                         && (hi == [] || Less(iv.start, hi)) && (iv.end == [] || Less(lo, iv.end)) then Hit
    else Clear
  }

  /** The first range that is not clear decides. */
  function ProbeRanges(x: Index, ranges: seq<Interval>, startTs: nat, maxRange: nat): Probe {
    if ranges == [] then Clear
    else
      var p := ProbeRange(x, ranges[0].start, ranges[0].end, startTs, maxRange);
      if p == Clear then ProbeRanges(x, ranges[1..], startTs, maxRange) else p
  }

  function Judge(s: State, c: Candidate, l: Limits): Outcome {
    if c.txnId == [] then Invalid
    else if c.txnId in s.decided then Duplicate(s.decided[c.txnId])
    else if c.commitTs <= c.startTs then Invalid
    else if c.commitTs <= s.lastTs then OutOfOrder
    else if l.maxReadSet > 0 && |c.points| + |c.ranges| > l.maxReadSet then Invalid
    else if c.points != {} && l.maxRange > 0 && |s.index.intervals| > l.maxRange then Invalid
    else if exists k :: k in c.points && PointHit(s.index, k, c.startTs) then Conflict
    else match ProbeRanges(s.index, c.ranges, c.startTs, l.maxRange)
      case Hit => Conflict
      case Exceeded => Invalid
      case Clear => Committed(c.commitTs)
  }

  function After(s: State, c: Candidate, l: Limits): State {
    if Judge(s, c, l).Committed? then
      State(s.log + [Decision(c.txnId, c.commitTs, c.mutations)],
            IndexAll(c.mutations, c.commitTs, s.index), c.commitTs, s.decided[c.txnId := c.commitTs])
    else s
  }

  // ----- What every sequencer state satisfies -----

  ghost predicate IncreasingLog(log: seq<Decision>) {
    forall i, j :: 0 <= i < j < |log| ==> log[i].ts < log[j].ts
  }

  ghost predicate Inv(s: State) {
    Summarizes(s.index, s.log) && LogInv(s)
  }

  ghost predicate LogInv(s: State) {
    && ValidLog(s.log)
    && IncreasingLog(s.log)
    && s.lastTs == (if s.log == [] then 0 else s.log[|s.log| - 1].ts)
    && (forall i :: 0 <= i < |s.log| ==> s.log[i].txnId in s.decided && s.decided[s.log[i].txnId] == s.log[i].ts)
    && (forall id :: id in s.decided ==> exists i :: 0 <= i < |s.log| && s.log[i].txnId == id)
  }

  lemma InitialInv()
    ensures Inv(INITIAL)
  {
  }

  lemma LastIsLatest(s: State, i: nat)
    requires LogInv(s) && i < |s.log|
    ensures s.log[i].ts <= s.lastTs
  {
  }

  lemma DecidedSnoc(log: seq<Decision>, d: Decision, id: Key)
    requires id == d.txnId || exists i :: 0 <= i < |log| && log[i].txnId == id
    ensures exists i :: 0 <= i < |log + [d]| && (log + [d])[i].txnId == id
  {
    if id == d.txnId {
      assert (log + [d])[|log|].txnId == id;
    } else {
      var i :| 0 <= i < |log| && log[i].txnId == id;
      assert (log + [d])[i].txnId == id;
    }
  }

  lemma AppendKeepsLogInv(s: State, d: Decision, s': State)
    requires LogInv(s) && ValidMutations(d.mutations) && d.ts > s.lastTs && d.txnId !in s.decided
    requires s'.log == s.log + [d] && s'.lastTs == d.ts && s'.decided == s.decided[d.txnId := d.ts]
    ensures LogInv(s')
  {
    forall i | 0 <= i < |s.log| ensures s.log[i].ts < d.ts {
      LastIsLatest(s, i);
    }
    forall id | id in s'.decided ensures exists i :: 0 <= i < |s'.log| && s'.log[i].txnId == id {
      DecidedSnoc(s.log, d, id);
    }
  }

  lemma AfterKeepsInv(s: State, c: Candidate, l: Limits)
    requires Inv(s) && ValidMutations(c.mutations)
    ensures Inv(After(s, c, l))
  {
    if Judge(s, c, l).Committed? {
      var d := Decision(c.txnId, c.commitTs, c.mutations);
      assert Summarizes(After(s, c, l).index, After(s, c, l).log) by {
        IndexAllSummarizes(d, s.index, s.log);
      }
      AppendKeepsLogInv(s, d, After(s, c, l));
    }
  }

  // ----- The verdict, in terms of the log -----

  predicate CandidateReads(c: Candidate, k: Key) {
    k in c.points || InAny(c.ranges, k)
  }

  ghost predicate BoundedRanges(c: Candidate) {
    forall i :: 0 <= i < |c.ranges| ==> c.ranges[i].end != []
  }

  lemma {:induction false} ProbeRangesClear(x: Index, ranges: seq<Interval>, startTs: nat, maxRange: nat)
    requires ProbeRanges(x, ranges, startTs, maxRange) == Clear
    ensures forall i :: 0 <= i < |ranges| ==> !RangeHit(x, ranges[i].start, ranges[i].end, startTs)
  {
    if ranges != [] {
      ProbeRangesClear(x, ranges[1..], startTs, maxRange);
      forall i | 0 <= i < |ranges| ensures !RangeHit(x, ranges[i].start, ranges[i].end, startTs) {
        if i > 0 {
          assert ranges[i] == ranges[1..][i - 1];
        }
      }
    }
  }

  lemma {:induction false} ProbeRangesHit(x: Index, ranges: seq<Interval>, startTs: nat, maxRange: nat)
    requires ProbeRanges(x, ranges, startTs, maxRange) == Hit
    ensures exists i :: 0 <= i < |ranges| && RangeHit(x, ranges[i].start, ranges[i].end, startTs)
  {
    if RangeHit(x, ranges[0].start, ranges[0].end, startTs) {
    } else {
      ProbeRangesHit(x, ranges[1..], startTs, maxRange);
      var i :| 0 <= i < |ranges[1..]| && RangeHit(x, ranges[1..][i].start, ranges[1..][i].end, startTs);
      assert ranges[i + 1] == ranges[1..][i];
    }
  }

  /** A committed candidate read nothing written after its snapshot. */
  lemma CommittedReadsAreFresh(s: State, c: Candidate, l: Limits, k: Key)
    requires Inv(s) && BoundedRanges(c) && Judge(s, c, l).Committed? && CandidateReads(c, k)
    ensures !WrittenAfter(s.log, c.startTs, k)
  {
    if k in c.points {
      PointHitExact(s.index, s.log, k, c.startTs);
    } else {
      ProbeRangesClear(s.index, c.ranges, c.startTs, l.maxRange);
      var i :| 0 <= i < |c.ranges| && In(c.ranges[i], k);
      var r := c.ranges[i];
      assert r.end != [];
      RangeHitExact(s.index, s.log, r.start, r.end, c.startTs);
      assert InInterval(r.start, r.end, k);
    }
  }

  /** A conflict is always real: some key read was written after the snapshot. */
  lemma ConflictIsReal(s: State, c: Candidate, l: Limits)
    requires Inv(s) && BoundedRanges(c) && Judge(s, c, l) == Conflict
    ensures exists k :: CandidateReads(c, k) && WrittenAfter(s.log, c.startTs, k)
  {
    if k :| k in c.points && PointHit(s.index, k, c.startTs) {
      PointHitExact(s.index, s.log, k, c.startTs);
      assert CandidateReads(c, k);
    } else {
      ProbeRangesHit(s.index, c.ranges, c.startTs, l.maxRange);
      var i :| 0 <= i < |c.ranges| && RangeHit(s.index, c.ranges[i].start, c.ranges[i].end, c.startTs);
      var r := c.ranges[i];
      assert r.end != [];
      RangeHitExact(s.index, s.log, r.start, r.end, c.startTs);
      var k :| InInterval(r.start, r.end, k) && WrittenAfter(s.log, c.startTs, k);
      assert In(c.ranges[i], k);
      assert CandidateReads(c, k);
    }
  }

  // ----- Exactly when a candidate is committed -----

  ghost predicate DecidedAt(log: seq<Decision>, id: Key, ts: nat) {
    exists i :: 0 <= i < |log| && log[i].txnId == id && log[i].ts == ts
  }

  ghost predicate IsDecided(log: seq<Decision>, id: Key) {
    exists i :: 0 <= i < |log| && log[i].txnId == id
  }

  ghost predicate AfterAll(log: seq<Decision>, ts: nat) {
    forall i :: 0 <= i < |log| ==> log[i].ts < ts
  }

  /** No read key was written after the snapshot. */
  ghost predicate Fresh(log: seq<Decision>, c: Candidate) {
    forall k :: CandidateReads(c, k) ==> !WrittenAfter(log, c.startTs, k)
  }

  /** The scans that judging the candidate takes stay within the bound, if there is one. */
  predicate Scannable(x: Index, c: Candidate, maxRange: nat) {
    maxRange > 0 ==>
      && (c.points != {} ==> |x.intervals| <= maxRange)
      && forall i :: 0 <= i < |c.ranges| && Less(c.ranges[i].start, c.ranges[i].end) ==>
           |PointsWithin(x, c.ranges[i].start, c.ranges[i].end)| <= maxRange && |x.intervals| <= maxRange
  }

  /** A new transaction, in order and within the read-set bound. */
  ghost predicate Admissible(log: seq<Decision>, c: Candidate, l: Limits) {
    && c.txnId != [] && !IsDecided(log, c.txnId)
    && c.startTs < c.commitTs && AfterAll(log, c.commitTs)
    && (l.maxReadSet == 0 || |c.points| + |c.ranges| <= l.maxReadSet)
  }

  lemma DecidedIff(s: State, id: Key, ts: nat)
    requires LogInv(s)
    ensures id in s.decided <==> IsDecided(s.log, id)
    ensures id in s.decided && s.decided[id] == ts <==> DecidedAt(s.log, id, ts)
  {
    if id in s.decided {
      var i :| 0 <= i < |s.log| && s.log[i].txnId == id;
      assert s.decided[s.log[i].txnId] == s.log[i].ts;
    }
  }

  lemma OrderIff(s: State, ts: nat)
    requires LogInv(s) && ts > 0
    ensures ts > s.lastTs <==> AfterAll(s.log, ts)
  {
    forall i | 0 <= i < |s.log| ensures s.log[i].ts <= s.lastTs {
      LastIsLatest(s, i);
    }
  }

  /** Within the scan bound, the probe of the ranges is decided by the log. */
  lemma {:induction false} ProbeRangesIff(x: Index, c: Candidate, maxRange: nat, n: nat)
    requires n <= |c.ranges| && BoundedRanges(c) && Scannable(x, c, maxRange)
    ensures var p := ProbeRanges(x, c.ranges[n..], c.startTs, maxRange);
            && p != Exceeded
            && (p == Hit <==>
                exists i :: n <= i < |c.ranges| && RangeHit(x, c.ranges[i].start, c.ranges[i].end, c.startTs))
    decreases |c.ranges| - n
  {
    if n < |c.ranges| {
      assert c.ranges[n..][0] == c.ranges[n] && c.ranges[n..][1..] == c.ranges[n + 1..];
      ProbeRangesIff(x, c, maxRange, n + 1);
    }
  }

  lemma FreshIff(s: State, c: Candidate)
    requires Inv(s) && BoundedRanges(c)
    ensures Fresh(s.log, c) <==>
            && (forall k :: k in c.points ==> !PointHit(s.index, k, c.startTs))
            && (forall i :: 0 <= i < |c.ranges| ==> !RangeHit(s.index, c.ranges[i].start, c.ranges[i].end, c.startTs))
  {
    forall k ensures PointHit(s.index, k, c.startTs) <==> WrittenAfter(s.log, c.startTs, k) {
      PointHitExact(s.index, s.log, k, c.startTs);
    }
    forall i | 0 <= i < |c.ranges|
      ensures RangeHit(s.index, c.ranges[i].start, c.ranges[i].end, c.startTs)
              <==> RangeWrittenAfter(s.log, c.startTs, c.ranges[i].start, c.ranges[i].end)
    {
      RangeHitExact(s.index, s.log, c.ranges[i].start, c.ranges[i].end, c.startTs);
    }
    RangesFresh(s.log, c);
  }

  lemma RangesFresh(log: seq<Decision>, c: Candidate)
    ensures Fresh(log, c) <==>
            && (forall k :: k in c.points ==> !WrittenAfter(log, c.startTs, k))
            && (forall i :: 0 <= i < |c.ranges| ==>
                  !RangeWrittenAfter(log, c.startTs, c.ranges[i].start, c.ranges[i].end))
  {
    forall i, k | 0 <= i < |c.ranges| && InInterval(c.ranges[i].start, c.ranges[i].end, k)
      ensures CandidateReads(c, k)
    {
      assert In(c.ranges[i], k);
    }
  }

  /** What the two scans find. */
  function Probed(s: State, c: Candidate, l: Limits): Probe {
    if c.points != {} && l.maxRange > 0 && |s.index.intervals| > l.maxRange then Exceeded
    else if exists k :: k in c.points && PointHit(s.index, k, c.startTs) then Hit
    else ProbeRanges(s.index, c.ranges, c.startTs, l.maxRange)
  }

  lemma {:induction false} ClearIsScannable(x: Index, c: Candidate, maxRange: nat, n: nat)
    requires n <= |c.ranges| && BoundedRanges(c) && ProbeRanges(x, c.ranges[n..], c.startTs, maxRange) == Clear
    ensures forall i :: n <= i < |c.ranges| ==>
              && !RangeHit(x, c.ranges[i].start, c.ranges[i].end, c.startTs)
              && (maxRange > 0 && Less(c.ranges[i].start, c.ranges[i].end) ==>
                    |PointsWithin(x, c.ranges[i].start, c.ranges[i].end)| <= maxRange && |x.intervals| <= maxRange)
    decreases |c.ranges| - n
  {
    if n < |c.ranges| {
      assert c.ranges[n..][0] == c.ranges[n] && c.ranges[n..][1..] == c.ranges[n + 1..];
      ClearIsScannable(x, c, maxRange, n + 1);
    }
  }

  lemma ReadsDecide(s: State, c: Candidate, l: Limits)
    requires Inv(s) && BoundedRanges(c)
    ensures Probed(s, c, l) == Clear <==> Scannable(s.index, c, l.maxRange) && Fresh(s.log, c)
    ensures Scannable(s.index, c, l.maxRange) && !Fresh(s.log, c) ==> Probed(s, c, l) == Hit
    ensures Probed(s, c, l) == Hit ==> !Fresh(s.log, c)
  {
    FreshIff(s, c);
    assert c.ranges[0..] == c.ranges;
    if Scannable(s.index, c, l.maxRange) {
      ProbeRangesIff(s.index, c, l.maxRange, 0);
    }
    if Probed(s, c, l) == Clear {
      ClearIsScannable(s.index, c, l.maxRange, 0);
    } else if Probed(s, c, l) == Hit && !(exists k :: k in c.points && PointHit(s.index, k, c.startTs)) {
      ProbeRangesHit(s.index, c.ranges, c.startTs, l.maxRange);
    }
  }

  /** The same id is only ever answered with its first decision. */
  lemma DuplicateIff(s: State, c: Candidate, l: Limits, ts: nat)
    requires LogInv(s)
    ensures Judge(s, c, l) == Duplicate(ts) <==> c.txnId != [] && DecidedAt(s.log, c.txnId, ts)
  {
    DecidedIff(s, c.txnId, ts);
  }

  lemma JudgeShape(s: State, c: Candidate, l: Limits)
    requires LogInv(s)
    ensures Judge(s, c, l) == OutOfOrder <==>
            c.txnId != [] && !IsDecided(s.log, c.txnId) && c.startTs < c.commitTs && !AfterAll(s.log, c.commitTs)
    ensures Judge(s, c, l) == Committed(c.commitTs) <==> Admissible(s.log, c, l) && Probed(s, c, l) == Clear
    ensures Judge(s, c, l).Committed? ==> Judge(s, c, l) == Committed(c.commitTs)
    ensures Judge(s, c, l) == Conflict <==> Admissible(s.log, c, l) && Probed(s, c, l) == Hit
  {
    DecidedIff(s, c.txnId, 0);
    if c.commitTs > 0 {
      OrderIff(s, c.commitTs);
    }
  }

  /** The verdict told from the log. A new candidate that is in order and within the
      bounds is committed if what it read is fresh, and otherwise is a conflict;
      nothing else is committed, and nothing fresh is a conflict. */
  lemma VerdictIff(s: State, c: Candidate, l: Limits)
    requires Inv(s) && BoundedRanges(c)
    ensures Judge(s, c, l) == OutOfOrder <==>
            c.txnId != [] && !IsDecided(s.log, c.txnId) && c.startTs < c.commitTs && !AfterAll(s.log, c.commitTs)
    ensures Judge(s, c, l) == Committed(c.commitTs) <==>
            Admissible(s.log, c, l) && Scannable(s.index, c, l.maxRange) && Fresh(s.log, c)
    ensures Judge(s, c, l).Committed? ==> Judge(s, c, l) == Committed(c.commitTs)
    ensures Admissible(s.log, c, l) && Scannable(s.index, c, l.maxRange) && !Fresh(s.log, c) ==>
              Judge(s, c, l) == Conflict
    ensures Judge(s, c, l) == Conflict ==> Admissible(s.log, c, l) && !Fresh(s.log, c)
  {
    JudgeShape(s, c, l);
    ReadsDecide(s, c, l);
  }

  // ----- The sequencer as it runs -----

  class CommitSequencer {
    var state: State
    const limits: Limits

    constructor (limits: Limits)
      ensures Inv(state) && state == INITIAL && this.limits == limits
    {
      state := INITIAL;
      this.limits := limits;
      InitialInv();
    }

    method AnyPointHit(points: set<Key>, startTs: nat) returns (hit: bool)
      ensures hit <==> exists k :: k in points && PointHit(state.index, k, startTs)
    {
      var todo := points;
      while todo != {}
        invariant todo <= points
        invariant forall k :: k in points - todo ==> !PointHit(state.index, k, startTs)
        decreases todo
      {
        var k :| k in todo;
        if PointHit(state.index, k, startTs) {
          return true;
        }
        todo := todo - {k};
      }
      return false;
    }

    method ScanRanges(ranges: seq<Interval>, startTs: nat) returns (p: Probe)
      ensures p == ProbeRanges(state.index, ranges, startTs, limits.maxRange)
    {
      for i := 0 to |ranges|
        invariant ProbeRanges(state.index, ranges, startTs, limits.maxRange)
               == ProbeRanges(state.index, ranges[i..], startTs, limits.maxRange)
      {
        assert ranges[i..][0] == ranges[i] && ranges[i..][1..] == ranges[i + 1..];
        p := ProbeRange(state.index, ranges[i].start, ranges[i].end, startTs, limits.maxRange);
        if p != Clear {
          return p;
        }
      }
      return Clear;
    }

    method ValidateAndCommit(c: Candidate) returns (o: Outcome)
      requires Inv(state) && ValidMutations(c.mutations)
      modifies this
      ensures o == Judge(old(state), c, limits)
      ensures state == After(old(state), c, limits) && Inv(state)
    {
      AfterKeepsInv(state, c, limits);
      if c.txnId == [] {
        return Invalid;
      }
      if c.txnId in state.decided {
        return Duplicate(state.decided[c.txnId]);
      }
      if c.commitTs <= c.startTs {
        return Invalid;
      }
      if c.commitTs <= state.lastTs {
        return OutOfOrder;
      }
      if limits.maxReadSet > 0 && |c.points| + |c.ranges| > limits.maxReadSet {
        return Invalid;
      }
      if c.points != {} && limits.maxRange > 0 && |state.index.intervals| > limits.maxRange {
        return Invalid;
      }
      var hit := AnyPointHit(c.points, c.startTs);
      if hit {
        return Conflict;
      }
      var p := ScanRanges(c.ranges, c.startTs);
      if p == Hit {
        return Conflict;
      }
      if p == Exceeded {
        return Invalid;
      }
      state := State(state.log + [Decision(c.txnId, c.commitTs, c.mutations)],
                     IndexAll(c.mutations, c.commitTs, state.index), c.commitTs,
                     state.decided[c.txnId := c.commitTs]);
      return Committed(c.commitTs);
    }
  }
}
