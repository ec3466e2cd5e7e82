/** The server-side OCC read set of a transaction session: points, merged range
    predicates and empty predicates. */
module ReadSets {
  import opened Bytes
  import opened KvRange
  import opened Kv
  import opened V2Compat

  datatype Interval = Interval(start: Key, end: Key)

  predicate IsEmpty(r: Interval) {
    AtMost(r.end, r.start)
  }

  predicate In(r: Interval, k: Key) {
    InInterval(r.start, r.end, k)
  }

  predicate InAny(rs: seq<Interval>, k: Key) {
    exists i :: 0 <= i < |rs| && In(rs[i], k)
  }

  predicate OverlapsOrAdjacent(a: Interval, b: Interval) {
    !IsEmpty(a) && !IsEmpty(b) && AtMost(a.start, b.end) && AtMost(b.start, a.end)
  }

  predicate CoversInterval(a: Interval, b: Interval) {
    !IsEmpty(a) && AtMost(a.start, b.start) && AtMost(b.end, a.end)
  }

  datatype ReadSet = ReadSet(points: set<Key>, ranges: seq<Interval>, emptyRanges: set<Interval>)

  const EMPTY := ReadSet({}, [], {})

  function Size(s: ReadSet): nat {
    |s.points| + |s.ranges| + |s.emptyRanges|
  }

  // ----- Sorting and merging -----

  predicate SortsBefore(a: Interval, b: Interval) {
    Less(a.start, b.start) || (a.start == b.start && AtMost(a.end, b.end))
  }

  ghost predicate SortedByStart(rs: seq<Interval>) {
    forall i, j :: 0 <= i < j < |rs| ==> AtMost(rs[i].start, rs[j].start)
  }

  /** The library sort of an already sorted list with one range pushed. */
  function InsertSorted(r: Interval, rs: seq<Interval>): seq<Interval> {
    if rs == [] || SortsBefore(r, rs[0]) then [r] + rs else [rs[0]] + InsertSorted(r, rs[1..])
  }

  /** One step of the merge: extend the last merged range or start a new one. */
  function MergeOne(merged: seq<Interval>, r: Interval): seq<Interval> {
    if merged != [] && AtMost(r.start, merged[|merged| - 1].end) then
      var last := merged[|merged| - 1];
      if Less(last.end, r.end) then merged[..|merged| - 1] + [last.(end := r.end)] else merged
    else merged + [r]
  }

  function Merge(rs: seq<Interval>): seq<Interval> {
    if rs == [] then [] else MergeOne(Merge(rs[..|rs| - 1]), rs[|rs| - 1])
  }

  method MergeRanges(sorted: seq<Interval>) returns (merged: seq<Interval>)
    ensures merged == Merge(sorted)
  {
    merged := [];
    for i := 0 to |sorted|
      invariant merged == Merge(sorted[..i])
    {
      assert sorted[..i + 1][..i] == sorted[..i];
      var r := sorted[i];
      if merged != [] && AtMost(r.start, merged[|merged| - 1].end) {
        var last := merged[|merged| - 1];
        if Less(last.end, r.end) {
          merged := merged[..|merged| - 1] + [last.(end := r.end)];
        }
      } else {
        merged := merged + [r];
      }
    }
    assert sorted[..|sorted|] == sorted;
  }

  // ----- Adding reads -----

  datatype Added = Added(set': ReadSet) | LimitReached

  function AddPoint(s: ReadSet, key: Key, max: nat): Added {
    if key in s.points || InAny(s.ranges, key) then Added(s)
    else if Size(s) >= max then LimitReached
    else Added(s.(points := s.points + {key}))
  }

  function AddRange(s: ReadSet, r: Interval, max: nat): Added {
    if IsEmpty(r) then
      if r in s.emptyRanges then Added(s)
      else if Size(s) >= max then LimitReached
      else Added(s.(emptyRanges := s.emptyRanges + {r}))
    else if exists i :: 0 <= i < |s.ranges| && CoversInterval(s.ranges[i], r) then Added(s)
    else if !(exists i :: 0 <= i < |s.ranges| && OverlapsOrAdjacent(s.ranges[i], r)) && Size(s) >= max then
      LimitReached
    else
      var ranges := Merge(InsertSorted(r, s.ranges));
      Added(s.(ranges := ranges, points := set k | k in s.points && !InAny(ranges, k)))
  }

  /** The session's read set as the server holds it, updated in place. */
  class SessionReadSet {
    var points: set<Key>
    var ranges: seq<Interval>
    var emptyRanges: set<Interval>

    constructor ()
      ensures View() == EMPTY
    {
      points, ranges, emptyRanges := {}, [], {};
    }

    function View(): ReadSet
      reads this
    {
      ReadSet(points, ranges, emptyRanges)
    }

    method TryAddPoint(key: Key, max: nat) returns (ok: bool)
      modifies this
      ensures ok <==> AddPoint(old(View()), key, max).Added?
      ensures View() == if ok then AddPoint(old(View()), key, max).set' else old(View())
    {
      if key in points || InAny(ranges, key) {
        return true;
      }
      if |points| + |ranges| + |emptyRanges| >= max {
        return false;
      }
      points := points + {key};
      return true;
    }

    method TryAddRange(start: Key, end: Key, max: nat) returns (ok: bool)
      modifies this
      ensures ok <==> AddRange(old(View()), Interval(start, end), max).Added?
      ensures View() == if ok then AddRange(old(View()), Interval(start, end), max).set' else old(View())
    {
      var range := Interval(start, end);
      if IsEmpty(range) {
        if range in emptyRanges {
          return true;
        }
        if |points| + |ranges| + |emptyRanges| >= max {
          return false;
        }
        emptyRanges := emptyRanges + {range};
        return true;
      }
      if exists i :: 0 <= i < |ranges| && CoversInterval(ranges[i], range) {
        return true;
      }
      var merges := exists i :: 0 <= i < |ranges| && OverlapsOrAdjacent(ranges[i], range);
      if !merges && |points| + |ranges| + |emptyRanges| >= max {
        return false;
      }
      ranges := MergeRanges(InsertSorted(range, ranges));
      points := set k | k in points && !InAny(ranges, k);
      return true;
    }
  }

  function Record(s: ReadSet, r: ReadIntent, max: nat): Added {
    match r
    case Point(key) => AddPoint(s, key, max)
    case Range(lo, hi) => AddRange(s, Interval(lo, hi), max)
  }

  // ----- Canonical range lists -----

  /** Non-empty, increasing, with a gap after each range. */
  ghost predicate Canonical(rs: seq<Interval>) {
    && (forall i :: 0 <= i < |rs| ==> !IsEmpty(rs[i]))
    && (forall i, j :: 0 <= i < j < |rs| ==> Less(rs[i].end, rs[j].start))
  }

  lemma NonEmptyStart(r: Interval)
    ensures !IsEmpty(r) <==> Less(r.start, r.end)
  {
    NotLess(r.start, r.end);
  }

  /** Merging keeps the covered keys and reaches canonical form. */
  lemma {:induction false} MergeCanonical(rs: seq<Interval>, k: Key)
    requires SortedByStart(rs) && forall i :: 0 <= i < |rs| ==> !IsEmpty(rs[i])
    ensures Canonical(Merge(rs))
    ensures InAny(Merge(rs), k) <==> InAny(rs, k)
    ensures rs != [] ==> Merge(rs) != [] && AtMost(Merge(rs)[|Merge(rs)| - 1].start, rs[|rs| - 1].start)
  {
    if rs != [] {
      var n := |rs| - 1;
      MergeCanonical(rs[..n], k);
      var m := Merge(rs[..n]);
      if m != [] {
        assert n > 0 && rs[..n][n - 1] == rs[n - 1];
        var last := m[|m| - 1];
        if AtMost(last.start, rs[n - 1].start) && last.start != rs[n].start && last.start != rs[n - 1].start
           && rs[n - 1].start != rs[n].start {
          Transitive(last.start, rs[n - 1].start, rs[n].start);
        }
      }
      MergeOneCanonical(m, rs[n], k);
      InAnySplit(rs, k);
    }
  }

  lemma InAnySplit(rs: seq<Interval>, k: Key)
    requires rs != []
    ensures InAny(rs, k) <==> InAny(rs[..|rs| - 1], k) || In(rs[|rs| - 1], k)
  {
    var n := |rs| - 1;
    if InAny(rs[..n], k) {
      var i :| 0 <= i < n && In(rs[..n][i], k);
      assert In(rs[i], k);
    }
    if InAny(rs, k) && !In(rs[n], k) {
      var i :| 0 <= i < |rs| && In(rs[i], k);
      assert In(rs[..n][i], k);
    }
  }

  lemma MergeOneCanonical(m: seq<Interval>, r: Interval, k: Key)
    requires Canonical(m) && !IsEmpty(r)
    requires m != [] ==> AtMost(m[|m| - 1].start, r.start)
    ensures Canonical(MergeOne(m, r))
    ensures InAny(MergeOne(m, r), k) <==> InAny(m, k) || In(r, k)
    ensures AtMost(MergeOne(m, r)[|MergeOne(m, r)| - 1].start, r.start)
  {
    var out := MergeOne(m, r);
    NonEmptyStart(r);
    InAnySplit(out, k);
    if m == [] {
    } else {
      var last := m[|m| - 1];
      InAnySplit(m, k);
      NonEmptyStart(last);
      if AtMost(r.start, last.end) {
        ExtendLast(last, r, k);
        if Less(last.end, r.end) {
          assert out[..|out| - 1] == m[..|m| - 1];
        }
      } else {
        Total(r.start, last.end);
        assert out[..|out| - 1] == m;
        GapAfter(m, r);
      }
    }
  }

  lemma GapAfter(m: seq<Interval>, r: Interval)
    requires Canonical(m) && m != [] && !IsEmpty(r) && Less(m[|m| - 1].end, r.start)
    ensures Canonical(m + [r])
  {
    var out := m + [r];
    forall i, j | 0 <= i < j < |out| ensures Less(out[i].end, out[j].start) {
      if j == |m| && i < |m| - 1 {
        NonEmptyStart(m[|m| - 1]);
        Transitive(m[i].end, m[|m| - 1].start, m[|m| - 1].end);
        Transitive(m[i].end, m[|m| - 1].end, r.start);
      }
    }
  }

  /** `[a, b)` and a range starting inside or at `b` join to one range. */
  lemma ExtendLast(a: Interval, r: Interval, k: Key)
    requires Less(a.start, a.end) && Less(r.start, r.end)
    requires AtMost(a.start, r.start) && AtMost(r.start, a.end)
    ensures Less(a.end, r.end) ==>
              (In(a.(end := r.end), k) <==> In(a, k) || In(r, k)) && !IsEmpty(a.(end := r.end))
    ensures !Less(a.end, r.end) ==> (In(r, k) ==> In(a, k))
  {
    NonEmptyStart(a.(end := r.end));
    NotLess(k, a.end);
    NotLess(a.end, r.end);
    if a.start != r.start && r.start != k && AtMost(r.start, k) {
      Transitive(a.start, r.start, k);
    }
    if Less(a.end, r.end) {
      Transitive(a.start, a.end, r.end);
      if Less(k, a.end) {
        Transitive(k, a.end, r.end);
      } else if r.start != a.end && a.end != k {
        Transitive(r.start, a.end, k);
      }
    } else if Less(k, r.end) && r.end != a.end {
      Transitive(k, r.end, a.end);
    }
  }

  lemma CanonicalSorted(rs: seq<Interval>)
    requires Canonical(rs)
    ensures SortedByStart(rs)
  {
    forall i, j | 0 <= i < j < |rs| ensures AtMost(rs[i].start, rs[j].start) {
      NonEmptyStart(rs[i]);
      Transitive(rs[i].start, rs[i].end, rs[j].start);
    }
  }

  lemma SortedCons(r: Interval, rs: seq<Interval>)
    requires SortedByStart(rs) && forall j :: 0 <= j < |rs| ==> AtMost(r.start, rs[j].start)
    ensures SortedByStart([r] + rs)
  {
  }

  lemma BelowHead(r: Interval, rs: seq<Interval>, j: nat)
    requires SortedByStart(rs) && j < |rs| && AtMost(r.start, rs[0].start)
    ensures AtMost(r.start, rs[j].start)
  {
    if j > 0 && rs[0].start != rs[j].start && r.start != rs[0].start {
      Transitive(r.start, rs[0].start, rs[j].start);
    }
  }

  lemma {:induction false} InsertSortedFacts(r: Interval, rs: seq<Interval>, k: Key)
    requires SortedByStart(rs) && !IsEmpty(r) && forall i :: 0 <= i < |rs| ==> !IsEmpty(rs[i])
    ensures var out := InsertSorted(r, rs);
            && SortedByStart(out)
            && (forall i :: 0 <= i < |out| ==> !IsEmpty(out[i]) && (out[i] == r || out[i] in rs))
            && (InAny(out, k) <==> InAny(rs, k) || In(r, k))
  {
    if rs == [] || SortsBefore(r, rs[0]) {
      InAnyCons(r, rs, k);
      forall j | 0 <= j < |rs| ensures AtMost(r.start, rs[j].start) {
        BelowHead(r, rs, j);
      }
      SortedCons(r, rs);
    } else {
      var rest := InsertSorted(r, rs[1..]);
      InsertSortedFacts(r, rs[1..], k);
      InAnyCons(rs[0], rs[1..], k);
      InAnyCons(rs[0], rest, k);
      assert rs == [rs[0]] + rs[1..];
      Total(r.start, rs[0].start);
      forall j | 0 <= j < |rest| ensures AtMost(rs[0].start, rest[j].start) {
        if rest[j] != r {
          var i :| 0 <= i < |rs| - 1 && rs[1..][i] == rest[j];
          assert rs[i + 1] == rest[j];
        }
      }
      SortedCons(rs[0], rest);
    }
  }

  lemma InAnyCons(r: Interval, rs: seq<Interval>, k: Key)
    ensures InAny([r] + rs, k) <==> In(r, k) || InAny(rs, k)
  {
    var out := [r] + rs;
    if In(r, k) {
      assert In(out[0], k);
    }
    if InAny(rs, k) {
      var i :| 0 <= i < |rs| && In(rs[i], k);
      assert In(out[i + 1], k);
    }
  }

  // ----- What a read set holds after any recorded reads -----

  predicate Requested(rs: seq<ReadIntent>, k: Key) {
    exists i :: 0 <= i < |rs| && Covers(rs[i], k)
  }

  predicate RangeRequested(rs: seq<ReadIntent>, k: Key) {
    exists i :: 0 <= i < |rs| && rs[i].Range? && Covers(rs[i], k)
  }

  /** The read set is a function of the set of reads recorded: ranges in
      canonical form over exactly the requested range keys, the points they do
      not absorb, and the empty predicates. */
  ghost predicate Represents(s: ReadSet, rs: seq<ReadIntent>) {
    && Canonical(s.ranges)
    && (forall k :: InAny(s.ranges, k) <==> RangeRequested(rs, k))
    && (forall k :: k in s.points <==> Point(k) in rs && !RangeRequested(rs, k))
    && (forall r :: r in s.emptyRanges <==> IsEmpty(r) && Range(r.start, r.end) in rs)
  }

  lemma RangeRequestedSnoc(rs: seq<ReadIntent>, r: ReadIntent, k: Key)
    ensures RangeRequested(rs + [r], k) <==> RangeRequested(rs, k) || (r.Range? && Covers(r, k))
  {
    var out := rs + [r];
    if RangeRequested(rs, k) {
      var i :| 0 <= i < |rs| && rs[i].Range? && Covers(rs[i], k);
      assert out[i] == rs[i];
    }
    assert out[|rs|] == r;
  }

  lemma EmptyCoversNothing(r: Interval, k: Key)
    requires IsEmpty(r)
    ensures !In(r, k)
  {
    if In(r, k) {
      AtMostLess(r.start, k, r.end);
      NotLess(r.start, r.end);
    }
  }

  lemma CoveringInterval(a: Interval, b: Interval, k: Key)
    requires CoversInterval(a, b) && In(b, k)
    ensures In(a, k)
  {
    if a.start != b.start && b.start != k {
      Transitive(a.start, b.start, k);
    }
    if a.end != b.end {
      Transitive(k, b.end, a.end);
    }
  }

  /** What representing one more read amounts to. */
  lemma RepresentsSnoc(s: ReadSet, out: ReadSet, rs: seq<ReadIntent>, r: ReadIntent)
    requires Represents(s, rs) && Canonical(out.ranges)
    requires forall k :: InAny(out.ranges, k) <==> InAny(s.ranges, k) || (r.Range? && Covers(r, k))
    requires forall k :: k in out.points <==>
               (k in s.points || r == Point(k)) && !InAny(out.ranges, k)
    requires forall x :: x in out.emptyRanges <==> x in s.emptyRanges || (IsEmpty(x) && r == Range(x.start, x.end))
    ensures Represents(out, rs + [r])
  {
    forall k ensures InAny(out.ranges, k) <==> RangeRequested(rs + [r], k) {
      RangeRequestedSnoc(rs, r, k);
    }
    forall k ensures Point(k) in rs + [r] <==> Point(k) in rs || r == Point(k) {
    }
    forall x: Interval ensures Range(x.start, x.end) in rs + [r] <==>
                               Range(x.start, x.end) in rs || r == Range(x.start, x.end) {
    }
  }

  lemma RecordKeepsShape(s: ReadSet, rs: seq<ReadIntent>, r: ReadIntent, max: nat)
    requires Represents(s, rs) && Record(s, r, max).Added?
    ensures Represents(Record(s, r, max).set', rs + [r])
  {
    var out := Record(s, r, max).set';
    match r
    case Point(key) => RepresentsSnoc(s, out, rs, r);
    case Range(lo, hi) =>
      RangeKeepsShape(s, rs, Interval(lo, hi), max);
  }

  lemma RangeKeepsShape(s: ReadSet, rs: seq<ReadIntent>, iv: Interval, max: nat)
    requires Represents(s, rs) && AddRange(s, iv, max).Added?
    ensures Represents(AddRange(s, iv, max).set', rs + [Range(iv.start, iv.end)])
  {
    var r, out := Range(iv.start, iv.end), AddRange(s, iv, max).set';
    if IsEmpty(iv) {
      forall k ensures !Covers(r, k) { EmptyCoversNothing(iv, k); }
    } else if exists i :: 0 <= i < |s.ranges| && CoversInterval(s.ranges[i], iv) {
      var i :| 0 <= i < |s.ranges| && CoversInterval(s.ranges[i], iv);
      forall k | Covers(r, k) ensures InAny(s.ranges, k) { CoveringInterval(s.ranges[i], iv, k); }
    } else {
      MergedInsert(s.ranges, iv);
    }
    RepresentsSnoc(s, out, rs, r);
  }

  lemma MergedInsert(ranges: seq<Interval>, iv: Interval)
    requires Canonical(ranges) && !IsEmpty(iv)
    ensures Canonical(Merge(InsertSorted(iv, ranges)))
    ensures forall k :: InAny(Merge(InsertSorted(iv, ranges)), k) <==> InAny(ranges, k) || In(iv, k)
  {
    CanonicalSorted(ranges);
    var sorted := InsertSorted(iv, ranges);
    forall k ensures Canonical(Merge(sorted)) && (InAny(Merge(sorted), k) <==> InAny(ranges, k) || In(iv, k)) {
      InsertSortedFacts(iv, ranges, k);
      MergeCanonical(sorted, k);
    }
    assert Canonical(Merge(sorted)) by {
      InsertSortedFacts(iv, ranges, []);
      MergeCanonical(sorted, []);
    }
  }

  function RecordOnto(a: Added, r: ReadIntent, max: nat): Added {
    match a
    case LimitReached => LimitReached
    case Added(s) => Record(s, r, max)
  }

  function RecordAll(rs: seq<ReadIntent>, max: nat): Added {
    if rs == [] then Added(EMPTY)
    else RecordOnto(RecordAll(rs[..|rs| - 1], max), rs[|rs| - 1], max)
  }

  lemma OntoRepresents(a: Added, rs: seq<ReadIntent>, r: ReadIntent, all: seq<ReadIntent>, max: nat)
    requires all == rs + [r] && (a.Added? ==> Represents(a.set', rs))
    ensures var out := RecordOnto(a, r, max); out.Added? ==> Represents(out.set', all)
  {
    if RecordOnto(a, r, max).Added? {
      RecordKeepsShape(a.set', rs, r, max);
    }
  }

  lemma EmptyRepresents()
    ensures Represents(EMPTY, [])
  {
  }

  /** Whatever is recorded in whatever order: unless the limit was reached, the
      read set represents exactly the recorded reads. */
  lemma {:induction false} RecordAllRepresents(rs: seq<ReadIntent>, max: nat)
    ensures RecordAll(rs, max).Added? ==> Represents(RecordAll(rs, max).set', rs)
  {
    if rs == [] {
      EmptyRepresents();
    } else {
      var n := |rs| - 1;
      RecordAllRepresents(rs[..n], max);
      OntoRepresents(RecordAll(rs[..n], max), rs[..n], rs[n], rs, max);
    }
  }

  // ----- Canonical lists are determined by what they cover -----

  lemma FirstStartCovered(rs: seq<Interval>)
    requires Canonical(rs) && rs != []
    ensures InAny(rs, rs[0].start)
  {
    NonEmptyStart(rs[0]);
    assert In(rs[0], rs[0].start);
  }

  lemma CoveredFromFirst(rs: seq<Interval>, k: Key)
    requires Canonical(rs) && InAny(rs, k)
    ensures rs != [] && AtMost(rs[0].start, k)
  {
    var i :| 0 <= i < |rs| && In(rs[i], k);
    if i > 0 {
      NonEmptyStart(rs[0]);
      Transitive(rs[0].start, rs[0].end, rs[i].start);
      if rs[i].start != k {
        Transitive(rs[0].start, rs[i].start, k);
      }
    }
  }

  lemma FirstEndUncovered(rs: seq<Interval>)
    requires Canonical(rs) && rs != []
    ensures !InAny(rs, rs[0].end)
  {
    if InAny(rs, rs[0].end) {
      var i :| 0 <= i < |rs| && In(rs[i], rs[0].end);
      Irreflexive(rs[0].end);
      if i > 0 {
        Asymmetric(rs[0].end, rs[i].start);
      }
    }
  }

  lemma FirstEndAtMost(a: seq<Interval>, b: seq<Interval>)
    requires Canonical(a) && Canonical(b) && a != [] && b != [] && a[0].start == b[0].start
    requires forall k :: InAny(a, k) <==> InAny(b, k)
    ensures !Less(a[0].end, b[0].end)
  {
    if Less(a[0].end, b[0].end) {
      NonEmptyStart(a[0]);
      assert In(b[0], a[0].end);
      FirstEndUncovered(a);
    }
  }

  lemma TailCover(rs: seq<Interval>, k: Key)
    requires Canonical(rs) && rs != []
    ensures InAny(rs[1..], k) <==> InAny(rs, k) && !In(rs[0], k)
  {
    assert rs == [rs[0]] + rs[1..];
    InAnyCons(rs[0], rs[1..], k);
    if InAny(rs[1..], k) && In(rs[0], k) {
      CoveredFromFirst(rs[1..], k);
      AtMostLess(rs[1].start, k, rs[0].end);
      Asymmetric(rs[0].end, rs[1].start);
    }
  }

  lemma {:induction false} CanonicalUnique(a: seq<Interval>, b: seq<Interval>)
    requires Canonical(a) && Canonical(b)
    requires forall k :: InAny(a, k) <==> InAny(b, k)
    ensures a == b
  {
    if a == [] || b == [] {
      if a != [] {
        FirstStartCovered(a);
      }
      if b != [] {
        FirstStartCovered(b);
      }
    } else {
      FirstStartCovered(a);
      FirstStartCovered(b);
      CoveredFromFirst(a, b[0].start);
      CoveredFromFirst(b, a[0].start);
      if a[0].start != b[0].start {
        Asymmetric(a[0].start, b[0].start);
      }
      FirstEndAtMost(a, b);
      FirstEndAtMost(b, a);
      Total(a[0].end, b[0].end);
      forall k ensures InAny(a[1..], k) <==> InAny(b[1..], k) {
        TailCover(a, k);
        TailCover(b, k);
      }
      CanonicalUnique(a[1..], b[1..]);
      assert a == [a[0]] + a[1..] && b == [b[0]] + b[1..];
    }
  }

  lemma RequestedByMembers(xs: seq<ReadIntent>, ys: seq<ReadIntent>, k: Key)
    requires (forall r :: r in xs ==> r in ys) && RangeRequested(xs, k)
    ensures RangeRequested(ys, k)
  {
    var i :| 0 <= i < |xs| && xs[i].Range? && Covers(xs[i], k);
    assert xs[i] in ys;
    var j :| 0 <= j < |ys| && ys[j] == xs[i];
  }

  lemma RepresentationUnique(a: ReadSet, b: ReadSet, xs: seq<ReadIntent>, ys: seq<ReadIntent>)
    requires Represents(a, xs) && Represents(b, ys)
    requires forall r :: r in xs <==> r in ys
    requires forall k :: RangeRequested(xs, k) <==> RangeRequested(ys, k)
    ensures a == b
  {
    assert forall k :: InAny(a.ranges, k) <==> InAny(b.ranges, k);
    CanonicalUnique(a.ranges, b.ranges);
    assert a.points == b.points;
    assert a.emptyRanges == b.emptyRanges;
  }

  /** Whatever the order and repetition of the recorded reads, the same set of
      reads gives the same read set. */
  lemma OrderIndependent(xs: seq<ReadIntent>, ys: seq<ReadIntent>, maxX: nat, maxY: nat)
    requires RecordAll(xs, maxX).Added? && RecordAll(ys, maxY).Added?
    requires forall r :: r in xs <==> r in ys
    ensures RecordAll(xs, maxX).set' == RecordAll(ys, maxY).set'
  {
    RecordAllRepresents(xs, maxX);
    RecordAllRepresents(ys, maxY);
    forall k ensures RangeRequested(xs, k) <==> RangeRequested(ys, k) {
      if RangeRequested(xs, k) {
        RequestedByMembers(xs, ys, k);
      }
      if RangeRequested(ys, k) {
        RequestedByMembers(ys, xs, k);
      }
    }
    RepresentationUnique(RecordAll(xs, maxX).set', RecordAll(ys, maxY).set', xs, ys);
  }

  /** Every requested key stays covered by the points or ranges handed to the
      sequencer, and nothing else is. */
  lemma RepresentsCoverage(s: ReadSet, rs: seq<ReadIntent>, k: Key)
    requires Represents(s, rs)
    ensures Requested(rs, k) <==> k in s.points || InAny(s.ranges, k)
  {
    if Requested(rs, k) && !RangeRequested(rs, k) {
      var i :| 0 <= i < |rs| && Covers(rs[i], k);
      assert rs[i] == Point(k);
    }
    if k in s.points {
      var i :| 0 <= i < |rs| && rs[i] == Point(k);
      assert Covers(rs[i], k);
    }
    if InAny(s.ranges, k) {
      assert RangeRequested(rs, k);
      var i :| 0 <= i < |rs| && rs[i].Range? && Covers(rs[i], k);
    }
  }

  // ----- Exactly when the limit is reached -----

  /** The read is not served by an entry that is there already or grows. */
  predicate NeedsEntry(s: ReadSet, recorded: seq<ReadIntent>, r: ReadIntent) {
    match r
    case Point(key) => !Requested(recorded, key)
    case Range(lo, hi) =>
      if Less(lo, hi) then
        forall i :: 0 <= i < |s.ranges| ==> Less(s.ranges[i].end, lo) || Less(hi, s.ranges[i].start)
      else Range(lo, hi) !in recorded
  }

  lemma Touching(a: Interval, b: Interval)
    requires !IsEmpty(a)
    ensures !IsEmpty(b) ==> (OverlapsOrAdjacent(a, b) <==> !(Less(a.end, b.start) || Less(b.end, a.start)))
    ensures CoversInterval(a, b) && !IsEmpty(b) ==> OverlapsOrAdjacent(a, b)
  {
    NonEmptyStart(a);
    NonEmptyStart(b);
    NotLess(a.end, b.start);
    NotLess(b.end, a.start);
    if CoversInterval(a, b) && !IsEmpty(b) {
      AtMostLess(a.start, b.start, b.end);
      if b.end != a.end {
        Transitive(b.start, b.end, a.end);
      }
    }
  }

  /** A read is refused exactly when it needs an entry of its own and as many as
      allowed are in use. */
  lemma LimitIff(s: ReadSet, recorded: seq<ReadIntent>, r: ReadIntent, max: nat)
    requires Represents(s, recorded)
    ensures Record(s, r, max).LimitReached? <==>
            |s.points| + |s.ranges| + |s.emptyRanges| >= max && NeedsEntry(s, recorded, r)
  {
    match r
    case Point(key) => RepresentsCoverage(s, recorded, key);
    case Range(lo, hi) =>
      var iv := Interval(lo, hi);
      NonEmptyStart(iv);
      forall i | 0 <= i < |s.ranges|
        ensures OverlapsOrAdjacent(s.ranges[i], iv) || IsEmpty(iv)
                <==> !(Less(s.ranges[i].end, lo) || Less(hi, s.ranges[i].start)) || IsEmpty(iv)
        ensures CoversInterval(s.ranges[i], iv) && !IsEmpty(iv) ==> OverlapsOrAdjacent(s.ranges[i], iv)
      {
        Touching(s.ranges[i], iv);
      }
  }
}
