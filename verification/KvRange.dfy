/** Key-range semantics: prefix successor, watch interval, region membership. */
module KvRange {
  import opened Bytes

  /** `RangeSemantics::of`: an empty or repeated `range_end` is a single key,
      anything else is the half-open interval `[key, range_end)`. */
  predicate IsSingleKey(key: Key, rangeEnd: Key) {
    rangeEnd == [] || rangeEnd == key
  }

  predicate Matches(key: Key, rangeEnd: Key, k: Key) {
    if IsSingleKey(key, rangeEnd) then k == key else AtMost(key, k) && Less(k, rangeEnd)
  }

  // ----- Prefix successor -----

  /** Drop trailing 0xFF bytes, then add one to the last remaining byte. */
  function PrefixSuccessor(p: Key): (r: Option<Key>)
    decreases |p|
  {
    if p == [] then None
    else if p[|p| - 1] != 0xFF then Some(p[..|p| - 1] + [p[|p| - 1] + 1])
    else PrefixSuccessor(p[..|p| - 1])
  }

  /** The pop/push loop that computes it. */
  method ComputePrefixSuccessor(prefix: Key) returns (r: Option<Key>)
    ensures r == PrefixSuccessor(prefix)
    ensures r == None <==> forall i :: 0 <= i < |prefix| ==> prefix[i] == 0xFF
  {
    var out := prefix;
    while out != []
      invariant out <= prefix
      invariant PrefixSuccessor(out) == PrefixSuccessor(prefix)
      invariant forall i :: |out| <= i < |prefix| ==> prefix[i] == 0xFF
      decreases |out|
    {
      var last := out[|out| - 1];
      out := out[..|out| - 1];
      if last != 0xFF {
        out := out + [last + 1];
        return Some(out);
      }
    }
    return None;
  }

  lemma {:induction false} SuccessorNoneIffAllMax(p: Key)
    ensures PrefixSuccessor(p) == None <==> forall i :: 0 <= i < |p| ==> p[i] == 0xFF
  {
    if p != [] && p[|p| - 1] == 0xFF {
      var q := p[..|p| - 1];
      SuccessorNoneIffAllMax(q);
      if PrefixSuccessor(p) != None {
        var i :| 0 <= i < |q| && q[i] != 0xFF;
        assert p[i] != 0xFF;
      }
    }
  }

  /** A string of 0xFF bytes is a lower bound of exactly its own extensions. */
  lemma {:induction false} AllMaxPrefix(p: Key, k: Key)
    requires forall i :: 0 <= i < |p| ==> p[i] == 0xFF
    ensures AtMost(p, k) <==> HasPrefix(k, p)
  {
    if AtMost(p, k) && p != k {
      var d := FirstDifference(p, k);
      assert d == |p|;
      assert k[..|p|] == p[..|p|] == p;
    }
    if HasPrefix(k, p) && p != k {
      assert k[..|p|] == p[..|p|];
      LessAt(p, k, |p|);
    }
  }

  lemma PrefixAtMost(p: Key, k: Key)
    requires HasPrefix(k, p)
    ensures AtMost(p, k)
  {
    if p != k {
      assert p[..|p|] == k[..|p|];
      LessAt(p, k, |p|);
    }
  }

  /** `[p, successor(p))` is exactly the set of keys that start with `p`. */
  lemma {:induction false} PrefixSuccessorExact(p: Key, k: Key)
    requires PrefixSuccessor(p).Some?
    ensures AtMost(p, k) && Less(k, PrefixSuccessor(p).value) <==> HasPrefix(k, p)
    decreases |p|
  {
    var n := |p| - 1;
    var s := PrefixSuccessor(p).value;
    if p[n] != 0xFF {
      if HasPrefix(k, p) {
        PrefixAtMost(p, k);
        assert k[n] == k[..|p|][n] == p[n];
        assert k[..n] == k[..|p|][..n] == p[..n] == s[..n];
        LessAt(k, s, n);
      }
      if AtMost(p, k) && Less(k, s) {
        LastByteBetween(p, k, s);
      }
    } else {
      var q := p[..n];
      PrefixSuccessorExact(q, k);
      if HasPrefix(k, p) {
        PrefixAtMost(p, k);
        assert k[..n] == k[..|p|][..n] == q;
      }
      if AtMost(p, k) && Less(k, s) {
        PrefixAtMost(q, p);
        if p != k {
          Transitive(q, p, k);
        }
        TrailingMaxByte(p, k);
      }
    }
  }

  /** Between `x·b` and `x·(b+1)` lie only extensions of `x·b`. */
  lemma {:induction false} LastByteBetween(p: Key, k: Key, s: Key)
    requires |p| > 0 && |s| == |p| && s[..|p| - 1] == p[..|p| - 1] && s[|p| - 1] as int == p[|p| - 1] as int + 1
    requires AtMost(p, k) && Less(k, s)
    ensures HasPrefix(k, p)
  {
    if |p| == 1 {
      assert k[0] == p[0];
    } else {
      assert s[0] == s[..|p| - 1][0] == p[0] == k[0];
      assert s[1..][..|p| - 2] == s[..|p| - 1][1..] == p[..|p| - 1][1..] == p[1..][..|p| - 2];
      LastByteBetween(p[1..], k[1..], s[1..]);
      PrefixCons(k, p);
    }
  }

  lemma PrefixCons(k: Key, p: Key)
    requires k != [] && p != [] && k[0] == p[0] && HasPrefix(k[1..], p[1..])
    ensures HasPrefix(k, p)
  {
    assert k[..|p|] == [k[0]] + k[1..][..|p| - 1];
    assert p == [p[0]] + p[1..];
  }

  /** An extension of `q` that is at least `q·0xFF` extends `q·0xFF`. */
  lemma {:induction false} TrailingMaxByte(p: Key, k: Key)
    requires |p| > 0 && p[|p| - 1] == 0xFF && HasPrefix(k, p[..|p| - 1]) && AtMost(p, k)
    ensures HasPrefix(k, p)
  {
    if |p| == 1 {
      assert k[0] == 0xFF;
    } else {
      assert k[0] == k[..|p| - 1][0] == p[..|p| - 1][0] == p[0];
      assert k[1..][..|p| - 2] == k[..|p| - 1][1..] == p[..|p| - 1][1..] == p[1..][..|p| - 2];
      TrailingMaxByte(p[1..], k[1..]);
      PrefixCons(k, p);
    }
  }

  // ----- Watch subscriptions -----

  predicate IntervalContains(lo: Key, hi: Option<Key>, k: Key) {
    !Less(k, lo) && (hi.None? || Less(k, hi.value))
  }

  function Smaller(a: Key, b: Key): Key {
    if Less(b, a) then b else a
  }

  function WatchMatchInterval(key: Key, rangeEnd: Key): (r: (Key, Option<Key>)) {
    var prefixUpper := PrefixSuccessor(key);
    var upper :=
      if rangeEnd == [] then prefixUpper
      else match prefixUpper
        case Some(pu) => Some(Smaller(pu, rangeEnd))
        case None => Some(rangeEnd);
    (key, upper)
  }

  /** What a v1 watch delivers: keys with the prefix, below `range_end` if given. */
  predicate Delivers(key: Key, rangeEnd: Key, k: Key) {
    HasPrefix(k, key) && (rangeEnd == [] || Less(k, rangeEnd))
  }

  lemma BelowSmaller(k: Key, a: Key, b: Key)
    ensures Less(k, Smaller(a, b)) <==> Less(k, a) && Less(k, b)
  {
    Total(a, b);
    if Less(b, a) && Less(k, b) {
      Transitive(k, b, a);
    }
    if !Less(b, a) && Less(k, a) && a != b {
      Transitive(k, a, b);
    }
  }

  /** The interval used for authorization is the delivered set, key by key. */
  lemma WatchIntervalExact(key: Key, rangeEnd: Key, k: Key)
    ensures var r := WatchMatchInterval(key, rangeEnd);
            IntervalContains(r.0, r.1, k) <==> Delivers(key, rangeEnd, k)
  {
    NotLess(k, key);
    SuccessorNoneIffAllMax(key);
    match PrefixSuccessor(key)
    case None => AllMaxPrefix(key, k);
    case Some(pu) =>
      PrefixSuccessorExact(key, k);
      BelowSmaller(k, pu, rangeEnd);
  }

  datatype WatchRangeResult = RangeEnd(end: Key) | NoSuccessor

  /** `watch_range`: the v1 subscription rewritten as a v2 `range_end`. */
  function WatchRange(key: Key, rangeEnd: Key): (r: WatchRangeResult) {
    if rangeEnd != [] then RangeEnd(rangeEnd)
    else if key == [] then RangeEnd([])
    else match PrefixSuccessor(key)
      case Some(s) => RangeEnd(s)
      case None => NoSuccessor
  }

  /** The v2 filter: an empty key with an empty end is the whole key space. */
  predicate V2Delivers(key: Key, rangeEnd: Key, k: Key) {
    (key == [] && rangeEnd == []) || Matches(key, rangeEnd, k)
  }

  /** A v1 prefix watch survives the rewriting, or is refused outright; it is
      refused exactly for a non-empty prefix of 0xFF bytes. */
  lemma WatchRangePreservesPrefix(key: Key, k: Key)
    ensures WatchRange(key, []).NoSuccessor? <==>
            key != [] && forall i :: 0 <= i < |key| ==> key[i] == 0xFF
    ensures WatchRange(key, []).RangeEnd? ==>
              (V2Delivers(key, WatchRange(key, []).end, k) <==> Delivers(key, [], k))
  {
    SuccessorNoneIffAllMax(key);
    if key != [] && PrefixSuccessor(key).Some? {
      PrefixSuccessorExact(key, k);
      PrefixSuccessorExact(key, key);
      Irreflexive(key);
    }
  }

  // ----- Regions -----

  datatype Region = Region(start: Key, end: Key)

  /** `RegionMeta::contains_key`; an empty end is unbounded. */
  predicate ContainsKey(r: Region, k: Key) {
    AtMost(r.start, k) && (r.end == [] || Less(k, r.end))
  }

  ghost predicate StrictlyInside(start: Key, m: Key, end: Key) {
    Less(start, m) && (end == [] || Less(m, end))
  }

  /** Splitting at an inside key leaves two non-empty halves, and each key of
      the region, and no other key, is in exactly one of them. */
  lemma SplitPartitions(r: Region, m: Key, k: Key)
    requires StrictlyInside(r.start, m, r.end)
    ensures var left, right := Region(r.start, m), Region(m, r.end);
            && !(ContainsKey(left, k) && ContainsKey(right, k))
            && (ContainsKey(r, k) <==> ContainsKey(left, k) || ContainsKey(right, k))
            && ContainsKey(left, r.start) && ContainsKey(right, m)
  {
    Asymmetric(r.start, m);
    NotLess(k, m);
    if Less(k, m) && r.end != [] {
      Transitive(k, m, r.end);
    }
    if AtMost(m, k) && m != k {
      Transitive(r.start, m, k);
    }
  }
}
