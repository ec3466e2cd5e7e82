/** Byte strings under the lexicographic order that Rust gives `[u8]` slices
    and that every key range in the system is read in. */
module Bytes {

  type Byte = x: int | 0 <= x < 256

  type Key = seq<Byte>

  datatype Option<+T> = None | Some(value: T)

  /** Strict lexicographic order; a proper prefix is smaller. */
  predicate Less(a: Key, b: Key) {
    b != [] && (a == [] || a[0] < b[0] || (a[0] == b[0] && Less(a[1..], b[1..])))
  }

  predicate AtMost(a: Key, b: Key) {
    a == b || Less(a, b)
  }

  predicate HasPrefix(k: Key, p: Key) {
    |p| <= |k| && k[..|p|] == p
  }

  /** Two strings compare by the first position where they differ. */
  lemma {:induction false} LessAt(a: Key, b: Key, p: nat)
    requires p <= |a| && p < |b| && a[..p] == b[..p]
    requires p == |a| || a[p] < b[p]
    ensures Less(a, b)
  {
    if p > 0 {
      assert a[0] == a[..p][0] == b[..p][0] == b[0];
      assert a[1..][..p - 1] == a[..p][1..] == b[..p][1..] == b[1..][..p - 1];
      LessAt(a[1..], b[1..], p - 1);
    }
  }

  lemma {:induction false} FirstDifference(a: Key, b: Key) returns (p: nat)
    requires Less(a, b)
    ensures p <= |a| && p < |b| && a[..p] == b[..p]
    ensures p == |a| || a[p] < b[p]
  {
    if a == [] || a[0] < b[0] {
      p := 0;
    } else {
      var q := FirstDifference(a[1..], b[1..]);
      p := q + 1;
      assert a[..p] == [a[0]] + a[1..][..q];
      assert b[..p] == [b[0]] + b[1..][..q];
    }
  }

  /** A common prefix does not matter. */
  lemma {:induction false} LessUnderPrefix(p: Key, a: Key, b: Key)
    ensures Less(p + a, p + b) <==> Less(a, b)
  {
    if p == [] {
      assert p + a == a && p + b == b;
    } else {
      assert (p + a)[1..] == p[1..] + a && (p + b)[1..] == p[1..] + b;
      LessUnderPrefix(p[1..], a, b);
    }
  }

  lemma {:induction false} Irreflexive(a: Key)
    ensures !Less(a, a)
  {
    if a != [] {
      Irreflexive(a[1..]);
    }
  }

  lemma {:induction false} Transitive(a: Key, b: Key, c: Key)
    requires Less(a, b) && Less(b, c)
    ensures Less(a, c)
  {
    if a != [] && a[0] == b[0] == c[0] {
      Transitive(a[1..], b[1..], c[1..]);
    }
  }

  lemma {:induction false} Total(a: Key, b: Key)
    ensures Less(a, b) || a == b || Less(b, a)
  {
    if a != [] && b != [] && a[0] == b[0] {
      Total(a[1..], b[1..]);
      assert a == [a[0]] + a[1..];
      assert b == [b[0]] + b[1..];
    }
  }

  lemma Asymmetric(a: Key, b: Key)
    requires Less(a, b)
    ensures !Less(b, a) && a != b
  {
    Irreflexive(a);
    if Less(b, a) {
      Transitive(a, b, a);
    }
  }

  lemma AtMostLess(a: Key, b: Key, c: Key)
    requires AtMost(a, b) && Less(b, c)
    ensures Less(a, c)
  {
    if a != b {
      Transitive(a, b, c);
    }
  }

  lemma NotLess(a: Key, b: Key)
    ensures !Less(a, b) <==> AtMost(b, a)
  {
    Total(a, b);
    Irreflexive(a);
    if Less(a, b) && Less(b, a) {
      Asymmetric(a, b);
    }
  }

  // ----- Ordered enumeration: the iteration order of a BTreeMap / BTreeSet -----

  ghost predicate StrictlySorted(s: seq<Key>) {
    forall i, j :: 0 <= i < j < |s| ==> Less(s[i], s[j])
  }

  predicate Least(s: set<Key>, k: Key) {
    k in s && forall x :: x in s ==> AtMost(k, x)
  }

  lemma {:induction false} LeastExists(s: set<Key>)
    requires s != {}
    ensures exists k :: Least(s, k)
    decreases |s|
  {
    var k :| k in s;
    if s - {k} == {} {
      assert s == {k};
      assert Least(s, k);
    } else {
      LeastExists(s - {k});
      var m :| Least(s - {k}, m);
      Total(k, m);
      var best := if Less(k, m) then k else m;
      forall x | x in s
        ensures AtMost(best, x)
      {
        if x != k {
          assert AtMost(m, x);
          if best == k && x != m {
            Transitive(k, m, x);
          }
        }
      }
      assert Least(s, best);
    }
  }

  lemma LeastUnique(s: set<Key>, a: Key, b: Key)
    requires Least(s, a) && Least(s, b)
    ensures a == b
  {
    if a != b {
      Asymmetric(a, b);
    }
  }

  /** All members of `s`, smallest first. */
  function Enumerate(s: set<Key>): (r: seq<Key>)
    decreases |s|
  {
    if s == {} then []
    else
      LeastExists(s);
      assert forall a, b :: Least(s, a) && Least(s, b) ==> a == b by {
        forall a, b | Least(s, a) && Least(s, b) ensures a == b { LeastUnique(s, a, b); }
      }
      var k :| Least(s, k);
      [k] + Enumerate(s - {k})
  }

  /** The first of the enumeration is the least, the rest enumerates the others. */
  lemma EnumerateHead(s: set<Key>)
    requires s != {}
    ensures Enumerate(s) != [] && Least(s, Enumerate(s)[0])
    ensures Enumerate(s)[1..] == Enumerate(s - {Enumerate(s)[0]})
  {
    LeastExists(s);
    forall a, b | Least(s, a) && Least(s, b) ensures a == b {
      LeastUnique(s, a, b);
    }
  }

  lemma ConsSorted(k: Key, rest: seq<Key>)
    requires StrictlySorted(rest) && forall i :: 0 <= i < |rest| ==> Less(k, rest[i])
    ensures StrictlySorted([k] + rest)
  {
  }

  lemma {:induction false} EnumerateSorted(s: set<Key>)
    ensures StrictlySorted(Enumerate(s))
    ensures forall k :: k in Enumerate(s) <==> k in s
    ensures |Enumerate(s)| == |s|
    decreases |s|
  {
    if s != {} {
      EnumerateHead(s);
      var k := Enumerate(s)[0];
      var rest := Enumerate(s - {k});
      assert Enumerate(s) == [k] + rest;
      EnumerateSorted(s - {k});
      forall i | 0 <= i < |rest| ensures Less(k, rest[i]) {
        assert rest[i] in s - {k};
      }
      ConsSorted(k, rest);
    }
  }

  lemma Member(s: seq<Key>) returns (k: Key)
    requires s != []
    ensures k in s
  {
    k := s[0];
  }

  /** A strictly increasing sequence is determined by its elements. */
  lemma {:induction false} SortedUnique(a: seq<Key>, b: seq<Key>)
    requires StrictlySorted(a) && StrictlySorted(b)
    requires forall k :: k in a <==> k in b
    ensures a == b
  {
    if a == [] {
      if b != [] {
        var k := Member(b);
      }
    } else {
      assert a[0] in b;
      assert b[0] in a;
      if a[0] != b[0] {
        var j :| 0 <= j < |b| && b[j] == a[0];
        var i :| 0 <= i < |a| && a[i] == b[0];
        Asymmetric(a[0], b[0]);
      }
      forall k
        ensures k in a[1..] <==> k in b[1..]
      {
        Irreflexive(a[0]);
        if k in a[1..] {
          var i :| 0 <= i < |a| - 1 && a[1..][i] == k;
          assert a[i + 1] == k && k in b && k != b[0];
        }
        if k in b[1..] {
          var i :| 0 <= i < |b| - 1 && b[1..][i] == k;
          assert b[i + 1] == k && k in a && k != a[0];
        }
      }
      SortedUnique(a[1..], b[1..]);
      assert a == [a[0]] + a[1..];
      assert b == [b[0]] + b[1..];
    }
  }
}
