/** Region key encoding: fixed-width hexadecimal prefixes that keep regions and
    kinds apart and keep numbers in order. */
module Region {
  import opened Bytes

  // ----- Fixed-width hexadecimal -----

  type Digit = d: int | 0 <= d < 16

  function HexDigit(d: Digit): Byte {
    if d < 10 then 48 + d else 87 + d
  }

  function Pow16(w: nat): nat {
    if w == 0 then 1 else 16 * Pow16(w - 1)
  }

  /** `n` in `w` lower-case digits, zero padded. */
  function Hex(n: nat, w: nat): (r: Key)
    ensures |r| == w
  {
    if w == 0 then [] else Hex(n / 16, w - 1) + [HexDigit(n % 16)]
  }

  function DigitOf(b: Byte): Option<Digit> {
    if 48 <= b <= 57 then Some(b - 48)
    else if 97 <= b <= 102 then Some(b - 87)
    else if 65 <= b <= 70 then Some(b - 55)
    else None
  }

  function Digits(s: Key): Option<nat> {
    if s == [] then Some(0)
    else
      match (Digits(s[..|s| - 1]), DigitOf(s[|s| - 1]))
      case (Some(n), Some(d)) => Some(16 * n + d)
      case _ => None
  }

  /** Unsigned parsing: an optional plus sign, then at least one digit. */
  function ParseHex(s: Key): Option<nat> {
    var body := if s != [] && s[0] == 43 then s[1..] else s;
    if body == [] then None else Digits(body)
  }

  lemma {:induction false} DigitsInvertHex(n: nat, w: nat)
    requires n < Pow16(w)
    ensures Digits(Hex(n, w)) == Some(n)
  {
    if w > 0 {
      DigitsInvertHex(n / 16, w - 1);
      var h := Hex(n, w);
      assert h[..w - 1] == Hex(n / 16, w - 1);
      assert h[w - 1] == HexDigit(n % 16);
    }
  }

  lemma {:induction false} HexBytes(n: nat, w: nat, i: nat)
    requires i < w
    ensures 48 <= Hex(n, w)[i] <= 102
  {
    if i < w - 1 {
      HexBytes(n / 16, w - 1, i);
    }
  }

  lemma {:induction false} ParseInvertsHex(n: nat, w: nat)
    requires 0 < w && n < Pow16(w)
    ensures ParseHex(Hex(n, w)) == Some(n)
  {
    HexBytes(n, w, 0);
    DigitsInvertHex(n, w);
  }

  lemma {:induction false} HexInjective(a: nat, b: nat, w: nat)
    requires a < Pow16(w) && b < Pow16(w) && Hex(a, w) == Hex(b, w)
    ensures a == b
  {
    DigitsInvertHex(a, w);
    DigitsInvertHex(b, w);
  }

  // ----- Order -----

  lemma LessDecidedBy(a: Key, b: Key, x: Key, y: Key)
    requires |a| == |b| && Less(a, b)
    ensures Less(a + x, b + y)
  {
    var p := FirstDifference(a, b);
    assert (a + x)[..p] == a[..p] && (b + y)[..p] == b[..p];
    LessAt(a + x, b + y, p);
  }

  lemma {:induction false} HexOrder(a: nat, b: nat, w: nat)
    requires a < b < Pow16(w)
    ensures Less(Hex(a, w), Hex(b, w))
  {
    if w > 0 {
      var x, y := [HexDigit(a % 16)], [HexDigit(b % 16)];
      if a / 16 == b / 16 {
        LessUnderPrefix(Hex(a / 16, w - 1), x, y);
      } else {
        HexOrder(a / 16, b / 16, w - 1);
        LessDecidedBy(Hex(a / 16, w - 1), Hex(b / 16, w - 1), x, y);
      }
    }
  }

  // ----- Keys -----

  type U64 = n: int | 0 <= n < 0x1_0000_0000_0000_0000

  lemma Width16(n: U64)
    ensures n < Pow16(16)
  {
    assert Pow16(4) == 0x1_0000;
    assert Pow16(8) == 0x1_0000_0000;
    assert Pow16(12) == 0x1_0000_0000_0000;
    assert Pow16(16) == 0x1_0000_0000_0000_0000;
  }

  datatype RegionKey =
    | KvKey(region: U64, user: Key)
    | KvMetaKey(region: U64, user: Key)
    | RaftLogKey(region: U64, index: U64)
    | RaftMetaKey(region: U64, meta: Key)
    | ChangelogKey(region: U64, revision: U64)
    | PdRegionKey(region: U64)
    | PdNodeKey(node: U64)

  const SLASH: Byte := 47

  function RegionPrefix(region: U64): (r: Key)
    ensures |r| == 20
  {
    [SLASH, 114, SLASH] + Hex(region, 16) + [SLASH]                                     // "/r/" hex "/"
  }

  /** What follows the region prefix: the kind, a slash, and the suffix. */
  function Kind(k: RegionKey): Key
    requires !k.PdRegionKey? && !k.PdNodeKey?
  {
    match k
    case KvKey(_, _) => [107, 118, SLASH]                                               // "kv/"
    case KvMetaKey(_, _) => [107, 118, 95, 109, 101, 116, 97, SLASH]                    // "kv_meta/"
    case RaftLogKey(_, _) => [114, 97, 102, 116, 95, 108, 111, 103, SLASH]              // "raft_log/"
    case RaftMetaKey(_, _) => [114, 97, 102, 116, 95, 109, 101, 116, 97, SLASH]         // "raft_meta/"
    case ChangelogKey(_, _) => [99, 104, 97, 110, 103, 101, 108, 111, 103, SLASH]       // "changelog/"
  }

  function Suffix(k: RegionKey): Key {
    match k
    case KvKey(_, user) => user
    case KvMetaKey(_, user) => user
    case RaftLogKey(_, index) => Hex(index, 16)
    case RaftMetaKey(_, meta) => meta
    case ChangelogKey(_, revision) => Hex(revision, 16)
    case PdRegionKey(region) => Hex(region, 16)
    case PdNodeKey(node) => Hex(node, 16)
  }

  function Encode(k: RegionKey): Key {
    match k
    case PdRegionKey(_) => [SLASH, 112, 100, SLASH, 114, 101, 103, 105, 111, 110, SLASH] + Suffix(k)  // "/pd/region/"
    case PdNodeKey(_) => [SLASH, 112, 100, SLASH, 110, 111, 100, 101, SLASH] + Suffix(k)              // "/pd/node/"
    case _ => RegionPrefix(k.region) + (Kind(k) + Suffix(k))
  }

  // ----- No two keys collide -----

  lemma SuffixDecides(a: RegionKey, b: RegionKey)
    requires Suffix(a) == Suffix(b)
    requires a.RaftLogKey? <==> b.RaftLogKey?
    requires a.ChangelogKey? <==> b.ChangelogKey?
    ensures a.RaftLogKey? ==> a.index == b.index
    ensures a.ChangelogKey? ==> a.revision == b.revision
  {
    if a.RaftLogKey? {
      Width16(a.index);
      Width16(b.index);
      HexInjective(a.index, b.index, 16);
    } else if a.ChangelogKey? {
      Width16(a.revision);
      Width16(b.revision);
      HexInjective(a.revision, b.revision, 16);
    }
  }

  /** Two different kinds differ at a byte that both have. */
  lemma KindsDiffer(a: RegionKey, b: RegionKey) returns (i: nat)
    requires !a.PdRegionKey? && !a.PdNodeKey? && !b.PdRegionKey? && !b.PdNodeKey? && Kind(a) != Kind(b)
    ensures i < |Kind(a)| && i < |Kind(b)| && Kind(a)[i] != Kind(b)[i]
  {
    if Kind(a)[0] != Kind(b)[0] {
      i := 0;
    } else if Kind(a)[2] != Kind(b)[2] {
      i := 2;
    } else {
      i := 5;
    }
  }

  /** The kind can be read off the bytes after the region prefix. */
  lemma KindDecides(a: RegionKey, b: RegionKey)
    requires !a.PdRegionKey? && !a.PdNodeKey? && !b.PdRegionKey? && !b.PdNodeKey?
    requires Kind(a) + Suffix(a) == Kind(b) + Suffix(b)
    ensures Kind(a) == Kind(b) && Suffix(a) == Suffix(b)
  {
    var k, l := Kind(a), Kind(b);
    if k != l {
      var i := KindsDiffer(a, b);
      PrefixByte(k, Suffix(a), i);
      PrefixByte(l, Suffix(b), i);
    }
    SuffixAfter(k, Suffix(a));
    SuffixAfter(l, Suffix(b));
  }

  lemma PrefixByte(k: Key, x: Key, i: nat)
    requires i < |k|
    ensures (k + x)[i] == k[i]
  {
  }

  lemma SuffixAfter(k: Key, x: Key)
    ensures (k + x)[|k|..] == x
  {
  }

  /** The encoders are jointly injective: across kinds, regions and suffixes. */
  lemma EncodeInjective(a: RegionKey, b: RegionKey)
    requires Encode(a) == Encode(b)
    ensures a == b
  {
    var x := Encode(a);
    assert x[1] == Encode(b)[1];
    if a.PdRegionKey? || a.PdNodeKey? {
      PdInjective(a, b);
    } else {
      var ra, rb := RegionPrefix(a.region), RegionPrefix(b.region);
      assert x[..20] == ra && x[..20] == rb;
      assert ra[3..19] == Hex(a.region, 16) && rb[3..19] == Hex(b.region, 16);
      Width16(a.region);
      Width16(b.region);
      HexInjective(a.region, b.region, 16);
      assert x[20..] == Kind(a) + Suffix(a) && x[20..] == Kind(b) + Suffix(b);
      KindDecides(a, b);
      SuffixDecides(a, b);
    }
  }

  lemma PdInjective(a: RegionKey, b: RegionKey)
    requires (a.PdRegionKey? || a.PdNodeKey?) && Encode(a) == Encode(b)
    ensures a == b
  {
    var x := Encode(a);
    assert x[1] == 112 && x[4] == Encode(b)[4];
    if a.PdRegionKey? {
      assert x[4] == 114 && b.PdRegionKey?;
      assert x[11..] == Hex(a.region, 16) && x[11..] == Hex(b.region, 16);
      Width16(a.region);
      Width16(b.region);
      HexInjective(a.region, b.region, 16);
    } else {
      assert x[4] == 110 && b.PdNodeKey?;
      assert x[9..] == Hex(a.node, 16) && x[9..] == Hex(b.node, 16);
      Width16(a.node);
      Width16(b.node);
      HexInjective(a.node, b.node, 16);
    }
  }

  // ----- Keys sort as their numbers do -----

  lemma LogKeysSort(region: U64, i: U64, j: U64)
    requires i < j
    ensures Less(Encode(RaftLogKey(region, i)), Encode(RaftLogKey(region, j)))
    ensures Less(Encode(ChangelogKey(region, i)), Encode(ChangelogKey(region, j)))
  {
    Width16(j);
    HexOrder(i, j, 16);
    var p, k, c := RegionPrefix(region), Kind(RaftLogKey(region, i)), Kind(ChangelogKey(region, i));
    LessUnderPrefix(k, Hex(i, 16), Hex(j, 16));
    LessUnderPrefix(p, k + Hex(i, 16), k + Hex(j, 16));
    LessUnderPrefix(c, Hex(i, 16), Hex(j, 16));
    LessUnderPrefix(p, c + Hex(i, 16), c + Hex(j, 16));
  }

  /** All keys of a region come before all keys of a higher-numbered one. */
  lemma RegionsDoNotInterleave(a: RegionKey, b: RegionKey)
    requires !a.PdRegionKey? && !a.PdNodeKey? && !b.PdRegionKey? && !b.PdNodeKey?
    requires a.region < b.region
    ensures Less(Encode(a), Encode(b))
  {
    Width16(b.region);
    HexOrder(a.region, b.region, 16);
    var h: Key := [SLASH, 114, SLASH];
    var x, y := Hex(a.region, 16), Hex(b.region, 16);
    LessDecidedBy(x, y, [SLASH], [SLASH]);
    LessUnderPrefix(h, x + [SLASH], y + [SLASH]);
    assert h + (x + [SLASH]) == RegionPrefix(a.region) && h + (y + [SLASH]) == RegionPrefix(b.region);
    LessDecidedBy(RegionPrefix(a.region), RegionPrefix(b.region), Kind(a) + Suffix(a), Kind(b) + Suffix(b));
  }

  // ----- Decoding -----

  const KV_PREFIX_LEN := 23

  /** The position just past slash number `n`, or 0 when there are fewer. */
  function PastSlash(key: Key, n: nat): (r: nat)
    ensures r <= |key|
    decreases |key|
  {
    if n == 0 || key == [] then 0
    else
      var m := |key| - 1;
      var earlier := PastSlash(key[..m], n);
      if earlier > 0 then earlier
      else if key[m] == SLASH && Slashes(key[..m]) == n - 1 then |key|
      else 0
  }

  function Slashes(key: Key): nat {
    if key == [] then 0 else Slashes(key[..|key| - 1]) + if key[|key| - 1] == SLASH then 1 else 0
  }

  function DecodeUserKey(key: Key): Option<Key> {
    if |key| <= KV_PREFIX_LEN then None
    else
      var start := PastSlash(key, 4);
      if 0 < start < |key| then Some(key[start..]) else None
  }

  method ComputeUserKey(key: Key) returns (r: Option<Key>)
    ensures r == DecodeUserKey(key)
  {
    if |key| <= KV_PREFIX_LEN {
      return None;
    }
    var slashCount, start, i := 0, 0, 0;
    while i < |key| && start == 0
      invariant 0 <= i <= |key| && slashCount == Slashes(key[..i])
      invariant start == PastSlash(key[..i], 4)
      invariant start == 0 ==> slashCount < 4
      decreases |key| - i
    {
      assert key[..i + 1][..i] == key[..i];
      if key[i] == SLASH {
        slashCount := slashCount + 1;
        if slashCount == 4 {
          start := i + 1;
        }
      }
      i := i + 1;
    }
    if start > 0 {
      PastSlashStable(key, i, 4);
    } else {
      assert key[..i] == key;
    }
    return if 0 < start < |key| then Some(key[start..]) else None;
  }

  lemma {:induction false} PastSlashStable(key: Key, i: nat, n: nat)
    requires i <= |key| && PastSlash(key[..i], n) > 0
    ensures PastSlash(key, n) == PastSlash(key[..i], n)
  {
    if i < |key| {
      var m := |key| - 1;
      assert key[..m][..i] == key[..i];
      PastSlashStable(key[..m], i, n);
    } else {
      assert key[..i] == key;
    }
  }

  function DecodeRegionId(key: Key): Option<nat> {
    if |key| < 20 || key[..3] != [SLASH, 114, SLASH] then None else ParseHex(key[3..19])
  }

  /** Every region-scoped key gives its region back. */
  lemma RegionIdRoundTrip(k: RegionKey)
    requires !k.PdRegionKey? && !k.PdNodeKey?
    ensures DecodeRegionId(Encode(k)) == Some(k.region)
  {
    var x := Encode(k);
    assert x[..20] == RegionPrefix(k.region);
    assert x[..3] == RegionPrefix(k.region)[..3] == [SLASH, 114, SLASH];
    assert x[3..19] == RegionPrefix(k.region)[3..19] == Hex(k.region, 16);
    Width16(k.region);
    ParseInvertsHex(k.region, 16);
  }

  lemma {:induction false} HexHasNoSlash(n: nat, w: nat)
    ensures Slashes(Hex(n, w)) == 0
  {
    if w > 0 {
      HexHasNoSlash(n / 16, w - 1);
      assert Hex(n, w)[..w - 1] == Hex(n / 16, w - 1);
    }
  }

  lemma {:induction false} SlashesAppend(a: Key, b: Key)
    ensures Slashes(a + b) == Slashes(a) + Slashes(b)
  {
    if b == [] {
      assert a + b == a;
    } else {
      assert (a + b)[..|a + b| - 1] == a + b[..|b| - 1];
      SlashesAppend(a, b[..|b| - 1]);
    }
  }

  lemma {:induction false} FewSlashes(key: Key, n: nat)
    requires Slashes(key) < n
    ensures PastSlash(key, n) == 0
  {
    if key != [] {
      FewSlashes(key[..|key| - 1], n);
    }
  }

  /** The prefix before the user key holds three slashes and then the fourth. */
  lemma PrefixSlashes(region: U64, kind: Key)
    requires Slashes(kind) == 0
    ensures Slashes(RegionPrefix(region) + kind) == 3
  {
    var h: Key := [SLASH, 114, SLASH];
    HexHasNoSlash(region, 16);
    var one: Key, two: Key := [SLASH], [SLASH, 114];
    assert one[..0] == [] && two[..1] == one && h[..2] == two;
    assert Slashes(one) == 1;
    assert Slashes(two) == 1;
    SlashesAppend(h, Hex(region, 16));
    SlashesAppend(h + Hex(region, 16), one);
    SlashesAppend(RegionPrefix(region), kind);
  }

  lemma UserKeyStart(region: U64, kind: Key, user: Key)
    requires Slashes(kind) == 0
    ensures var p := RegionPrefix(region) + kind + [SLASH]; PastSlash(p + user, 4) == |p|
  {
    var q := RegionPrefix(region) + kind;
    var p := q + [SLASH];
    PrefixSlashes(region, kind);
    assert p[..|q|] == q;
    FewSlashes(q, 4);
    assert PastSlash(p, 4) == |p|;
    assert (p + user)[..|p|] == p;
    PastSlashStable(p + user, |p|, 4);
  }

  /** Decoding inverts encoding exactly for the non-empty user keys. */
  lemma UserKeyRoundTripIff(region: U64, user: Key)
    ensures DecodeUserKey(Encode(KvKey(region, user))) == Some(user) <==> user != []
  {
    var kind: Key := [107, 118];
    var k: Key := [107];
    assert kind[..1] == k && k[..0] == [];
    assert Slashes(k) == 0;
    UserKeyStart(region, kind, user);
    var p := RegionPrefix(region) + kind + [SLASH];
    assert Encode(KvKey(region, user)) == p + user;
    assert (p + user)[|p|..] == user;
  }

  // ----- The layout, byte by byte -----

  /** "0123456789abcdef" */
  const LOWER_HEX: Key := [48, 49, 50, 51, 52, 53, 54, 55, 56, 57, 97, 98, 99, 100, 101, 102]

  /** Byte `i` of a number is the character of its digit with that weight. */
  lemma {:induction false} HexAt(n: nat, w: nat, i: nat)
    requires i < w
    ensures Pow16(w - 1 - i) > 0 && Hex(n, w)[i] == LOWER_HEX[n / Pow16(w - 1 - i) % 16]
  {
    if i == w - 1 {
      assert Pow16(0) == 1 && n / 1 == n;
      assert Hex(n, w)[w - 1] == HexDigit(n % 16);
    } else {
      HexAt(n / 16, w - 1, i);
      var m := Pow16(w - 2 - i);
      DivideTwice(n, m);
      assert Pow16(w - 1 - i) == 16 * m;
      assert Hex(n, w)[i] == Hex(n / 16, w - 1)[i];
    }
  }

  lemma DivideTwice(n: nat, m: nat)
    requires m > 0
    ensures n / 16 / m == n / (16 * m)
  {
    var q := n / (16 * m);
    var r := n % (16 * m);
    assert n == 16 * m * q + r;
    assert n / 16 == m * q + r / 16;
    assert 0 <= r / 16 < m;
    QuotientOf(n / 16, m, q, r / 16);
  }

  lemma QuotientOf(x: int, m: nat, q: int, r: int)
    requires m > 0 && x == m * q + r && 0 <= r < m
    ensures x / m == q
  {
    var d := x / m - q;
    assert m * d == r - x % m;
    assert d > 0 ==> m * d >= m;
    assert d < 0 ==> m * d <= 0 - m;
  }

  lemma PrefixAt(region: U64, i: nat)
    requires 3 <= i < 19
    ensures RegionPrefix(region)[i] == Hex(region, 16)[i - 3]
    ensures RegionPrefix(region)[..3] == [47, 114, 47] && RegionPrefix(region)[19] == 47
  {
  }

  /** "/r/", the region in sixteen lower-case digits, and a slash. */
  lemma PrefixLayout(region: U64, i: nat)
    requires 3 <= i < 19
    ensures RegionPrefix(region)[..3] == [47, 114, 47] && RegionPrefix(region)[19] == 47
    ensures Pow16(18 - i) > 0 && RegionPrefix(region)[i] == LOWER_HEX[region / Pow16(18 - i) % 16]
  {
    PrefixAt(region, i);
    HexAt(region, 16, i - 3);
  }

  function Ascii(s: string): (r: Key)
    requires forall i :: 0 <= i < |s| ==> s[i] < 128 as char
    ensures |r| == |s| && forall i :: 0 <= i < |s| ==> r[i] == s[i] as int
  {
    seq(|s|, i requires 0 <= i < |s| => s[i] as int)
  }

  /** The part of a key that names its region and its kind. */
  lemma KeyFormats(k: RegionKey)
    ensures k.KvKey? ==> Kind(k) == Ascii("kv/")
    ensures k.KvMetaKey? ==> Kind(k) == Ascii("kv_meta/")
    ensures k.RaftLogKey? ==> Kind(k) == Ascii("raft_log/")
    ensures k.RaftMetaKey? ==> Kind(k) == Ascii("raft_meta/")
    ensures k.ChangelogKey? ==> Kind(k) == Ascii("changelog/")
    ensures k.PdRegionKey? ==> Encode(k) == Ascii("/pd/region/") + Hex(k.region, 16)
    ensures k.PdNodeKey? ==> Encode(k) == Ascii("/pd/node/") + Hex(k.node, 16)
    ensures !k.PdRegionKey? && !k.PdNodeKey? ==> Encode(k) == RegionPrefix(k.region) + (Kind(k) + Suffix(k))
  {
  }
}
