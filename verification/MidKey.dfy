/** The split point of a region: `mid_key`, and exactly when it lies inside. */
module MidKey {
  import opened Bytes
  import opened KvRange
  import opened Numbers

  /** Missing low bytes read as 0x00, missing high bytes as 0xFF. */
  function Low(start: Key, i: nat): int {
    if i < |start| then start[i] else 0
  }

  function High(end: Key, i: nat): int {
    if i < |end| then end[i] else 0xFF
  }

  function Gap(start: Key, end: Key, p: nat): int
    requires p < |start| && p < |end|
  {
    end[p] as int - start[p] as int
  }

  /** The averaged bytes from position `i` on, `carry` being 0 or 1 (times 256).
      Each byte is truncated to eight bits. */
  function Digits(start: Key, end: Key, i: nat, carry: int): (r: Key)
    requires i <= Max(|start|, |end|) && 0 <= carry <= 1
    ensures |r| == Max(|start|, |end|) - i
    decreases Max(|start|, |end|) - i
  {
    if i == Max(|start|, |end|) then []
    else
      var sum := Low(start, i) + High(end, i) + 256 * carry;
      [sum / 2 % 256] + Digits(start, end, i + 1, sum % 2)
  }

  /** Saturating increment of the last byte. */
  function BumpLast(k: Key): (r: Key) {
    if k == [] then []
    else k[..|k| - 1] + [if k[|k| - 1] == 255 then 255 else k[|k| - 1] + 1]
  }

  function BoundedMid(start: Key, end: Key): Key {
    var mid := Digits(start, end, 0, 0);
    if Less(start, mid) then mid else BumpLast(mid)
  }

  function Mid(start: Key, end: Key): Key {
    if start == [] && end == [] then [0x80]
    else if end == [] || end == [0xFF] then
      if Less(start, [0x80]) then [0x80] else start + [0x80]
    else BoundedMid(start, end)
  }

  /** The carry loop of `mid_key`. */
  method ComputeMidKey(start: Key, end: Key) returns (mid: Key)
    ensures mid == Mid(start, end)
  {
    if start == [] && end == [] {
      return [0x80];
    }
    if end == [] || end == [0xFF] {
      if Less(start, [0x80]) {
        return [0x80];
      }
      return start + [0x80];
    }
    mid := AverageBytes(start, end);
    if !Less(start, mid) {
      mid := BumpLast(mid);
    }
  }

  method AverageBytes(start: Key, end: Key) returns (mid: Key)
    ensures mid == Digits(start, end, 0, 0)
  {
    var len := Max(|start|, |end|);
    mid := [];
    var carry := 0;
    for i := 0 to len
      invariant carry == 0 || carry == 256
      invariant mid + Digits(start, end, i, if carry == 0 then 0 else 1) == Digits(start, end, 0, 0)
    {
      var sum := Low(start, i) + High(end, i) + carry;
      ghost var rest := Digits(start, end, i + 1, sum % 2);
      assert mid + ([sum / 2 % 256] + rest) == mid + [sum / 2 % 256] + rest;
      mid := mid + [sum / 2 % 256];
      carry := sum % 2 * 256;
    }
  }

  // ----- The exact condition -----

  /** After an adjacent pair of bytes: step over (0xFF, 0x00) pairs; room is left
      when `start` ends before the longer bound does, or the next two bytes sum
      to less than 256. */
  predicate RoomAfter(start: Key, end: Key, j: nat)
    decreases Max(|start|, |end|) - j
  {
    if j >= Max(|start|, |end|) then false
    else if j >= |start| then true
    else if start[j] == 0xFF && High(end, j) == 0 then RoomAfter(start, end, j + 1)
    else Low(start, j) + High(end, j) < 256
  }

  function CommonPrefix(a: Key, b: Key): (n: nat)
    ensures n <= |a| && n <= |b| && a[..n] == b[..n]
    ensures n < |a| && n < |b| ==> a[n] != b[n]
  {
    if a != [] && b != [] && a[0] == b[0] then
      var m := CommonPrefix(a[1..], b[1..]);
      assert a[..m + 1] == [a[0]] + a[1..][..m];
      assert b[..m + 1] == [b[0]] + b[1..][..m];
      m + 1
    else 0
  }

  /** Whether the bounds leave room for `mid_key`, read off the two keys. */
  predicate HasRoom(start: Key, end: Key) {
    if end == [] || end == [0xFF] then true
    else
      var p := CommonPrefix(start, end);
      if p == |start| then exists i :: p <= i < |end| && end[i] != 0
      else if p == |end| then false
      else Gap(start, end, p) >= 2 || RoomAfter(start, end, p + 1)
  }

  // ----- The averaged bytes -----

  /** Equal leading bytes are copied. */
  lemma {:induction false} DigitsCopy(start: Key, end: Key, i: nat, p: nat)
    requires i <= p <= |start| && p <= |end| && start[..p] == end[..p]
    ensures Digits(start, end, i, 0) == start[i..p] + Digits(start, end, p, 0)
    decreases p - i
  {
    if i < p {
      assert end[i] == end[..p][i] == start[..p][i] == start[i];
      DigitsCopy(start, end, i + 1, p);
      assert start[i..p] == [start[i]] + start[i + 1..p];
    }
  }

  /** Below a shared prefix the average of 0 and `end` falls short of `end`
      exactly when `end` continues with some non-zero byte. */
  lemma {:induction false} DigitsBelowEnd(start: Key, end: Key, i: nat)
    requires |start| <= i <= |end|
    ensures Less(Digits(start, end, i, 0), end[i..]) <==> exists n :: i <= n < |end| && end[n] != 0
    decreases |end| - i
  {
    if i < |end| {
      var d := Digits(start, end, i, 0);
      if end[i] == 0 {
        DigitsBelowEnd(start, end, i + 1);
        assert d == [0] + Digits(start, end, i + 1, 0);
        assert end[i..] == [0] + end[i + 1..];
        LessUnderPrefix([0], Digits(start, end, i + 1, 0), end[i + 1..]);
      } else {
        assert d[0] == end[i] / 2;
        LessAt(d, end[i..], 0);
      }
    }
  }

  lemma BumpLastSuffix(x: Key, d: Key)
    requires d != []
    ensures BumpLast(x + d) == x + BumpLast(d)
  {
    assert (x + d)[..|x + d| - 1] == x + d[..|d| - 1];
  }

  /** A smaller first byte stays no larger after the increment. */
  lemma BumpStaysBelow(d: Key, s: Key)
    requires d != [] && s != [] && d[0] < s[0] && |s| <= |d|
    ensures !Less(s, BumpLast(d))
  {
    var b := BumpLast(d);
    if |d| == 1 {
      assert s == [s[0]];
      if b[0] < s[0] {
        LessAt(b, s, 0);
        Asymmetric(b, s);
      } else {
        assert b == s;
        Irreflexive(s);
      }
    } else {
      assert b[0] == d[0];
      LessAt(b, s, 0);
      Asymmetric(b, s);
    }
  }

  /** With the odd carry pending: the averaged suffix beats `start` exactly when
      room is left, and the final increment cannot repair it otherwise. */
  lemma {:induction false} CarriedDigits(start: Key, end: Key, j: nat)
    requires j <= |start| && j < Max(|start|, |end|)
    ensures RoomAfter(start, end, j) ==> Less(start[j..], Digits(start, end, j, 1))
    ensures !RoomAfter(start, end, j) ==>
              && !Less(start[j..], Digits(start, end, j, 1))
              && !Less(start[j..], BumpLast(Digits(start, end, j, 1)))
    decreases Max(|start|, |end|) - j
  {
    var d := Digits(start, end, j, 1);
    if j < |start| {
      var s: int, e := start[j], High(end, j);
      assert d[0] == (s + e + 256) / 2 % 256;
      if s == 0xFF && e == 0 {
        assert d == [255] + Digits(start, end, j + 1, 1);
        assert start[j..] == [255] + start[j + 1..];
        if j + 1 == Max(|start|, |end|) {
          assert !RoomAfter(start, end, j + 1);
          assert d == [255] == BumpLast([255]);
          assert start[j..] == d;
          Irreflexive(d);
        } else {
          var rest := Digits(start, end, j + 1, 1);
          CarriedDigits(start, end, j + 1);
          LessUnderPrefix([255], start[j + 1..], rest);
          BumpLastSuffix([255], rest);
          LessUnderPrefix([255], start[j + 1..], BumpLast(rest));
        }
      } else if s + e < 256 {
        assert d[0] == 128 + (s + e) / 2 > s;
        LessAt(start[j..], d, 0);
      } else {
        assert d[0] == (s + e) / 2 - 128 < s;
        LessAt(d, start[j..], 0);
        Asymmetric(d, start[j..]);
        BumpStaysBelow(d, start[j..]);
      }
    }
  }

  // ----- The three shapes of a bounded region -----

  lemma PrefixShape(start: Key, end: Key)
    requires Less(start, end) && CommonPrefix(start, end) == |start|
    ensures |start| < |end| && end == start + end[|start|..]
    ensures Digits(start, end, 0, 0) == start + Digits(start, end, |start|, 0)
    ensures Digits(start, end, |start|, 0) != []
  {
    var p := |start|;
    assert start[..p] == start && end[..|end|] == end;
    Irreflexive(start);
    assert end == end[..p] + end[p..];
    DigitsCopy(start, end, 0, p);
    assert start[0..p] == start;
  }

  lemma MidOfPrefix(start: Key, end: Key)
    requires Less(start, end) && CommonPrefix(start, end) == |start|
    ensures StrictlyInside(start, BoundedMid(start, end), end) <==>
            exists i :: |start| <= i < |end| && end[i] != 0
  {
    PrefixShape(start, end);
    DigitsBelowEnd(start, end, |start|);
    PrefixMid(start, Digits(start, end, |start|, 0), end[|start|..]);
    assert BoundedMid(start, end) == start + Digits(start, end, |start|, 0);
  }

  /** Extending `start` always passes it; staying below `end` is up to the suffix. */
  lemma PrefixMid(start: Key, d: Key, e: Key)
    requires d != []
    ensures Less(start, start + d)
    ensures Less(start + d, start + e) <==> Less(d, e)
  {
    assert start + [] == start;
    LessUnderPrefix(start, [], d);
    LessUnderPrefix(start, d, e);
  }

  lemma MidOfWideGap(start: Key, end: Key, p: nat)
    requires p < |start| && p < |end| && start[..p] == end[..p] && Gap(start, end, p) >= 2
    ensures end != [] && StrictlyInside(start, BoundedMid(start, end), end)
  {
    var mid := Digits(start, end, 0, 0);
    DigitsCopy(start, end, 0, p);
    assert mid == start[..p] + Digits(start, end, p, 0);
    assert mid[p] as int == (start[p] as int + end[p] as int) / 2;
    assert mid[..p] == start[..p];
    LessAt(start, mid, p);
    LessAt(mid, end, p);
  }

  lemma HalfOfAdjacent(low: int)
    requires 0 <= low < 256
    ensures (2 * low + 1) / 2 % 256 == low && (2 * low + 1) % 2 == 1
  {
  }

  /** With adjacent bytes the first of the pair is kept and the carry is odd. */
  lemma AdjacentShape(start: Key, end: Key, p: nat)
    requires p < |start| && p < |end| && start[..p] == end[..p] && Gap(start, end, p) == 1
    ensures Digits(start, end, 0, 0) == start[..p + 1] + Digits(start, end, p + 1, 1)
  {
    DigitsCopy(start, end, 0, p);
    HalfOfAdjacent(Low(start, p));
    assert Low(start, p) + High(end, p) == 2 * Low(start, p) + 1;
    assert Digits(start, end, p, 0) == [start[p]] + Digits(start, end, p + 1, 1);
    assert start[..p + 1] == start[..p] + [start[p]];
  }

  lemma MidOfAdjacent(start: Key, end: Key, p: nat)
    requires p < |start| && p < |end| && start[..p] == end[..p] && Gap(start, end, p) == 1
    ensures StrictlyInside(start, BoundedMid(start, end), end) <==> RoomAfter(start, end, p + 1)
  {
    var x, d := start[..p + 1], Digits(start, end, p + 1, 1);
    AdjacentShape(start, end, p);
    if d == [] {
      AdjacentAtEnd(start, end, p);
    } else {
      assert start == x + start[p + 1..];
      LessUnderPrefix(x, start[p + 1..], d);
      CarriedDigits(start, end, p + 1);
      BumpLastSuffix(x, d);
      LessUnderPrefix(x, start[p + 1..], BumpLast(d));
      BelowAt(x + d, end, p);
      BelowAt(x + BumpLast(d), end, p);
    }
  }

  lemma AdjacentAtEnd(start: Key, end: Key, p: nat)
    requires p + 1 == |start| == |end| && start[..p] == end[..p] && Gap(start, end, p) == 1
    ensures BoundedMid(start, end) == end
    ensures !Less(end, end)
  {
    AdjacentShape(start, end, p);
    assert Digits(start, end, 0, 0) == start;
    Irreflexive(start);
    Irreflexive(end);
    assert BumpLast(start) == start[..p] + [end[p]] == end;
  }

  lemma BelowAt(m: Key, end: Key, p: nat)
    requires p < |m| && p < |end| && m[..p] == end[..p] && m[p] < end[p]
    ensures Less(m, end)
  {
    LessAt(m, end, p);
  }

  lemma MidUnbounded(start: Key, end: Key)
    requires end == [] || (end == [0xFF] && Less(start, end))
    ensures StrictlyInside(start, Mid(start, end), end)
  {
    if !Less(start, [0x80]) {
      assert start + [] == start;
      LessUnderPrefix(start, [], [0x80]);
      if end == [0xFF] {
        LessAt(start + [0x80], end, 0);
      }
    }
  }

  /** `mid_key` returns a key strictly inside `(start, end)` if and only if the
      bounds leave it room. */
  lemma MidInsideIffRoom(start: Key, end: Key)
    requires end == [] || Less(start, end)
    ensures StrictlyInside(start, Mid(start, end), end) <==> HasRoom(start, end)
  {
    if end == [] || end == [0xFF] {
      MidUnbounded(start, end);
    } else {
      var p := CommonPrefix(start, end);
      if p == |start| {
        MidOfPrefix(start, end);
      } else {
        LessPastPrefix(start, end, p);
        if Gap(start, end, p) >= 2 {
          MidOfWideGap(start, end, p);
        } else {
          MidOfAdjacent(start, end, p);
        }
      }
    }
  }

  lemma {:induction false} DigitsOfZeros(start: Key, end: Key, i: nat)
    requires |start| <= i <= |end| && forall n :: i <= n < |end| ==> end[n] == 0
    ensures Digits(start, end, i, 0) == end[i..]
    decreases |end| - i
  {
    if i < |end| {
      DigitsOfZeros(start, end, i + 1);
      assert end[i..] == [0] + end[i + 1..];
    }
  }

  /** The bounds that lead back to `end`: it only appends zeros to `start`, or the
      two have one length and differ by one in the last byte. */
  predicate LandsOnEnd(start: Key, end: Key) {
    var p := CommonPrefix(start, end);
    p == |start| || p + 1 == |start| == |end|
  }

  /** Without room the result is `end` itself for those bounds, and otherwise
      `start` or a key below it; it never lies beyond `end`. */
  lemma MidWithoutRoom(start: Key, end: Key)
    requires end != [] && Less(start, end) && !HasRoom(start, end)
    ensures LandsOnEnd(start, end) ==> Mid(start, end) == end
    ensures !LandsOnEnd(start, end) ==> AtMost(Mid(start, end), start)
  {
    var p := CommonPrefix(start, end);
    if p == |start| {
      PrefixShape(start, end);
      DigitsOfZeros(start, end, p);
      PrefixMid(start, Digits(start, end, p, 0), end[p..]);
    } else {
      LessPastPrefix(start, end, p);
      if p + 1 == |start| == |end| {
        AdjacentAtEnd(start, end, p);
      } else {
        AdjacentBelowEnd(start, end, p);
        MidInsideIffRoom(start, end);
        NotLess(start, Mid(start, end));
      }
    }
  }

  lemma AdjacentBelowEnd(start: Key, end: Key, p: nat)
    requires p < |start| && p < |end| && start[..p] == end[..p] && Gap(start, end, p) == 1
    requires !(p + 1 == |start| == |end|)
    ensures Less(BoundedMid(start, end), end)
  {
    var x, d := start[..p + 1], Digits(start, end, p + 1, 1);
    AdjacentShape(start, end, p);
    BumpLastSuffix(x, d);
    BelowAt(x + d, end, p);
    BelowAt(x + BumpLast(d), end, p);
  }

  lemma {:induction false} LessPastPrefix(a: Key, b: Key, p: nat)
    requires Less(a, b) && p < |a| && p <= |b| && a[..p] == b[..p]
    ensures p < |b| && a[p] <= b[p]
  {
    if p > 0 {
      assert a[0] == a[..p][0] == b[..p][0] == b[0];
      assert a[1..][..p - 1] == a[..p][1..] == b[..p][1..] == b[1..][..p - 1];
      LessPastPrefix(a[1..], b[1..], p - 1);
    }
  }

  /** A split at `mid_key` partitions the region whenever there is room. */
  lemma MidKeySplits(r: Region, k: Key)
    requires (r.end == [] || Less(r.start, r.end)) && HasRoom(r.start, r.end)
    ensures var m := Mid(r.start, r.end);
            var left, right := Region(r.start, m), Region(m, r.end);
            && !(ContainsKey(left, k) && ContainsKey(right, k))
            && (ContainsKey(r, k) <==> ContainsKey(left, k) || ContainsKey(right, k))
            && ContainsKey(left, r.start) && ContainsKey(right, m)
  {
    MidInsideIffRoom(r.start, r.end);
    SplitPartitions(r, Mid(r.start, r.end), k);
  }

  /** Adjacent bounds: the increment lands on `end` itself. */
  lemma MidReachesEnd()
    ensures Less([0x61], [0x62]) && Mid([0x61], [0x62]) == [0x62]
  {
    assert Digits([0x61], [0x62], 1, 1) == [];
    assert Digits([0x61], [0x62], 0, 0) == [0x61];
    Irreflexive([0x61]);
  }

  /** Truncating the carried byte can leave the result below `start`. */
  lemma MidFallsBelowStart()
    ensures var start, end := [0x00, 0xFF], [0x01, 0xFF];
            Less(start, end) && Less(Mid(start, end), start)
  {
    var start, end := [0x00, 0xFF], [0x01, 0xFF];
    assert Digits(start, end, 2, 0) == [];
    assert Digits(start, end, 1, 1) == [127];
    assert Digits(start, end, 0, 0) == [0, 127];
    LessAt([0, 127], start, 1);
    Asymmetric([0, 127], start);
    LessAt([0, 128], start, 1);
  }

  /** It can also return `start` itself. */
  lemma MidIsStart()
    ensures var start, end := [0x00, 0xFF], [0x01, 0x00];
            Less(start, end) && Mid(start, end) == start
  {
    var start, end := [0x00, 0xFF], [0x01, 0x00];
    assert Digits(start, end, 2, 1) == [];
    assert Digits(start, end, 1, 1) == [255];
    assert Digits(start, end, 0, 0) == [0, 255];
    Irreflexive(start);
  }
}
