/** How far the averaging loop of `mid_key` is from the exact average. */
module MidAverage {
  import opened Bytes
  import opened Numbers
  import opened MidKey

  /** The number whose bytes, after those already read into `acc`, are `k`. */
  function Value(k: Key, acc: nat): nat {
    if k == [] then acc else Value(k[1..], 256 * acc + k[0])
  }

  /** The same for a bound from position `i` on, padded to `n` bytes. */
  function LowValue(start: Key, i: nat, n: nat, acc: nat): nat
    requires i <= n
    decreases n - i
  {
    if i == n then acc else LowValue(start, i + 1, n, 256 * acc + Low(start, i))
  }

  function HighValue(end: Key, i: nat, n: nat, acc: nat): nat
    requires i <= n
    decreases n - i
  {
    if i == n then acc else HighValue(end, i + 1, n, 256 * acc + High(end, i))
  }

  /** What truncating each byte to eight bits loses. */
  function Lost(start: Key, end: Key, i: nat, carry: int, acc: nat): nat
    requires i <= Max(|start|, |end|) && 0 <= carry <= 1
    decreases Max(|start|, |end|) - i
  {
    if i == Max(|start|, |end|) then acc
    else
      var sum := Low(start, i) + High(end, i) + 256 * carry;
      Lost(start, end, i + 1, sum % 2, 256 * acc + if sum >= 512 then 256 else 0)
  }

  /** No sum of two bytes and the carry reaches 512. */
  predicate NeverOverflows(start: Key, end: Key, i: nat, carry: int)
    requires i <= Max(|start|, |end|) && 0 <= carry <= 1
    decreases Max(|start|, |end|) - i
  {
    i == Max(|start|, |end|) ||
    var sum := Low(start, i) + High(end, i) + 256 * carry;
    sum < 512 && NeverOverflows(start, end, i + 1, sum % 2)
  }

  lemma {:induction false} LostNothing(start: Key, end: Key, i: nat, carry: int, acc: nat)
    requires i <= Max(|start|, |end|) && 0 <= carry <= 1
    ensures Lost(start, end, i, carry, acc) == 0 <==> acc == 0 && NeverOverflows(start, end, i, carry)
    decreases Max(|start|, |end|) - i
  {
    if i < Max(|start|, |end|) {
      var sum := Low(start, i) + High(end, i) + 256 * carry;
      LostNothing(start, end, i + 1, sum % 2, 256 * acc + if sum >= 512 then 256 else 0);
    }
  }

  lemma ValueCons(d: Byte, rest: Key, acc: nat)
    ensures Value([d] + rest, acc) == Value(rest, 256 * acc + d)
  {
    assert ([d] + rest)[1..] == rest;
  }

  lemma NextByte(a: nat, b: nat, carry: int, low: nat, high: nat, mid: nat, lost: nat)
    requires a < 256 && b < 256 && 0 <= carry <= 1 && low + high == 2 * (mid + lost) + carry
    ensures var sum := a + b + 256 * carry;
            256 * low + a + (256 * high + b)
            == 2 * (256 * mid + sum / 2 % 256 + (256 * lost + if sum >= 512 then 256 else 0)) + sum % 2
  {
    var sum := a + b + 256 * carry;
    assert sum / 2 == sum / 2 % 256 + if sum >= 512 then 256 else 0;
  }

  /** If twice what was written and lost so far, with the carry, is the sum of what
      was read, it still is at the end. */
  lemma {:induction false} AverageFrom(start: Key, end: Key, i: nat, carry: int, low: nat, high: nat, mid: nat,
                                       lost: nat)
    requires i <= Max(|start|, |end|) && 0 <= carry <= 1 && low + high == 2 * (mid + lost) + carry
    ensures var n := Max(|start|, |end|);
            Value(Digits(start, end, i, carry), mid) + Lost(start, end, i, carry, lost)
            == (LowValue(start, i, n, low) + HighValue(end, i, n, high)) / 2
    decreases Max(|start|, |end|) - i
  {
    if i < Max(|start|, |end|) {
      var sum := Low(start, i) + High(end, i) + 256 * carry;
      var d := sum / 2 % 256;
      NextByte(Low(start, i), High(end, i), carry, low, high, mid, lost);
      ValueCons(d, Digits(start, end, i + 1, sum % 2), mid);
      AverageFrom(start, end, i + 1, sum % 2, 256 * low + Low(start, i), 256 * high + High(end, i), 256 * mid + d,
                  256 * lost + if sum >= 512 then 256 else 0);
    }
  }

  /** The loop yields the exact average of the two bounds, the lower one padded with
      0x00 and the upper one with 0xFF, if and only if no sum of two bytes and the
      carry reaches 512; each one that does loses its top bit. */
  lemma AverageIff(start: Key, end: Key)
    ensures var n, mid := Max(|start|, |end|), Value(Digits(start, end, 0, 0), 0);
            var exact := (LowValue(start, 0, n, 0) + HighValue(end, 0, n, 0)) / 2;
            && mid + Lost(start, end, 0, 0, 0) == exact
            && (mid == exact <==> NeverOverflows(start, end, 0, 0))
  {
    AverageFrom(start, end, 0, 0, 0, 0, 0, 0);
    LostNothing(start, end, 0, 0, 0);
  }
}
