/** The capped append both frontend stores use for their sample histories and their text logs:
    append the new element, then, when the array has grown past the cap, splice the oldest
    elements off the front (`[...xs, x]` followed by `splice(0, length - cap)`). */
module Bounded {
  /** `MAX_HISTORY` of both stores: samples kept for the charts. */
  const MAX_HISTORY: nat := 600
  /** `MAX_LOG_LINES` of the motor store and the literal 200 of the IMU console. */
  const MAX_LOG_LINES: nat := 200

  function Min(a: nat, b: nat): nat {
    if a <= b then a else b
  }

  /** The last `k` elements of `s`, or all of `s` when it is shorter. */
  function LastN<T>(s: seq<T>, k: nat): (r: seq<T>)
    ensures |r| == Min(|s|, k)
  {
    s[|s| - Min(|s|, k)..]
  }

  /** One push: append `x`, then drop from the front whatever exceeds `cap`. The result is
      the newest `cap` elements of the old contents followed by `x`, in their old order. */
  function PushCapped<T>(xs: seq<T>, x: T, cap: nat): (r: seq<T>)
    ensures |r| == Min(|xs| + 1, cap)
    ensures r == LastN(xs + [x], cap)
    ensures cap > 0 ==> r[|r| - 1] == x
  {
    var ys := xs + [x];
    if |ys| > cap then ys[|ys| - cap..] else ys
  }

  /** Pushes `items` one at a time, in order. */
  function PushAllCapped<T>(xs: seq<T>, items: seq<T>, cap: nat): seq<T>
    decreases |items|
  {
    if items == [] then xs else PushAllCapped(PushCapped(xs, items[0], cap), items[1..], cap)
  }

  /** Trimming before appending keeps the same newest `k`. */
  lemma LastNSnoc<T>(s: seq<T>, x: T, k: nat)
    ensures LastN(LastN(s, k) + [x], k) == LastN(s + [x], k)
  {
    var a := LastN(LastN(s, k) + [x], k);
    var b := LastN(s + [x], k);
    assert |a| == |b|;
    forall i | 0 <= i < |a| ensures a[i] == b[i] {
      if i == |a| - 1 {
        assert a[i] == x && b[i] == x;
      } else {
        assert a[i] == (LastN(s, k) + [x])[|LastN(s, k)| + 1 - |a| + i];
        assert b[i] == (s + [x])[|s| + 1 - |b| + i];
      }
    }
  }

  /** After any run of pushes onto a container within its cap, the container holds the newest
      `cap` elements of its old contents followed by everything pushed, oldest first: nothing is
      reordered and only the oldest are dropped. */
  lemma {:induction false} PushAllWindow<T>(xs: seq<T>, items: seq<T>, cap: nat)
    requires |xs| <= cap
    ensures PushAllCapped(xs, items, cap) == LastN(xs + items, cap)
    decreases |items|
  {
    if items == [] {
      assert xs + items == xs;
      assert LastN(xs, cap) == xs;
    } else {
      var ys := PushCapped(xs, items[0], cap);
      PushAllWindow(ys, items[1..], cap);
      assert ys + items[1..] == LastN(xs + [items[0]], cap) + items[1..];
      PushAllTrimmed(xs + [items[0]], items[1..], cap);
      assert (xs + [items[0]]) + items[1..] == xs + items;
    }
  }

  /** Pushing onto the newest `k` of `s` ends in the same newest `k` as pushing onto `s`. */
  lemma {:induction false} PushAllTrimmed<T>(s: seq<T>, items: seq<T>, k: nat)
    ensures LastN(LastN(s, k) + items, k) == LastN(s + items, k)
    decreases |items|
  {
    if items == [] {
      assert LastN(s, k) + items == LastN(s, k);
      assert s + items == s;
    } else {
      var n := |items| - 1;
      PushAllTrimmed(s, items[..n], k);
      assert LastN(s, k) + items == (LastN(s, k) + items[..n]) + [items[n]];
      assert s + items == (s + items[..n]) + [items[n]];
      LastNSnoc(LastN(s, k) + items[..n], items[n], k);
      LastNSnoc(s + items[..n], items[n], k);
    }
  }
}
