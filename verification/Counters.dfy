/** Reset-tolerant counters (src/metrics.cpp:1329-1340).

    A published total accumulates the growth of a library counter that restarts
    from zero whenever the socket behind it is replaced.  Counters are unsigned
    64-bit, so every addition wraps modulo 2^64; `Gain` is the same sum without
    the wrap. */
module Counters {

  const TWO_64: int := 0x1_0000_0000_0000_0000

  type U64 = x: int | 0 <= x < TWO_64 witness 0

  function Wrap(x: int): U64 {
    x % TWO_64
  }

  lemma WrapSmall(x: int)
    requires 0 <= x < TWO_64
    ensures Wrap(x) == x
  {
  }

  lemma WrapAdd(x: int, y: int)
    ensures Wrap(Wrap(x) + y) == Wrap(x + y)
  {
    var q := x / TWO_64;
    assert Wrap(x) + y == x + y - q * TWO_64;
    WrapShift(x + y, -q);
  }

  lemma WrapShift(x: int, q: int)
    ensures Wrap(x + q * TWO_64) == Wrap(x)
  {
    assert (x + q * TWO_64) / TWO_64 == x / TWO_64 + q;
  }

  /** One published counter: accumulated total and the last raw sample. */
  datatype Counter = Counter(total: U64, last: U64)

  function Delta(prev: int, curr: int): int {
    if curr >= prev then curr - prev else curr
  }

  function Observe(c: Counter, current: U64): Counter {
    Counter(Wrap(c.total + Delta(c.last, current)), current)
  }

  function ObserveAll(c: Counter, samples: seq<U64>): Counter
    decreases |samples|
  {
    if samples == [] then c else ObserveAll(Observe(c, samples[0]), samples[1..])
  }

  /** The growth the samples add on top of baseline `last`, unwrapped. */
  function Gain(last: U64, samples: seq<U64>): nat
    decreases |samples|
  {
    if samples == [] then 0
    else Delta(last, samples[0]) + Gain(samples[0], samples[1..])
  }

  function Final(last: U64, samples: seq<U64>): U64 {
    if samples == [] then last else samples[|samples| - 1]
  }

  /** Sum of every sample (baseline included) immediately followed by a smaller one. */
  function Resets(last: U64, samples: seq<U64>): nat
    decreases |samples|
  {
    if samples == [] then 0
    else (if samples[0] < last then last else 0) + Resets(samples[0], samples[1..])
  }

  /** The published total is the unwrapped gain reduced modulo 2^64. */
  lemma {:induction false} TotalIsWrappedGain(c: Counter, samples: seq<U64>)
    ensures ObserveAll(c, samples).total == Wrap(c.total + Gain(c.last, samples))
    ensures ObserveAll(c, samples).last == Final(c.last, samples)
    decreases |samples|
  {
    if samples != [] {
      TotalIsWrappedGain(Observe(c, samples[0]), samples[1..]);
      WrapAdd(c.total + Delta(c.last, samples[0]), Gain(samples[0], samples[1..]));
    }
  }

  /** The gain is exactly the final sample plus every sample lost to a reset. */
  lemma {:induction false} GainIsFinalPlusResets(last: U64, samples: seq<U64>)
    ensures last + Gain(last, samples) == Final(last, samples) + Resets(last, samples)
    decreases |samples|
  {
    if samples != [] {
      GainIsFinalPlusResets(samples[0], samples[1..]);
      assert samples[1..] != [] ==> samples[1..][|samples| - 2] == samples[|samples| - 1];
    }
  }

  lemma {:induction false} GainAppend(last: U64, a: seq<U64>, b: seq<U64>)
    ensures Gain(last, a + b) == Gain(last, a) + Gain(Final(last, a), b)
    decreases |a|
  {
    if a == [] {
      assert a + b == b;
    } else {
      assert (a + b)[1..] == a[1..] + b;
      GainAppend(a[0], a[1..], b);
    }
  }

  /** As long as the true growth fits in 64 bits, a published total never falls
      and never drops below its own baseline. */
  lemma TotalMonotone(c: Counter, a: seq<U64>, b: seq<U64>)
    requires c.last <= c.total && c.total + Gain(c.last, a + b) < TWO_64
    ensures c.total <= ObserveAll(c, a).total <= ObserveAll(c, a + b).total
    ensures ObserveAll(c, a + b).last <= ObserveAll(c, a + b).total
  {
    TotalIsWrappedGain(c, a);
    TotalIsWrappedGain(c, a + b);
    GainAppend(c.last, a, b);
    WrapSmall(c.total + Gain(c.last, a));
    WrapSmall(c.total + Gain(c.last, a + b));
    GainIsFinalPlusResets(c.last, a + b);
  }

  // ---- Socket epochs: what the counter promises about real traffic ----

  /** The samples of one socket: its counter never falls while it lives. */
  predicate NonDecreasing(s: seq<U64>) {
    forall i, j :: 0 <= i <= j < |s| ==> s[i] <= s[j]
  }

  predicate Epochs(es: seq<seq<U64>>) {
    forall i :: 0 <= i < |es| ==> es[i] != [] && NonDecreasing(es[i])
  }

  function Flatten(es: seq<seq<U64>>): seq<U64> {
    if es == [] then [] else es[0] + Flatten(es[1..])
  }

  /** Bytes really moved by the sampled sockets: the sum of their last counters. */
  function Traffic(es: seq<seq<U64>>): nat {
    if es == [] then 0 else Final(0, es[0]) + Traffic(es[1..])
  }

  /** Traffic the scheme cannot see: an epoch's final counter is lost when the
      next socket is first sampled at or above it. */
  function Hidden(last: U64, es: seq<seq<U64>>): nat
    requires Epochs(es)
    decreases |es|
  {
    if es == [] then 0
    else (if last <= es[0][0] then last else 0) + Hidden(Final(last, es[0]), es[1..])
  }

  lemma {:induction false} GainOfEpoch(last: U64, s: seq<U64>)
    requires NonDecreasing(s) && (s != [] ==> last <= s[0])
    ensures last + Gain(last, s) == Final(last, s)
    decreases |s|
  {
    if s != [] {
      GainOfEpoch(s[0], s[1..]);
    }
  }

  /** Total plus hidden traffic is the true traffic, exactly. */
  lemma {:induction false} GainOfEpochs(last: U64, es: seq<seq<U64>>)
    requires Epochs(es)
    ensures Gain(last, Flatten(es)) + Hidden(last, es) == Traffic(es)
    decreases |es|
  {
    if es != [] {
      var e, rest := es[0], es[1..];
      GainAppend(last, e, Flatten(rest));
      assert Gain(last, e) == Delta(last, e[0]) + Gain(e[0], e[1..]);
      GainOfEpoch(e[0], e[1..]);
      assert Final(last, e) == Final(0, e) == Final(e[0], e[1..]);
      GainOfEpochs(Final(last, e), rest);
    }
  }

  /** Checkable condition for exactness: each socket is first sampled below the
      final counter of the one before it, unless that one moved nothing. */
  predicate Detectable(last: U64, es: seq<seq<U64>>)
    requires Epochs(es)
  {
    && (es != [] ==> last == 0 || es[0][0] < last)
    && forall i :: 0 < i < |es| ==> Final(0, es[i - 1]) == 0 || es[i][0] < Final(0, es[i - 1])
  }

  lemma {:induction false} HiddenNothing(last: U64, es: seq<seq<U64>>)
    requires Epochs(es)
    ensures Hidden(last, es) == 0 <==> Detectable(last, es)
    decreases |es|
  {
    if es != [] {
      var f, rest := Final(0, es[0]), es[1..];
      HiddenNothing(f, rest);
      if Detectable(last, es) {
        forall i | 0 < i < |rest|
          ensures Final(0, rest[i - 1]) == 0 || rest[i][0] < Final(0, rest[i - 1])
        {
          assert rest[i] == es[i + 1] && rest[i - 1] == es[i];
        }
        assert rest != [] ==> rest[0] == es[1];
      } else if Detectable(f, rest) {
        forall i | 0 < i < |es|
          ensures Final(0, es[i - 1]) == 0 || es[i][0] < Final(0, es[i - 1])
        {
          assert es[i] == rest[i - 1];
          if i > 1 {
            assert es[i - 1] == rest[i - 2];
          }
        }
      }
    }
  }

  /** A fresh counter fed by any succession of sockets never over-counts, falls short
      by exactly the hidden traffic, and counts every byte if and only if each
      replacement is detectable. */
  lemma TotalAgainstTraffic(es: seq<seq<U64>>)
    requires Epochs(es) && Traffic(es) < TWO_64
    ensures ObserveAll(Counter(0, 0), Flatten(es)).total == Traffic(es) - Hidden(0, es) <= Traffic(es)
    ensures ObserveAll(Counter(0, 0), Flatten(es)).total == Traffic(es) <==> Detectable(0, es)
  {
    GainOfEpochs(0, es);
    HiddenNothing(0, es);
    TotalIsWrappedGain(Counter(0, 0), Flatten(es));
    WrapSmall(Gain(0, Flatten(es)));
  }

  /** A socket that moved 10 bytes, followed by one first sampled at 10: only 10 of
      the 20 bytes are counted. */
  lemma EqualReplacementIsMissed()
    ensures var es: seq<seq<U64>> := [[10], [10]];
            Epochs(es) && Traffic(es) == 20 && ObserveAll(Counter(0, 0), Flatten(es)).total == 10
  {
    var es: seq<seq<U64>> := [[10], [10]];
    assert es[1..] == [[10]] && Hidden(10, es[1..]) == 10;
    TotalAgainstTraffic(es);
  }
}
