/** Unwrapping a 32-bit tick counter that was sampled in host-time order. */
module Ticks {
  import opened Words

  const HALF := 0x8000_0000

  /** Whether build_clock_models takes a step between two raw values for a wrap. */
  predicate Wraps(previous: u32, raw: u32) {
    raw < previous && previous - raw > HALF
  }

  function Epoch(raw: seq<u32>, i: nat): int
    requires i < |raw|
  {
    if i == 0 then 0 else Epoch(raw, i - 1) + (if Wraps(raw[i - 1], raw[i]) then WORD else 0)
  }

  lemma EpochStep(raw: seq<u32>, i: nat)
    requires i < |raw|
    ensures i == 0 ==> Epoch(raw, i) == 0
    ensures i > 0 ==> Epoch(raw, i) == Epoch(raw, i - 1) + (if Wraps(raw[i - 1], raw[i]) then WORD else 0)
  {
  }

  /** The loop of build_clock_models over one port's samples. */
  method Unwrap(raw: seq<u32>) returns (ticks: seq<int>)
    ensures |ticks| == |raw|
    ensures forall i | 0 <= i < |raw| :: ticks[i] == Epoch(raw, i) + raw[i]
  {
    hide Epoch;
    ticks := [];
    var epoch := 0;
    var previousRaw: Option<u32> := None;
    for i := 0 to |raw|
      invariant |ticks| == i
      invariant i == 0 ==> epoch == 0 && previousRaw == None
      invariant i > 0 ==> epoch == Epoch(raw, i - 1) && previousRaw == Some(raw[i - 1])
      invariant forall k | 0 <= k < i :: ticks[k] == Epoch(raw, k) + raw[k]
    {
      EpochStep(raw, i);
      if previousRaw.Some? && raw[i] < previousRaw.value && previousRaw.value - raw[i] > HALF {
        epoch := epoch + WORD;
      }
      previousRaw := Some(raw[i]);
      ticks := ticks + [epoch + raw[i]];
    }
  }

  function Truncated(ticks: seq<nat>): (raw: seq<u32>)
    ensures |raw| == |ticks|
  {
    seq(|ticks|, i requires 0 <= i < |ticks| => var r: u32 := ticks[i] % WORD; r)
  }

  /** Exactly which forward steps are measured correctly: those that do not wrap, and those that wrap
      but are shorter than half the range. */
  lemma StepExact(a: nat, b: nat)
    requires a <= b < a + WORD
    ensures var x, y := a % WORD, b % WORD; var step := y - x + (if Wraps(x, y) then WORD else 0);
      step == b - a <==> Measurable(a, b)
  {
    var p, q := a / WORD, b / WORD;
    assert a == p * WORD + a % WORD && b == q * WORD + b % WORD;
    assert q == p || q == p + 1;
  }

  /** A forward step that is measured correctly. */
  predicate Measurable(a: nat, b: nat) { a / WORD == b / WORD || b - a < HALF }

  /** The unwrapped value is the true one, up to the multiple of 2^32 that the first sample fixes. */
  predicate Recovered(ticks: seq<nat>, i: nat)
    requires i < |ticks|
  {
    Epoch(Truncated(ticks), i) + Truncated(ticks)[i] == ticks[i] - ticks[0] / WORD * WORD
  }

  predicate Advancing(ticks: seq<nat>) {
    forall k | 0 < k < |ticks| :: ticks[k - 1] <= ticks[k] < ticks[k - 1] + WORD
  }

  /** A sample behind a recovered one is recovered exactly if the step between them is measurable. */
  lemma RecoveredStep(ticks: seq<nat>, i: nat)
    requires Advancing(ticks) && 0 < i < |ticks| && Recovered(ticks, i - 1)
    ensures Recovered(ticks, i) <==> Measurable(ticks[i - 1], ticks[i])
  {
    StepExact(ticks[i - 1], ticks[i]);
  }

  /** Exactly which sequences of nondecreasing ticks, with gaps below the full range, are recovered up to
      one constant multiple of 2^32, over any number of wraps: those of measurable steps. */
  lemma {:induction false} UnwrapExactly(ticks: seq<nat>, n: nat)
    requires Advancing(ticks) && n <= |ticks|
    ensures (forall i | 0 <= i < n :: Recovered(ticks, i)) <==>
            (forall k | 0 < k < n :: Measurable(ticks[k - 1], ticks[k]))
    decreases n
  {
    hide Recovered, Measurable;
    if n > 0 {
      UnwrapExactly(ticks, n - 1);
      FirstRecovered(ticks);
      if n > 1 && forall i | 0 <= i < n - 1 :: Recovered(ticks, i) {
        RecoveredStep(ticks, n - 1);
        assert Recovered(ticks, n - 1) <==> Measurable(ticks[(n - 1) - 1], ticks[n - 1]);
      }
    }
  }

  lemma FirstRecovered(ticks: seq<nat>)
    requires ticks != []
    ensures Recovered(ticks, 0)
  {
  }

  /** In particular those with gaps below half the range. */
  lemma UnwrapRecovers(ticks: seq<nat>, i: nat)
    requires i < |ticks|
    requires forall k | 0 < k < |ticks| :: ticks[k - 1] <= ticks[k] < ticks[k - 1] + HALF
    ensures Recovered(ticks, i)
  {
    hide Recovered;
    UnwrapExactly(ticks, |ticks|);
  }

  /** The bound is sharp: a wrap after exactly half the range goes unnoticed. */
  lemma HalfRangeIsMissed()
    ensures var raw := Truncated([HALF, WORD]); Epoch(raw, 1) + raw[1] != WORD
  {
    var raw := Truncated([HALF, WORD]);
    assert raw[0] == HALF && raw[1] == 0;
    assert Epoch(raw, 0) == 0;
  }
}
