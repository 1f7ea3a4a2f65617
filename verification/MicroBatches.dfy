/** How many microbatches make up a global batch, with and without ramp-up of the batch size. */
module MicroBatches {
  import opened Arith
  import opened Sequences

  /** `_round`: down to a multiple of the divisor. */
  function Round(batchSize: nat, divisor: nat): nat
    requires divisor > 0
  {
    batchSize / divisor * divisor
  }

  /** Rounding gives the largest multiple of the divisor that is not larger. */
  lemma RoundIsLargest(batchSize: nat, divisor: nat, k: nat)
    requires divisor > 0
    ensures Round(batchSize, divisor) % divisor == 0 && Round(batchSize, divisor) <= batchSize
    ensures k * divisor <= batchSize <==> k * divisor <= Round(batchSize, divisor)
    ensures Round(batchSize, divisor) / divisor == batchSize / divisor
  {
    var q := batchSize / divisor;
    DivModId(batchSize, divisor);
    DivModUnique(q * divisor, divisor, q, 0);
    if q < k {
      MulMono(q + 1, k, divisor);
    } else {
      MulMono(k, q, divisor);
    }
  }

  /** The batch size that is run, given the current global batch size. */
  function Running(batchSize: nat, divisor: nat, decrease: bool): nat
    requires divisor > 0
  {
    if decrease && batchSize % divisor != 0 then Round(batchSize, divisor) else batchSize
  }

  /** The microbatches make up the batch that is run exactly when it was rounded or divides evenly. */
  lemma RunningIff(batchSize: nat, micro: nat, dp: nat, decrease: bool)
    requires micro * dp > 0
    ensures var running := Running(batchSize, micro * dp, decrease);
            && (running / (micro * dp) * micro * dp == running <==> decrease || batchSize % (micro * dp) == 0)
            && running <= batchSize
            && (running / (micro * dp) >= 1 <==> batchSize >= micro * dp)
  {
    var divisor := micro * dp;
    var running := Running(batchSize, divisor, decrease);
    RoundIsLargest(batchSize, divisor, 1);
    DivModId(running, divisor);
    DivModId(batchSize, divisor);
    MulAssoc(running / divisor, micro, dp);
    QuotientPositive(batchSize, divisor);
  }

  lemma QuotientPositive(n: nat, d: nat)
    requires d > 0
    ensures n / d >= 1 <==> n >= d
  {
    DivModId(n, d);
    if n / d >= 1 {
      MulMono(1, n / d, d);
    }
  }

  // ---- Ramp-up ----

  datatype Ramp = Ramp(global: nat, micro: nat, dp: nat, decrease: bool, start: nat, increment: nat, samples: nat) {
    /** What the constructor asserts, and that there is something to ramp over. */
    predicate Valid() {
      && 0 < start && 0 < increment && 0 < micro * dp
      && start < global && (global - start) % increment == 0
      && 0 < samples
    }

    function Increments(): (k: nat)
      requires Valid()
    {
      (global - start) / increment
    }

    /** The increments due after so many samples: `consumed / (samples / increments)`, rounded down. */
    function StepsAt(consumed: nat): nat
      requires Valid()
    {
      consumed * Increments() / samples
    }

    function BatchAt(consumed: nat): nat
      requires Valid()
    {
      if consumed > samples then global else start + StepsAt(consumed) * increment
    }
  }

  lemma IncrementsReach(r: Ramp)
    requires r.Valid()
    ensures 0 < r.Increments() && r.start + r.Increments() * r.increment == r.global
  {
    DivModId(r.global - r.start, r.increment);
  }

  lemma {:induction false} StepsIff(r: Ramp, consumed: nat)
    requires r.Valid()
    ensures consumed <= r.samples ==> r.StepsAt(consumed) <= r.Increments()
    ensures consumed < r.samples ==> r.StepsAt(consumed) < r.Increments()
    ensures r.StepsAt(r.samples) == r.Increments()
  {
    var k := r.Increments();
    IncrementsReach(r);
    assert r.samples * k == k * r.samples;
    DivModUnique(r.samples * k, r.samples, k, 0);
    if consumed < r.samples {
      MulMono(consumed + 1, r.samples, k);
      assert (consumed + 1) * k == consumed * k + k;
      DivBound(consumed * k, r.samples, k);
    }
  }

  lemma {:induction false} StepsMono(r: Ramp, m: nat, n: nat)
    requires r.Valid() && m <= n
    ensures r.StepsAt(m) <= r.StepsAt(n)
  {
    MulMono(m, n, r.Increments());
    QuotientMono(m * r.Increments(), n * r.Increments(), r.samples);
  }

  lemma QuotientMono(m: nat, n: nat, d: nat)
    requires m <= n && d > 0
    ensures m / d <= n / d
  {
    DivModId(m, d);
    DivModId(n, d);
    if n / d < m / d {
      MulMono(n / d + 1, m / d, d);
    }
  }

  /** The batch size is the final size from the end of ramp-up on, not before. */
  lemma {:induction false} BatchFinalIff(r: Ramp, consumed: nat)
    requires r.Valid()
    ensures r.start <= r.BatchAt(consumed) <= r.global && r.BatchAt(0) == r.start
    ensures r.BatchAt(consumed) == r.global <==> r.samples <= consumed
  {
    IncrementsReach(r);
    StepsIff(r, consumed);
    if consumed < r.samples {
      MulMono(r.StepsAt(consumed) + 1, r.Increments(), r.increment);
    }
  }

  lemma QuotientIff(n: nat, d: nat, k: nat)
    requires d > 0
    ensures k <= n / d <==> k * d <= n
  {
    DivModId(n, d);
    if k <= n / d {
      MulMono(k, n / d, d);
    } else {
      MulMono(n / d + 1, k, d);
    }
  }

  lemma ScaleIff(a: nat, b: nat, d: nat)
    requires d > 0
    ensures a <= b <==> a * d <= b * d
  {
    if a <= b {
      MulMono(a, b, d);
    } else {
      MulMono(b + 1, a, d);
    }
  }

  /** During ramp-up the `k`-th increment is due exactly from its share of the samples on, and the batch size is the
      start size and whole increments. */
  lemma {:induction false} IncrementDueIff(r: Ramp, consumed: nat, k: nat)
    requires r.Valid() && consumed <= r.samples
    ensures r.start + k * r.increment <= r.BatchAt(consumed) <==> k * r.samples * r.increment <= consumed * (r.global - r.start)
    ensures r.start <= r.BatchAt(consumed) && (r.BatchAt(consumed) - r.start) % r.increment == 0
  {
    var steps, n := r.StepsAt(consumed), r.Increments();
    IncrementsReach(r);
    ScaleIff(k, steps, r.increment);
    QuotientIff(consumed * n, r.samples, k);
    ScaleIff(k * r.samples, consumed * n, r.increment);
    MulAssoc(consumed, n, r.increment);
    DivModUnique(steps * r.increment, r.increment, steps, 0);
  }

  /** The batch size never shrinks. */
  lemma {:induction false} BatchGrows(r: Ramp, m: nat, n: nat)
    requires r.Valid() && m <= n
    ensures r.BatchAt(m) <= r.BatchAt(n)
  {
    BatchFinalIff(r, m);
    StepsMono(r, m, n);
    MulMono(r.StepsAt(m), r.StepsAt(n), r.increment);
  }

  /** What an update leaves behind; it depends on the consumed samples alone. */
  datatype Sizes = Sizes(current: nat, running: nat, microBatches: nat)

  function SizesFor(batchSize: nat, divisor: nat, decrease: bool): Sizes
    requires divisor > 0
  {
    var running := Running(batchSize, divisor, decrease);
    Sizes(batchSize, running, running / divisor)
  }

  class RampupBatchsizeNumMicroBatchesCalculator {
    const ramp: Ramp
    var currentGlobalBatchSize: nat
    var currentRunningGlobalBatchSize: nat
    var numMicroBatches: nat

    constructor (ramp: Ramp)
      requires ramp.Valid()
      ensures this.ramp == ramp && Current() == SizesFor(ramp.start, ramp.micro * ramp.dp, ramp.decrease)
    {
      this.ramp := ramp;
      new;
      BatchFinalIff(ramp, 0);
      var ok := Update(0, false);
    }

    function Current(): Sizes
      reads this
    {
      Sizes(currentGlobalBatchSize, currentRunningGlobalBatchSize, numMicroBatches)
    }

    /** The sizes after an update depend only on the samples consumed, not on earlier updates. The bound on
        the batch size always holds; only the consistency check can fail. */
    method Update(consumed: nat, consistencyCheck: bool) returns (ok: bool)
      requires ramp.Valid()
      modifies this
      ensures ok <==> (consistencyCheck && !ramp.decrease ==> ramp.BatchAt(consumed) % (ramp.micro * ramp.dp) == 0)
      ensures ok ==> Current() == SizesFor(ramp.BatchAt(consumed), ramp.micro * ramp.dp, ramp.decrease)
      ensures currentGlobalBatchSize == ramp.BatchAt(consumed)
    {
      currentGlobalBatchSize := RampTo(consumed);
      ok := Divide(ramp.micro * ramp.dp, ramp.decrease, consistencyCheck);
    }

    method RampTo(consumed: nat) returns (batchSize: nat)
      requires ramp.Valid()
      ensures batchSize == ramp.BatchAt(consumed) <= ramp.global
    {
      BatchFinalIff(ramp, consumed);
      if consumed > ramp.samples {
        return ramp.global;
      }
      var steps := consumed * ramp.Increments() / ramp.samples;
      batchSize := ramp.start + steps * ramp.increment;
    }

    method Divide(divisor: nat, decrease: bool, consistencyCheck: bool) returns (ok: bool)
      requires divisor > 0
      modifies this`currentRunningGlobalBatchSize, this`numMicroBatches
      ensures ok <==> (consistencyCheck && !decrease ==> currentGlobalBatchSize % divisor == 0)
      ensures ok ==> Current() == SizesFor(currentGlobalBatchSize, divisor, decrease)
    {
      if consistencyCheck && !decrease && currentGlobalBatchSize % divisor != 0 {
        return false;
      }
      if decrease && currentGlobalBatchSize % divisor != 0 {
        currentRunningGlobalBatchSize := Round(currentGlobalBatchSize, divisor);
      } else {
        currentRunningGlobalBatchSize := currentGlobalBatchSize;
      }
      numMicroBatches := currentRunningGlobalBatchSize / divisor;
      ok := true;
    }
  }

  /** The arguments a ramp-up calculator can be made of: the assertions of its constructor, and no division
      by zero increments or zero samples. */
  method NewRampup(ramp: Ramp) returns (r: Result<RampupBatchsizeNumMicroBatchesCalculator>)
    ensures r.Ok? <==> ramp.Valid()
    ensures r.Ok? ==> fresh(r.value) && r.value.ramp == ramp
    ensures r.Ok? ==> r.value.Current() == SizesFor(ramp.start, ramp.micro * ramp.dp, ramp.decrease)
  {
    if ramp.global == 0 || ramp.start == 0 || ramp.increment == 0 || ramp.micro * ramp.dp == 0 {
      return Err;
    }
    if ramp.global < ramp.start || (ramp.global - ramp.start) % ramp.increment != 0 {
      return Err;
    }
    if (ramp.global - ramp.start) / ramp.increment == 0 || ramp.samples == 0 {
      QuotientPositive(ramp.global - ramp.start, ramp.increment);
      DivModId(ramp.global - ramp.start, ramp.increment);
      return Err;
    }
    var calculator := new RampupBatchsizeNumMicroBatchesCalculator(ramp);
    r := Ok(calculator);
  }

  /** The calculator for a constant global batch size: the number of microbatches, or an error. */
  method ConstantSizes(global: nat, micro: nat, dp: nat, decrease: bool) returns (r: Result<Sizes>)
    ensures r.Ok? <==> 0 < micro * dp <= global && (decrease || global % (micro * dp) == 0)
    ensures r.Ok? ==> r.value == SizesFor(global, micro * dp, decrease) && r.value.microBatches >= 1
    ensures r.Ok? ==> r.value.microBatches * micro * dp == r.value.running <= global
  {
    var divisor := micro * dp;
    if divisor == 0 {
      return Err;
    }
    var running;
    if decrease {
      running := Round(global, divisor);
      RoundIsLargest(global, divisor, 0);
    } else {
      if global % divisor != 0 {
        return Err;
      }
      running := global;
    }
    var microBatches := running / divisor;
    RunningIff(global, micro, dp, decrease);
    DivModId(global, divisor);
    if microBatches < 1 {
      return Err;
    }
    r := Ok(Sizes(global, running, microBatches));
  }

  /** After an update that rounds, or whose check passed, the microbatches make up the batch that is run. */
  lemma MicroBatchesMakeBatch(r: Ramp, consumed: nat)
    requires r.Valid()
    ensures var s := SizesFor(r.BatchAt(consumed), r.micro * r.dp, r.decrease);
            && s.running <= s.current <= r.global
            && (s.microBatches * r.micro * r.dp == s.running <==> r.decrease || s.current % (r.micro * r.dp) == 0)
  {
    BatchFinalIff(r, consumed);
    RunningIff(r.BatchAt(consumed), r.micro, r.dp, r.decrease);
  }
}
