/** The simulated-annealing optimizer: a rejection-sampled neighbour
    generator, the annealing loop with its budget counter, geometric cooling,
    acceptance rule and best-so-far trace, and the final padding of that
    trace to the evaluation budget.

    Randomness is an explicit stream: the n-th draw of the generator is
    `normal(mean, sd, n)` when a normal deviate is asked for, and the outcome
    of the metropolis test at draw n is `metropolis(delta, temperature, n)`.
    The uniform starting point is handed in by the caller. */
module SimulatedAnnealing {
  import opened Costs

  type Vector = seq<real>

  /** The n-th draw of a normal deviate with the given mean and standard deviation. */
  type NormalStream = (real, real, nat) -> real

  /** Whether the metropolis test `r < exp(-delta / temperature)` passes for the uniform draw r at index n. */
  type MetropolisTest = (real, real, nat) -> bool

  const NeighborhoodSize: nat := 10
  const LocalSizePercentage: real := 0.1
  const CoolingDecrease: real := 0.98
  const MaxTemperature: real := 1000.0
  const MinTemperature: real := 0.01

  function Max(a: int, b: int): int
  {
    if a < b then b else a
  }

  predicate InBox(x: real, lo: real, hi: real)
  {
    lo <= x <= hi
  }

  /** A point of the search space: `dimension` coordinates, each within the bounds. */
  predicate InBounds(v: Vector, dimension: nat, lo: real, hi: real)
  {
    |v| == dimension && forall i :: 0 <= i < |v| ==> InBox(v[i], lo, hi)
  }

  /** The width of the region neighbours are drawn from: a tenth of the box width. */
  function LocalAreaLength(lo: real, hi: real): (l: real)
    ensures l < 0.0 <==> hi < lo
    ensures l == 0.0 <==> lo == hi
  {
    (hi - lo) * LocalSizePercentage
  }

  // ---------------------------------------------------------------------------
  // Neighbour sampler
  // ---------------------------------------------------------------------------

  /** Neighbour coordinates are drawn with standard deviation half the local area length. */
  function StdDev(localAreaLength: real): (sd: real)
    ensures sd + sd == localAreaLength
    ensures sd < 0.0 <==> localAreaLength < 0.0
  {
    localAreaLength / 2.0
  }

  /** Some draw at index `from` or later falls inside the box: the event, of
      probability one for a positive standard deviation, on which rejection
      sampling terminates. */
  ghost predicate HitsBoxFrom(normal: NormalStream, mean: real, sd: real, lo: real, hi: real, from: nat)
  {
    exists n: nat :: from <= n && InBox(normal(mean, sd, n), lo, hi)
  }

  /** From every stream position, a draw around any mean inside the box eventually lands inside the box. */
  ghost predicate EventuallyInBox(normal: NormalStream, sd: real, lo: real, hi: real)
  {
    forall mean: real, from: nat :: InBox(mean, lo, hi) ==> HitsBoxFrom(normal, mean, sd, lo, hi, from)
  }

  /** Rejection sampling that starts at stream position `from` stops after
      consuming the draws up to `next`: the draw at `next - 1` is the first one
      inside the box. */
  ghost predicate IsRejectionSample(normal: NormalStream, mean: real, sd: real, lo: real, hi: real, from: nat, next: nat)
  {
    from < next
    && InBox(normal(mean, sd, next - 1), lo, hi)
    && forall n :: from <= n < next - 1 ==> !InBox(normal(mean, sd, n), lo, hi)
  }

  /** Given the stream, rejection sampling has exactly one outcome. */
  lemma RejectionSampleUnique(normal: NormalStream, mean: real, sd: real, lo: real, hi: real, from: nat, a: nat, b: nat)
    requires IsRejectionSample(normal, mean, sd, lo, hi, from, a)
    requires IsRejectionSample(normal, mean, sd, lo, hi, from, b)
    ensures a == b
  {
  }

  /** One coordinate of a neighbour: draw around `mean` and redraw until the
      value lies within the bounds, inclusive. */
  method DrawCoordinate(normal: NormalStream, mean: real, sd: real, lo: real, hi: real, from: nat)
    returns (coordinate: real, next: nat)
    requires HitsBoxFrom(normal, mean, sd, lo, hi, from)
    ensures IsRejectionSample(normal, mean, sd, lo, hi, from, next)
    ensures coordinate == normal(mean, sd, next - 1)
    ensures InBox(coordinate, lo, hi)
  {
    ghost var hit: nat :| from <= hit && InBox(normal(mean, sd, hit), lo, hi);
    coordinate := normal(mean, sd, from);
    next := from + 1;
    while !(coordinate >= lo) || !(coordinate <= hi)
      invariant from < next <= hit + 1
      invariant coordinate == normal(mean, sd, next - 1)
      invariant forall n :: from <= n < next - 1 ==> !InBox(normal(mean, sd, n), lo, hi)
      decreases hit + 1 - next
    {
      coordinate := normal(mean, sd, next);
      next := next + 1;
    }
  }

  /** `position` is a neighbour of `original` drawn from the stream: coordinate
      i is the rejection sample around `original[i]` that consumes the draws
      from `cuts[i]` up to `cuts[i + 1]`. */
  ghost predicate IsNeighborSample(normal: NormalStream, lo: real, hi: real, sd: real, original: Vector, cuts: seq<nat>, position: Vector)
  {
    |cuts| == |position| + 1 && |position| <= |original|
    && forall i :: 0 <= i < |position| ==>
      IsRejectionSample(normal, original[i], sd, lo, hi, cuts[i], cuts[i + 1])
      && position[i] == normal(original[i], sd, cuts[i + 1] - 1)
  }

  /** The outcome of drawing a neighbour: the point and the next stream
      position, or the error numpy's normal draw raises for a negative scale. */
  datatype Sample = Sampled(position: Vector, next: nat) | ScaleError

  /** A neighbour of `original`: coordinate by coordinate, a rejection sample
      around the original coordinate with standard deviation half the local
      area length. `cuts` records where each coordinate's draws begin and end.
      A negative standard deviation makes the first draw fail. */
  method RandomNeighbor(normal: NormalStream, dimension: nat, lo: real, hi: real, localAreaLength: real, original: Vector, from: nat)
    returns (sample: Sample, ghost cuts: seq<nat>)
    requires dimension <= |original|
    requires forall i, k: nat :: 0 <= i < dimension && 0.0 <= StdDev(localAreaLength) ==>
      HitsBoxFrom(normal, original[i], StdDev(localAreaLength), lo, hi, k)
    ensures sample.ScaleError? <==> 0 < dimension && StdDev(localAreaLength) < 0.0
    ensures sample.Sampled? ==>
      InBounds(sample.position, dimension, lo, hi)
      && IsNeighborSample(normal, lo, hi, StdDev(localAreaLength), original, cuts, sample.position)
      && cuts[0] == from && cuts[dimension] == sample.next
  {
    var sd := StdDev(localAreaLength);
    cuts := [from];
    if 0 < dimension && sd < 0.0 {
      return ScaleError, cuts;
    }
    var position := [];
    var next := from;
    for i := 0 to dimension
      invariant |position| == i && |cuts| == i + 1
      invariant cuts[0] == from && cuts[i] == next
      invariant forall j :: 0 <= j < i ==> InBox(position[j], lo, hi)
      invariant forall j :: 0 <= j < i ==>
        IsRejectionSample(normal, original[j], sd, lo, hi, cuts[j], cuts[j + 1])
        && position[j] == normal(original[j], sd, cuts[j + 1] - 1)
    {
      assert HitsBoxFrom(normal, original[i], sd, lo, hi, next);
      var coordinate;
      coordinate, next := DrawCoordinate(normal, original[i], sd, lo, hi, next);
      position := position + [coordinate];
      cuts := cuts + [next];
    }
    sample := Sampled(position, next);
  }

  // ---------------------------------------------------------------------------
  // Cooling schedule
  // ---------------------------------------------------------------------------

  /** The temperature at the start of stage `stage`: the maximum temperature
      cooled by the decrease factor once per completed stage. */
  function Schedule(stage: nat): (t: real)
    ensures 0.0 < t <= MaxTemperature
  {
    if stage == 0 then MaxTemperature else Schedule(stage - 1) * CoolingDecrease
  }

  /** Cooling strictly lowers the temperature: a later stage is always colder. */
  lemma {:induction false} ScheduleStrictlyDecreasing(i: nat, j: nat)
    requires i < j
    ensures Schedule(j) < Schedule(i)
  {
    if i + 1 < j {
      ScheduleStrictlyDecreasing(i, j - 1);
    }
  }

  /** Once the temperature is at or below a floor, it stays there. */
  lemma ScheduleStaysBelow(i: nat, j: nat, floor: real)
    requires i <= j && Schedule(i) <= floor
    ensures Schedule(j) <= floor
  {
    if i < j {
      ScheduleStrictlyDecreasing(i, j);
    }
  }

  function Power(c: real, n: nat): real
  {
    if n == 0 then 1.0 else c * Power(c, n - 1)
  }

  lemma {:induction false} PowerAdd(c: real, m: nat, n: nat)
    ensures Power(c, m + n) == Power(c, m) * Power(c, n)
  {
    if m > 0 {
      PowerAdd(c, m - 1, n);
    }
  }

  /** The schedule is geometric: after k stages the temperature is 1000 * 0.98^k. */
  lemma {:induction false} ScheduleIsGeometric(k: nat)
    ensures Schedule(k) == MaxTemperature * Power(CoolingDecrease, k)
  {
    if k > 0 {
      ScheduleIsGeometric(k - 1);
      PowerAdd(CoolingDecrease, k - 1, 1);
    }
  }

  /** The first stage whose temperature is at or below the floor. */
  const FloorStage: nat := 570

  /** Multiplying non-negative reals is monotone in both factors. */
  lemma ProductBounds(a: real, la: real, ua: real, b: real, lb: real, ub: real)
    requires 0.0 <= la <= a <= ua && 0.0 <= lb <= b <= ub
    ensures la * lb <= a * b <= ua * ub
  {
    assert la * lb <= a * lb;
    assert a * lb <= a * b;
    assert a * b <= ua * b;
    assert ua * b <= ua * ub;
  }

  /** Bounds on two powers of c bound the power of their summed exponents. */
  lemma PowerProductBounds(c: real, m: nat, n: nat, lm: real, um: real, ln: real, un: real, l: real, u: real)
    requires 0.0 <= lm <= Power(c, m) <= um && 0.0 <= ln <= Power(c, n) <= un
    requires l <= lm * ln && um * un <= u
    ensures l <= Power(c, m + n) <= u
  {
    PowerAdd(c, m, n);
    ProductBounds(Power(c, m), lm, um, Power(c, n), ln, un);
  }

  /** Twelve-digit bounds on c^8, c^16 and c^32 for the cooling factor c, by repeated squaring. */
  lemma LowPowerBounds(c: real)
    requires c == CoolingDecrease
    ensures 0.850763022581 <= Power(c, 8) <= 0.850763022582
    ensures 0.723797720591 <= Power(c, 16) <= 0.723797720593
    ensures 0.523883140332 <= Power(c, 32) <= 0.523883140336
  {
    assert Power(c, 1) == c;
    PowerProductBounds(c, 1, 1, 0.98, 0.98, 0.98, 0.98, 0.9604, 0.9604);
    PowerProductBounds(c, 2, 2, 0.9604, 0.9604, 0.9604, 0.9604, 0.92236816, 0.92236816);
    PowerProductBounds(c, 4, 4, 0.92236816, 0.92236816, 0.92236816, 0.92236816, 0.850763022581, 0.850763022582);
    PowerProductBounds(c, 8, 8, 0.850763022581, 0.850763022582, 0.850763022581, 0.850763022582, 0.723797720591, 0.723797720593);
    PowerProductBounds(c, 16, 16, 0.723797720591, 0.723797720593, 0.723797720591, 0.723797720593, 0.523883140332, 0.523883140336);
  }

  /** Twelve-digit bounds on c^512 for the cooling factor c, squaring on from c^32. */
  lemma HighPowerBounds(c: real)
    requires c == CoolingDecrease
    ensures 0.000032192207 <= Power(c, 512) <= 0.000032192208
  {
    LowPowerBounds(c);
    PowerProductBounds(c, 32, 32, 0.523883140332, 0.523883140336, 0.523883140332, 0.523883140336, 0.274453544724, 0.274453544729);
    PowerProductBounds(c, 64, 64, 0.274453544724, 0.274453544729, 0.274453544724, 0.274453544729, 0.075324748211, 0.075324748215);
    PowerProductBounds(c, 128, 128, 0.075324748211, 0.075324748215, 0.075324748211, 0.075324748215, 0.005673817693, 0.005673817694);
    PowerProductBounds(c, 256, 256, 0.005673817693, 0.005673817694, 0.005673817693, 0.005673817694, 0.000032192207, 0.000032192208);
  }

  /** 1000 * c^570 <= 0.01 < 1000 * c^569 for the cooling factor c, from the
      bounds on c^(2^k) and their products along 569 = 512 + 32 + 16 + 8 + 1. */
  lemma PowerCrossesFloor(c: real)
    requires c == CoolingDecrease
    ensures 1000.0 * Power(c, 570) <= 0.01 < 1000.0 * Power(c, 569)
  {
    LowPowerBounds(c);
    HighPowerBounds(c);
    assert Power(c, 1) == c;
    PowerProductBounds(c, 512, 32, 0.000032192207, 0.000032192208, 0.523883140332, 0.523883140336, 0.000016864954, 0.000016864956);
    PowerProductBounds(c, 544, 16, 0.000016864954, 0.000016864956, 0.723797720591, 0.723797720593, 0.000012206815, 0.000012206817);
    PowerProductBounds(c, 560, 8, 0.000012206815, 0.000012206817, 0.850763022581, 0.850763022582, 0.000010385106, 0.000010385109);
    PowerProductBounds(c, 568, 1, 0.000010385106, 0.000010385109, 0.98, 0.98, 0.000010177403, 0.000010177407);
    PowerProductBounds(c, 569, 1, 0.000010177403, 0.000010177407, 0.98, 0.98, 0.000009973854, 0.000009973859);
  }

  /** Stage 569 is the last one above the temperature floor, stage 570 the first at or below it. */
  lemma FloorCrossing()
    ensures Schedule(FloorStage) <= MinTemperature < Schedule(FloorStage - 1)
  {
    ScheduleIsGeometric(FloorStage);
    ScheduleIsGeometric(FloorStage - 1);
    PowerCrossesFloor(CoolingDecrease);
  }

  // ---------------------------------------------------------------------------
  // Acceptance rule
  // ---------------------------------------------------------------------------

  /** The part of the annealing state an inner iteration may change: the
      reference point and the best point found so far with its cost. */
  datatype Walk = Walk(current: Vector, best: Vector, costBest: Cost)

  /** The acceptance rule for a candidate of cost `cost` whose cost exceeds
      the current point's by `costDelta`. An improving move is always taken
      and becomes the new best when it beats the best cost; a non-improving
      move is taken when the metropolis test `lucky` passes (that test is
      drawn only for non-improving moves). */
  function Accept(w: Walk, candidate: Vector, cost: real, costDelta: real, lucky: bool): (r: Walk)
    ensures r.current == candidate <== costDelta < 0.0 || lucky
    ensures r.current == w.current <== costDelta >= 0.0 && !lucky
    ensures costDelta < 0.0 && Below(Finite(cost), w.costBest) ==> r.best == candidate && r.costBest == Finite(cost)
    ensures !(costDelta < 0.0 && Below(Finite(cost), w.costBest)) ==> r.best == w.best && r.costBest == w.costBest
    ensures AtMost(r.costBest, w.costBest)
  {
    if costDelta < 0.0 then
      if Below(Finite(cost), w.costBest) then Walk(candidate, candidate, Finite(cost))
      else Walk(candidate, w.best, w.costBest)
    else if lucky then Walk(candidate, w.best, w.costBest)
    else w
  }

  // ---------------------------------------------------------------------------
  // The best-so-far trace
  // ---------------------------------------------------------------------------

  /** The move from `origin` to `candidate` lowers the cost. */
  predicate Improving(cost: Vector -> real, candidate: Vector, origin: Vector)
  {
    cost(candidate) - cost(origin) < 0.0
  }

  /** The best cost after the first n inner iterations, where iteration j
      drew `candidates[j]` from the reference point `origins[j]`: the running
      minimum of the candidate costs of the improving iterations, starting
      from infinity. */
  function BestSoFar(cost: Vector -> real, candidates: seq<Vector>, origins: seq<Vector>, n: nat): Cost
    requires n <= |candidates| && n <= |origins|
  {
    if n == 0 then Infinity
    else
      var prev := BestSoFar(cost, candidates, origins, n - 1);
      var c := cost(candidates[n - 1]);
      if Improving(cost, candidates[n - 1], origins[n - 1]) && Below(Finite(c), prev) then Finite(c) else prev
  }

  /** The best cost is infinite exactly while no iteration has improved;
      otherwise it is the cost of an improving candidate and no improving
      candidate costs less. */
  lemma {:induction false} BestSoFarIsMinimum(cost: Vector -> real, candidates: seq<Vector>, origins: seq<Vector>, n: nat)
    requires n <= |candidates| && n <= |origins|
    ensures BestSoFar(cost, candidates, origins, n) == Infinity <==>
      forall j :: 0 <= j < n ==> !Improving(cost, candidates[j], origins[j])
    ensures forall j :: 0 <= j < n && Improving(cost, candidates[j], origins[j]) ==>
      AtMost(BestSoFar(cost, candidates, origins, n), Finite(cost(candidates[j])))
    ensures BestSoFar(cost, candidates, origins, n).Finite? ==>
      exists j :: 0 <= j < n && Improving(cost, candidates[j], origins[j])
        && BestSoFar(cost, candidates, origins, n) == Finite(cost(candidates[j]))
  {
    if n > 0 {
      BestSoFarIsMinimum(cost, candidates, origins, n - 1);
      var prev := BestSoFar(cost, candidates, origins, n - 1);
      var b := BestSoFar(cost, candidates, origins, n);
      forall j | 0 <= j < n && Improving(cost, candidates[j], origins[j])
        ensures AtMost(b, Finite(cost(candidates[j])))
      {
        if j < n - 1 {
          AtMostTransitive(b, prev, Finite(cost(candidates[j])));
        }
      }
    }
  }

  /** The best cost after n iterations depends on those n iterations only. */
  lemma {:induction false} BestSoFarPrefix(cost: Vector -> real, c1: seq<Vector>, o1: seq<Vector>, c2: seq<Vector>, o2: seq<Vector>, n: nat)
    requires n <= |c1| && n <= |o1| && n <= |c2| && n <= |o2|
    requires forall j :: 0 <= j < n ==> c1[j] == c2[j] && o1[j] == o2[j]
    ensures BestSoFar(cost, c1, o1, n) == BestSoFar(cost, c2, o2, n)
  {
    if n > 0 {
      BestSoFarPrefix(cost, c1, o1, c2, o2, n - 1);
    }
  }

  // ---------------------------------------------------------------------------
  // Padding and the annealing loop
  // ---------------------------------------------------------------------------

  /** What a run returns: the padded trace, the index error of reading the
      last entry of an empty trace, or the error the first normal draw raises
      when inverted bounds make its scale negative. */
  datatype RunResult = Ok(history: seq<Cost>) | IndexError | ValueError

  /** Pads the trace to `maxFes` entries by repeating its last entry; an
      empty trace has no last entry, which is an index error. */
  method PadHistory(raw: seq<Cost>, maxFes: int) returns (result: RunResult)
    ensures result.IndexError? <==> raw == []
    ensures !result.ValueError?
    ensures result.Ok? ==>
      |result.history| == Max(maxFes, |raw|)
      && result.history[..|raw|] == raw
      && forall i :: |raw| <= i < |result.history| ==> result.history[i] == raw[|raw| - 1]
    ensures result.Ok? && NonIncreasing(raw) ==> NonIncreasing(result.history)
  {
    if raw == [] {
      return IndexError;
    }
    var lastVal := raw[|raw| - 1];
    var history := raw;
    var missing := if maxFes > |raw| then maxFes - |raw| else 0;
    for k := 0 to missing
      invariant |history| == |raw| + k
      invariant history[..|raw|] == raw
      invariant forall i :: |raw| <= i < |history| ==> history[i] == lastVal
    {
      history := history + [lastVal];
    }
    if NonIncreasing(raw) {
      PaddingKeepsNonIncreasing(raw, history);
    }
    result := Ok(history);
  }

  /** A non-increasing trace padded with copies of its last entry is still non-increasing. */
  lemma PaddingKeepsNonIncreasing(raw: seq<Cost>, padded: seq<Cost>)
    requires raw != [] && NonIncreasing(raw)
    requires |raw| <= |padded| && padded[..|raw|] == raw
    requires forall i :: |raw| <= i < |padded| ==> padded[i] == raw[|raw| - 1]
    ensures NonIncreasing(padded)
  {
  }

  /** One inner iteration at the given temperature, from reference point
      `origin` at stream position `from`: the candidate is a neighbour drawn
      with the draws `cuts`; an improving candidate becomes the reference
      point; otherwise one more draw decides the metropolis test, and the
      candidate becomes the reference point exactly when the test passes.
      `next` and `to` are the reference point and the stream position after
      the iteration. */
  ghost predicate IsIteration(cost: Vector -> real, normal: NormalStream, metropolis: MetropolisTest,
                              lo: real, hi: real, sd: real, temperature: real,
                              origin: Vector, from: nat, cuts: seq<nat>, candidate: Vector, next: Vector, to: nat)
  {
    IsNeighborSample(normal, lo, hi, sd, origin, cuts, candidate) && cuts[0] == from
    && var delta := cost(candidate) - cost(origin);
       var drawn := cuts[|candidate|];
       if delta < 0.0 then next == candidate && to == drawn
       else to == drawn + 1 && next == (if metropolis(delta, temperature, drawn) then candidate else origin)
  }

  /** What a run records about its inner iterations, one entry per iteration:
      the candidate drawn (`candidates`), the reference point it was drawn
      from (`origins`, with one more entry for the point after the last
      iteration), the stream positions of its coordinate draws (`cuts`), and
      the stream position before it (`marks`, with one more entry for the
      position after the last iteration). */
  datatype Trace = Trace(candidates: seq<Vector>, origins: seq<Vector>, cuts: seq<seq<nat>>, marks: seq<nat>)

  /** The trace after one more iteration. */
  function Push(t: Trace, candidate: Vector, next: Vector, cuts: seq<nat>, to: nat): (r: Trace)
    ensures |r.candidates| == |t.candidates| + 1 && r.candidates[|t.candidates|] == candidate
    ensures |r.origins| == |t.origins| + 1 && r.origins[|t.origins|] == next
    ensures |r.cuts| == |t.cuts| + 1 && r.cuts[|t.cuts|] == cuts
    ensures |r.marks| == |t.marks| + 1 && r.marks[|t.marks|] == to
    ensures r.candidates[..|t.candidates|] == t.candidates && r.origins[..|t.origins|] == t.origins
    ensures r.cuts[..|t.cuts|] == t.cuts && r.marks[..|t.marks|] == t.marks
  {
    Trace(t.candidates + [candidate], t.origins + [next], t.cuts + [cuts], t.marks + [to])
  }

  /** A trace of n iterations that starts at `initial`, stream position 0, and ends at `current`. */
  ghost predicate TraceShape(t: Trace, n: nat, initial: Vector, current: Vector)
  {
    |t.candidates| == n && |t.origins| == n + 1 && |t.cuts| == n && |t.marks| == n + 1
    && t.origins[0] == initial && t.marks[0] == 0 && t.origins[n] == current
  }

  /** Iteration k of the trace follows the sampler and the acceptance rule at the temperature of its stage. */
  ghost predicate StepOf(cost: Vector -> real, normal: NormalStream, metropolis: MetropolisTest,
                         lo: real, hi: real, t: Trace, k: nat)
  {
    k < |t.candidates| && k < |t.cuts| && k + 1 < |t.origins| && k + 1 < |t.marks|
    && IsIteration(cost, normal, metropolis, lo, hi, StdDev(LocalAreaLength(lo, hi)), Schedule(k / NeighborhoodSize),
                   t.origins[k], t.marks[k], t.cuts[k], t.candidates[k], t.origins[k + 1], t.marks[k + 1])
  }

  /** Every candidate of the first n iterations lies in the box. */
  ghost predicate CandidatesInBounds(t: Trace, n: nat, dimension: nat, lo: real, hi: real)
  {
    n <= |t.candidates| && forall k :: 0 <= k < n ==> InBounds(t.candidates[k], dimension, lo, hi)
  }

  /** Entry k of `raw` is the best cost after the first k + 1 iterations of the trace. */
  ghost predicate RawIsBestSoFar(cost: Vector -> real, raw: seq<Cost>, t: Trace)
  {
    |raw| <= |t.candidates| && |raw| <= |t.origins|
    && forall k :: 0 <= k < |raw| ==> raw[k] == BestSoFar(cost, t.candidates, t.origins, k + 1)
  }

  /** The raw best-so-far trace `raw` of a run, explained by the iterations in
      `t`: iteration k drew `candidates[k]` from `origins[k]` at the
      temperature of its stage, consuming the stream from `marks[k]` to
      `marks[k + 1]`; the walk starts at the initial point and stream
      position 0 and is now at `current`; every candidate lies in the box;
      and entry k of `raw` is the best cost after the first k + 1 iterations. */
  ghost predicate IsRunTrace(cost: Vector -> real, normal: NormalStream, metropolis: MetropolisTest,
                             lo: real, hi: real, dimension: nat, initial: Vector,
                             raw: seq<Cost>, t: Trace, current: Vector)
  {
    TraceShape(t, |raw|, initial, current)
    && CandidatesInBounds(t, |raw|, dimension, lo, hi)
    && (forall k: nat :: k < |raw| ==> StepOf(cost, normal, metropolis, lo, hi, t, k))
    && RawIsBestSoFar(cost, raw, t)
  }

  /** Pushing an iteration that follows the rules keeps every iteration of the trace following them. */
  lemma ExtendSteps(cost: Vector -> real, normal: NormalStream, metropolis: MetropolisTest,
                    lo: real, hi: real, t: Trace, n: nat, cuts: seq<nat>, candidate: Vector, next: Vector, to: nat)
    requires |t.candidates| == n && |t.cuts| == n && |t.origins| == n + 1 && |t.marks| == n + 1
    requires forall k: nat :: k < n ==> StepOf(cost, normal, metropolis, lo, hi, t, k)
    requires IsIteration(cost, normal, metropolis, lo, hi, StdDev(LocalAreaLength(lo, hi)), Schedule(n / NeighborhoodSize),
                         t.origins[n], t.marks[n], cuts, candidate, next, to)
    ensures forall k: nat :: k <= n ==> StepOf(cost, normal, metropolis, lo, hi, Push(t, candidate, next, cuts, to), k)
  {
    var t' := Push(t, candidate, next, cuts, to);
    forall k: nat | k <= n
      ensures StepOf(cost, normal, metropolis, lo, hi, t', k)
    {
      if k < n {
        assert StepOf(cost, normal, metropolis, lo, hi, t, k);
        assert t'.origins[k] == t.origins[k] && t'.origins[k + 1] == t.origins[k + 1];
        assert t'.marks[k] == t.marks[k] && t'.marks[k + 1] == t.marks[k + 1];
        assert t'.cuts[k] == t.cuts[k] && t'.candidates[k] == t.candidates[k];
      } else {
        assert t'.origins[k] == t.origins[n] && t'.marks[k] == t.marks[n];
      }
    }
  }

  /** Pushing a candidate in the box keeps every candidate in the box. */
  lemma ExtendCandidatesInBounds(t: Trace, n: nat, dimension: nat, lo: real, hi: real,
                                 cuts: seq<nat>, candidate: Vector, next: Vector, to: nat)
    requires |t.candidates| == n && CandidatesInBounds(t, n, dimension, lo, hi)
    requires InBounds(candidate, dimension, lo, hi)
    ensures CandidatesInBounds(Push(t, candidate, next, cuts, to), n + 1, dimension, lo, hi)
  {
    var t' := Push(t, candidate, next, cuts, to);
    forall k | 0 <= k < n + 1
      ensures InBounds(t'.candidates[k], dimension, lo, hi)
    {
      if k < n {
        assert t'.candidates[k] == t.candidates[k];
      }
    }
  }

  /** Pushing an iteration leaves the earlier best costs as they were. */
  lemma ExtendBestSoFar(cost: Vector -> real, raw: seq<Cost>, t: Trace,
                        cuts: seq<nat>, candidate: Vector, next: Vector, to: nat)
    requires |t.candidates| == |raw| && |t.origins| == |raw| + 1 && RawIsBestSoFar(cost, raw, t)
    ensures var t' := Push(t, candidate, next, cuts, to);
      BestSoFar(cost, t'.candidates, t'.origins, |raw|) == BestSoFar(cost, t.candidates, t.origins, |raw|)
      && RawIsBestSoFar(cost, raw + [BestSoFar(cost, t'.candidates, t'.origins, |raw| + 1)], t')
  {
    var t' := Push(t, candidate, next, cuts, to);
    var raw' := raw + [BestSoFar(cost, t'.candidates, t'.origins, |raw| + 1)];
    BestSoFarPrefix(cost, t'.candidates, t'.origins, t.candidates, t.origins, |raw|);
    forall k | 0 <= k < |raw'|
      ensures raw'[k] == BestSoFar(cost, t'.candidates, t'.origins, k + 1)
    {
      if k < |raw| {
        BestSoFarPrefix(cost, t'.candidates, t'.origins, t.candidates, t.origins, k + 1);
      }
    }
  }

  /** One more iteration extends a run's trace by the new best cost, and the
      best cost before it is unchanged by the extension. */
  lemma ExtendRunTrace(cost: Vector -> real, normal: NormalStream, metropolis: MetropolisTest,
                       lo: real, hi: real, dimension: nat, initial: Vector,
                       raw: seq<Cost>, t: Trace, current: Vector,
                       cuts: seq<nat>, candidate: Vector, next: Vector, to: nat)
    requires IsRunTrace(cost, normal, metropolis, lo, hi, dimension, initial, raw, t, current)
    requires InBounds(candidate, dimension, lo, hi)
    requires IsIteration(cost, normal, metropolis, lo, hi, StdDev(LocalAreaLength(lo, hi)), Schedule(|raw| / NeighborhoodSize),
                         current, t.marks[|raw|], cuts, candidate, next, to)
    ensures var t' := Push(t, candidate, next, cuts, to);
      IsRunTrace(cost, normal, metropolis, lo, hi, dimension, initial,
                 raw + [BestSoFar(cost, t'.candidates, t'.origins, |raw| + 1)], t', next)
      && BestSoFar(cost, t'.candidates, t'.origins, |raw|) == BestSoFar(cost, t.candidates, t.origins, |raw|)
  {
    var t' := Push(t, candidate, next, cuts, to);
    ExtendSteps(cost, normal, metropolis, lo, hi, t, |raw|, cuts, candidate, next, to);
    ExtendCandidatesInBounds(t, |raw|, dimension, lo, hi, cuts, candidate, next, to);
    ExtendBestSoFar(cost, raw, t, cuts, candidate, next, to);
    assert t'.origins[0] == initial && t'.marks[0] == 0;
  }

  /** What the run knows between iterations: `raw` is the best-so-far trace
      explained by `trace`, the walk is at the trace's last point, the best
      cost is the running minimum, and the points stay in the box. */
  ghost predicate RunState(cost: Vector -> real, normal: NormalStream, metropolis: MetropolisTest,
                           lo: real, hi: real, dimension: nat, initial: Vector,
                           raw: seq<Cost>, trace: Trace, walk: Walk, draws: nat)
  {
    NonIncreasing(raw)
    && IsRunTrace(cost, normal, metropolis, lo, hi, dimension, initial, raw, trace, walk.current)
    && trace.marks[|raw|] == draws
    && walk.costBest == BestSoFar(cost, trace.candidates, trace.origins, |raw|)
    && (raw != [] ==> raw[|raw| - 1] == walk.costBest)
    && (walk.costBest == Infinity ==> walk.best == initial)
    && (walk.costBest.Finite? ==> walk.costBest == Finite(cost(walk.best)) && walk.best in trace.candidates)
    && |walk.current| == dimension && |walk.best| == dimension
    && (lo <= hi ==> InBounds(walk.current, dimension, lo, hi) && InBounds(walk.best, dimension, lo, hi))
  }

  /** An iteration that follows the sampler and the acceptance rule keeps the
      run state, with the new best cost appended to the trace. */
  lemma AcceptKeepsRunState(cost: Vector -> real, normal: NormalStream, metropolis: MetropolisTest,
                            lo: real, hi: real, dimension: nat, initial: Vector,
                            raw: seq<Cost>, trace: Trace, walk: Walk, draws: nat,
                            cuts: seq<nat>, candidate: Vector, lucky: bool, to: nat)
    requires RunState(cost, normal, metropolis, lo, hi, dimension, initial, raw, trace, walk, draws)
    requires InBounds(candidate, dimension, lo, hi)
    requires IsIteration(cost, normal, metropolis, lo, hi, StdDev(LocalAreaLength(lo, hi)), Schedule(|raw| / NeighborhoodSize),
                         walk.current, draws, cuts, candidate,
                         Accept(walk, candidate, cost(candidate), cost(candidate) - cost(walk.current), lucky).current, to)
    ensures var next := Accept(walk, candidate, cost(candidate), cost(candidate) - cost(walk.current), lucky);
      RunState(cost, normal, metropolis, lo, hi, dimension, initial, raw + [next.costBest],
               Push(trace, candidate, next.current, cuts, to), next, to)
  {
    var next := Accept(walk, candidate, cost(candidate), cost(candidate) - cost(walk.current), lucky);
    var trace' := Push(trace, candidate, next.current, cuts, to);
    ExtendRunTrace(cost, normal, metropolis, lo, hi, dimension, initial, raw, trace, walk.current,
                   cuts, candidate, next.current, to);
    BestSoFarIsMinimum(cost, trace'.candidates, trace'.origins, |raw| + 1);
    AppendKeepsNonIncreasing(raw, next.costBest);
    if next.costBest.Finite? && next.best != walk.best {
      assert next.best == candidate == trace'.candidates[|raw|];
    }
  }

  /** One inner iteration: draw a neighbour of the current point, evaluate it
      and the current point, apply the acceptance rule and record the best
      cost. It fails with a scale error exactly when the box is inverted. */
  method Iterate(lo: real, hi: real, dimension: nat, cost: Vector -> real, normal: NormalStream,
                 metropolis: MetropolisTest, ghost initial: Vector, temperature: real,
                 ghost raw: seq<Cost>, ghost trace: Trace, walk: Walk, draws: nat)
    returns (failed: bool, next: Walk, nextDraws: nat, ghost nextTrace: Trace)
    requires RunState(cost, normal, metropolis, lo, hi, dimension, initial, raw, trace, walk, draws)
    requires temperature == Schedule(|raw| / NeighborhoodSize)
    requires EventuallyInBox(normal, StdDev(LocalAreaLength(lo, hi)), lo, hi)
    ensures failed <==> hi < lo && 0 < dimension
    ensures !failed ==> RunState(cost, normal, metropolis, lo, hi, dimension, initial, raw + [next.costBest], nextTrace, next, nextDraws)
  {
    var localAreaLength := LocalAreaLength(lo, hi);
    assert forall i, k: nat :: 0 <= i < dimension && 0.0 <= StdDev(localAreaLength) ==>
      HitsBoxFrom(normal, walk.current[i], StdDev(localAreaLength), lo, hi, k) by {
      forall i, k: nat | 0 <= i < dimension && 0.0 <= StdDev(localAreaLength)
        ensures HitsBoxFrom(normal, walk.current[i], StdDev(localAreaLength), lo, hi, k)
      {
        assert InBox(walk.current[i], lo, hi);
      }
    }
    ghost var cuts;
    var sample;
    sample, cuts := RandomNeighbor(normal, dimension, lo, hi, localAreaLength, walk.current, draws);
    if sample.ScaleError? {
      return true, walk, draws, trace;
    }
    var position := sample.position;
    nextDraws := sample.next;
    var c := cost(position);
    var cOrig := cost(walk.current);
    var costDelta := c - cOrig;
    var lucky := false;
    if costDelta >= 0.0 {
      lucky := metropolis(costDelta, temperature, nextDraws);
      nextDraws := nextDraws + 1;
    }
    next := Accept(walk, position, c, costDelta, lucky);
    AcceptKeepsRunState(cost, normal, metropolis, lo, hi, dimension, initial, raw, trace, walk, draws,
                        cuts, position, lucky, nextDraws);
    nextTrace := Push(trace, position, next.current, cuts, nextDraws);
    failed := false;
  }

  /** The annealing run. `cost` is the objective at the benchmark's function
      and dimension; `initial` is the uniform starting point. On success the
      result is the best-so-far trace `raw`, one entry per inner iteration,
      padded to `maxFes` entries. The ghost results expose the run: the final
      evaluation counter, the number of temperature stages, every iteration's
      draws and points, and the final reference and best points. */
  method Run(lo: real, hi: real, dimension: nat, cost: Vector -> real, normal: NormalStream,
             metropolis: MetropolisTest, initial: Vector, maxFes: int)
    returns (result: RunResult, ghost raw: seq<Cost>, ghost finalFes: int, ghost stages: nat,
             ghost trace: Trace, ghost current: Vector, ghost best: Vector)
    requires |initial| == dimension && (lo <= hi ==> InBounds(initial, dimension, lo, hi))
    requires EventuallyInBox(normal, StdDev(LocalAreaLength(lo, hi)), lo, hi)
    ensures result.ValueError? <==> hi < lo && 0 < dimension && 1 <= maxFes
    ensures result.IndexError? <==> maxFes < 1
    ensures result.Ok? ==>
      raw != []
      && |result.history| == Max(maxFes, |raw|)
      && result.history[..|raw|] == raw
      && (forall i :: |raw| <= i < |result.history| ==> result.history[i] == raw[|raw| - 1])
      && NonIncreasing(result.history)
    ensures result.Ok? ==> InBounds(current, dimension, lo, hi) && InBounds(best, dimension, lo, hi)
    // the raw trace: one entry per evaluation charged, ten per stage, each the best cost so far
    ensures !result.ValueError? ==>
      finalFes == 1 + |raw| && |raw| == NeighborhoodSize * stages && NonIncreasing(raw)
    ensures !result.ValueError? ==> IsRunTrace(cost, normal, metropolis, lo, hi, dimension, initial, raw, trace, current)
    // a stage starts only while the temperature is above the floor and the budget is not spent
    ensures !result.ValueError? ==> (1 <= maxFes <==> 1 <= stages)
    ensures !result.ValueError? && 1 <= stages ==>
      Schedule(stages - 1) > MinTemperature && |raw| - NeighborhoodSize < maxFes
    ensures !result.ValueError? ==> Schedule(stages) <= MinTemperature || maxFes < finalFes
    ensures !result.ValueError? ==> stages <= FloorStage && (stages < FloorStage ==> maxFes < finalFes)
    // the best point is the initial point until an iteration improves, then a candidate of the best cost
    ensures !result.ValueError? && (raw == [] || raw[|raw| - 1] == Infinity) ==> best == initial
    ensures !result.ValueError? && raw != [] && raw[|raw| - 1].Finite? ==>
      raw[|raw| - 1] == Finite(cost(best)) && best in trace.candidates
  {
    var walk := Walk(initial, initial, Infinity);
    var costsHistory: seq<Cost> := [];
    var fes := 1;
    var temperature := MaxTemperature;
    var draws: nat := 0;
    stages := 0;
    trace := Trace([], [initial], [], [0]);

    while temperature > MinTemperature && fes <= maxFes
      invariant fes == 1 + |costsHistory|
      invariant |costsHistory| == NeighborhoodSize * stages
      invariant temperature == Schedule(stages)
      invariant stages >= 1 ==> Schedule(stages - 1) > MinTemperature && |costsHistory| - NeighborhoodSize < maxFes
      invariant stages == 0 || (maxFes >= 1 && !(hi < lo && 0 < dimension))
      invariant RunState(cost, normal, metropolis, lo, hi, dimension, initial, costsHistory, trace, walk, draws)
      decreases maxFes - fes
    {
      ghost var stageStart := |costsHistory|;
      for step := 0 to NeighborhoodSize
        invariant fes == 1 + |costsHistory|
        invariant |costsHistory| == stageStart + step
        invariant step > 0 ==> !(hi < lo && 0 < dimension)
        invariant RunState(cost, normal, metropolis, lo, hi, dimension, initial, costsHistory, trace, walk, draws)
      {
        assert |costsHistory| / NeighborhoodSize == stages;
        var failed;
        failed, walk, draws, trace := Iterate(lo, hi, dimension, cost, normal, metropolis, initial, temperature,
                                              costsHistory, trace, walk, draws);
        if failed {
          raw, finalFes, current, best := costsHistory, fes, walk.current, walk.best;
          return ValueError, raw, finalFes, stages, trace, current, best;
        }
        fes := fes + 1;
        costsHistory := costsHistory + [walk.costBest];
      }
      temperature := temperature * CoolingDecrease;
      stages := stages + 1;
    }

    FloorCrossing();
    if FloorStage < stages {
      ScheduleStaysBelow(FloorStage, stages - 1, MinTemperature);
    } else if stages < FloorStage - 1 {
      ScheduleStrictlyDecreasing(stages, FloorStage - 1);
    }
    raw, finalFes, current, best := costsHistory, fes, walk.current, walk.best;
    result := PadHistory(costsHistory, maxFes);
  }
}
