# Simulated annealing optimizer: a Dafny model

This project models the simulated-annealing optimizer of a CEC 2020 benchmark
harness. The model has three parts:

- The neighbour sampler draws a candidate point around the current point, one
  coordinate at a time. It rejects and redraws each coordinate until the value
  lies within the box bounds.
- The annealing loop is the main state machine. It tracks:
  - the evaluation counter `fes`;
  - a geometric cooling schedule that starts at 1000, multiplies by 0.98 per
    stage and stops at 0.01;
  - ten neighbours per temperature stage;
  - the acceptance rule, which takes improving moves always and worsening
    moves by a metropolis test;
  - the best-so-far cost and point;
  - the best-so-far trace, one entry per inner iteration.
- The padding step repeats the last trace entry up to the evaluation budget.

Files:

- `costs.dfy` (module `Costs`): the cost of a point as an extended real. The
  best cost starts at positive infinity. The file also defines the order on
  costs and what a non-increasing trace is.
- `simulated_annealing.dfy` (module `SimulatedAnnealing`): the constants, the
  sampler (`DrawCoordinate`, `RandomNeighbor`), the cooling schedule
  (`Schedule`), the acceptance rule (`Accept`), the best-so-far cost as a
  function of the iterations (`BestSoFar`), the padding (`PadHistory`), one
  inner iteration (`Iterate`) and the run itself (`Run`). A ghost `Trace`
  records what every iteration drew and where it moved, and `IsRunTrace`
  ties the raw trace to it.

The model replaces the randomness and the foreign calls with parameters:

- `normal(mean, sd, n)` gives the n-th draw of the generator when a normal
  deviate is asked for.
- `metropolis(delta, temperature, n)` says whether the test
  `r < exp(-delta / temperature)` passes for the uniform draw at index n.
- The two kinds of draw share one stream counter, as they share numpy's global
  generator.
- The uniform starting point is the parameter `initial`. When the box is not
  inverted, it must lie in the box.
- The objective `cost` is a function from a vector to `real`. The benchmark
  function identifier and the dimension are folded into it.

The rejection loop of the sampler terminates because `normal` is required to
land in the box eventually from every stream position. For a positive
standard deviation, this event has probability one. The loop's termination
measure is the index of that in-box draw. No retry bound is added.

Costs and temperatures are exact reals. The temperature after k stages is
exactly `1000 * 0.98^k` (`ScheduleIsGeometric`). In exact reals, stage 570 is
the first stage at or below the floor of 0.01 (`FloorCrossing`), so a run has
at most 570 stages.

Facts about the code that the model keeps as they are:

- `fes` goes up once per inner iteration (simulated_annealing.py:59), although
  the cost function is called twice, once for the candidate and once for the
  current point.
- The best cost changes only on a move that is strictly improving against the
  current point (`cost_delta < 0`) and also beats the best cost
  (simulated_annealing.py:61-67). Moves taken through the metropolis test
  never change the best. So while no move has been strictly improving
  (`cost_delta < 0`), the trace records positive infinity.
- The budget is checked only when a stage starts (simulated_annealing.py:43).
  A stage always adds ten entries (simulated_annealing.py:46). So the raw trace
  can end up to nine entries longer than `max_fes`, and then the result is
  longer than `max_fes`, with no padding.
- With `max_fes < 1` no stage runs. The trace is empty, and reading its last
  entry (simulated_annealing.py:79) is an index error. The model returns
  `IndexError` in exactly that case.
- With inverted bounds (`bounds[0] > bounds[1]`) and at least one dimension,
  the local area length is negative. The first normal draw then has a negative
  scale, which numpy refuses with a value error (simulated_annealing.py:18).
  The model returns `ValueError` in exactly the case where that draw happens,
  that is when also `max_fes >= 1`.

## Model

| member | source | states |
|---|---|---|
| SimulatedAnnealing.DrawCoordinate | simulated_annealing.py:18-22 | The coordinate is the first draw at or after the stream position that lies within the bounds, inclusive; all earlier draws were rejected; the result lies in the box |
| SimulatedAnnealing.RejectionSampleUnique | simulated_annealing.py:18-22 | Given the draw stream, rejection sampling has exactly one outcome, so the sampler is deterministic for a fixed stream |
| SimulatedAnnealing.RandomNeighbor | simulated_annealing.py:12-26 | A negative standard deviation with at least one coordinate to draw is a scale error, and only that. Otherwise the neighbour has exactly `dimension` coordinates, each in the box; coordinate i is a rejection sample around `original[i]` with standard deviation half the local area length, and the samples consume consecutive stretches of the stream |
| SimulatedAnnealing.LocalAreaLength | simulated_annealing.py:31-32 | The local area length is a tenth of the box width; it is negative exactly when the box is inverted and zero exactly when the box is a single point |
| SimulatedAnnealing.StdDev | simulated_annealing.py:18-22 | The standard deviation of a neighbour draw is half the local area length, and negative exactly when that length is |
| SimulatedAnnealing.Schedule | simulated_annealing.py:40-40 | The temperature of every stage is positive and at most the maximum temperature |
| SimulatedAnnealing.ScheduleStrictlyDecreasing | simulated_annealing.py:76-76 | Cooling by 0.98 after each stage makes a later stage strictly colder than an earlier one |
| SimulatedAnnealing.ScheduleStaysBelow | simulated_annealing.py:43-43 | Once the temperature is at or below the floor, it stays there, so no later stage can pass the temperature test |
| SimulatedAnnealing.Accept | simulated_annealing.py:61-72 | An improving move is always taken; a worsening move is taken exactly when the metropolis test passes; the best point and cost change exactly when the move is improving and beats the best cost, and then become the candidate and its cost; the best cost never goes up |
| SimulatedAnnealing.PadHistory | simulated_annealing.py:79-84 | An empty trace is an index error; otherwise the result has length max(max_fes, raw length), keeps the raw trace as its prefix, repeats the last raw entry after it, and stays non-increasing if the raw trace was |
| SimulatedAnnealing.PaddingKeepsNonIncreasing | simulated_annealing.py:79-84 | A non-increasing trace padded with copies of its last entry is still non-increasing |
| Costs.AppendKeepsNonIncreasing | simulated_annealing.py:74-74 | Appending a value no larger than the last entry keeps the best-so-far trace non-increasing |
| SimulatedAnnealing.ScheduleIsGeometric | simulated_annealing.py:40-40 | After k stages of cooling, the temperature is exactly 1000 * 0.98^k |
| SimulatedAnnealing.PowerCrossesFloor | simulated_annealing.py:7-9 | 1000 * 0.98^570 is at most 0.01, and 1000 * 0.98^569 is above it |
| SimulatedAnnealing.FloorCrossing | simulated_annealing.py:43-43 | Stage 569 is the last stage whose temperature is above the floor, and stage 570 is the first at or below it |
| SimulatedAnnealing.BestSoFar | simulated_annealing.py:34-74 | The best cost after n iterations: it starts at infinity, and an iteration replaces it by the candidate's cost exactly when the move is strictly improving against its reference point and the cost is below the best so far |
| SimulatedAnnealing.IsIteration | simulated_annealing.py:48-72 | One inner iteration: the candidate is the rejection-sampled neighbour of the reference point from the given stream position; an improving candidate becomes the reference point with no further draw; otherwise one more draw decides the metropolis test, and the candidate becomes the reference point exactly when it passes |
| SimulatedAnnealing.BestSoFarIsMinimum | simulated_annealing.py:61-74 | The best cost after n iterations is infinity exactly when no iteration was improving. It is at most the cost of every improving candidate so far, and when finite it is the cost of one of them |
| SimulatedAnnealing.BestSoFarPrefix | simulated_annealing.py:74-74 | The best cost after n iterations depends only on the first n iterations |
| SimulatedAnnealing.ExtendRunTrace | simulated_annealing.py:46-74 | One more iteration that follows the sampler and the acceptance rule extends the explained trace by the new best cost, and leaves the earlier best costs unchanged |
| SimulatedAnnealing.AcceptKeepsRunState | simulated_annealing.py:61-74 | After the acceptance rule, the run state still holds with the new best cost appended: the trace stays non-increasing, the best cost is the running minimum over the iterations, and the best point is either the initial point or a candidate of that cost |
| SimulatedAnnealing.Iterate | simulated_annealing.py:48-74 | One inner iteration fails with a scale error exactly when the box is inverted and has a dimension; otherwise the run state holds for the trace with the new best cost appended |
| SimulatedAnnealing.Run | simulated_annealing.py:29-84 | A value error occurs exactly when the box is inverted, the dimension is positive and max_fes >= 1; an index error exactly when max_fes < 1. Otherwise the result is the raw trace padded as above and is non-increasing. `fes` ends at one plus the raw length, and the raw trace holds ten entries per stage. Entry k of the raw trace is the lowest cost among the improving candidates of the first k + 1 iterations, or infinity while there is none. Iteration k drew its candidate from the stream by the sampler around its reference point, and moved by the acceptance rule at the temperature of its stage. A stage runs iff max_fes >= 1. The last stage started above the temperature floor and within the budget; the loop stopped at the floor or with the budget spent; there are at most 570 stages, and fewer only when the budget ran out. The current and best points stay in the box, and the last raw entry is either infinity, with the best point the initial one, or the cost of the best point, a candidate of the run |

## Left out

- The benchmark driver (`cec_2020.py`): it loads the CEC 2020 test functions from a C shared library and loops over configurations. It also computes statistics and plots the traces. None of this is part of the optimizer.
- The cost function's internals: a foreign C function reached through raw pointers. Here it is an arbitrary function from a vector to a real. Non-finite returns are not modelled.
- The normal and uniform distributions: they are streams of draws indexed by a counter. Nothing is stated about their statistics.
- The metropolis test `r < exp(-cost_delta / temperature)`: it is a boolean oracle, because it is floating point.
- IEEE rounding of temperatures and costs: exact reals are used. The stage bound of 570 holds for exact cooling; the stage at which floating-point cooling crosses the floor is not modelled.
- The conversion of the neighbour list to a numpy array: vectors are sequences of reals.
- Statistical claims about the quality of the solution found.
- SimulatedAnnealing.Run: with inverted bounds, the uniform starting point is not constrained. The model only requires it to lie in the box when the box is not inverted.
- The dimension is a natural number. A negative dimension, which numpy would refuse at the uniform draw, is not modelled.
