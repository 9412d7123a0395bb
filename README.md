# Autoregressive sampling, modelled in Dafny

This project models the sampler of pytorch-generative (`sample.py`). It has two parts:

- `_get_conditioned_on` builds the N×C×H×W working buffer. Given an output shape, the buffer is filled with `-1`, meaning "unset". Given a partial sample, the buffer is a clone of it.
- `sample` visits every spatial location (row, column) in row-major order. At each one it runs the model, picks a Bernoulli or Categorical distribution from the model's output channel count K, and draws one value per batch element. A `torch.where` then writes that value into the entries of the location that are still negative, for every channel. Entries that are set (≥ 0) are conditioning values and are never changed.

Files:

- `wrappers.dfy`: `Option` and `Result`.
- `tensors.dfy`: the shape, the value view `Grid` of a 4-D tensor, the all-`v` fill, and `Snapshot`, which reads an `array4<int>` as a `Grid`.
- `raster.dfy`: the visit order of the two nested loops, `RasterOrder(h, w)`, and its properties.
- `sampling.dfy`: the initial buffer, one loop step (`StepAt`), the fold of the steps over a list of locations (`Run`), their lemmas, and the imperative methods.

The buffer is an `array4<int>` that `Sample` updates in place inside two nested `for` loops.

- **Loop invariants.** The outer invariant equates the buffer's contents with `AfterRows`, and the inner one with `AfterColumns`. These two functions describe the loop state.
- **Reference fold.** `AfterRowsIsRun` and `AfterColumnsIsRun` equate that loop state with `Run` over the raster order.
- **Properties.** The lemmas about `Run` state what the sampler promises: conditioning values survive, unvisited locations are untouched, every unset entry is resolved, and it is resolved with the value drawn at its visit.

The model and the random draw are one oracle parameter, `draw`. It takes the chosen distribution, the current buffer and a location, and returns one non-negative value per batch element.

`Sample` has no `modifies` clause. It therefore cannot write the caller's tensor, and it returns a different array.

The assertion at `sample.py:2-3` rejects only the case where both `out_shape` and `conditioned_on` are given. The assertion's own message (sample.py:3, "one, and only one") says that giving neither is rejected as well. The code does not reject it at the assertion: with neither given, the assertion passes and the fill `torch.ones(None)` fails. The model follows the code and keeps the two outcomes apart:

- both given gives `Failure(AssertionFailed)`;
- neither given gives `Failure(MissingShape)`.

## Model

| member | source | states |
|---|---|---|
| Tensors.Filled | sample.py:5 | the fill has exactly the requested shape and every entry equals the fill value |
| Sampling.Initial | sample.py:1-8 | fails exactly when both or neither argument is given: both is the assertion failure, neither is the missing shape. With a shape only, the buffer has that shape and every entry is -1. With a tensor only, the buffer equals that tensor |
| Sampling.GetConditionedOn | sample.py:1-8 | returns a freshly allocated array, never the caller's, whose contents are the initial buffer. Same errors as `Initial`. The shape is `out_shape`, or the caller's tensor's shape |
| Sampling.ChooseDistribution | sample.py:29-30 | Categorical exactly when K > 1. The support is [0, K) for Categorical and {0, 1} otherwise |
| Sampling.StepAt | sample.py:32-35 | one step keeps the shape and changes no other location. At the visited location it keeps set entries and gives unset entries the batch element's drawn value, in every channel |
| Sampling.OverwriteUnset | sample.py:32-35 | the slice assignment leaves the array equal to `StepAt` applied to its old contents |
| Sampling.VisitLocation | sample.py:28-35 | one inner-loop body: the distribution is chosen from K, the oracle is shown the current buffer, and the array becomes `StepAt` of the old contents with that draw |
| Sampling.Run | sample.py:26-35 | a sequence of steps, each shown the buffer the earlier steps left, preserves the buffer's shape |
| Sampling.AfterRows | sample.py:26-35 | the buffer after the outer loop's first `rows` iterations has the buffer's shape |
| Sampling.AfterColumns | sample.py:26-35 | the buffer after `cols` iterations of the inner loop in row `row` has the buffer's shape |
| Sampling.AfterRowsIsRun | sample.py:26-35 | after `rows` outer iterations, the loops have computed `Run` over the raster order of those rows |
| Sampling.AfterColumnsIsRun | sample.py:26-35 | mid-row, the loops have computed `Run` over the earlier rows followed by the first `cols` columns of the current row |
| Sampling.PendingLocationsUntouched | sample.py:26-35 | at any point of the loops, every entry at a location later in raster order still holds its initial value |
| Sampling.RunKeepsFixed | sample.py:32-35 | an entry that is ≥ 0 is unchanged by any sequence of steps |
| Sampling.RunLeavesUnvisited | sample.py:32-35 | entries at a location no step visited keep their initial value |
| Sampling.RunResolvesVisited | sample.py:32-35 | every entry at a visited location is ≥ 0 |
| Sampling.RunUnsetOrDrawn | sample.py:29-35 | an entry that starts unset stays unset or holds a value in the support of `d`, assuming the draws made for `d` stay in that support |
| Sampling.RunDrawnInSupport | sample.py:29-35 | a visited entry that started unset holds a value in the support of `d`, assuming the draws made for `d` stay in that support |
| Sampling.RunValueAtVisit | sample.py:28-35 | an entry that started unset holds the value drawn for its batch element at the first visit of its location. It is the same value in every channel, drawn from the buffer the earlier steps left |
| Sampling.RasterPassResolvesAll | sample.py:25-36 | after the raster pass over the whole grid, no entry is negative |
| Sampling.RasterPassKeepsFixed | sample.py:25-36 | after the raster pass, every entry that started ≥ 0 is unchanged |
| Sampling.RasterPassInSupport | sample.py:25-36 | after the raster pass, every entry that started unset lies in the support of `d`, assuming the draws made for `d` stay in that support |
| Sampling.RasterPassValue | sample.py:25-36 | after the raster pass, an unset entry at (row, col) holds the value drawn at step row·w + col. That draw was shown the buffer in which exactly the earlier locations had been visited |
| Sampling.ZeroDrawsInSupport | sample.py:29-31 | the support hypothesis can be met for every K: an oracle that always draws 0 gives one value per batch element, in the support of the chosen distribution |
| Sampling.ConstantDrawResolves | sample.py:25-36 | with an oracle that always yields v, every unset entry becomes v and every set entry is kept |
| Sampling.AllOnesScenario | sample.py:10-36 | an unconditional 1×1×2×2 sample with draws that are always 1 is all ones |
| Sampling.ConditionedScenario | sample.py:17-20 | conditioning on [[[[-1, 5], [-1, -1]]]] with draws that are always 0 gives [[[[0, 5], [0, 0]]]] |
| Sampling.Sample | sample.py:10-36 | same outcomes as `Initial`: the assertion failure when both arguments are given, the missing shape when neither is. On success the result has `out_shape`, or is a new array with the conditioning tensor's shape. Its contents equal `Run` over the raster order from the initial buffer. No entry is negative, every conditioning value ≥ 0 is kept, and, when the draws made for the distribution chosen from K stay in its support, every unset entry is in that support |
| Raster.RowPositions | sample.py:27 | the inner loop over row `row` visits columns 0 … cols-1 in increasing order |
| Raster.RasterOrder | sample.py:26-27 | every location in the visit order lies inside the h×w grid |
| Raster.RasterOrderLength | sample.py:26-27 | the loops take exactly h·w steps |
| Raster.RasterOrderCovers | sample.py:26-27 | a location is visited if and only if it lies inside the grid |
| Raster.RasterOrderIsRowMajor | sample.py:26-27 | an earlier step is at a location strictly before a later step's, in row-major order, so no location is visited twice |
| Raster.RasterOrderAt | sample.py:26-27 | step row·w + col visits (row, col) |

## Left out

- `model.forward`, `model.parameters()` and device placement (sample.py:5, 22, 28) are left out. The neural network and the hardware are outside the sampler's bookkeeping. They are folded into the oracle `draw`.
- `torch.no_grad()` (sample.py:23) is left out: it affects gradient tracking, not values.
- `distributions.Bernoulli` and `distributions.Categorical` sampling (sample.py:31) are not modelled. They draw at random from floating-point probabilities. The model keeps only what the sampler relies on: one non-negative integer per batch element. The `DrawsInSupport(draw, d)` hypothesis states that the draws made for the chosen distribution `d` lie in its support: {0, 1} for Bernoulli, [0, K) for Categorical.
- Sample: K, the model's output channel count, is the fixed parameter `k`. The source reads it from each forward pass. The distribution is still chosen from it at every step, as in the source.
- Sample: the model always uses the Bernoulli-style broadcast, with one drawn value per batch element copied into every channel. On the Categorical path, the source's `torch.where` broadcasts an (N,)-shaped draw against the (N, C) slice using library shape rules. That case is not modelled.
- Sample: not modelled: which exception is raised when neither argument is given (from inside `torch.ones`). The model reports only that the call fails, as `MissingShape`.
- Tensor dtype is not modelled. The source fills a float tensor and writes drawn values into it; the model uses integers throughout.
- Only 4-D (NCHW) tensors are modelled, as the unpacking at sample.py:25 requires.
