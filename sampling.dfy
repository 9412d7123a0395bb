/**
  Autoregressive sampling: the initial buffer (`_get_conditioned_on`) and the
  raster-order loop (`sample`) that resolves every unset entry with a value
  drawn for its batch element, never overwriting an entry that is already set.

  The neural network and the random draw are one oracle, `draw`: shown the
  current buffer and a location, it returns one non-negative value per batch
  element, drawn from the distribution the sampler chose.
 */
module Sampling {
  import opened Wrappers
  import opened Tensors
  import opened Raster

  /** Why the initial buffer cannot be built. */
  datatype Error =
    | AssertionFailed  // both `out_shape` and `conditioned_on` were supplied
    | MissingShape     // neither was supplied: the fill constructor gets no shape

  /** The distribution family, chosen from the model's output channel count K. */
  datatype Distribution = Bernoulli | Categorical(k: nat)

  /** The values a draw from `d` can take: {0, 1} for Bernoulli, [0, K) for Categorical. */
  predicate InSupport(d: Distribution, v: int) {
    match d
    case Bernoulli => 0 <= v <= 1
    case Categorical(k) => 0 <= v < k
  }

  /** Categorical when the model yields more than one channel, Bernoulli otherwise. */
  function ChooseDistribution(k: nat): (d: Distribution)
    ensures d.Categorical? <==> k > 1
    ensures forall v :: InSupport(d, v) <==> 0 <= v < (if k > 1 then k else 2)
  {
    if k > 1 then Categorical(k) else Bernoulli
  }

  /** The model followed by the draw: distribution, current buffer, row, column. */
  type Oracle = (Distribution, Grid, nat, nat) -> seq<nat>

  /** The oracle yields one value per batch element of the buffer it is shown. */
  ghost predicate OneDrawPerBatchElement(draw: Oracle) {
    forall d, g, row, col :: |draw(d, g, row, col)| == |g|
  }

  /** Every value the oracle yields when asked for `d` lies in the support of `d`. */
  ghost predicate DrawsInSupport(draw: Oracle, d: Distribution) {
    forall g, row, col, i :: 0 <= i < |draw(d, g, row, col)| ==> InSupport(d, draw(d, g, row, col)[i])
  }

  /** All visited locations lie inside the spatial grid of `s`. */
  ghost predicate WithinGrid(ps: seq<Pos>, s: Shape) {
    forall i :: 0 <= i < |ps| ==> ps[i].row < s.h && ps[i].col < s.w
  }

  /** `torch.where(cur < 0, drawn, cur)` for one entry. */
  function WhereUnset(cur: int, drawn: int): int {
    if cur < 0 then drawn else cur
  }

  /** `g` has shape `s` and none of its entries is unset. */
  ghost predicate FullyResolved(g: Grid, s: Shape) {
    HasShape(g, s) &&
    forall b, ch, row, col :: InBounds(s, b, ch, row, col) ==> g[b][ch][row][col] >= 0
  }

  /** Every entry that is set (>= 0) in `g0` has the same value in `g`. */
  ghost predicate KeepsSetEntries(g0: Grid, g: Grid, s: Shape) {
    HasShape(g0, s) && HasShape(g, s) &&
    forall b, ch, row, col :: InBounds(s, b, ch, row, col) && g0[b][ch][row][col] >= 0 ==>
      g[b][ch][row][col] == g0[b][ch][row][col]
  }

  /** Every entry that is unset in `g0` holds a value of the support of `d` in `g`. */
  ghost predicate UnsetEntriesDrawnFrom(g0: Grid, g: Grid, s: Shape, d: Distribution) {
    HasShape(g0, s) && HasShape(g, s) &&
    forall b, ch, row, col :: InBounds(s, b, ch, row, col) && g0[b][ch][row][col] < 0 ==>
      InSupport(d, g[b][ch][row][col])
  }

  /** The initial buffer `_get_conditioned_on` builds, as a value. */
  function Initial(outShape: Option<Shape>, conditionedOn: Option<Grid>): (r: Result<Grid, Error>)
    ensures r.Failure? <==> outShape.Some? == conditionedOn.Some?
    ensures outShape.Some? && conditionedOn.Some? ==> r == Failure(AssertionFailed)
    ensures outShape.None? && conditionedOn.None? ==> r == Failure(MissingShape)
    ensures outShape.Some? && conditionedOn.None? ==>
              HasShape(r.value, outShape.value) &&
              forall b, ch, row, col :: InBounds(outShape.value, b, ch, row, col) ==> r.value[b][ch][row][col] == Unset
    ensures conditionedOn.Some? && outShape.None? ==> r.value == conditionedOn.value
  {
    if outShape.Some? && conditionedOn.Some? then Failure(AssertionFailed)
    else if conditionedOn.None? then
      if outShape.None? then Failure(MissingShape) else Success(Filled(outShape.value, Unset))
    else Success(conditionedOn.value)
  }

  /** One step of the loop: the conditional overwrite of location (row, col) with `out`. */
  function StepAt(g: Grid, s: Shape, row: nat, col: nat, out: seq<nat>): (g': Grid)
    requires HasShape(g, s) && row < s.h && col < s.w && |out| == s.n
    ensures HasShape(g', s)
    ensures forall b, ch, r, c :: InBounds(s, b, ch, r, c) && (r != row || c != col) ==>
              g'[b][ch][r][c] == g[b][ch][r][c]
    ensures forall b, ch :: 0 <= b < s.n && 0 <= ch < s.c && g[b][ch][row][col] >= 0 ==>
              g'[b][ch][row][col] == g[b][ch][row][col]
    ensures forall b, ch :: 0 <= b < s.n && 0 <= ch < s.c && g[b][ch][row][col] < 0 ==>
              g'[b][ch][row][col] == out[b]
  {
    seq(s.n, b requires 0 <= b < s.n =>
      seq(s.c, ch requires 0 <= ch < s.c =>
        g[b][ch][row := g[b][ch][row][col := WhereUnset(g[b][ch][row][col], out[b])]]))
  }

  /**
    The buffer after the steps at the locations `ps`, in that order, starting
    from `g`; each step shows the oracle the buffer as the earlier steps left it.
   */
  function Run(g: Grid, s: Shape, d: Distribution, draw: Oracle, ps: seq<Pos>): (r: Grid)
    requires HasShape(g, s) && WithinGrid(ps, s) && OneDrawPerBatchElement(draw)
    ensures HasShape(r, s)
    decreases |ps|
  {
    if ps == [] then g
    else
      var prev := Run(g, s, d, draw, ps[..|ps| - 1]);
      var p := ps[|ps| - 1];
      StepAt(prev, s, p.row, p.col, draw(d, prev, p.row, p.col))
  }

  /** The buffer once the outer loop has completed `rows` rows. */
  function AfterRows(g: Grid, s: Shape, d: Distribution, draw: Oracle, rows: nat): (r: Grid)
    requires HasShape(g, s) && rows <= s.h && OneDrawPerBatchElement(draw)
    ensures HasShape(r, s)
    decreases rows, 0, 0
  {
    if rows == 0 then g else AfterColumns(g, s, d, draw, rows - 1, s.w)
  }

  /** The buffer once the inner loop has completed `cols` columns of row `row`. */
  function AfterColumns(g: Grid, s: Shape, d: Distribution, draw: Oracle, row: nat, cols: nat): (r: Grid)
    requires HasShape(g, s) && row < s.h && cols <= s.w && OneDrawPerBatchElement(draw)
    ensures HasShape(r, s)
    decreases row, 1, cols
  {
    if cols == 0 then AfterRows(g, s, d, draw, row)
    else
      var prev := AfterColumns(g, s, d, draw, row, cols - 1);
      StepAt(prev, s, row, cols - 1, draw(d, prev, row, cols - 1))
  }

  /** The loops compute the run over the raster order: after `cols` columns of row `row`, the run over the locations visited so far. */
  lemma {:induction false} AfterColumnsIsRun(g: Grid, s: Shape, d: Distribution, draw: Oracle, row: nat, cols: nat)
    requires HasShape(g, s) && row < s.h && cols <= s.w && OneDrawPerBatchElement(draw)
    ensures WithinGrid(RasterOrder(row, s.w) + RowPositions(row, cols), s)
    ensures AfterColumns(g, s, d, draw, row, cols) == Run(g, s, d, draw, RasterOrder(row, s.w) + RowPositions(row, cols))
    decreases row, 1, cols
  {
    if cols == 0 {
      RowStart(row, s.w);
      AfterRowsIsRun(g, s, d, draw, row);
    } else {
      AfterColumnsIsRun(g, s, d, draw, row, cols - 1);
      NextColumn(row, cols - 1, s.w);
      RunOneMore(g, s, d, draw, RasterOrder(row, s.w) + RowPositions(row, cols - 1), Pos(row, cols - 1));
    }
  }

  /** After `rows` rows, the loops have computed the run over the raster order of those rows. */
  lemma {:induction false} AfterRowsIsRun(g: Grid, s: Shape, d: Distribution, draw: Oracle, rows: nat)
    requires HasShape(g, s) && rows <= s.h && OneDrawPerBatchElement(draw)
    ensures WithinGrid(RasterOrder(rows, s.w), s)
    ensures AfterRows(g, s, d, draw, rows) == Run(g, s, d, draw, RasterOrder(rows, s.w))
    decreases rows, 0, 0
  {
    if rows > 0 {
      AfterColumnsIsRun(g, s, d, draw, rows - 1, s.w);
    }
  }

  /**
    While the loops run, every location not yet visited (a later row, or a
    later column of the current row) still holds its initial entries.
   */
  lemma PendingLocationsUntouched(g: Grid, s: Shape, d: Distribution, draw: Oracle, row: nat, cols: nat,
                                  b: nat, ch: nat, r: nat, c: nat)
    requires HasShape(g, s) && row < s.h && cols <= s.w && OneDrawPerBatchElement(draw)
    requires InBounds(s, b, ch, r, c) && (row < r || (row == r && cols <= c))
    ensures AfterColumns(g, s, d, draw, row, cols)[b][ch][r][c] == g[b][ch][r][c]
  {
    AfterColumnsIsRun(g, s, d, draw, row, cols);
    var ps := RasterOrder(row, s.w) + RowPositions(row, cols);
    RasterOrderCovers(row, s.w, Pos(r, c));
    assert Pos(r, c) !in RowPositions(row, cols);
    RunLeavesUnvisited(g, s, d, draw, ps, b, ch, r, c);
  }

  /** One more step extends the run by the conditional overwrite at that location. */
  lemma RunOneMore(g: Grid, s: Shape, d: Distribution, draw: Oracle, ps: seq<Pos>, p: Pos)
    requires HasShape(g, s) && WithinGrid(ps, s) && OneDrawPerBatchElement(draw)
    requires p.row < s.h && p.col < s.w
    ensures WithinGrid(ps + [p], s)
    ensures var prev := Run(g, s, d, draw, ps);
            Run(g, s, d, draw, ps + [p]) == StepAt(prev, s, p.row, p.col, draw(d, prev, p.row, p.col))
  {
    assert (ps + [p])[..|ps|] == ps;
  }

  /** An entry that is set (>= 0) is never changed by any sequence of steps. */
  lemma {:induction false} RunKeepsFixed(g: Grid, s: Shape, d: Distribution, draw: Oracle, ps: seq<Pos>,
                                         b: nat, ch: nat, row: nat, col: nat)
    requires HasShape(g, s) && WithinGrid(ps, s) && OneDrawPerBatchElement(draw)
    requires InBounds(s, b, ch, row, col) && g[b][ch][row][col] >= 0
    ensures Run(g, s, d, draw, ps)[b][ch][row][col] == g[b][ch][row][col]
    decreases |ps|
  {
    if ps != [] {
      RunKeepsFixed(g, s, d, draw, ps[..|ps| - 1], b, ch, row, col);
    }
  }

  /** Entries at a location no step has visited keep their initial value. */
  lemma {:induction false} RunLeavesUnvisited(g: Grid, s: Shape, d: Distribution, draw: Oracle, ps: seq<Pos>,
                                              b: nat, ch: nat, row: nat, col: nat)
    requires HasShape(g, s) && WithinGrid(ps, s) && OneDrawPerBatchElement(draw)
    requires InBounds(s, b, ch, row, col) && Pos(row, col) !in ps
    ensures Run(g, s, d, draw, ps)[b][ch][row][col] == g[b][ch][row][col]
    decreases |ps|
  {
    if ps != [] {
      var prefix := ps[..|ps| - 1];
      assert forall i :: 0 <= i < |prefix| ==> prefix[i] == ps[i];
      RunLeavesUnvisited(g, s, d, draw, prefix, b, ch, row, col);
    }
  }

  /** Once a location has been visited, none of its entries is negative. */
  lemma {:induction false} RunResolvesVisited(g: Grid, s: Shape, d: Distribution, draw: Oracle, ps: seq<Pos>,
                                              b: nat, ch: nat, row: nat, col: nat)
    requires HasShape(g, s) && WithinGrid(ps, s) && OneDrawPerBatchElement(draw)
    requires InBounds(s, b, ch, row, col) && Pos(row, col) in ps
    ensures Run(g, s, d, draw, ps)[b][ch][row][col] >= 0
    decreases |ps|
  {
    var prefix, last := ps[..|ps| - 1], ps[|ps| - 1];
    if last != Pos(row, col) {
      var i :| 0 <= i < |ps| && ps[i] == Pos(row, col);
      assert prefix[i] == Pos(row, col);
      RunResolvesVisited(g, s, d, draw, prefix, b, ch, row, col);
    }
  }

  /**
    An entry that starts unset is, after any sequence of steps, either still
    unset or a value of the distribution's support.
   */
  lemma {:induction false} RunUnsetOrDrawn(g: Grid, s: Shape, d: Distribution, draw: Oracle, ps: seq<Pos>,
                                           b: nat, ch: nat, row: nat, col: nat)
    requires HasShape(g, s) && WithinGrid(ps, s) && OneDrawPerBatchElement(draw) && DrawsInSupport(draw, d)
    requires InBounds(s, b, ch, row, col) && g[b][ch][row][col] < 0
    ensures var v := Run(g, s, d, draw, ps)[b][ch][row][col];
            v < 0 || InSupport(d, v)
    decreases |ps|
  {
    if ps != [] {
      RunUnsetOrDrawn(g, s, d, draw, ps[..|ps| - 1], b, ch, row, col);
    }
  }

  /** A visited entry that started unset holds a value of the distribution's support. */
  lemma RunDrawnInSupport(g: Grid, s: Shape, d: Distribution, draw: Oracle, ps: seq<Pos>,
                          b: nat, ch: nat, row: nat, col: nat)
    requires HasShape(g, s) && WithinGrid(ps, s) && OneDrawPerBatchElement(draw) && DrawsInSupport(draw, d)
    requires InBounds(s, b, ch, row, col) && g[b][ch][row][col] < 0 && Pos(row, col) in ps
    ensures var v := Run(g, s, d, draw, ps)[b][ch][row][col];
            v >= 0 && InSupport(d, v)
  {
    RunUnsetOrDrawn(g, s, d, draw, ps, b, ch, row, col);
    RunResolvesVisited(g, s, d, draw, ps, b, ch, row, col);
  }

  /**
    An entry that started unset ends up holding the value drawn for its batch
    element at the first visit of its location, when the oracle was shown the
    buffer as the earlier steps left it; the value is the same for every channel.
   */
  lemma {:induction false} RunValueAtVisit(g: Grid, s: Shape, d: Distribution, draw: Oracle, ps: seq<Pos>,
                                           i: nat, b: nat, ch: nat)
    requires HasShape(g, s) && WithinGrid(ps, s) && OneDrawPerBatchElement(draw)
    requires i < |ps| && Pos(ps[i].row, ps[i].col) !in ps[..i]
    requires InBounds(s, b, ch, ps[i].row, ps[i].col) && g[b][ch][ps[i].row][ps[i].col] < 0
    ensures var p := ps[i];
            var before := Run(g, s, d, draw, ps[..i]);
            Run(g, s, d, draw, ps)[b][ch][p.row][p.col] == draw(d, before, p.row, p.col)[b]
    decreases |ps|
  {
    var p := ps[i];
    var prefix := ps[..|ps| - 1];
    if i == |ps| - 1 {
      assert prefix == ps[..i];
      RunLeavesUnvisited(g, s, d, draw, prefix, b, ch, p.row, p.col);
    } else {
      assert prefix[i] == p && prefix[..i] == ps[..i];
      RunValueAtVisit(g, s, d, draw, prefix, i, b, ch);
    }
  }

  /** After the raster pass over the whole grid, no entry is negative. */
  lemma RasterPassResolvesAll(g: Grid, s: Shape, d: Distribution, draw: Oracle)
    requires HasShape(g, s) && OneDrawPerBatchElement(draw)
    ensures FullyResolved(Run(g, s, d, draw, RasterOrder(s.h, s.w)), s)
  {
    forall b, ch, row, col | InBounds(s, b, ch, row, col)
      ensures Run(g, s, d, draw, RasterOrder(s.h, s.w))[b][ch][row][col] >= 0
    {
      RasterOrderCovers(s.h, s.w, Pos(row, col));
      RunResolvesVisited(g, s, d, draw, RasterOrder(s.h, s.w), b, ch, row, col);
    }
  }

  /** The raster pass leaves every entry that started set (>= 0) as it was. */
  lemma RasterPassKeepsFixed(g: Grid, s: Shape, d: Distribution, draw: Oracle)
    requires HasShape(g, s) && OneDrawPerBatchElement(draw)
    ensures KeepsSetEntries(g, Run(g, s, d, draw, RasterOrder(s.h, s.w)), s)
  {
    forall b, ch, row, col | InBounds(s, b, ch, row, col) && g[b][ch][row][col] >= 0
      ensures Run(g, s, d, draw, RasterOrder(s.h, s.w))[b][ch][row][col] == g[b][ch][row][col]
    {
      RunKeepsFixed(g, s, d, draw, RasterOrder(s.h, s.w), b, ch, row, col);
    }
  }

  /** If the oracle respects the support, every entry that started unset ends in the support. */
  lemma RasterPassInSupport(g: Grid, s: Shape, d: Distribution, draw: Oracle)
    requires HasShape(g, s) && OneDrawPerBatchElement(draw)
    ensures DrawsInSupport(draw, d) ==> UnsetEntriesDrawnFrom(g, Run(g, s, d, draw, RasterOrder(s.h, s.w)), s, d)
  {
    if DrawsInSupport(draw, d) {
      forall b, ch, row, col | InBounds(s, b, ch, row, col) && g[b][ch][row][col] < 0
        ensures InSupport(d, Run(g, s, d, draw, RasterOrder(s.h, s.w))[b][ch][row][col])
      {
        RasterOrderCovers(s.h, s.w, Pos(row, col));
        RunDrawnInSupport(g, s, d, draw, RasterOrder(s.h, s.w), b, ch, row, col);
      }
    }
  }

  /**
    After the raster pass, an entry that started unset holds the value drawn
    for its batch element at step row·w + col, when the oracle was shown the
    buffer with exactly the locations before (row, col) in raster order visited.
   */
  lemma RasterPassValue(g: Grid, s: Shape, d: Distribution, draw: Oracle, b: nat, ch: nat, row: nat, col: nat)
    requires HasShape(g, s) && OneDrawPerBatchElement(draw)
    requires InBounds(s, b, ch, row, col) && g[b][ch][row][col] < 0
    ensures row * s.w + col < |RasterOrder(s.h, s.w)|
    ensures var ps := RasterOrder(s.h, s.w);
            var before := Run(g, s, d, draw, ps[..row * s.w + col]);
            Run(g, s, d, draw, ps)[b][ch][row][col] == draw(d, before, row, col)[b]
  {
    var ps := RasterOrder(s.h, s.w);
    var k := row * s.w + col;
    RasterOrderAt(s.h, s.w, row, col);
    RasterOrderIsRowMajor(s.h, s.w);
    assert Pos(row, col) !in ps[..k] by {
      assert forall j :: 0 <= j < k ==> ps[..k][j] == ps[j] && ps[j] != ps[k];
    }
    RunValueAtVisit(g, s, d, draw, ps, k, b, ch);
  }

  /**
    The support hypothesis can be met: an oracle that always draws 0 yields
    one value per batch element, each in the support of the distribution
    chosen for any K.
   */
  lemma ZeroDrawsInSupport(k: nat)
    ensures var draw: Oracle := (d, g: Grid, row, col) => seq(|g|, _ => 0);
            OneDrawPerBatchElement(draw) && DrawsInSupport(draw, ChooseDistribution(k))
  {
  }

  /** The oracle always yields `v`, e.g. a Bernoulli draw with probability 0 or 1. */
  ghost predicate AlwaysDraws(draw: Oracle, v: nat) {
    forall d, g, row, col, i :: 0 <= i < |draw(d, g, row, col)| ==> draw(d, g, row, col)[i] == v
  }

  /** With an oracle that always yields `v`, the raster pass sets every unset entry to `v` and keeps the rest. */
  lemma ConstantDrawResolves(g: Grid, s: Shape, d: Distribution, draw: Oracle, v: nat)
    requires HasShape(g, s) && OneDrawPerBatchElement(draw) && AlwaysDraws(draw, v)
    ensures forall b, ch, row, col :: InBounds(s, b, ch, row, col) ==>
              Run(g, s, d, draw, RasterOrder(s.h, s.w))[b][ch][row][col] == WhereUnset(g[b][ch][row][col], v)
  {
    forall b, ch, row, col | InBounds(s, b, ch, row, col)
      ensures Run(g, s, d, draw, RasterOrder(s.h, s.w))[b][ch][row][col] == WhereUnset(g[b][ch][row][col], v)
    {
      if g[b][ch][row][col] < 0 {
        RasterPassValue(g, s, d, draw, b, ch, row, col);
      } else {
        RunKeepsFixed(g, s, d, draw, RasterOrder(s.h, s.w), b, ch, row, col);
      }
    }
  }

  /** An unconditional 1×1×2×2 sample from a model that always outputs probability 1 is all ones. */
  lemma AllOnesScenario(draw: Oracle)
    requires OneDrawPerBatchElement(draw) && AlwaysDraws(draw, 1)
    ensures var s := Shape(1, 1, 2, 2);
            Run(Filled(s, Unset), s, Bernoulli, draw, RasterOrder(2, 2)) == Filled(s, 1)
  {
    var s := Shape(1, 1, 2, 2);
    ConstantDrawResolves(Filled(s, Unset), s, Bernoulli, draw, 1);
    GridExtensionality(Run(Filled(s, Unset), s, Bernoulli, draw, RasterOrder(2, 2)), Filled(s, 1), s);
  }

  /** Conditioning on [[[[-1, 5], [-1, -1]]]] with probability 0 everywhere keeps the 5 and sets the rest to 0. */
  lemma ConditionedScenario(draw: Oracle)
    requires OneDrawPerBatchElement(draw) && AlwaysDraws(draw, 0)
    ensures var s := Shape(1, 1, 2, 2);
            HasShape([[[[-1, 5], [-1, -1]]]], s) &&
            Run([[[[-1, 5], [-1, -1]]]], s, Bernoulli, draw, RasterOrder(2, 2)) == [[[[0, 5], [0, 0]]]]
  {
    var s := Shape(1, 1, 2, 2);
    var g: Grid := [[[[-1, 5], [-1, -1]]]];
    var want: Grid := [[[[0, 5], [0, 0]]]];
    assert HasShape(g, s) && HasShape(want, s);
    ConstantDrawResolves(g, s, Bernoulli, draw, 0);
    GridExtensionality(Run(g, s, Bernoulli, draw, RasterOrder(2, 2)), want, s);
  }

  /** The caller's tensor, if any, as a value. */
  function SnapshotOf(t: Option<array4<int>>): (r: Option<Grid>)
    reads if t.Some? then {t.value} else {}
    ensures r.Some? <==> t.Some?
    ensures t.Some? ==> HasShape(r.value, ShapeOf(t.value))
  {
    if t.Some? then Some(Snapshot(t.value)) else None
  }

  /**
    `_get_conditioned_on`: a fresh buffer filled with `Unset`, or a fresh copy
    of the caller's tensor. Only supplying both is rejected by the assertion;
    supplying neither reaches the fill with no shape.
   */
  method GetConditionedOn(outShape: Option<Shape>, conditionedOn: Option<array4<int>>)
    returns (r: Result<array4<int>, Error>)
    ensures r.Failure? <==> Initial(outShape, SnapshotOf(conditionedOn)).Failure?
    ensures r.Failure? ==> r.error == Initial(outShape, SnapshotOf(conditionedOn)).error
    ensures r.Success? ==> fresh(r.value) && Snapshot(r.value) == Initial(outShape, SnapshotOf(conditionedOn)).value
    ensures r.Success? ==> ShapeOf(r.value) == if outShape.Some? then outShape.value else ShapeOf(conditionedOn.value)
  {
    if outShape.Some? && conditionedOn.Some? {
      return Failure(AssertionFailed);
    }
    if conditionedOn.None? {
      if outShape.None? {
        return Failure(MissingShape);
      }
      var s := outShape.value;
      var buf := new int[s.n, s.c, s.h, s.w]((b, ch, row, col) => Unset);
      GridExtensionality(Snapshot(buf), Filled(s, Unset), s);
      return Success(buf);
    } else {
      var src := conditionedOn.value;
      var buf := new int[src.Length0, src.Length1, src.Length2, src.Length3](
        (b, ch, row, col) requires InBounds(ShapeOf(src), b, ch, row, col) reads src => src[b, ch, row, col]);
      GridExtensionality(Snapshot(buf), Snapshot(src), ShapeOf(src));
      return Success(buf);
    }
  }

  /**
    The slice assignment of one step: every entry of location (row, col) that
    is unset takes the value drawn for its batch element; nothing else changes.
   */
  method OverwriteUnset(buf: array4<int>, row: nat, col: nat, out: seq<nat>)
    requires row < buf.Length2 && col < buf.Length3 && |out| == buf.Length0
    modifies buf
    ensures Snapshot(buf) == StepAt(old(Snapshot(buf)), ShapeOf(buf), row, col, out)
  {
    ghost var before := Snapshot(buf);
    forall b, ch | 0 <= b < buf.Length0 && 0 <= ch < buf.Length1 {
      buf[b, ch, row, col] := WhereUnset(buf[b, ch, row, col], out[b]);
    }
    ghost var after := StepAt(before, ShapeOf(buf), row, col, out);
    forall b, ch, r, c | InBounds(ShapeOf(buf), b, ch, r, c)
      ensures buf[b, ch, r, c] == after[b][ch][r][c]
    {
    }
    GridExtensionality(Snapshot(buf), after, ShapeOf(buf));
  }

  /**
    One pass of the inner loop body: the oracle is shown the current buffer,
    draws one value per batch element from the distribution chosen from K,
    and the unset entries of (row, col) take those values.
   */
  method VisitLocation(buf: array4<int>, row: nat, col: nat, k: nat, draw: Oracle)
    requires OneDrawPerBatchElement(draw)
    requires row < buf.Length2 && col < buf.Length3
    modifies buf
    ensures var before := old(Snapshot(buf));
            Snapshot(buf) == StepAt(before, ShapeOf(buf), row, col, draw(ChooseDistribution(k), before, row, col))
  {
    var distribution := ChooseDistribution(k);
    var out := draw(distribution, Snapshot(buf), row, col);
    OverwriteUnset(buf, row, col, out);
  }

  /**
    `sample`: builds the initial buffer, then visits every (row, column) in
    raster order; at each it asks the oracle for one value per batch element
    and writes it into the entries of that location that are still unset, for
    every channel. The caller's tensor is never written: the method modifies
    nothing that existed before the call.
   */
  method Sample(outShape: Option<Shape>, conditionedOn: Option<array4<int>>, k: nat, draw: Oracle)
    returns (r: Result<array4<int>, Error>)
    requires OneDrawPerBatchElement(draw)
    ensures r.Failure? <==> outShape.Some? == conditionedOn.Some?
    ensures outShape.Some? && conditionedOn.Some? ==> r == Failure(AssertionFailed)
    ensures outShape.None? && conditionedOn.None? ==> r == Failure(MissingShape)
    ensures r.Success? && outShape.Some? ==> ShapeOf(r.value) == outShape.value
    ensures r.Success? && conditionedOn.Some? ==>
              r.value != conditionedOn.value && ShapeOf(r.value) == ShapeOf(conditionedOn.value)
    ensures r.Success? ==>
              var s := ShapeOf(r.value);
              var g0 := Initial(outShape, SnapshotOf(conditionedOn)).value;
              HasShape(g0, s) &&
              Snapshot(r.value) == Run(g0, s, ChooseDistribution(k), draw, RasterOrder(s.h, s.w))
    ensures r.Success? ==> FullyResolved(Snapshot(r.value), ShapeOf(r.value))
    ensures r.Success? && conditionedOn.Some? ==>
              KeepsSetEntries(Snapshot(conditionedOn.value), Snapshot(r.value), ShapeOf(r.value))
    ensures r.Success? && DrawsInSupport(draw, ChooseDistribution(k)) ==>
              UnsetEntriesDrawnFrom(Initial(outShape, SnapshotOf(conditionedOn)).value, Snapshot(r.value),
                                    ShapeOf(r.value), ChooseDistribution(k))
  {
    var init := GetConditionedOn(outShape, conditionedOn);
    if init.Failure? {
      return Failure(init.error);
    }
    var buf := init.value;
    assert conditionedOn.Some? ==> buf != conditionedOn.value;
    var h, w := buf.Length2, buf.Length3;
    ghost var g0 := Snapshot(buf);
    ghost var s := ShapeOf(buf);
    ghost var d := ChooseDistribution(k);
    for row := 0 to h
      invariant Snapshot(buf) == AfterRows(g0, s, d, draw, row)
    {
      for column := 0 to w
        invariant Snapshot(buf) == AfterColumns(g0, s, d, draw, row, column)
      {
        VisitLocation(buf, row, column, k, draw);
      }
    }
    AfterRowsIsRun(g0, s, d, draw, h);
    assert g0 == Initial(outShape, SnapshotOf(conditionedOn)).value;
    RasterPassResolvesAll(g0, s, d, draw);
    RasterPassKeepsFixed(g0, s, d, draw);
    RasterPassInSupport(g0, s, d, draw);
    return Success(buf);
  }
}
