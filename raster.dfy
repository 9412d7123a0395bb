/**
  The order in which the sampler visits the spatial grid: `for row in
  range(h)` around `for column in range(w)`, i.e. row-major (raster) order.
 */
module Raster {

  /** A spatial location of the grid. */
  datatype Pos = Pos(row: nat, col: nat)

  /** `p` comes strictly before `q` in row-major order. */
  predicate Before(p: Pos, q: Pos) {
    p.row < q.row || (p.row == q.row && p.col < q.col)
  }

  /** The locations the inner loop visits in row `row` when it runs `cols` times. */
  function RowPositions(row: nat, cols: nat): (ps: seq<Pos>)
    ensures |ps| == cols
    ensures forall i :: 0 <= i < cols ==> ps[i] == Pos(row, i)
  {
    if cols == 0 then [] else RowPositions(row, cols - 1) + [Pos(row, cols - 1)]
  }

  /** The locations the two loops visit, in visiting order, over an `h`×`w` grid. */
  function RasterOrder(h: nat, w: nat): (ps: seq<Pos>)
    ensures forall i :: 0 <= i < |ps| ==> ps[i].row < h && ps[i].col < w
  {
    if h == 0 then [] else RasterOrder(h - 1, w) + RowPositions(h - 1, w)
  }

  /** Before the inner loop runs, the locations visited are those of the earlier rows. */
  lemma RowStart(row: nat, w: nat)
    ensures RasterOrder(row, w) + RowPositions(row, 0) == RasterOrder(row, w)
  {
  }

  /** One more run of the inner loop visits (row, col) after everything visited so far. */
  lemma NextColumn(row: nat, col: nat, w: nat)
    ensures RasterOrder(row, w) + RowPositions(row, col + 1) ==
            (RasterOrder(row, w) + RowPositions(row, col)) + [Pos(row, col)]
  {
  }

  /** The loops take exactly h·w steps. */
  lemma {:induction false} RasterOrderLength(h: nat, w: nat)
    ensures |RasterOrder(h, w)| == h * w
  {
    if h > 0 {
      RasterOrderLength(h - 1, w);
      calc {
        |RasterOrder(h, w)|;
        (h - 1) * w + w;
        h * w;
      }
    }
  }

  /** Every location of the grid is visited, and nothing outside it. */
  lemma {:induction false} RasterOrderCovers(h: nat, w: nat, p: Pos)
    ensures p in RasterOrder(h, w) <==> p.row < h && p.col < w
  {
    if h > 0 {
      RasterOrderCovers(h - 1, w, p);
      var last := RowPositions(h - 1, w);
      assert p in RasterOrder(h, w) <==> p in RasterOrder(h - 1, w) || p in last;
      if p.row == h - 1 && p.col < w {
        assert last[p.col] == p;
      }
    }
  }

  /** Each step comes strictly after the previous ones in row-major order, so no location is visited twice. */
  lemma {:induction false} RasterOrderIsRowMajor(h: nat, w: nat)
    ensures forall i, j :: 0 <= i < j < |RasterOrder(h, w)| ==> Before(RasterOrder(h, w)[i], RasterOrder(h, w)[j])
    ensures forall i, j :: 0 <= i < |RasterOrder(h, w)| && 0 <= j < |RasterOrder(h, w)| && i != j ==>
              RasterOrder(h, w)[i] != RasterOrder(h, w)[j]
  {
    if h > 0 {
      RasterOrderIsRowMajor(h - 1, w);
      var prefix, last := RasterOrder(h - 1, w), RowPositions(h - 1, w);
      var ps := RasterOrder(h, w);
      assert ps == prefix + last;
      forall i, j | 0 <= i < j < |ps|
        ensures Before(ps[i], ps[j])
      {
        if j < |prefix| {
          assert ps[i] == prefix[i] && ps[j] == prefix[j];
        } else if i < |prefix| {
          assert ps[i] == prefix[i] && ps[j] == last[j - |prefix|];
        } else {
          assert ps[i] == last[i - |prefix|] && ps[j] == last[j - |prefix|];
        }
      }
      forall i, j | 0 <= i < |ps| && 0 <= j < |ps| && i != j
        ensures ps[i] != ps[j]
      {
        if i < j {
          assert Before(ps[i], ps[j]);
        } else {
          assert Before(ps[j], ps[i]);
        }
      }
    }
  }

  /** The step that visits location (row, col) is step number row·w + col. */
  lemma {:induction false} RasterOrderAt(h: nat, w: nat, row: nat, col: nat)
    requires row < h && col < w
    ensures row * w + col < |RasterOrder(h, w)|
    ensures RasterOrder(h, w)[row * w + col] == Pos(row, col)
  {
    RasterOrderLength(h - 1, w);
    if row < h - 1 {
      RasterOrderAt(h - 1, w, row, col);
    } else {
      assert row * w == |RasterOrder(h - 1, w)|;
    }
  }
}
