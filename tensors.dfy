/**
  The N×C×H×W tensor the sampler fills: as a value (nested sequences, batch
  first, then channel, row and column) and as the in-place buffer (a
  four-dimensional array) that holds one.
 */
module Tensors {

  /** Dimensions in NCHW order: batch, channels, height, width. */
  datatype Shape = Shape(n: nat, c: nat, h: nat, w: nat)

  /** A tensor value: `g[b][ch][row][col]`. */
  type Grid = seq<seq<seq<seq<int>>>>

  /** The value an unconditional sample starts from: any negative entry means "not sampled yet". */
  const Unset: int := -1

  predicate InBounds(s: Shape, b: int, ch: int, row: int, col: int) {
    0 <= b < s.n && 0 <= ch < s.c && 0 <= row < s.h && 0 <= col < s.w
  }

  /** `g` is a rectangular tensor of shape `s`. */
  ghost predicate HasShape(g: Grid, s: Shape) {
    && |g| == s.n
    && (forall b :: 0 <= b < |g| ==> |g[b]| == s.c)
    && (forall b, ch :: 0 <= b < |g| && 0 <= ch < |g[b]| ==> |g[b][ch]| == s.h)
    && (forall b, ch, row :: 0 <= b < |g| && 0 <= ch < |g[b]| && 0 <= row < |g[b][ch]| ==>
          |g[b][ch][row]| == s.w)
  }

  /** The tensor of shape `s` with every entry equal to `v`. */
  function Filled(s: Shape, v: int): (g: Grid)
    ensures HasShape(g, s)
    ensures forall b, ch, row, col :: InBounds(s, b, ch, row, col) ==> g[b][ch][row][col] == v
  {
    seq(s.n, _ => seq(s.c, _ => seq(s.h, _ => seq(s.w, _ => v))))
  }

  /** Two tensors of the same shape that agree entry by entry are equal. */
  lemma GridExtensionality(g1: Grid, g2: Grid, s: Shape)
    requires HasShape(g1, s) && HasShape(g2, s)
    requires forall b, ch, row, col :: InBounds(s, b, ch, row, col) ==>
               g1[b][ch][row][col] == g2[b][ch][row][col]
    ensures g1 == g2
  {
    forall b | 0 <= b < s.n
      ensures g1[b] == g2[b]
    {
      forall ch | 0 <= ch < s.c
        ensures g1[b][ch] == g2[b][ch]
      {
        forall row | 0 <= row < s.h
          ensures g1[b][ch][row] == g2[b][ch][row]
        {
          assert forall col :: 0 <= col < s.w ==> InBounds(s, b, ch, row, col);
        }
      }
    }
  }

  /** The shape of a buffer (array lengths never change). */
  function ShapeOf(a: array4<int>): Shape {
    Shape(a.Length0, a.Length1, a.Length2, a.Length3)
  }

  /** The current contents of a buffer, as a tensor value. */
  function Snapshot(a: array4<int>): (g: Grid)
    reads a
    ensures HasShape(g, ShapeOf(a))
    ensures forall b, ch, row, col :: InBounds(ShapeOf(a), b, ch, row, col) ==>
              g[b][ch][row][col] == a[b, ch, row, col]
  {
    seq(a.Length0, b requires 0 <= b < a.Length0 reads a =>
      seq(a.Length1, ch requires 0 <= ch < a.Length1 reads a =>
        seq(a.Length2, row requires 0 <= row < a.Length2 reads a =>
          seq(a.Length3, col requires 0 <= col < a.Length3 reads a => a[b, ch, row, col]))))
  }
}
