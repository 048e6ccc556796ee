/**
 Anchor sampling of the particle-text build pass.

 The rasterised text arrives as an RGBA byte buffer of `4 * W * H` bytes. The
 build pass walks a grid of step `gap` in row-major order (y outer, x inner)
 and keeps every grid cell whose alpha byte is strictly above 128. `RowFrom`
 and `GridFrom` are the two nested loops written as recursion; the lemmas
 below characterise what they produce: exactly the opaque grid cells, in
 strictly increasing row-major order, at most ceil(W/gap) * ceil(H/gap) of them.
 */
module Sampling {

  /** One byte of the canvas image data (a clamped 8-bit value). */
  type Byte = b: int | 0 <= b < 256

  /** A cell must be strictly more opaque than this to become an anchor. */
  const ALPHA_THRESHOLD: int := 128

  /** A grid cell, in canvas pixel coordinates. */
  datatype Cell = Cell(x: int, y: int)

  /** The buffer holds four bytes (R, G, B, A) per pixel of a W by H canvas. */
  predicate WellSized(data: seq<Byte>, W: nat, H: nat) {
    |data| == 4 * W * H
  }

  predicate OnCanvas(W: nat, H: nat, x: int, y: int) {
    0 <= x < W && 0 <= y < H
  }

  lemma PixelInRange(W: nat, H: nat, x: int, y: int)
    requires OnCanvas(W, H, x, y)
    ensures 0 <= y * W + x < W * H
  {
    assert y * W <= (H - 1) * W;
    assert (H - 1) * W + W == H * W;
  }

  /** Position of the alpha byte of pixel (x, y) in the row-major buffer. */
  function AlphaIndex(W: nat, H: nat, x: int, y: int): (i: nat)
    requires OnCanvas(W, H, x, y)
    ensures i < 4 * W * H
    ensures i % 4 == 3
  {
    PixelInRange(W, H, x, y);
    (y * W + x) * 4 + 3
  }

  /** Distinct pixels read distinct alpha bytes. */
  lemma AlphaIndexInjective(W: nat, H: nat, x1: int, y1: int, x2: int, y2: int)
    requires OnCanvas(W, H, x1, y1) && OnCanvas(W, H, x2, y2)
    requires AlphaIndex(W, H, x1, y1) == AlphaIndex(W, H, x2, y2)
    ensures x1 == x2 && y1 == y2
  {
    var p1, p2 := y1 * W + x1, y2 * W + x2;
    assert p1 * 4 + 3 == p2 * 4 + 3;
    if y1 < y2 {
      RowsApart(W, y1, y2);
    } else if y2 < y1 {
      RowsApart(W, y2, y1);
    }
  }

  function Alpha(data: seq<Byte>, W: nat, H: nat, x: int, y: int): Byte
    requires WellSized(data, W, H) && OnCanvas(W, H, x, y)
  {
    data[AlphaIndex(W, H, x, y)]
  }

  predicate Opaque(data: seq<Byte>, W: nat, H: nat, x: int, y: int)
    requires WellSized(data, W, H) && OnCanvas(W, H, x, y)
  {
    Alpha(data, W, H, x, y) > ALPHA_THRESHOLD
  }

  /** The cells the build pass must turn into particles. */
  predicate Selected(data: seq<Byte>, W: nat, H: nat, gap: nat, c: Cell)
    requires WellSized(data, W, H) && gap > 0
  {
    && OnCanvas(W, H, c.x, c.y)
    && c.x % gap == 0 && c.y % gap == 0
    && Opaque(data, W, H, c.x, c.y)
  }

  /** The inner loop: row `y`, columns x, x + gap, ... below W. */
  function RowFrom(data: seq<Byte>, W: nat, H: nat, gap: nat, y: int, x: int): seq<Cell>
    requires WellSized(data, W, H) && gap > 0 && 0 <= y < H && 0 <= x
    decreases W - x
  {
    if x >= W then []
    else
      (if Opaque(data, W, H, x, y) then [Cell(x, y)] else [])
      + RowFrom(data, W, H, gap, y, x + gap)
  }

  /** The outer loop: rows y, y + gap, ... below H. */
  function GridFrom(data: seq<Byte>, W: nat, H: nat, gap: nat, y: int): seq<Cell>
    requires WellSized(data, W, H) && gap > 0 && 0 <= y
    decreases H - y
  {
    if y >= H then []
    else RowFrom(data, W, H, gap, y, 0) + GridFrom(data, W, H, gap, y + gap)
  }

  /** The anchors of one build pass, in the order they are emitted. */
  function Anchors(data: seq<Byte>, W: nat, H: nat, gap: nat): seq<Cell>
    requires WellSized(data, W, H) && gap > 0
  {
    GridFrom(data, W, H, gap, 0)
  }

  /** The set of grid cells above the threshold, independently of any scan order. */
  ghost function SelectedCells(data: seq<Byte>, W: nat, H: nat, gap: nat): set<Cell>
    requires WellSized(data, W, H) && gap > 0
  {
    set x, y | 0 <= x < W && 0 <= y < H && Selected(data, W, H, gap, Cell(x, y)) :: Cell(x, y)
  }

  /** Row-major order: earlier row first, then smaller column. */
  predicate RowMajorBefore(a: Cell, b: Cell) {
    a.y < b.y || (a.y == b.y && a.x < b.x)
  }

  predicate StrictlyRowMajor(s: seq<Cell>) {
    forall i, j :: 0 <= i < j < |s| ==> RowMajorBefore(s[i], s[j])
  }

  /** The number of iterations of `for (v = from; v < bound; v += step)`. */
  function Steps(from: int, bound: int, step: nat): nat
    requires step > 0
    decreases bound - from
  {
    if from >= bound then 0 else 1 + Steps(from + step, bound, step)
  }

  // ---------------------------------------------------------------------
  // Arithmetic helpers

  /** Row `hi` of a W-wide image starts at least a full row after row `lo` does. */
  lemma {:induction false} RowsApart(W: int, lo: int, hi: int)
    requires W >= 0 && lo < hi
    ensures lo * W + W <= hi * W
    decreases hi - lo
  {
    if lo + 1 < hi {
      RowsApart(W, lo, hi - 1);
    }
    assert (hi - 1) * W + W == hi * W;
  }

  lemma MulMonotone(g: int, p: int, q: int)
    requires g > 0 && p <= q
    ensures g * p <= g * q
  {
    if p < q {
      RowsApart(g, p, q);
    }
  }

  lemma MulSucc(c: int, a: int)
    ensures c * (a + 1) == c + c * a
  {
  }

  lemma ModAddStep(x: int, g: int)
    requires g > 0
    ensures (x + g) % g == x % g
  {
    var q, r := x / g, x % g;
    assert x == g * q + r;
    assert x + g == g * (q + 1) + r;
    DivModUnique(x + g, g, q + 1, r);
  }

  lemma DivModUnique(n: int, g: int, q: int, r: int)
    requires g > 0 && 0 <= r < g && n == g * q + r
    ensures n / g == q && n % g == r
  {
    var q', r' := n / g, n % g;
    assert n == g * q' + r';
    if q' < q {
      MulMonotone(g, q' + 1, q);
      assert false;
    } else if q < q' {
      MulMonotone(g, q + 1, q');
      assert false;
    }
  }

  /** Between two multiples of `g` there is at least a distance of `g`. */
  lemma NextMultiple(a: int, b: int, g: int)
    requires g > 0 && a % g == 0 && b % g == 0 && a < b
    ensures a + g <= b
  {
    var qa, qb := a / g, b / g;
    assert a == g * qa;
    assert b == g * qb;
    if qb <= qa {
      MulMonotone(g, qb, qa);
      assert false;
    }
    MulMonotone(g, qa + 1, qb);
  }

  // ---------------------------------------------------------------------
  // What the scan emits

  lemma {:induction false} RowFromMembers(data: seq<Byte>, W: nat, H: nat, gap: nat, y: int, x: int)
    requires WellSized(data, W, H) && gap > 0 && 0 <= y < H && y % gap == 0
    requires 0 <= x && x % gap == 0
    ensures forall c :: c in RowFrom(data, W, H, gap, y, x) <==>
      (Selected(data, W, H, gap, c) && c.y == y && x <= c.x)
    decreases W - x
  {
    if x < W {
      ModAddStep(x, gap);
      RowFromMembers(data, W, H, gap, y, x + gap);
      forall c | Selected(data, W, H, gap, c) && c.y == y && x <= c.x
        ensures c in RowFrom(data, W, H, gap, y, x)
      {
        if c.x != x {
          NextMultiple(x, c.x, gap);
        }
      }
    }
  }

  lemma {:induction false} GridFromMembers(data: seq<Byte>, W: nat, H: nat, gap: nat, y: int)
    requires WellSized(data, W, H) && gap > 0 && 0 <= y && y % gap == 0
    ensures forall c :: c in GridFrom(data, W, H, gap, y) <==>
      (Selected(data, W, H, gap, c) && y <= c.y)
    decreases H - y
  {
    if y < H {
      ModAddStep(y, gap);
      RowFromMembers(data, W, H, gap, y, 0);
      GridFromMembers(data, W, H, gap, y + gap);
      var row, rest := RowFrom(data, W, H, gap, y, 0), GridFrom(data, W, H, gap, y + gap);
      assert GridFrom(data, W, H, gap, y) == row + rest;
      forall c
        ensures c in row + rest <==> (Selected(data, W, H, gap, c) && y <= c.y)
      {
        if Selected(data, W, H, gap, c) && y < c.y {
          NextMultiple(y, c.y, gap);
        }
      }
    }
  }

  lemma ConcatRowMajor(a: seq<Cell>, b: seq<Cell>)
    requires StrictlyRowMajor(a) && StrictlyRowMajor(b)
    requires forall u, v :: u in a && v in b ==> RowMajorBefore(u, v)
    ensures StrictlyRowMajor(a + b)
  {
    forall i, j | 0 <= i < j < |a + b|
      ensures RowMajorBefore((a + b)[i], (a + b)[j])
    {
      if i < |a| && |a| <= j {
        assert (a + b)[i] in a;
        assert (a + b)[j] in b;
      }
    }
  }

  lemma {:induction false} RowFromOrdered(data: seq<Byte>, W: nat, H: nat, gap: nat, y: int, x: int)
    requires WellSized(data, W, H) && gap > 0 && 0 <= y < H && y % gap == 0
    requires 0 <= x && x % gap == 0
    ensures StrictlyRowMajor(RowFrom(data, W, H, gap, y, x))
    decreases W - x
  {
    if x < W {
      ModAddStep(x, gap);
      RowFromOrdered(data, W, H, gap, y, x + gap);
      RowFromMembers(data, W, H, gap, y, x + gap);
      var head := if Opaque(data, W, H, x, y) then [Cell(x, y)] else [];
      ConcatRowMajor(head, RowFrom(data, W, H, gap, y, x + gap));
    }
  }

  lemma {:induction false} GridFromOrdered(data: seq<Byte>, W: nat, H: nat, gap: nat, y: int)
    requires WellSized(data, W, H) && gap > 0 && 0 <= y && y % gap == 0
    ensures StrictlyRowMajor(GridFrom(data, W, H, gap, y))
    decreases H - y
  {
    if y < H {
      ModAddStep(y, gap);
      RowFromOrdered(data, W, H, gap, y, 0);
      RowFromMembers(data, W, H, gap, y, 0);
      GridFromOrdered(data, W, H, gap, y + gap);
      GridFromMembers(data, W, H, gap, y + gap);
      ConcatRowMajor(RowFrom(data, W, H, gap, y, 0), GridFrom(data, W, H, gap, y + gap));
    }
  }

  /**
   Soundness and completeness of the scan: a cell is an anchor exactly when it
   lies on the canvas, on the grid, and its alpha byte exceeds 128.
   */
  lemma AnchorsAreSelectedCells(data: seq<Byte>, W: nat, H: nat, gap: nat)
    requires WellSized(data, W, H) && gap > 0
    ensures forall c :: c in Anchors(data, W, H, gap) <==> Selected(data, W, H, gap, c)
  {
    GridFromMembers(data, W, H, gap, 0);
  }

  /** Every anchor satisfies the grid and threshold conditions individually. */
  lemma AnchorsInRange(data: seq<Byte>, W: nat, H: nat, gap: nat)
    requires WellSized(data, W, H) && gap > 0
    ensures forall c :: c in Anchors(data, W, H, gap) ==>
      && 0 <= c.x < W && 0 <= c.y < H
      && c.x % gap == 0 && c.y % gap == 0
      && AlphaIndex(W, H, c.x, c.y) < |data|
      && data[AlphaIndex(W, H, c.x, c.y)] > ALPHA_THRESHOLD
  {
    AnchorsAreSelectedCells(data, W, H, gap);
  }

  /** A cell whose alpha is exactly the threshold is never an anchor. */
  lemma ThresholdIsStrict(data: seq<Byte>, W: nat, H: nat, gap: nat, x: int, y: int)
    requires WellSized(data, W, H) && gap > 0 && OnCanvas(W, H, x, y)
    requires Alpha(data, W, H, x, y) == ALPHA_THRESHOLD
    ensures Cell(x, y) !in Anchors(data, W, H, gap)
  {
    AnchorsAreSelectedCells(data, W, H, gap);
  }

  /** Anchors come out in strictly increasing row-major order. */
  lemma AnchorsOrdered(data: seq<Byte>, W: nat, H: nat, gap: nat)
    requires WellSized(data, W, H) && gap > 0
    ensures StrictlyRowMajor(Anchors(data, W, H, gap))
    ensures forall i, j :: 0 <= i < j < |Anchors(data, W, H, gap)| ==>
      Anchors(data, W, H, gap)[i] != Anchors(data, W, H, gap)[j]
  {
    GridFromOrdered(data, W, H, gap, 0);
  }

  // ---------------------------------------------------------------------
  // How many anchors

  lemma {:induction false} DistinctCount(s: seq<Cell>)
    requires forall i, j :: 0 <= i < j < |s| ==> s[i] != s[j]
    ensures |set c | c in s| == |s|
  {
    if s != [] {
      var tail := s[1..];
      DistinctCount(tail);
      assert (set c | c in s) == {s[0]} + (set c | c in tail);
      assert s[0] !in tail;
    }
  }

  /** The particle count is the number of grid cells above the threshold. */
  lemma AnchorCount(data: seq<Byte>, W: nat, H: nat, gap: nat)
    requires WellSized(data, W, H) && gap > 0
    ensures |Anchors(data, W, H, gap)| == |SelectedCells(data, W, H, gap)|
  {
    var s := Anchors(data, W, H, gap);
    AnchorsAreSelectedCells(data, W, H, gap);
    AnchorsOrdered(data, W, H, gap);
    DistinctCount(s);
    forall c | Selected(data, W, H, gap, c)
      ensures c in SelectedCells(data, W, H, gap)
    {
      assert c == Cell(c.x, c.y);
    }
    assert (set c | c in s) == SelectedCells(data, W, H, gap);
  }

  lemma {:induction false} RowFromSize(data: seq<Byte>, W: nat, H: nat, gap: nat, y: int, x: int)
    requires WellSized(data, W, H) && gap > 0 && 0 <= y < H && 0 <= x
    ensures |RowFrom(data, W, H, gap, y, x)| <= Steps(x, W, gap)
    decreases W - x
  {
    if x < W {
      RowFromSize(data, W, H, gap, y, x + gap);
    }
  }

  lemma {:induction false} GridFromSize(data: seq<Byte>, W: nat, H: nat, gap: nat, y: int)
    requires WellSized(data, W, H) && gap > 0 && 0 <= y
    ensures |GridFrom(data, W, H, gap, y)| <= Steps(0, W, gap) * Steps(y, H, gap)
    decreases H - y
  {
    if y < H {
      var row, rest := RowFrom(data, W, H, gap, y, 0), GridFrom(data, W, H, gap, y + gap);
      var c, k := Steps(0, W, gap), Steps(y + gap, H, gap);
      assert |GridFrom(data, W, H, gap, y)| == |row| + |rest|;
      assert Steps(y, H, gap) == k + 1;
      RowFromSize(data, W, H, gap, y, 0);
      GridFromSize(data, W, H, gap, y + gap);
      MulSucc(c, k);
    }
  }

  /** `Steps(from, bound, step)` is the least k with k * step >= bound - from. */
  lemma {:induction false} StepsIsCeiling(from: int, bound: int, step: nat)
    requires step > 0 && from < bound
    ensures Steps(from, bound, step) * step >= bound - from
    ensures (Steps(from, bound, step) - 1) * step < bound - from
    decreases bound - from
  {
    var k := Steps(from, bound, step);
    if from + step < bound {
      StepsIsCeiling(from + step, bound, step);
      var k' := Steps(from + step, bound, step);
      assert k * step == k' * step + step;
      assert (k - 1) * step == k' * step;
    }
  }

  /** ... which is the integer ceiling of (bound - from) / step. */
  lemma StepsIsQuotient(from: int, bound: int, step: nat)
    requires step > 0 && from < bound
    ensures Steps(from, bound, step) == (bound - from + step - 1) / step
  {
    var k := Steps(from, bound, step);
    StepsIsCeiling(from, bound, step);
    var m := bound - from;
    assert (k - 1) * step == k * step - step;
    DivModUnique(m + step - 1, step, k, m + step - 1 - k * step);
  }

  /** At most ceil(W/gap) * ceil(H/gap) anchors. */
  lemma AnchorBound(data: seq<Byte>, W: nat, H: nat, gap: nat)
    requires WellSized(data, W, H) && gap > 0
    ensures |Anchors(data, W, H, gap)| <= Steps(0, W, gap) * Steps(0, H, gap)
    ensures W > 0 && H > 0 ==>
      |Anchors(data, W, H, gap)| <= ((W + gap - 1) / gap) * ((H + gap - 1) / gap)
  {
    GridFromSize(data, W, H, gap, 0);
    if W > 0 && H > 0 {
      StepsIsQuotient(0, W, gap);
      StepsIsQuotient(0, H, gap);
    }
  }
}
