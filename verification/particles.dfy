/**
 The build pass of the particle-text canvas.

 On mount and on every resize the canvas takes the viewport size, rasterises
 the word off-screen at a font size proportional to the width (capped at 92),
 samples the alpha channel on a grid whose step derives from the font size,
 and creates one particle per opaque grid cell. The rasteriser's output is an
 input buffer here, and the eight `Math.random()` calls made for the k-th
 particle are the k-th element of an input stream of draws.
 */
module Particles {
  import opened Sampling
  import Colour

  const FONT_CAP: real := 92.0
  const MIN_STEP: nat := 3
  const GLOW_CHANCE: real := 0.15

  /** `Math.min(W * 0.072, 92)`: the font size the word is rasterised at. */
  function FontSize(W: nat): (fs: real)
    ensures 0.0 <= fs <= FONT_CAP
    ensures fs <= W as real * 0.072
    ensures W as real * 0.072 <= FONT_CAP ==> fs == W as real * 0.072
    ensures FONT_CAP <= W as real * 0.072 ==> fs == FONT_CAP
  {
    if W as real * 0.072 < FONT_CAP then W as real * 0.072 else FONT_CAP
  }

  /**
   `Math.max(3, Math.floor(fs / 28))`. Because the font size never exceeds
   92, the quotient never reaches 4 and the grid step is 3 for every width.
   */
  function GridStep(W: nat): (gap: int)
    ensures gap == MIN_STEP
  {
    Max(MIN_STEP, (FontSize(W) / 28.0).Floor)
  }

  function Max(a: int, b: int): int {
    if a < b then b else a
  }

  /** The eight `Math.random()` results consumed by one particle, in call order. */
  datatype Draws = Draws(
    scatterX: real, scatterY: real, radius: real, hue: real,
    sat: real, lit: real, opacity: real, glow: real)

  predicate UnitDraws(d: Draws) {
    && Colour.InUnit(d.scatterX) && Colour.InUnit(d.scatterY)
    && Colour.InUnit(d.radius) && Colour.InUnit(d.hue)
    && Colour.InUnit(d.sat) && Colour.InUnit(d.lit)
    && Colour.InUnit(d.opacity) && Colour.InUnit(d.glow)
  }

  /** A particle: its anchor (hx, hy), position, velocity and fixed looks. */
  datatype Particle = Particle(
    hx: int, hy: int,
    x: real, y: real,
    vx: real, vy: real,
    r: real, hue: real, sat: real, lit: real, a: real,
    glow: bool)

  function AnchorOf(p: Particle): Cell {
    Cell(p.hx, p.hy)
  }

  /** The particle created for anchor `c` at font size `fs` from the draws `d`. */
  function Spawn(c: Cell, fs: real, d: Draws): Particle {
    var spread := fs * 1.0;
    Particle(
      c.x, c.y,
      c.x as real + (d.scatterX - 0.5) * spread,
      c.y as real + (d.scatterY - 0.5) * spread,
      0.0, 0.0,
      d.radius * 1.6 + 0.4,
      196.0 + d.hue * 30.0,
      Colour.BaseSaturation(d.sat),
      Colour.BaseLightness(d.lit),
      0.65 + d.opacity * 0.35,
      d.glow < GLOW_CHANCE)
  }

  /**
   A new particle starts with radius, hue, saturation, lightness and opacity
   in the ranges the spawn formulas give (src/Form.jsx:56-60).
   */
  lemma SpawnInRange(c: Cell, fs: real, d: Draws)
    requires UnitDraws(d)
    ensures var p := Spawn(c, fs, d);
      && 0.4 <= p.r < 2.0
      && 196.0 <= p.hue < 226.0
      && 60.0 <= p.sat < 100.0
      && 72.0 <= p.lit < 98.0
      && 0.65 <= p.a < 1.0
  {
    Colour.ColourRange(d.sat, d.lit, 0.0);
  }

  lemma BuildElements(data: seq<Byte>, W: nat, H: nat, draws: nat -> Draws)
    requires WellSized(data, W, H)
    ensures |Build(data, W, H, draws)| == |Anchors(data, W, H, MIN_STEP)|
    ensures forall i :: 0 <= i < |Build(data, W, H, draws)| ==>
      Build(data, W, H, draws)[i] == Spawn(Anchors(data, W, H, MIN_STEP)[i], FontSize(W), draws(i))
  {
  }

  /** The particle list a build pass produces, as a function of its inputs. */
  function Build(data: seq<Byte>, W: nat, H: nat, draws: nat -> Draws): seq<Particle>
    requires WellSized(data, W, H)
  {
    var cells := Anchors(data, W, H, GridStep(W));
    seq(|cells|, i requires 0 <= i < |cells| => Spawn(cells[i], FontSize(W), draws(i)))
  }

  /**
   The build pass as the source writes it: two nested loops over the grid,
   reading the alpha byte at (y * W + x) * 4 + 3 and appending a particle for
   every cell above the threshold. The inner loop is `ScanRow`.
   */
  method BuildPass(data: seq<Byte>, W: nat, H: nat, draws: nat -> Draws) returns (particles: seq<Particle>)
    requires WellSized(data, W, H)
    ensures particles == Build(data, W, H, draws)
  {
    var fs := FontSize(W);
    var gap := GridStep(W);
    ghost var all := Anchors(data, W, H, gap);
    particles := [];
    var y := 0;
    while y < H
      invariant 0 <= y
      invariant |particles| <= |all|
      invariant all[|particles|..] == GridFrom(data, W, H, gap, y)
      invariant forall i :: 0 <= i < |particles| ==> particles[i] == Spawn(all[i], fs, draws(i))
      decreases H - y
    {
      particles := ScanRow(data, W, H, gap, fs, draws, y, particles, all);
      y := y + gap;
    }
    BuildElements(data, W, H, draws);
  }

  /** One row of the build pass: columns 0, gap, 2 * gap, ... below W. */
  method ScanRow(data: seq<Byte>, W: nat, H: nat, gap: nat, fs: real, draws: nat -> Draws,
                 y: int, particles: seq<Particle>, ghost all: seq<Cell>)
    returns (extended: seq<Particle>)
    requires WellSized(data, W, H) && gap > 0 && 0 <= y < H
    requires |particles| <= |all|
    requires all[|particles|..] == GridFrom(data, W, H, gap, y)
    requires forall i :: 0 <= i < |particles| ==> particles[i] == Spawn(all[i], fs, draws(i))
    ensures |extended| <= |all|
    ensures all[|extended|..] == GridFrom(data, W, H, gap, y + gap)
    ensures forall i :: 0 <= i < |extended| ==> extended[i] == Spawn(all[i], fs, draws(i))
  {
    extended := particles;
    var x := 0;
    while x < W
      invariant 0 <= x
      invariant |extended| <= |all|
      invariant all[|extended|..] == RowFrom(data, W, H, gap, y, x) + GridFrom(data, W, H, gap, y + gap)
      invariant forall i :: 0 <= i < |extended| ==> extended[i] == Spawn(all[i], fs, draws(i))
      decreases W - x
    {
      PixelInRange(W, H, x, y);
      ghost var rest := RowFrom(data, W, H, gap, y, x + gap) + GridFrom(data, W, H, gap, y + gap);
      if data[(y * W + x) * 4 + 3] > ALPHA_THRESHOLD {
        assert all[|extended|..] == [Cell(x, y)] + rest;
        assert all[|extended|] == Cell(x, y);
        assert all[|extended| + 1..] == rest;
        extended := extended + [Spawn(Cell(x, y), fs, draws(|extended|))];
      } else {
        assert all[|extended|..] == rest;
      }
      x := x + gap;
    }
  }

  /** Every particle of a build sits at rest on an opaque grid cell of step 3. */
  lemma BuildSound(data: seq<Byte>, W: nat, H: nat, draws: nat -> Draws)
    requires WellSized(data, W, H)
    ensures forall p :: p in Build(data, W, H, draws) ==>
      && 0 <= p.hx < W && 0 <= p.hy < H
      && p.hx % MIN_STEP == 0 && p.hy % MIN_STEP == 0
      && data[AlphaIndex(W, H, p.hx, p.hy)] > ALPHA_THRESHOLD
      && p.vx == 0.0 && p.vy == 0.0
  {
    var ps := Build(data, W, H, draws);
    var cells := Anchors(data, W, H, MIN_STEP);
    BuildElements(data, W, H, draws);
    AnchorsAreSelectedCells(data, W, H, MIN_STEP);
    forall p | p in ps
      ensures Selected(data, W, H, MIN_STEP, AnchorOf(p))
      ensures p.vx == 0.0 && p.vy == 0.0
    {
      var i :| 0 <= i < |ps| && ps[i] == p;
      assert cells[i] in cells;
      assert AnchorOf(p) == cells[i];
    }
  }

  /** Every opaque grid cell of step 3 gets a particle. */
  lemma BuildComplete(data: seq<Byte>, W: nat, H: nat, draws: nat -> Draws, x: int, y: int)
    requires WellSized(data, W, H)
    requires OnCanvas(W, H, x, y) && x % MIN_STEP == 0 && y % MIN_STEP == 0
    requires data[AlphaIndex(W, H, x, y)] > ALPHA_THRESHOLD
    ensures exists i :: (0 <= i < |Build(data, W, H, draws)| &&
      AnchorOf(Build(data, W, H, draws)[i]) == Cell(x, y))
  {
    var cells := Anchors(data, W, H, MIN_STEP);
    BuildElements(data, W, H, draws);
    AnchorsAreSelectedCells(data, W, H, MIN_STEP);
    assert Selected(data, W, H, MIN_STEP, Cell(x, y));
    var i :| 0 <= i < |cells| && cells[i] == Cell(x, y);
    assert AnchorOf(Build(data, W, H, draws)[i]) == Cell(x, y);
  }

  /** Particles appear in strictly increasing row-major order of their anchors. */
  lemma BuildOrdered(data: seq<Byte>, W: nat, H: nat, draws: nat -> Draws)
    requires WellSized(data, W, H)
    ensures forall i, j :: 0 <= i < j < |Build(data, W, H, draws)| ==>
      RowMajorBefore(AnchorOf(Build(data, W, H, draws)[i]), AnchorOf(Build(data, W, H, draws)[j]))
  {
    BuildElements(data, W, H, draws);
    AnchorsOrdered(data, W, H, MIN_STEP);
  }

  /**
   The number of particles is the number of grid cells above the threshold,
   hence at most ceil(W/3) * ceil(H/3).
   */
  lemma BuildCount(data: seq<Byte>, W: nat, H: nat, draws: nat -> Draws)
    requires WellSized(data, W, H)
    ensures |Build(data, W, H, draws)| == |SelectedCells(data, W, H, MIN_STEP)|
    ensures W > 0 && H > 0 ==>
      |Build(data, W, H, draws)| <= ((W + MIN_STEP - 1) / MIN_STEP) * ((H + MIN_STEP - 1) / MIN_STEP)
  {
    BuildElements(data, W, H, draws);
    AnchorCount(data, W, H, MIN_STEP);
    AnchorBound(data, W, H, MIN_STEP);
  }

  /** Anchors depend on the buffer and the canvas size, never on the random draws. */
  lemma BuildAnchorsIgnoreDraws(data: seq<Byte>, W: nat, H: nat, d1: nat -> Draws, d2: nat -> Draws)
    requires WellSized(data, W, H)
    ensures |Build(data, W, H, d1)| == |Build(data, W, H, d2)|
    ensures forall i :: 0 <= i < |Build(data, W, H, d1)| ==>
      AnchorOf(Build(data, W, H, d1)[i]) == AnchorOf(Build(data, W, H, d2)[i])
  {
    BuildElements(data, W, H, d1);
    BuildElements(data, W, H, d2);
  }

  /** With genuine `Math.random()` draws, every particle's looks are in range. */
  lemma BuildLooks(data: seq<Byte>, W: nat, H: nat, draws: nat -> Draws)
    requires WellSized(data, W, H)
    requires forall k :: UnitDraws(draws(k))
    ensures forall p :: p in Build(data, W, H, draws) ==>
      && 60.0 <= p.sat < 100.0 && 72.0 <= p.lit < 98.0
      && 196.0 <= p.hue < 226.0 && 0.65 <= p.a < 1.0 && 0.4 <= p.r < 2.0
  {
    var ps := Build(data, W, H, draws);
    var cells := Anchors(data, W, H, MIN_STEP);
    BuildElements(data, W, H, draws);
    forall p | p in ps
      ensures && 60.0 <= p.sat < 100.0 && 72.0 <= p.lit < 98.0
        && 196.0 <= p.hue < 226.0 && 0.65 <= p.a < 1.0 && 0.4 <= p.r < 2.0
    {
      var i :| 0 <= i < |ps| && ps[i] == p;
      SpawnInRange(cells[i], FontSize(W), draws(i));
    }
  }

  /** The canvas: its size and its current particle list. */
  datatype Scene = Scene(width: nat, height: nat, particles: seq<Particle>)

  /**
   `resize`: adopt the viewport size and rebuild the particle list. When the
   viewport has no width or no height, `getImageData` rejects the empty
   rectangle and throws before the old list is cleared, so the canvas takes
   the new size but keeps its particles.
   */
  function Resize(s: Scene, innerWidth: nat, innerHeight: nat, data: seq<Byte>, draws: nat -> Draws): (r: Scene)
    requires WellSized(data, innerWidth, innerHeight)
    ensures r.width == innerWidth && r.height == innerHeight
    ensures innerWidth > 0 && innerHeight > 0 ==>
      |r.particles| == |SelectedCells(data, innerWidth, innerHeight, MIN_STEP)|
    ensures innerWidth == 0 || innerHeight == 0 ==> r.particles == s.particles
  {
    BuildCount(data, innerWidth, innerHeight, draws);
    if innerWidth == 0 || innerHeight == 0 then Scene(innerWidth, innerHeight, s.particles)
    else Scene(innerWidth, innerHeight, Build(data, innerWidth, innerHeight, draws))
  }

  /**
   A resize to a non-empty viewport replaces the whole particle list: nothing
   of the old list is kept, and every new particle sits on an opaque grid cell
   of the new buffer.
   */
  lemma ResizeReplacesParticles(s1: Scene, s2: Scene, innerWidth: nat, innerHeight: nat,
                                data: seq<Byte>, draws: nat -> Draws)
    requires WellSized(data, innerWidth, innerHeight)
    requires innerWidth > 0 && innerHeight > 0
    ensures Resize(s1, innerWidth, innerHeight, data, draws) == Resize(s2, innerWidth, innerHeight, data, draws)
    ensures forall p :: p in Resize(s1, innerWidth, innerHeight, data, draws).particles ==>
      Selected(data, innerWidth, innerHeight, MIN_STEP, AnchorOf(p))
  {
    BuildSound(data, innerWidth, innerHeight, draws);
  }

  /**
   A zero-size resize followed by a resize back to a non-empty viewport ends
   as if the zero-size one had never happened.
   */
  lemma ZeroSizeResizeIsForgotten(s: Scene, w: nat, h: nat, empty: seq<Byte>, draws0: nat -> Draws,
                                  innerWidth: nat, innerHeight: nat, data: seq<Byte>, draws: nat -> Draws)
    requires w == 0 || h == 0
    requires WellSized(empty, w, h) && WellSized(data, innerWidth, innerHeight)
    requires innerWidth > 0 && innerHeight > 0
    ensures Resize(s, w, h, empty, draws0).particles == s.particles
    ensures Resize(Resize(s, w, h, empty, draws0), innerWidth, innerHeight, data, draws)
      == Resize(s, innerWidth, innerHeight, data, draws)
  {
  }
}
