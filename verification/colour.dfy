/**
 Colour ranges of the particle-text effect.

 Each particle is born with a base saturation and lightness drawn from a
 uniform draw in [0, 1). Every frame the renderer brightens both in proportion
 to the particle's speed, clamped to a fixed maximum (`Math.min`). Speeds are
 the non-negative result of a square root, so they are taken as a parameter.
 */
module Colour {

  const SAT_MAX: real := 100.0
  const LIT_MAX: real := 98.0

  /** A value `Math.random()` can return. */
  predicate InUnit(draw: real) {
    0.0 <= draw < 1.0
  }

  /** `60 + Math.random() * 40`. */
  function BaseSaturation(draw: real): (sat: real)
    ensures InUnit(draw) ==> 60.0 <= sat < SAT_MAX
  {
    60.0 + draw * 40.0
  }

  /** `72 + Math.random() * 26`. */
  function BaseLightness(draw: real): (lit: real)
    ensures InUnit(draw) ==> 72.0 <= lit < LIT_MAX
  {
    72.0 + draw * 26.0
  }

  /** `Math.min(lit + speed * 9, 98)`: the lightness a particle is drawn with. */
  function DerivedLightness(lit: real, speed: real): (v: real)
    ensures v <= LIT_MAX
    ensures speed >= 0.0 && lit <= LIT_MAX ==> lit <= v
  {
    if lit + speed * 9.0 < LIT_MAX then lit + speed * 9.0 else LIT_MAX
  }

  /** `Math.min(sat + speed * 12, 100)`: the saturation a particle is drawn with. */
  function DerivedSaturation(sat: real, speed: real): (v: real)
    ensures v <= SAT_MAX
    ensures speed >= 0.0 && sat <= SAT_MAX ==> sat <= v
  {
    if sat + speed * 12.0 < SAT_MAX then sat + speed * 12.0 else SAT_MAX
  }

  /** Faster particles are never drawn dimmer or greyer than slower ones. */
  lemma BrightenMonotone(lit: real, sat: real, s1: real, s2: real)
    requires s1 <= s2
    ensures DerivedLightness(lit, s1) <= DerivedLightness(lit, s2)
    ensures DerivedSaturation(sat, s1) <= DerivedSaturation(sat, s2)
  {
  }

  /** The caps are reached exactly from a speed that depends on the base value. */
  lemma BrightenSaturates(lit: real, sat: real, speed: real)
    ensures DerivedLightness(lit, speed) == LIT_MAX <==> speed >= (LIT_MAX - lit) / 9.0
    ensures DerivedSaturation(sat, speed) == SAT_MAX <==> speed >= (SAT_MAX - sat) / 12.0
  {
  }

  /**
   For draws in [0, 1) and any non-negative speed, a particle's drawn colour
   stays within [base, 100] saturation and [base, 98] lightness, and the bases
   stay within [60, 100) and [72, 98).
   */
  lemma ColourRange(satDraw: real, litDraw: real, speed: real)
    requires InUnit(satDraw) && InUnit(litDraw) && speed >= 0.0
    ensures 60.0 <= BaseSaturation(satDraw) <= DerivedSaturation(BaseSaturation(satDraw), speed) <= 100.0
    ensures 72.0 <= BaseLightness(litDraw) <= DerivedLightness(BaseLightness(litDraw), speed) <= 98.0
  {
  }
}
