/**
 The per-object render-layer mask that a selection manipulates (three.js
 `Layers`): a 32-bit word in which bit `c` says whether the object is rendered
 on layer `c`.
 */
module Layers {

  /**
   A render-layer index. `setLayer` documents the range [0, 31]; a 5-bit word
   has exactly those 32 values, so the range needs no separate precondition.
   */
  type Layer = bv5

  type Mask = bv32

  /** The word with only bit `c` set (`1 << c`). */
  function Bit(c: Layer): Mask
  {
    (1 as bv32) << c
  }

  /** `layers.isEnabled(c)`: whether layer `c` is enabled in `m`. */
  predicate IsEnabled(m: Mask, c: Layer)
  {
    m & Bit(c) != 0
  }

  /** `layers.enable(c)`: OR the bit of layer `c` into the mask. */
  function Enable(m: Mask, c: Layer): Mask
  {
    m | Bit(c)
  }

  /** `layers.disable(c)`: AND the mask with the complement of the bit of `c`. */
  function Disable(m: Mask, c: Layer): Mask
  {
    m & !Bit(c)
  }

  /** `layers.set(c)`: replace the whole mask by the bit of `c`. */
  function Only(c: Layer): Mask
  {
    Bit(c)
  }

  /** Enabling switches layer `c` on and leaves every other layer as it was. */
  lemma EnableSpec(m: Mask, c: Layer)
    ensures forall d: Layer :: IsEnabled(Enable(m, c), d) == (d == c || IsEnabled(m, d))
  {
  }

  /** Disabling switches layer `c` off and leaves every other layer as it was. */
  lemma DisableSpec(m: Mask, c: Layer)
    ensures forall d: Layer :: IsEnabled(Disable(m, c), d) == (d != c && IsEnabled(m, d))
  {
  }

  /** After `set(c)`, layer `c` is the one and only enabled layer. */
  lemma OnlySpec(c: Layer)
    ensures forall d: Layer :: IsEnabled(Only(c), d) == (d == c)
  {
  }

  /** Moving a mask from layer `c` to layer `v` touches no other layer. */
  lemma MoveSpec(m: Mask, c: Layer, v: Layer)
    ensures IsEnabled(Enable(Disable(m, c), v), v)
    ensures v != c ==> !IsEnabled(Enable(Disable(m, c), v), c)
    ensures forall d: Layer :: d != c && d != v ==>
      (IsEnabled(Enable(Disable(m, c), v), d) <==> IsEnabled(m, d))
  {
    DisableSpec(m, c);
    EnableSpec(Disable(m, c), v);
  }

  /** Enabling an enabled layer, or disabling a disabled one, is a no-op. */
  lemma Idempotent(m: Mask, c: Layer)
    ensures IsEnabled(m, c) ==> Enable(m, c) == m
    ensures !IsEnabled(m, c) ==> Disable(m, c) == m
  {
  }

  /** Enabling a layer twice is enabling it once. */
  lemma EnableTwice(m: Mask, c: Layer)
    ensures Enable(Enable(m, c), c) == Enable(m, c)
  {
    EnableSpec(m, c);
    Idempotent(Enable(m, c), c);
  }

  /** Disabling a layer and enabling it again has the effect of enabling it. */
  lemma DisableThenEnable(m: Mask, c: Layer)
    ensures Enable(Disable(m, c), c) == Enable(m, c)
  {
    var b := Bit(c);
    assert Enable(Disable(m, c), c) == (m & !b) | b;
  }

  /** Enabling a layer that was off and then disabling it restores the mask. */
  lemma EnableThenDisable(m: Mask, c: Layer)
    requires !IsEnabled(m, c)
    ensures Disable(Enable(m, c), c) == m
  {
  }

  /**
   Moving a mask from layer `c` to layer `v` and back restores it, provided
   it was on `c` and off `v` to begin with.
   */
  lemma MoveBack(m: Mask, c: Layer, v: Layer)
    requires IsEnabled(m, c) && !IsEnabled(m, v)
    ensures Enable(Disable(Enable(Disable(m, c), v), v), c) == m
  {
    var off := Disable(m, c);
    DisableSpec(m, c);
    EnableThenDisable(off, v);
    DisableThenEnable(m, c);
    Idempotent(m, c);
  }
}
