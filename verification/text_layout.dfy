/** Single-line, horizontally centred glyph layout (`draw_text_fix` in
    src/draw_ext.rs).

    The font is reduced to the two lookups the layout needs: a map from
    characters to glyph ids and a map from glyph ids to horizontal advances in
    font units. A cursor starts at the anchor's x; every character records the
    cursor as its glyph's position and then moves the cursor by the glyph's
    scaled advance. Finally every position is shifted left by half of the
    distance the cursor travelled, which centres the run on the anchor.
    Arithmetic is over `real`: the f32 rounding of `draw_text_fix` is not
    modelled. */
module TextLayout {

  type GlyphId = nat

  datatype Point = Point(x: real, y: real)

  /** The part of a loaded font the layout consults. */
  datatype Font = Font(glyphs: map<char, GlyphId>, advances: map<GlyphId, real>)

  /** Calibration constants of the advance scaling. */
  const UNITS_PER_EM_REFERENCE: real := 24.0
  const DPI_REFERENCE: real := 96.0
  const ADJUSTMENT_FACTOR: real := 2.2

  /** Every character of `text` has a glyph, and every such glyph an advance.
      `draw_text_fix` unwraps both lookups, so text outside this predicate
      aborts the render. */
  predicate CanRender(font: Font, text: string)
  {
    forall k :: 0 <= k < |text| ==> text[k] in font.glyphs && font.glyphs[text[k]] in font.advances
  }

  /** Advance in pixels of a glyph whose advance in font units is `advance`. */
  function ScaledAdvance(advance: real, pointSize: real): real
  {
    advance * pointSize / UNITS_PER_EM_REFERENCE / DPI_REFERENCE * ADJUSTMENT_FACTOR
  }

  /** Glyph ids of the characters of `text`, in text order. */
  function GlyphIds(font: Font, text: string): (ids: seq<GlyphId>)
    requires CanRender(font, text)
    ensures |ids| == |text|
  {
    seq(|text|, k requires 0 <= k < |text| => font.glyphs[text[k]])
  }

  /** Advances in font units of the glyphs of `text`, in text order. */
  function RawAdvances(font: Font, text: string): (adv: seq<real>)
    requires CanRender(font, text)
    ensures |adv| == |text|
  {
    seq(|text|, k requires 0 <= k < |text| => font.advances[font.glyphs[text[k]]])
  }

  /** Every advance of `adv` scaled to pixels at `pointSize`. */
  function Scale(adv: seq<real>, pointSize: real): (steps: seq<real>)
    ensures |steps| == |adv|
  {
    seq(|adv|, k requires 0 <= k < |adv| => ScaledAdvance(adv[k], pointSize))
  }

  /** The distance the cursor moves over each glyph of `text`. */
  function Steps(font: Font, pointSize: real, text: string): (steps: seq<real>)
    requires CanRender(font, text)
    ensures |steps| == |text|
  {
    Scale(RawAdvances(font, text), pointSize)
  }

  function Sum(s: seq<real>): real
  {
    if |s| == 0 then 0.0 else Sum(s[..|s| - 1]) + s[|s| - 1]
  }

  /** Reference layout in closed form: glyph k sits at the anchor plus the
      steps of the glyphs before it, minus half of all steps. */
  function Layout(steps: seq<real>, start: Point): (positions: seq<Point>)
    ensures |positions| == |steps|
  {
    seq(|steps|, k requires 0 <= k < |steps| =>
      Point(start.x + Sum(steps[..k]) - Sum(steps) / 2.0, start.y))
  }

  lemma SumPrefixStep(s: seq<real>, k: nat)
    requires k < |s|
    ensures Sum(s[..k + 1]) == Sum(s[..k]) + s[k]
  {
    assert s[..k + 1][..k] == s[..k];
  }

  /** The cursor loop of `draw_text_fix`: each glyph is placed at the cursor,
      which then moves on by the glyph's scaled advance. */
  method PlaceGlyphs(font: Font, pointSize: real, text: string, start: Point)
    returns (ids: seq<GlyphId>, unshifted: seq<Point>, cursor: real)
    requires CanRender(font, text)
    ensures ids == GlyphIds(font, text)
    ensures |unshifted| == |text|
    ensures forall k :: 0 <= k < |text| ==>
              unshifted[k] == Point(start.x + Sum(Steps(font, pointSize, text)[..k]), start.y)
    ensures cursor == start.x + Sum(Steps(font, pointSize, text))
  {
    ghost var steps := Steps(font, pointSize, text);
    cursor := start.x;
    unshifted := [];
    ids := [];
    for k := 0 to |text|
      invariant |ids| == k && |unshifted| == k
      invariant forall m :: 0 <= m < k ==> ids[m] == font.glyphs[text[m]]
      invariant forall m :: 0 <= m < k ==> unshifted[m] == Point(start.x + Sum(steps[..m]), start.y)
      invariant cursor == start.x + Sum(steps[..k])
    {
      var id := font.glyphs[text[k]];
      ids := ids + [id];
      unshifted := unshifted + [Point(cursor, start.y)];
      SumPrefixStep(steps, k);
      cursor := cursor + ScaledAdvance(font.advances[id], pointSize);
    }
    assert steps[..|text|] == steps;
  }

  /** `draw_text_fix`: the cursor loop followed by the centring shift, which
      moves every glyph left by half the distance the cursor travelled. */
  method DrawTextFix(font: Font, pointSize: real, text: string, start: Point)
    returns (ids: seq<GlyphId>, positions: seq<Point>)
    requires CanRender(font, text)
    ensures |ids| == |text| && |positions| == |text|
    ensures ids == GlyphIds(font, text)
    ensures forall k :: 0 <= k < |positions| ==> positions[k].y == start.y
    ensures positions == Layout(Steps(font, pointSize, text), start)
  {
    ghost var steps := Steps(font, pointSize, text);
    var unshifted, cursor;
    ids, unshifted, cursor := PlaceGlyphs(font, pointSize, text, start);
    var total := cursor - start.x;
    positions := [];
    for k := 0 to |unshifted|
      invariant |positions| == k
      invariant forall m :: 0 <= m < k ==> positions[m] == Layout(steps, start)[m]
    {
      positions := positions + [Point(unshifted[k].x - total * 0.5, unshifted[k].y)];
    }
  }

  /** Total width is the scaled sum of the raw advances: scaling commutes with
      the accumulation. */
  lemma {:induction false} SumScale(adv: seq<real>, pointSize: real)
    ensures Sum(Scale(adv, pointSize)) == ScaledAdvance(Sum(adv), pointSize)
  {
    if |adv| > 0 {
      var n := |adv| - 1;
      assert Scale(adv, pointSize)[..n] == Scale(adv[..n], pointSize);
      SumScale(adv[..n], pointSize);
    }
  }

  /** The first glyph starts half the run's width left of the anchor. */
  lemma LayoutFirst(steps: seq<real>, start: Point)
    requires |steps| > 0
    ensures Layout(steps, start)[0].x == start.x - Sum(steps) / 2.0
  {
    assert steps[..0] == [];
  }

  /** Consecutive glyphs are one scaled advance apart: the shift is uniform. */
  lemma LayoutGap(steps: seq<real>, start: Point, k: nat)
    requires k + 1 < |steps|
    ensures Layout(steps, start)[k + 1].x - Layout(steps, start)[k].x == steps[k]
  {
    SumPrefixStep(steps, k);
  }

  /** The right edge of the run (last glyph plus its advance) is as far right
      of the anchor as the first glyph is left of it. */
  lemma LayoutCentred(steps: seq<real>, start: Point)
    requires |steps| > 0
    ensures var p := Layout(steps, start); var n := |steps| - 1;
            start.x - p[0].x == (p[n].x + steps[n]) - start.x
  {
    LayoutFirst(steps, start);
    var n := |steps| - 1;
    assert steps[..n + 1] == steps;
    SumPrefixStep(steps, n);
  }

  /** The shifted run spans exactly the distance the cursor travelled. */
  lemma LayoutSpan(steps: seq<real>, start: Point)
    requires |steps| > 0
    ensures var p := Layout(steps, start); var n := |steps| - 1;
            (p[n].x + steps[n]) - p[0].x == Sum(steps)
  {
    LayoutCentred(steps, start);
    LayoutFirst(steps, start);
  }

  /** A single glyph is centred on the anchor by half its own advance. */
  lemma LayoutSingle(steps: seq<real>, start: Point)
    requires |steps| == 1
    ensures Layout(steps, start)[0].x == start.x - steps[0] / 2.0
  {
    LayoutFirst(steps, start);
    assert steps[..0] == [];
  }

  lemma {:induction false} SumPrefixMonotone(s: seq<real>, i: nat, j: nat)
    requires i <= j <= |s|
    requires forall k :: 0 <= k < |s| ==> s[k] >= 0.0
    ensures Sum(s[..i]) <= Sum(s[..j])
    decreases j - i
  {
    if i < j {
      SumPrefixMonotone(s, i, j - 1);
      SumPrefixStep(s, j - 1);
    }
  }

  /** With non-negative steps the run goes left to right. */
  lemma LayoutMonotone(steps: seq<real>, start: Point, i: nat, j: nat)
    requires i <= j < |steps|
    requires forall k :: 0 <= k < |steps| ==> steps[k] >= 0.0
    ensures Layout(steps, start)[i].x <= Layout(steps, start)[j].x
  {
    SumPrefixMonotone(steps, i, j);
  }

  /** A glyph's position relative to the cursor origin depends only on the
      glyphs before it: laying out a prefix of the run places its glyphs at
      the same unshifted offsets. */
  lemma LayoutPrefixStable(steps: seq<real>, start: Point, m: nat, k: nat)
    requires k < m <= |steps|
    ensures Layout(steps, start)[k].x + Sum(steps) / 2.0
         == Layout(steps[..m], start)[k].x + Sum(steps[..m]) / 2.0
  {
    assert steps[..m][..k] == steps[..k];
  }

  lemma ScaledAdvanceNonNegative(advance: real, pointSize: real)
    requires advance >= 0.0 && pointSize >= 0.0
    ensures ScaledAdvance(advance, pointSize) >= 0.0
  {
    assert advance * pointSize >= 0.0;
  }

  /** A font whose advances are non-negative, at a non-negative point size,
      lays out any renderable text left to right. */
  lemma DrawTextFixMonotone(font: Font, pointSize: real, text: string, start: Point, i: nat, j: nat)
    requires CanRender(font, text)
    requires pointSize >= 0.0
    requires forall g :: g in font.advances ==> font.advances[g] >= 0.0
    requires i <= j < |text|
    ensures var p := Layout(Steps(font, pointSize, text), start); p[i].x <= p[j].x
  {
    var steps := Steps(font, pointSize, text);
    forall k | 0 <= k < |steps|
      ensures steps[k] >= 0.0
    {
      ScaledAdvanceNonNegative(font.advances[font.glyphs[text[k]]], pointSize);
    }
    LayoutMonotone(steps, start, i, j);
  }
}
