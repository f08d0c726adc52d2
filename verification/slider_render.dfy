/** The slider ad's style decisions, as structured values rather than CSS
    text: which labels appear, where and how rounded; whether the CTA
    appears and how it is painted; the handle's size and fill; the icon's
    colour. The live preview and the exported document apply the same
    rules, so each is defined once here. */
module SliderRender {
  import opened Wrappers
  import opened AdTypes
  import opened Color
  import SliderEngine

  datatype Side = Before | After
  datatype VAnchor = Top | Bottom
  datatype HAnchor = Left | Right

  /** A `border-radius` in pixels, corner by corner. */
  datatype Corners = Corners(topLeft: nat, topRight: nat, bottomRight: nat, bottomLeft: nat)

  function Uniform(px: nat): Corners {
    Corners(px, px, px, px)
  }

  /** The same corners seen in a mirror held along the vertical axis. */
  function Mirror(c: Corners): Corners {
    Corners(c.topRight, c.topLeft, c.bottomLeft, c.bottomRight)
  }

  /** One label badge: its anchoring edges (10px in from each), its
      rounding, its text and colours. */
  datatype LabelLook = LabelLook(
    vertical: VAnchor,
    horizontal: HAnchor,
    insetPx: nat,
    radius: Corners,
    text: string,
    background: string,
    color: string)

  datatype LabelPair = LabelPair(before: LabelLook, after: LabelLook)

  /** The label rounding: a tag is flat on the side facing the divider, a
      badge slightly rounded, a pill (and any other style) fully rounded. */
  function LabelRadius(style: LabelStyle, side: Side): (c: Corners)
    ensures style.TagLabel? && side.Before? ==> c == Corners(4, 0, 0, 4)
    ensures style.TagLabel? && side.After? ==> c == Corners(0, 4, 4, 0)
    ensures style.BadgeLabel? ==> c == Uniform(4)
    ensures !style.TagLabel? && !style.BadgeLabel? ==> c == Uniform(9999)
  {
    match style
    case TagLabel => if side.Before? then Corners(4, 0, 0, 4) else Corners(0, 4, 4, 0)
    case BadgeLabel => Uniform(4)
    case _ => Uniform(9999)
  }

  /** `getLabelStyle(side)`: classic puts the labels along the top, modern
      along the bottom; "before" sits on the left and "after" on the right. */
  function LabelFor(ad: SliderAd, side: Side): (r: LabelLook)
    ensures r.vertical.Top? <==> ad.template.Classic?
    ensures r.horizontal.Left? <==> side.Before?
    ensures r.insetPx == 10
    ensures r.radius == LabelRadius(ad.labelStyle, side)
    ensures r.text == (if side.Before? then ad.beforeLabel else ad.afterLabel)
    ensures r.background == ad.labelBg && r.color == ad.labelColor
  {
    LabelLook(
      if ad.template.Classic? then Top else Bottom,
      if side.Before? then Left else Right,
      10,
      LabelRadius(ad.labelStyle, side),
      if side.Before? then ad.beforeLabel else ad.afterLabel,
      ad.labelBg,
      ad.labelColor)
  }

  /** The two labels, rendered iff labels are switched on and their style
      is not `none`. */
  function Labels(ad: SliderAd): (r: Option<LabelPair>)
    ensures r.Some? <==> ad.showLabels && !ad.labelStyle.NoLabel?
    ensures r.Some? ==> r.value.before == LabelFor(ad, Before) && r.value.after == LabelFor(ad, After)
  {
    if ad.showLabels && !ad.labelStyle.NoLabel?
    then Some(LabelPair(LabelFor(ad, Before), LabelFor(ad, After)))
    else None
  }

  /** The two labels are mirror images: same row, opposite corners, and
      mirrored rounding, whatever the style. */
  lemma LabelsMirrorEachOther(ad: SliderAd)
    requires Labels(ad).Some?
    ensures var p := Labels(ad).value;
      && p.before.vertical == p.after.vertical
      && p.before.horizontal != p.after.horizontal
      && p.after.radius == Mirror(p.before.radius)
  {
  }

  datatype Border = NoBorder | Border(widthPx: nat, color: CssColor)

  /** The CTA button's paint: fill, outline, backdrop blur, text colour. */
  datatype CtaLook = CtaLook(
    background: CssColor,
    border: Border,
    blurPx: nat,
    textColor: string,
    text: string)

  const TransparentPaint: CssColor := Verbatim("transparent")
  const FrostedWhite: CssColor := Rgba(255, 255, 255, 0.2)

  /** `getCtaStyle()`: solid fills with the CTA colour behind a transparent
      2px outline; ghost outlines in the CTA colour over a transparent fill;
      glass is frosted white with a 5px backdrop blur and no outline. */
  function CtaLookFor(ad: SliderAd): (r: CtaLook)
    ensures r.textColor == ad.ctaColor && r.text == ad.ctaText
    ensures r.blurPx > 0 <==> ad.ctaStyle.GlassCta?
    ensures r.border.NoBorder? <==> ad.ctaStyle.GlassCta?
    ensures ad.ctaStyle.SolidCta? ==> r.background == Verbatim(ad.ctaBg) && r.border == Border(2, TransparentPaint)
    ensures ad.ctaStyle.GhostCta? ==> r.background == TransparentPaint && r.border == Border(2, Verbatim(ad.ctaBg))
    ensures ad.ctaStyle.GlassCta? ==> r.background == FrostedWhite && r.blurPx == 5
  {
    match ad.ctaStyle
    case GhostCta => CtaLook(TransparentPaint, Border(2, Verbatim(ad.ctaBg)), 0, ad.ctaColor, ad.ctaText)
    case GlassCta => CtaLook(FrostedWhite, NoBorder, 5, ad.ctaColor, ad.ctaText)
    case SolidCta => CtaLook(Verbatim(ad.ctaBg), Border(2, TransparentPaint), 0, ad.ctaColor, ad.ctaText)
  }

  /** The CTA is rendered iff it is switched on and the template is
      classic; the modern template never shows it. */
  function Cta(ad: SliderAd): (r: Option<CtaLook>)
    ensures r.Some? <==> ad.showCta && ad.template.Classic?
    ensures r.Some? ==> r.value == CtaLookFor(ad)
  {
    if ad.showCta && ad.template.Classic? then Some(CtaLookFor(ad)) else None
  }

  /** Ghost is solid turned inside out: the fill of one is the outline of
      the other. */
  lemma GhostInvertsSolid(ad: SliderAd)
    ensures var solid := CtaLookFor(ad.(ctaStyle := SolidCta));
      var outlined := CtaLookFor(ad.(ctaStyle := GhostCta));
      && outlined.background == solid.border.color
      && outlined.border.color == solid.background
      && outlined.border.widthPx == solid.border.widthPx
  {
  }

  datatype Length = Px(n: int) | Auto

  datatype Rounding = Square | HalfRound | RadiusPx(px: nat)

  /** The handle's visible body. */
  datatype HandleLook = HandleLook(
    width: Length,
    height: Length,
    background: CssColor,
    rounding: Rounding,
    shadow: bool)

  /** The handle visual: a circle is 8t x 8t, filled with the divider
      colour at 80% opacity and shadowed; a pill is 10t x 5t in the divider
      colour; a line handle has a transparent 40px-tall body. */
  function HandleLookFor(ad: SliderAd): (r: HandleLook)
    ensures ad.handleStyle.CircleHandle? ==>
      && r.width == r.height == Px(8 * ad.handleThickness)
      && r.background == HexToRgba(ad.dividerColor, 0.8)
      && r.rounding == HalfRound && r.shadow
    ensures ad.handleStyle.PillHandle? ==>
      && r.width == Px(10 * ad.handleThickness) && r.height == Px(5 * ad.handleThickness)
      && r.width.n == 2 * r.height.n
      && r.background == Verbatim(ad.dividerColor)
    ensures ad.handleStyle.LineHandle? ==>
      r.width == Auto && r.height == Px(40) && r.background == TransparentPaint
    ensures r.shadow <==> ad.handleStyle.CircleHandle?
  {
    var base := if ad.handleStyle.LineHandle? then TransparentPaint else Verbatim(ad.dividerColor);
    match ad.handleStyle
    case CircleHandle =>
      HandleLook(Px(ad.handleThickness * 8), Px(ad.handleThickness * 8), HexToRgba(ad.dividerColor, 0.8), HalfRound, true)
    case PillHandle =>
      HandleLook(Px(ad.handleThickness * 10), Px(ad.handleThickness * 5), base, RadiusPx(99), false)
    case LineHandle =>
      HandleLook(Auto, Px(40), base, Square, false)
  }

  /** A circle handle's fill decodes the divider colour when that is hex
      notation, with alpha 0.8, and is the divider colour verbatim
      otherwise. */
  lemma CircleFillFromDividerColour(ad: SliderAd)
    requires ad.handleStyle.CircleHandle?
    ensures var bg := HandleLookFor(ad).background;
      && (IsHexColor(ad.dividerColor) ==> bg.Rgba? && bg.alpha == 0.8)
      && (!IsHexColor(ad.dividerColor) ==> bg == Verbatim(ad.dividerColor))
  {
  }

  /** The icon colour: black on the filled circle and pill bodies, the
      divider colour on the transparent line handle. */
  function IconColor(ad: SliderAd): (c: string)
    ensures c == "#000000" <==> (ad.handleStyle.CircleHandle? || ad.handleStyle.PillHandle? || ad.dividerColor == "#000000")
    ensures ad.handleStyle.LineHandle? ==> c == ad.dividerColor
  {
    if ad.handleStyle.CircleHandle? || ad.handleStyle.PillHandle? then "#000000" else ad.dividerColor
  }

  datatype IconLook = IconLook(shape: HandleIcon, color: string)

  /** The icon inside the handle: drawn for `arrows` and `drag`, absent for
      `none`. */
  function Icon(ad: SliderAd): (r: Option<IconLook>)
    ensures r.Some? <==> !ad.handleIcon.NoIcon?
    ensures r.Some? ==> r.value.shape == ad.handleIcon && r.value.color == IconColor(ad)
  {
    if ad.handleIcon.NoIcon? then None else Some(IconLook(ad.handleIcon, IconColor(ad)))
  }

  /** Everything the slider shows for one divider position. */
  datatype Layers = Layers(
    view: SliderEngine.DividerView,
    labels: Option<LabelPair>,
    cta: Option<CtaLook>,
    handle: HandleLook,
    icon: Option<IconLook>)

  /** The live preview's render of `ad` with the divider at `pos`. */
  function Render(ad: SliderAd, pos: real): (r: Layers)
    requires 0.0 <= pos <= 100.0
    ensures r.view.dividerAt == pos && r.view.afterVisible == SliderEngine.Interval(0.0, pos)
    ensures r.labels.Some? <==> ad.showLabels && !ad.labelStyle.NoLabel?
    ensures r.labels.Some? ==> r.labels.value.before == LabelFor(ad, Before) && r.labels.value.after == LabelFor(ad, After)
    ensures ad.template.Modern? ==> r.cta.None?
    ensures r.cta.Some? <==> ad.showCta && ad.template.Classic?
    ensures r.cta.Some? ==> r.cta.value == CtaLookFor(ad)
    ensures r.handle == HandleLookFor(ad)
    ensures r.icon.Some? <==> !ad.handleIcon.NoIcon?
    ensures r.icon.Some? ==> r.icon.value.shape == ad.handleIcon && r.icon.value.color == IconColor(ad)
  {
    Layers(SliderEngine.DragView(pos), Labels(ad), Cta(ad), HandleLookFor(ad), Icon(ad))
  }

  /** The exported document as it opens: the same labels, CTA, handle and
      icon as the preview, but the initial clip of its stylesheet. */
  function ExportInitialRender(ad: SliderAd): (r: Layers)
    requires 0 <= ad.startPositionPct <= 100
    ensures r.view.dividerAt == ad.startPositionPct as real
    ensures r.view.afterVisible == SliderEngine.Interval(ad.startPositionPct as real, 100.0)
    ensures r.(view := Render(ad, ad.startPositionPct as real).view) == Render(ad, ad.startPositionPct as real)
  {
    Layers(SliderEngine.ExportInitialView(ad.startPositionPct as real), Labels(ad), Cta(ad), HandleLookFor(ad), Icon(ad))
  }
}
