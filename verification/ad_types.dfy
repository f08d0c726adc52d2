/** The ad configuration records and the enumerations they draw on.
    Every record is an immutable snapshot: an edit in the form replaces it. */
module AdTypes {
  import opened Text
  import opened Wrappers

  /** Every `WxH` literal any ad type accepts. */
  datatype AdSize = S300x250 | S300x600 | S336x280 | S160x600 | S728x90 | S970x250 {

    /** The literal the source uses for this size. */
    function Text(): string {
      match this
      case S300x250 => "300x250"
      case S300x600 => "300x600"
      case S336x280 => "336x280"
      case S160x600 => "160x600"
      case S728x90 => "728x90"
      case S970x250 => "970x250"
    }

    function Width(): nat {
      match this
      case S300x250 => 300
      case S300x600 => 300
      case S336x280 => 336
      case S160x600 => 160
      case S728x90 => 728
      case S970x250 => 970
    }

    function Height(): nat {
      match this
      case S300x250 => 250
      case S300x600 => 600
      case S336x280 => 280
      case S160x600 => 600
      case S728x90 => 90
      case S970x250 => 250
    }

    predicate IsSliderSize() {
      !S970x250?
    }

    predicate IsVideoDisplaySize() {
      S300x250? || S336x280? || S300x600? || S970x250?
    }

    predicate IsCarouselSize() {
      S300x250? || S336x280? || S300x600?
    }
  }

  type SliderAdSize = s: AdSize | s.IsSliderSize() witness S300x250
  type VideoDisplayAdSize = s: AdSize | s.IsVideoDisplaySize() witness S300x250
  type CarouselAdSize = s: AdSize | s.IsCarouselSize() witness S300x250

  datatype Dims = Dims(width: nat, height: nat)

  /** `size.split('x').map(Number)` for a size of the form digits `x` digits;
      `None` for anything else (the source never produces one). */
  function ParseSize(s: string): Option<Dims> {
    if 'x' !in s then None
    else
      var w := BeforeFirst(s, 'x');
      var h := SecondPiece(s, 'x');
      if |w| > 0 && |h| > 0 && AllDigits(w) && AllDigits(h)
      then Some(Dims(ParseNat(w), ParseNat(h)))
      else None
  }

  /** Two digit strings joined by `x` split back into their two numbers. */
  lemma {:induction false} ParseJoinedSize(a: string, b: string)
    requires |a| > 0 && |b| > 0 && AllDigits(a) && AllDigits(b)
    ensures ParseSize(a + "x" + b) == Some(Dims(ParseNat(a), ParseNat(b)))
  {
    var s := a + "x" + b;
    assert 'x' !in a by {
      forall i | 0 <= i < |a| ensures a[i] != 'x' { assert IsDigit(a[i]); }
    }
    assert 'x' !in b by {
      forall i | 0 <= i < |b| ensures b[i] != 'x' { assert IsDigit(b[i]); }
    }
    assert s[|a|] == 'x';
    assert s[..|a|] == a;
    assert s[|a| + 1..] == b;
  }

  /** The container of every size measures the two numbers of its `WxH`
      literal. */
  lemma SizeTextParses(sz: AdSize)
    ensures ParseSize(sz.Text()) == Some(Dims(sz.Width(), sz.Height()))
  {
    var w := NatToString(sz.Width());
    var h := NatToString(sz.Height());
    TextJoinsDims(sz);
    ParseJoinedSize(w, h);
    ParseNatToString(sz.Width());
    ParseNatToString(sz.Height());
  }

  /** Each size literal is its width and height written in decimal around an `x`. */
  lemma TextJoinsDims(sz: AdSize)
    ensures sz.Text() == NatToString(sz.Width()) + "x" + NatToString(sz.Height())
  {
    match sz {
      case S300x250 => assert NatToString(300) == "300" && NatToString(250) == "250";
      case S300x600 => assert NatToString(300) == "300" && NatToString(600) == "600";
      case S336x280 => assert NatToString(336) == "336" && NatToString(280) == "280";
      case S160x600 => assert NatToString(160) == "160" && NatToString(600) == "600";
      case S728x90 => assert NatToString(728) == "728" && NatToString(90) == "90";
      case S970x250 => assert NatToString(970) == "970" && NatToString(250) == "250";
    }
  }

  datatype Template = Classic | Modern
  datatype HandleStyle = CircleHandle | PillHandle | LineHandle
  datatype HandleIcon = ArrowsIcon | DragIcon | NoIcon
  datatype LabelStyle = PillLabel | TagLabel | BadgeLabel | NoLabel
  datatype CtaStyle = SolidCta | GhostCta | GlassCta

  /** The before/after slider ad. Numeric fields are integers because every
      form control writes them through `parseInt`. */
  datatype SliderAd = SliderAd(
    size: SliderAdSize,
    template: Template,
    beforeImage: string,
    afterImage: string,
    handleStyle: HandleStyle,
    handleThickness: int,
    handleIcon: HandleIcon,
    dividerColor: string,
    dividerWidth: int,
    showLabels: bool,
    labelStyle: LabelStyle,
    beforeLabel: string,
    afterLabel: string,
    labelBg: string,
    labelColor: string,
    showCta: bool,
    ctaText: string,
    ctaStyle: CtaStyle,
    ctaBg: string,
    ctaColor: string,
    logoImage: string,
    logoPositionX: int,
    logoPositionY: int,
    logoZoom: int,
    headline: string,
    caption: string,
    fgColor: string,
    startPositionPct: int,
    hintAnimation: bool,
    hintLoop: bool,
    sweepDurationMs: int,
    beforeDestinationUrl: string,
    afterDestinationUrl: string,
    animateZoom: bool,
    zoomLevel: int,
    zoomDuration: int)

  /** The hybrid video + image ("soccer") ad. */
  datatype VideoDisplayAd = VideoDisplayAd(
    size: VideoDisplayAdSize,
    destinationUrl: string,
    videoContent: string,
    imageContent: string)

  datatype CarouselSlide = CarouselSlide(
    id: string,
    image: string,
    headline: string,
    caption: string,
    destinationUrl: string)

  datatype CarouselAd = CarouselAd(
    size: CarouselAdSize,
    slides: seq<CarouselSlide>,
    ctaText: string,
    ctaColor: string,
    ctaBgColor: string,
    progressBarColor: string,
    autoPlay: bool,
    playDuration: int)
}
