/** The hybrid video + image ("soccer") ad's size-to-layout table. It is
    written out three times in the source, in the live preview, in the
    export templater and in the form's upload hint, and the three must
    agree. */
module DisplayLayout {
  import opened Text
  import opened AdTypes

  /** `Math.round(w * (9 / 16))` for a non-negative integer width: the
      height of a 16:9 video, rounded half up. */
  function VideoHeight(w: nat): (h: nat)
    ensures 16 * h <= 9 * w + 8 < 16 * h + 16
  {
    (9 * w + 8) / 16
  }

  /** The integer formula is JavaScript's `Math.round` (floor of x + 1/2)
      applied to the exact product `w * 0.5625`. */
  lemma VideoHeightIsRounded(w: nat)
    ensures VideoHeight(w) == ((w as real) * (9.0 / 16.0) + 0.5).Floor
  {
    var h := VideoHeight(w);
    var x := (w as real) * (9.0 / 16.0) + 0.5;
    assert x == ((9 * w + 8) as real) / 16.0;
    assert (h as real) <= x < (h as real) + 1.0;
  }

  datatype Direction = Row | Column
  datatype Box = Box(width: nat, height: nat)
  datatype Layout = Layout(direction: Direction, video: Box, image: Box)

  /** The `switch (adData.size)` of the live preview's `getLayout`. */
  function PreviewLayout(size: string): Layout {
    if size == "970x250" then Layout(Row, Box(444, 250), Box(526, 250))
    else if size == "300x600" then
      var vh := VideoHeight(300);
      Layout(Column, Box(300, vh), Box(300, 600 - vh))
    else if size == "336x280" then
      var vh := VideoHeight(336);
      Layout(Column, Box(336, vh), Box(336, 280 - vh))
    else
      var vh := VideoHeight(300);
      Layout(Column, Box(300, vh), Box(300, 250 - vh))
  }

  /** The `switch (adData.size)` of the export templater. */
  function ExportLayout(size: string): Layout {
    if size == "970x250" then Layout(Row, Box(444, 250), Box(526, 250))
    else if size == "300x600" then
      var vh := VideoHeight(300);
      Layout(Column, Box(300, vh), Box(300, 600 - vh))
    else if size == "336x280" then
      var vh := VideoHeight(336);
      Layout(Column, Box(336, vh), Box(336, 280 - vh))
    else
      var vh := VideoHeight(300);
      Layout(Column, Box(300, vh), Box(300, 250 - vh))
  }

  /** The preview shows, for every size string, the layout the export writes. */
  lemma PreviewMatchesExport(size: string)
    ensures PreviewLayout(size) == ExportLayout(size)
  {
  }

  /** The two boxes exactly tile a `W x H` container: side by side at full
      height in a row, stacked at full width in a column. */
  predicate Tiles(l: Layout, d: Dims) {
    match l.direction
    case Row =>
      l.video.height == d.height && l.image.height == d.height
      && l.video.width + l.image.width == d.width
    case Column =>
      l.video.width == d.width && l.image.width == d.width
      && l.video.height + l.image.height == d.height
  }

  /** For every video-display size, the layout tiles the size's container
      (whose dimensions are the numbers of the size literal, by
      `AdTypes.SizeTextParses`): 444+526 = 970 in a row; 169+431 = 600,
      189+91 = 280 and 169+81 = 250 in a column. */
  lemma LayoutTilesContainer(sz: VideoDisplayAdSize)
    ensures Tiles(ExportLayout(sz.Text()), Dims(sz.Width(), sz.Height()))
    ensures sz.S970x250? ==> ExportLayout(sz.Text()) == Layout(Row, Box(444, 250), Box(526, 250))
    ensures sz.S300x600? ==> ExportLayout(sz.Text()) == Layout(Column, Box(300, 169), Box(300, 431))
    ensures sz.S336x280? ==> ExportLayout(sz.Text()) == Layout(Column, Box(336, 189), Box(336, 91))
    ensures sz.S300x250? ==> ExportLayout(sz.Text()) == Layout(Column, Box(300, 169), Box(300, 81))
  {
    match sz {
      case S970x250 =>
      case S300x600 =>
        assert "300x600"[0] != "970x250"[0];
      case S336x280 =>
        assert "336x280"[0] != "970x250"[0] && "336x280"[1] != "300x600"[1];
      case S300x250 =>
        assert "300x250"[0] != "970x250"[0] && "300x250"[4] != "300x600"[4];
        assert "300x250"[1] != "336x280"[1];
    }
  }

  /** A size string outside the table falls through to the 300x250 layout. */
  lemma UnknownSizeFallsBack(size: string)
    requires size != "970x250" && size != "300x600" && size != "336x280"
    ensures ExportLayout(size) == ExportLayout("300x250")
    ensures ExportLayout(size) == Layout(Column, Box(300, 169), Box(300, 81))
  {
  }

  /** The form's `imageSizeHints` table: the image dimensions to upload. */
  function ImageSizeHint(sz: VideoDisplayAdSize): string {
    match sz
    case S970x250 => "526px x 250px"
    case S300x600 => "300px x 431px"
    case S336x280 => "336px x 91px"
    case S300x250 => "300px x 81px"
  }

  /** How a hint names a box: `<w>px x <h>px`. */
  function HintText(b: Box): string {
    NatToString(b.width) + "px x " + NatToString(b.height) + "px"
  }

  /** Every hint names exactly the image region of its size's layout. */
  lemma HintMatchesImageRegion(sz: VideoDisplayAdSize)
    ensures ImageSizeHint(sz) == HintText(ExportLayout(sz.Text()).image)
  {
    match sz {
      case S970x250 => HintRow970x250();
      case S300x600 => HintRow300x600();
      case S336x280 => HintRow336x280();
      case S300x250 => HintRow300x250();
    }
  }

  lemma HintRow970x250()
    ensures ImageSizeHint(S970x250) == HintText(ExportLayout(S970x250.Text()).image)
  {
    assert ExportLayout(S970x250.Text()).image == Box(526, 250);
    assert NatToString(526) == "526" && NatToString(250) == "250";
  }

  lemma HintRow300x600()
    ensures ImageSizeHint(S300x600) == HintText(ExportLayout(S300x600.Text()).image)
  {
    assert ExportLayout(S300x600.Text()).image == Box(300, 431);
    assert NatToString(300) == "300" && NatToString(431) == "431";
  }

  lemma HintRow336x280()
    ensures ImageSizeHint(S336x280) == HintText(ExportLayout(S336x280.Text()).image)
  {
    assert ExportLayout(S336x280.Text()).image == Box(336, 91);
    assert NatToString(336) == "336" && NatToString(91) == "91";
  }

  lemma HintRow300x250()
    ensures ImageSizeHint(S300x250) == HintText(ExportLayout(S300x250.Text()).image)
  {
    assert ExportLayout(S300x250.Text()).image == Box(300, 81);
    assert NatToString(300) == "300" && NatToString(81) == "81";
  }
}
