/** The export service's decisions: the click-tag macro, the zip-or-single-
    document branch of the video + image export, the asset file names, the
    data-URL header parse, and "download only if every asset step
    succeeded". Browser services (`atob`, `fetch`, the zip generator) are
    parameters standing for their success or failure. */
module ExportService {
  import opened Wrappers
  import opened Text
  import opened AdTypes
  import DisplayLayout

  datatype Platform = Dv360 | Gam

  const GamMacro: string := "%%CLICK_URL_UNESC%%"
  const Dv360Macro: string := "{{PUB_CLKT}}"

  /** The click-tag macro for a platform. */
  function ClicktagMacro(p: Platform): (m: string)
    ensures m == GamMacro <==> p.Gam?
    ensures m == Dv360Macro <==> p.Dv360?
  {
    if p.Gam? then GamMacro else Dv360Macro
  }

  /** The macro prefixed verbatim to the destination URL. */
  function Clicktag(p: Platform, url: string): (r: string)
    ensures StartsWith(r, ClicktagMacro(p)) && r[|ClicktagMacro(p)|..] == url
  {
    ClicktagMacro(p) + url
  }

  /** Reads a click tag back into its platform and destination. */
  function ParseClicktag(s: string): Option<(Platform, string)> {
    if StartsWith(s, GamMacro) then Some((Gam, s[|GamMacro|..]))
    else if StartsWith(s, Dv360Macro) then Some((Dv360, s[|Dv360Macro|..]))
    else None
  }

  /** A click tag determines both its platform and its destination. */
  lemma ClicktagRoundTrip(p: Platform, url: string)
    ensures ParseClicktag(Clicktag(p, url)) == Some((p, url))
  {
    var s := Clicktag(p, url);
    if p.Dv360? {
      assert s[0] == '{' && GamMacro[0] == '%';
    }
  }

  /** The links of an exported slider: both halves, and the CTA when shown,
      always carry the `gam` macro; there is no platform choice. */
  datatype SliderLinks = SliderLinks(before: string, after: string, cta: Option<string>)

  function SliderExportLinks(ad: SliderAd): (r: SliderLinks)
    ensures r.before == Clicktag(Gam, ad.beforeDestinationUrl)
    ensures r.after == Clicktag(Gam, ad.afterDestinationUrl)
    ensures r.cta.Some? <==> ad.showCta && ad.template.Classic?
    ensures r.cta.Some? ==> r.cta.value == r.after
  {
    var before := GamMacro + ad.beforeDestinationUrl;
    var after := GamMacro + ad.afterDestinationUrl;
    SliderLinks(before, after, if ad.showCta && ad.template.Classic? then Some(after) else None)
  }

  // ----- asset file names -----

  datatype AssetKind = VideoAsset | ImageAsset

  function DataPrefix(k: AssetKind): string {
    if k.VideoAsset? then "data:video/" else "data:image/"
  }

  function DefaultExtension(k: AssetKind): string {
    if k.VideoAsset? then "mp4" else "png"
  }

  function FileStem(k: AssetKind): string {
    if k.VideoAsset? then "video" else "image"
  }

  /** The extension expression before its `|| default`: for a data URL of
      the right media type, `substring(indexOf('/') + 1, indexOf(';'))`;
      otherwise the last `.`-segment up to any `?`. */
  function RawExtension(content: string, k: AssetKind): string {
    if StartsWith(content, DataPrefix(k))
    then JsSubstring(content, IndexOf(content, '/') + 1, IndexOf(content, ';'))
    else BeforeFirst(AfterLast(content, '.'), '?')
  }

  /** `(...) || 'mp4'` / `(...) || 'png'`: the raw extension unless it is
      empty, then the kind's default. */
  function Extension(content: string, k: AssetKind): (e: string)
    ensures |e| > 0
    ensures RawExtension(content, k) != "" ==> e == RawExtension(content, k)
    ensures RawExtension(content, k) == "" ==> e == DefaultExtension(k)
  {
    var raw := RawExtension(content, k);
    if raw == "" then DefaultExtension(k) else raw
  }

  /** `video.<ext>` / `image.<ext>`. */
  function AssetFileName(content: string, k: AssetKind): (n: string)
    ensures StartsWith(n, FileStem(k) + ".")
    ensures n[|FileStem(k)| + 1..] == Extension(content, k)
  {
    var stem := FileStem(k);
    var ext := Extension(content, k);
    DottedParts(stem, ext);
    stem + ("." + ext)
  }

  /** `stem.ext` splits back into `stem.` and `ext`. */
  lemma DottedParts(stem: string, ext: string)
    ensures |stem + ("." + ext)| == |stem| + 1 + |ext|
    ensures (stem + ("." + ext))[..|stem| + 1] == stem + "."
    ensures (stem + ("." + ext))[|stem| + 1..] == ext
  {
  }

  /** In a data-URL prefix the only `/` is its last character. */
  lemma PrefixSlash(content: string, k: AssetKind)
    requires StartsWith(content, DataPrefix(k))
    ensures IndexOf(content, '/') == |DataPrefix(k)| - 1
    ensures ';' !in content[..|DataPrefix(k)|]
  {
    var p := DataPrefix(k);
    assert content[..|p|] == p;
    assert content[|p| - 1] == '/';
    assert '/' !in content[..|p| - 1] by {
      assert content[..|p| - 1] == p[..|p| - 1];
    }
  }

  /** For a data URL of the asset's media type carrying a `;`, the extension
      is the subtype: the text after the prefix's `/` up to the first `;`
      (or the default when that is empty). */
  lemma DataUrlExtension(content: string, k: AssetKind)
    requires StartsWith(content, DataPrefix(k)) && ';' in content
    ensures |DataPrefix(k)| <= IndexOf(content, ';')
    ensures var sub := content[|DataPrefix(k)|..IndexOf(content, ';')];
      Extension(content, k) == if sub == "" then DefaultExtension(k) else sub
  {
    PrefixSlash(content, k);
    var semi := IndexOf(content, ';');
    var p := DataPrefix(k);
    assert forall m :: 0 <= m < |p| ==> content[m] == p[m];
  }

  /** A data URL of the asset's media type with no `;` at all (legal in
      RFC 2397, section 3, which makes `;base64` optional): `substring`
      swaps its arguments and the "extension" is the prefix itself. */
  lemma DataUrlWithoutSemicolon(content: string, k: AssetKind)
    requires StartsWith(content, DataPrefix(k)) && ';' !in content
    ensures Extension(content, k) == DataPrefix(k)
  {
    PrefixSlash(content, k);
    assert content[..|DataPrefix(k)|] == DataPrefix(k);
  }

  /** `raw` is the text of `content` from `j`, which follows the last `.`
      (or is the start when there is none), up to a `?` or the end. */
  predicate LastSegmentAt(content: string, raw: string, j: int) {
    && 0 <= j <= |content| - |raw|
    && (j == 0 || content[j - 1] == '.')
    && '.' !in content[j..]
    && content[j..j + |raw|] == raw
    && (j + |raw| == |content| || content[j + |raw|] == '?')
  }

  /** For any other reference the extension is a final run of the text
      after the last `.`, cut at the first `?`. */
  lemma UrlExtensionIsLastSegment(content: string, k: AssetKind)
    requires !StartsWith(content, DataPrefix(k))
    ensures '.' !in RawExtension(content, k) && '?' !in RawExtension(content, k)
    ensures exists j :: LastSegmentAt(content, RawExtension(content, k), j)
  {
    var seg := AfterLast(content, '.');
    var raw := BeforeFirst(seg, '?');
    assert RawExtension(content, k) == raw;
    SegmentFacts(content, seg, raw);
  }

  lemma SegmentFacts(content: string, seg: string, raw: string)
    requires seg == AfterLast(content, '.') && raw == BeforeFirst(seg, '?')
    ensures '.' !in raw
    ensures LastSegmentAt(content, raw, |content| - |seg|)
  {
    var j := |content| - |seg|;
    assert content[j..] == seg;
    assert '.' !in raw by {
      forall i | 0 <= i < |raw| ensures raw[i] != '.' { assert raw[i] == seg[i]; }
    }
    assert content[j..j + |raw|] == raw by {
      assert content[j..j + |raw|] == seg[..|raw|];
    }
    if '?' in seg {
      assert content[j + |raw|] == seg[|raw|];
    }
  }

  /** The first characters of a file name are those of its stem. */
  lemma NameHead(content: string, k: AssetKind, j: nat)
    requires j < |FileStem(k)|
    ensures AssetFileName(content, k)[j] == FileStem(k)[j]
  {
    var stem := FileStem(k);
    var rest := "." + Extension(content, k);
    assert AssetFileName(content, k) == stem + rest;
  }

  /** The three zip entries never collide: the two asset names differ from
      each other and from `index.html`. */
  lemma AssetNamesDistinct(video: string, image: string)
    ensures AssetFileName(video, VideoAsset) != AssetFileName(image, ImageAsset)
    ensures AssetFileName(video, VideoAsset) != "index.html"
    ensures AssetFileName(image, ImageAsset) != "index.html"
  {
    var v := AssetFileName(video, VideoAsset);
    var i := AssetFileName(image, ImageAsset);
    var index := "index.html";
    NameHead(video, VideoAsset, 0);
    NameHead(image, ImageAsset, 0);
    NameHead(image, ImageAsset, 1);
    DiffersAt(v, i, 0);
    DiffersAt(v, index, 0);
    DiffersAt(i, index, 1);
  }

  /** Two texts that differ at a position both reach are different. */
  lemma DiffersAt(x: string, y: string, i: nat)
    requires i < |x| && i < |y| && x[i] != y[i]
    ensures x != y
  {
  }

  // ----- data URLs -----

  /** A character the regular expression `.` does not match. */
  predicate LineTerminator(c: char) {
    c == '\n' || c == '\r' || c == '\U{2028}' || c == '\U{2029}'
  }

  /** No `;` and no line terminator in `h[a..b]`. */
  predicate Clean(h: string, a: nat, b: nat)
    requires a <= b <= |h|
  {
    forall m :: a <= m < b ==> h[m] != ';' && !LineTerminator(h[m])
  }

  /** `/:(.*?);/` can match with its `:` at `a` and its `;` at `b`. */
  predicate MatchAt(h: string, a: int, b: int) {
    0 <= a < b < |h| && h[a] == ':' && h[b] == ';' && Clean(h, a + 1, b)
  }

  /** The lazy `.*?;` from position `k`: the first `;`, unless a line
      terminator or the end comes first. */
  function ScanToSemicolon(h: string, k: nat): (r: Option<nat>)
    requires k <= |h|
    ensures r.Some? ==> k <= r.value < |h| && h[r.value] == ';' && Clean(h, k, r.value)
    ensures r.None? ==> forall b :: k <= b < |h| && h[b] == ';' ==> !Clean(h, k, b)
    decreases |h| - k
  {
    if k == |h| then None
    else if h[k] == ';' then Some(k)
    else if LineTerminator(h[k]) then None
    else ScanToSemicolon(h, k + 1)
  }

  /** The leftmost match of `/:(.*?);/` starting at or after `i`, and its
      capture group. */
  function MimeFrom(h: string, i: nat): (r: Option<string>)
    requires i <= |h|
    ensures r.None? ==> forall a, b :: i <= a ==> !MatchAt(h, a, b)
    ensures r.Some? ==> exists a, b ::
      && i <= a && MatchAt(h, a, b) && r.value == h[a + 1..b]
      && forall a', b' :: i <= a' < a ==> !MatchAt(h, a', b')
    decreases |h| - i
  {
    if i == |h| then None
    else if h[i] == ':' && ScanToSemicolon(h, i + 1).Some? then
      var b := ScanToSemicolon(h, i + 1).value;
      assert MatchAt(h, i, b);
      Some(h[i + 1..b])
    else
      var r := MimeFrom(h, i + 1);
      assert forall b :: !MatchAt(h, i, b);
      r
  }

  /** The mime type a data-URL header declares. */
  function MimeOf(header: string): Option<string> {
    MimeFrom(header, 0)
  }

  /** The match is the shortest one at its `:`: its capture holds no `;`
      and no line break, so no other `;` could end it. */
  lemma MatchEndIsUnique(h: string, a: int, b: int, b': int)
    requires MatchAt(h, a, b) && MatchAt(h, a, b')
    ensures b == b'
  {
  }

  /** A decoded byte string as bytes: one per character, each cut to its
      low eight bits as a `Uint8Array` store does. */
  function ToBytes(bstr: string): (bytes: seq<int>)
    ensures |bytes| == |bstr|
    ensures forall k :: 0 <= k < |bytes| ==> 0 <= bytes[k] < 256
    ensures forall k :: 0 <= k < |bstr| ==> bytes[k] == (bstr[k] as int) % 256
  {
    seq(|bstr|, k requires 0 <= k < |bstr| => (bstr[k] as int) % 256)
  }

  /** The `while (n--) u8arr[n] = bstr.charCodeAt(n)` loop. */
  method FillBytes(bstr: string) returns (bytes: seq<int>)
    ensures |bytes| == |bstr|
    ensures forall k :: 0 <= k < |bstr| ==> bytes[k] == (bstr[k] as int) % 256
    ensures bytes == ToBytes(bstr)
  {
    var u8 := new int[|bstr|](_ => 0);
    var n := |bstr|;
    while n > 0
      invariant 0 <= n <= |bstr|
      invariant forall k :: n <= k < |bstr| ==> u8[k] == (bstr[k] as int) % 256
    {
      n := n - 1;
      u8[n] := (bstr[n] as int) % 256;
    }
    bytes := u8[..];
  }

  datatype Blob = Blob(mime: string, bytes: seq<int>)

  /** Base64 decoding: the decoded byte string, or `None` where `atob`
      throws. */
  type Atob = string -> Option<string>

  /** `dataURLtoBlob`: `null` when there is no `,` or the header has no
      `:...;`; otherwise the header's mime type and the decoded bytes of the
      text after the first `,` (up to any second `,`). */
  function DataUrlToBlob(url: string, atob: Atob): (r: Option<Blob>)
    ensures ',' !in url ==> r.None?
    ensures ',' in url && MimeOf(BeforeFirst(url, ',')).None? ==> r.None?
    ensures r.Some? ==>
      && ',' in url
      && MimeOf(BeforeFirst(url, ',')) == Some(r.value.mime)
      && atob(SecondPiece(url, ',')).Some?
      && r.value.bytes == ToBytes(atob(SecondPiece(url, ',')).value)
    ensures ',' in url && MimeOf(BeforeFirst(url, ',')).Some? && atob(SecondPiece(url, ',')).Some? ==> r.Some?
  {
    if ',' !in url then None
    else
      match MimeOf(BeforeFirst(url, ','))
      case None => None
      case Some(mime) =>
        match atob(SecondPiece(url, ','))
        case None => None
        case Some(bstr) => Some(Blob(mime, ToBytes(bstr)))
  }

  // ----- the video + image export -----

  /** The structured content of the exported video + image document. */
  datatype DisplayDoc = DisplayDoc(
    size: VideoDisplayAdSize,
    clicktag: string,
    videoSrc: string,
    imageSrc: string,
    layout: DisplayLayout.Layout)

  /** `createVideoDisplayAdHtml(ad, platform, videoFileName, imageFileName)`;
      an absent file name is the empty string, and falls back to the asset
      reference itself. */
  function DisplayDocFor(ad: VideoDisplayAd, p: Platform, videoFile: string, imageFile: string): (d: DisplayDoc)
    ensures d.clicktag == Clicktag(p, ad.destinationUrl)
    ensures d.videoSrc == (if videoFile != "" then videoFile else ad.videoContent)
    ensures d.imageSrc == (if imageFile != "" then imageFile else ad.imageContent)
    ensures d.layout == DisplayLayout.ExportLayout(ad.size.Text())
  {
    DisplayDoc(
      ad.size,
      ClicktagMacro(p) + ad.destinationUrl,
      if videoFile != "" then videoFile else ad.videoContent,
      if imageFile != "" then imageFile else ad.imageContent,
      DisplayLayout.ExportLayout(ad.size.Text()))
  }

  datatype ZipContent = HtmlFile(doc: DisplayDoc) | BlobFile(blob: Blob)
  datatype ZipEntry = ZipEntry(name: string, content: ZipContent)

  /** What the user ends up with: a downloaded zip, a downloaded single
      document, or the failure alert and nothing downloaded. */
  datatype Download =
    | ZipDownload(fileName: string, entries: seq<ZipEntry>)
    | HtmlDownload(fileName: string, doc: DisplayDoc)
    | Alerted

  /** A remote asset fetched as a blob, or `None` when the fetch fails or
      the response is not ok. */
  type Fetch = string -> Option<Blob>

  /** A zip is attempted only for dv360 with both assets present. */
  predicate ZipAttempted(ad: VideoDisplayAd, p: Platform) {
    p.Dv360? && ad.videoContent != "" && ad.imageContent != ""
  }

  /** One asset step: a data URL is converted in place, anything else is
      fetched. */
  function LoadAsset(content: string, atob: Atob, fetch: Fetch): Option<Blob> {
    if StartsWith(content, "data:") then DataUrlToBlob(content, atob) else fetch(content)
  }

  /** `exportVideoDisplayAd(ad, platform)`, with `zipGenerates` standing for
      the zip generator's success. */
  function ExportVideoDisplayAd(ad: VideoDisplayAd, p: Platform, atob: Atob, fetch: Fetch, zipGenerates: bool): (r: Download)
    ensures r.HtmlDownload? <==> !ZipAttempted(ad, p)
    ensures r.HtmlDownload? ==>
      && r.doc.clicktag == Clicktag(Gam, ad.destinationUrl)
      && r.doc.size == ad.size
      && r.doc.videoSrc == ad.videoContent
      && r.doc.imageSrc == ad.imageContent
      && r.doc.layout == DisplayLayout.ExportLayout(ad.size.Text())
      && r.fileName == "video_display_ad_" + ad.size.Text() + "_gam.html"
    ensures r.ZipDownload? <==>
      && ZipAttempted(ad, p)
      && LoadAsset(ad.videoContent, atob, fetch).Some?
      && LoadAsset(ad.imageContent, atob, fetch).Some?
      && zipGenerates
    ensures r.ZipDownload? ==>
      && r.fileName == "video_display_ad_" + ad.size.Text() + "_dv360.zip"
      && |r.entries| == 3
      && r.entries[0].name == "index.html"
      && r.entries[1] == ZipEntry(AssetFileName(ad.videoContent, VideoAsset), BlobFile(LoadAsset(ad.videoContent, atob, fetch).value))
      && r.entries[2] == ZipEntry(AssetFileName(ad.imageContent, ImageAsset), BlobFile(LoadAsset(ad.imageContent, atob, fetch).value))
      && r.entries[0].content.HtmlFile?
      && r.entries[0].content.doc.clicktag == Clicktag(Dv360, ad.destinationUrl)
      && r.entries[0].content.doc.size == ad.size
      && r.entries[0].content.doc.layout == DisplayLayout.ExportLayout(ad.size.Text())
      && r.entries[0].content.doc.videoSrc == r.entries[1].name
      && r.entries[0].content.doc.imageSrc == r.entries[2].name
  {
    if ZipAttempted(ad, p) then
      var videoName := AssetFileName(ad.videoContent, VideoAsset);
      var imageName := AssetFileName(ad.imageContent, ImageAsset);
      var doc := DisplayDocFor(ad, Dv360, videoName, imageName);
      match LoadAsset(ad.videoContent, atob, fetch)
      case None => Alerted
      case Some(videoBlob) =>
        match LoadAsset(ad.imageContent, atob, fetch)
        case None => Alerted
        case Some(imageBlob) =>
          if !zipGenerates then Alerted
          else ZipDownload(
            "video_display_ad_" + ad.size.Text() + "_dv360.zip",
            [ZipEntry("index.html", HtmlFile(doc)),
             ZipEntry(videoName, BlobFile(videoBlob)),
             ZipEntry(imageName, BlobFile(imageBlob))])
    else
      HtmlDownload("video_display_ad_" + ad.size.Text() + "_gam.html", DisplayDocFor(ad, Gam, "", ""))
  }

  /** A dv360 request is served as the single `gam` document whenever one of
      the two assets is missing. */
  lemma Dv360FallsBackToGam(ad: VideoDisplayAd, atob: Atob, fetch: Fetch, zipGenerates: bool)
    requires ad.videoContent == "" || ad.imageContent == ""
    ensures var r := ExportVideoDisplayAd(ad, Dv360, atob, fetch, zipGenerates);
      r.HtmlDownload? && StartsWith(r.doc.clicktag, GamMacro)
  {
  }

  /** Every download the zip branch offers holds three distinctly named
      entries; a failing asset step leaves nothing downloaded. */
  lemma ZipIsAllOrNothing(ad: VideoDisplayAd, atob: Atob, fetch: Fetch, zipGenerates: bool)
    requires ZipAttempted(ad, Dv360)
    ensures var r := ExportVideoDisplayAd(ad, Dv360, atob, fetch, zipGenerates);
      && (r.ZipDownload? || r.Alerted?)
      && (r.ZipDownload? ==>
            && r.entries[0].name != r.entries[1].name
            && r.entries[0].name != r.entries[2].name
            && r.entries[1].name != r.entries[2].name)
  {
    var r := ExportVideoDisplayAd(ad, Dv360, atob, fetch, zipGenerates);
    AssetNamesDistinct(ad.videoContent, ad.imageContent);
    if r.ZipDownload? {
      assert r.entries[0].name == "index.html";
      assert r.entries[1].name == AssetFileName(ad.videoContent, VideoAsset);
      assert r.entries[2].name == AssetFileName(ad.imageContent, ImageAsset);
    }
  }
}
