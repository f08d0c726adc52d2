/** The carousel: modular index navigation, what the preview shows for an
    index (including a stale one left behind by a deletion), the autoplay
    schedule, and the editor's slide-list operations. */
module Carousel {
  import opened Wrappers
  import opened AdTypes

  // ----- navigation -----

  /** `goToNext`: `(prev + 1) % n`. The index is never negative, so the
      truncating `%` agrees with Dafny's. */
  function Next(i: nat, n: nat): (r: nat)
    requires n >= 1
    ensures r < n
    ensures i + 1 < n ==> r == i + 1
    ensures i == n - 1 ==> r == 0
  {
    (i + 1) % n
  }

  /** `goToPrev`: `(prev - 1 + n) % n`. */
  function Prev(i: nat, n: nat): (r: nat)
    requires n >= 1
    ensures r < n
    ensures 0 < i <= n ==> r == i - 1
    ensures i == 0 ==> r == n - 1
  {
    (i - 1 + n) % n
  }

  /** Next and prev undo each other on an in-range index. */
  lemma PrevUndoesNext(i: nat, n: nat)
    requires i < n
    ensures Prev(Next(i, n), n) == i
    ensures Next(Prev(i, n), n) == i
  {
  }

  /** `k` presses of next. */
  function NextIter(i: nat, n: nat, k: nat): (r: nat)
    requires n >= 1
    ensures k > 0 ==> r < n
  {
    if k == 0 then i else Next(NextIter(i, n, k - 1), n)
  }

  /** Below the wrap-around, each press moves one slide on. */
  lemma {:induction false} NextIterClimbs(i: nat, n: nat, k: nat)
    requires n >= 1 && i + k < n
    ensures NextIter(i, n, k) == i + k
  {
    if k > 0 {
      NextIterClimbs(i, n, k - 1);
    }
  }

  /** `n - i` presses from `i` land on the first slide. */
  lemma WrapsToFirst(i: nat, n: nat)
    requires i < n
    ensures NextIter(i, n, n - i) == 0
  {
    NextIterClimbs(i, n, n - i - 1);
  }

  lemma {:induction false} NextIterSplits(i: nat, n: nat, a: nat, b: nat)
    requires n >= 1
    ensures NextIter(i, n, a + b) == NextIter(NextIter(i, n, a), n, b)
  {
    if b > 0 {
      NextIterSplits(i, n, a, b - 1);
    }
  }

  /** `n` presses of next bring an in-range index back to itself. */
  lemma FullCycle(i: nat, n: nat)
    requires i < n
    ensures NextIter(i, n, n) == i
  {
    NextIterSplits(i, n, n - i, i);
    WrapsToFirst(i, n);
    NextIterClimbs(0, n, i);
  }

  // ----- what the preview shows -----

  datatype SlideFace = SlideFace(opacity: int, zIndex: int)

  const Shown := SlideFace(1, 1)
  const Hidden := SlideFace(0, 0)

  datatype CarouselView = CarouselView(
    faces: seq<SlideFace>,
    dots: seq<bool>,
    link: string,
    headline: string,
    caption: string,
    progressBar: bool)

  /** The slide `slides[i]`, or `undefined` past the end. */
  function CurrentSlide(ad: CarouselAd, i: nat): Option<CarouselSlide> {
    if i < |ad.slides| then Some(ad.slides[i]) else None
  }

  /** The preview for index `i`: each slide's face and dot compare against
      `i`; the link is the current slide's destination or `#` when that is
      empty or there is no current slide; an absent slide renders no text. */
  function View(ad: CarouselAd, i: nat): (v: CarouselView)
    ensures |v.faces| == |ad.slides| && |v.dots| == |ad.slides|
    ensures v.progressBar == ad.autoPlay
    ensures v.link != ""
  {
    var n := |ad.slides|;
    var cur := CurrentSlide(ad, i);
    CarouselView(
      seq(n, k => if k == i then Shown else Hidden),
      seq(n, k => k == i),
      if cur.Some? && cur.value.destinationUrl != "" then cur.value.destinationUrl else "#",
      if cur.Some? then cur.value.headline else "",
      if cur.Some? then cur.value.caption else "",
      ad.autoPlay)
  }

  function CountShown(faces: seq<SlideFace>): nat {
    if faces == [] then 0
    else CountShown(faces[..|faces| - 1]) + (if faces[|faces| - 1] == Shown then 1 else 0)
  }

  function CountLit(dots: seq<bool>): nat {
    if dots == [] then 0
    else CountLit(dots[..|dots| - 1]) + (if dots[|dots| - 1] then 1 else 0)
  }

  lemma {:induction false} OneHotCounts(n: nat, i: nat)
    ensures CountShown(seq(n, k => if k == i then Shown else Hidden)) == (if i < n then 1 else 0)
    ensures CountLit(seq(n, k => k == i)) == (if i < n then 1 else 0)
  {
    if n > 0 {
      OneHotCounts(n - 1, i);
      var faces := seq(n, k => if k == i then Shown else Hidden);
      var dots := seq(n, k => k == i);
      assert faces[..n - 1] == seq(n - 1, k => if k == i then Shown else Hidden);
      assert dots[..n - 1] == seq(n - 1, k => k == i);
    }
  }

  /** For an in-range index exactly one slide is shown on top and exactly
      one dot is lit, both at that index; for a stale index none is. */
  lemma ExactlyOneActive(ad: CarouselAd, i: nat)
    ensures var v := View(ad, i);
      && CountShown(v.faces) == (if i < |ad.slides| then 1 else 0)
      && CountLit(v.dots) == (if i < |ad.slides| then 1 else 0)
      && forall k :: 0 <= k < |ad.slides| ==> (v.faces[k] == Shown <==> v.dots[k]) && (v.dots[k] <==> k == i)
  {
    OneHotCounts(|ad.slides|, i);
  }

  /** A stale index degrades instead of failing: link `#`, no text. */
  lemma StaleIndexDegrades(ad: CarouselAd, i: nat)
    requires i >= |ad.slides|
    ensures View(ad, i).link == "#" && View(ad, i).headline == "" && View(ad, i).caption == ""
  {
  }

  /** An in-range index shows its slide's text and destination. */
  lemma CurrentSlideShown(ad: CarouselAd, i: nat)
    requires i < |ad.slides|
    ensures View(ad, i).headline == ad.slides[i].headline
    ensures View(ad, i).caption == ad.slides[i].caption
    ensures ad.slides[i].destinationUrl != "" ==> View(ad, i).link == ad.slides[i].destinationUrl
  {
  }

  /** The autoplay effect: with `autoPlay`, a timer of `playDuration`
      seconds that then advances; without it, nothing is scheduled. */
  datatype Timer = Timer(delayMs: int, target: nat)

  function Autoplay(ad: CarouselAd, i: nat): (t: Option<Timer>)
    requires |ad.slides| >= 1
    ensures t.Some? <==> ad.autoPlay
    ensures t.Some? ==> t.value.delayMs == ad.playDuration * 1000 && t.value.target < |ad.slides|
  {
    if ad.autoPlay then Some(Timer(ad.playDuration * 1000, Next(i, |ad.slides|))) else None
  }

  /** Left alone with autoplay on, the carousel comes back to its slide
      after one timer per slide. */
  lemma AutoplayCycles(ad: CarouselAd, i: nat)
    requires ad.autoPlay && i < |ad.slides|
    ensures Autoplay(ad, i).value.target == NextIter(i, |ad.slides|, 1)
    ensures NextIter(i, |ad.slides|, |ad.slides|) == i
  {
    FullCycle(i, |ad.slides|);
  }

  // ----- the editor's slide-list operations -----

  datatype SlideField = IdField | ImageField | HeadlineField | CaptionField | DestinationUrlField

  /** `slide[field]`. */
  function Get(s: CarouselSlide, f: SlideField): string {
    match f
    case IdField => s.id
    case ImageField => s.image
    case HeadlineField => s.headline
    case CaptionField => s.caption
    case DestinationUrlField => s.destinationUrl
  }

  /** `{ ...slide, [field]: value }`. */
  function SetField(s: CarouselSlide, f: SlideField, v: string): (r: CarouselSlide)
    ensures Get(r, f) == v
    ensures forall g :: g != f ==> Get(r, g) == Get(s, g)
  {
    match f
    case IdField => s.(id := v)
    case ImageField => s.(image := v)
    case HeadlineField => s.(headline := v)
    case CaptionField => s.(caption := v)
    case DestinationUrlField => s.(destinationUrl := v)
  }

  /** `handleUpdateSlide`: the field is set on every slide with that id;
      nothing else changes and no slide moves. */
  function UpdateSlide(slides: seq<CarouselSlide>, id: string, f: SlideField, v: string): (r: seq<CarouselSlide>)
    ensures |r| == |slides|
    ensures forall k :: 0 <= k < |r| && slides[k].id == id ==> Get(r[k], f) == v
    ensures forall k, g :: 0 <= k < |r| && g != f ==> Get(r[k], g) == Get(slides[k], g)
    ensures forall k :: 0 <= k < |r| && slides[k].id != id ==> r[k] == slides[k]
  {
    seq(|slides|, k requires 0 <= k < |slides| => if slides[k].id == id then SetField(slides[k], f, v) else slides[k])
  }

  /** The slide `handleAddSlide` appends, under a fresh id supplied by the
      caller. */
  function DefaultSlide(id: string): CarouselSlide {
    CarouselSlide(id,
      "https://storage.googleapis.com/adsplay-media-lab-assets/placeholder.png",
      "New Slide Headline", "New slide caption.", "https://google.com")
  }

  /** `handleAddSlide`. */
  function AddSlide(slides: seq<CarouselSlide>, id: string): (r: seq<CarouselSlide>)
    ensures |r| == |slides| + 1
    ensures r[..|slides|] == slides
    ensures r[|slides|] == DefaultSlide(id)
  {
    slides + [DefaultSlide(id)]
  }

  /** The number of slides carrying `id`. */
  function CountId(slides: seq<CarouselSlide>, id: string): (c: nat)
    ensures c <= |slides|
  {
    if slides == [] then 0 else (if slides[0].id == id then 1 else 0) + CountId(slides[1..], id)
  }

  /** `a` is `b` with some elements dropped, the rest in their order. */
  predicate IsSubsequence(a: seq<CarouselSlide>, b: seq<CarouselSlide>)
    decreases |b|
  {
    if a == [] then true
    else if b == [] then false
    else if a[0] == b[0] then IsSubsequence(a[1..], b[1..])
    else IsSubsequence(a, b[1..])
  }

  /** `slides.filter(slide => slide.id !== id)`. */
  function WithoutId(slides: seq<CarouselSlide>, id: string): (r: seq<CarouselSlide>)
    ensures forall s :: s in r <==> s in slides && s.id != id
    ensures |r| == |slides| - CountId(slides, id)
    ensures IsSubsequence(r, slides)
  {
    if slides == [] then []
    else
      var rest := WithoutId(slides[1..], id);
      if slides[0].id == id then
        assert rest != [] ==> rest[0] in rest && rest[0] != slides[0];
        rest
      else
        assert ([slides[0]] + rest)[1..] == rest;
        [slides[0]] + rest
  }

  /** `handleDeleteSlide`: a no-op on a one-slide (or empty) list;
      otherwise every slide with that id goes and the rest keep their
      order. */
  function DeleteSlide(slides: seq<CarouselSlide>, id: string): (r: seq<CarouselSlide>)
    ensures |slides| <= 1 ==> r == slides
    ensures |slides| > 1 ==>
      && (forall s :: s in r <==> s in slides && s.id != id)
      && |r| == |slides| - CountId(slides, id)
      && IsSubsequence(r, slides)
  {
    if |slides| > 1 then WithoutId(slides, id) else slides
  }

  lemma {:induction false} WithoutAbsentId(slides: seq<CarouselSlide>, id: string)
    requires forall k :: 0 <= k < |slides| ==> slides[k].id != id
    ensures WithoutId(slides, id) == slides
  {
    if slides != [] {
      WithoutAbsentId(slides[1..], id);
    }
  }

  /** Deleting an id no slide carries leaves the list as it was. */
  lemma DeleteAbsentIsNoop(slides: seq<CarouselSlide>, id: string)
    requires forall k :: 0 <= k < |slides| ==> slides[k].id != id
    ensures DeleteSlide(slides, id) == slides
  {
    WithoutAbsentId(slides, id);
  }

  predicate DistinctIds(slides: seq<CarouselSlide>) {
    forall j, k :: 0 <= j < k < |slides| ==> slides[j].id != slides[k].id
  }

  lemma {:induction false} DistinctCountAtMostOne(slides: seq<CarouselSlide>, id: string)
    requires DistinctIds(slides)
    ensures CountId(slides, id) <= 1
  {
    if slides != [] {
      DistinctCountAtMostOne(slides[1..], id);
      if slides[0].id == id {
        WithoutAbsentCount(slides[1..], id);
      }
    }
  }

  lemma {:induction false} WithoutAbsentCount(slides: seq<CarouselSlide>, id: string)
    requires forall k :: 0 <= k < |slides| ==> slides[k].id != id
    ensures CountId(slides, id) == 0
  {
    if slides != [] {
      WithoutAbsentCount(slides[1..], id);
    }
  }

  /** With distinct ids a non-empty list never becomes empty, and a
      deletion removes at most one slide. */
  lemma DeleteKeepsASlide(slides: seq<CarouselSlide>, id: string)
    requires DistinctIds(slides) && |slides| >= 1
    ensures |DeleteSlide(slides, id)| >= 1
    ensures |DeleteSlide(slides, id)| >= |slides| - 1
  {
    DistinctCountAtMostOne(slides, id);
  }

  /** `handleImageUpload`: the file read as a data URL becomes the matching
      slide's image; a failed read changes nothing. */
  function ImageUpload(slides: seq<CarouselSlide>, id: string, read: Option<string>): (r: seq<CarouselSlide>)
    ensures |r| == |slides|
    ensures read.None? ==> r == slides
    ensures read.Some? ==> forall k :: 0 <= k < |r| && slides[k].id == id ==> r[k].image == read.value
    ensures forall k :: 0 <= k < |r| ==>
      r[k].id == slides[k].id && r[k].headline == slides[k].headline
      && r[k].caption == slides[k].caption && r[k].destinationUrl == slides[k].destinationUrl
    ensures forall k :: 0 <= k < |r| && slides[k].id != id ==> r[k] == slides[k]
  {
    match read
    case None => slides
    case Some(url) =>
      var r := UpdateSlide(slides, id, ImageField, url);
      assert forall k :: 0 <= k < |r| ==>
        Get(r[k], IdField) == Get(slides[k], IdField) && Get(r[k], HeadlineField) == Get(slides[k], HeadlineField)
        && Get(r[k], CaptionField) == Get(slides[k], CaptionField)
        && Get(r[k], DestinationUrlField) == Get(slides[k], DestinationUrlField);
      r
  }

  /** The slide list once `handleImageUpload` finishes. The handler's
      closure captured `snapshot` before the file read began; when the read
      succeeds, the update is computed from that copy and written over the
      list as it is by then, `current`. A failed read rejects the promise
      and leaves `current` alone. */
  function UploadCommit(snapshot: seq<CarouselSlide>, current: seq<CarouselSlide>, id: string, read: Option<string>): (r: seq<CarouselSlide>)
    ensures read.None? ==> r == current
    ensures read.Some? ==> |r| == |snapshot|
    ensures read.Some? ==> forall k :: 0 <= k < |r| ==> r[k].id == snapshot[k].id
    ensures read.Some? ==> forall k :: 0 <= k < |r| && snapshot[k].id == id ==> r[k].image == read.value
    ensures read.Some? ==> forall k :: 0 <= k < |r| && snapshot[k].id != id ==> r[k] == snapshot[k]
  {
    if read.None? then current else ImageUpload(snapshot, id, read)
  }

  /** A slide added while the file is being read is gone once the upload
      finishes. */
  lemma AddDuringUploadIsLost(snapshot: seq<CarouselSlide>, newId: string, id: string, url: string)
    ensures var current := AddSlide(snapshot, newId);
      var r := UploadCommit(snapshot, current, id, Some(url));
      |r| == |snapshot| && |current| == |snapshot| + 1 && r != current
  {
  }

  /** A headline typed into another slide while the file is being read is
      overwritten by the snapshot's headline once the upload finishes. */
  lemma HeadlineEditDuringUploadIsLost(snapshot: seq<CarouselSlide>, k: nat, headline: string, id: string, url: string)
    requires k < |snapshot| && snapshot[k].id != id && snapshot[k].headline != headline
    ensures var current := UpdateSlide(snapshot, snapshot[k].id, HeadlineField, headline);
      var r := UploadCommit(snapshot, current, id, Some(url));
      current[k].headline == headline && r[k].headline != headline
  {
  }
}
