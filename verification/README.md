# Ad creator core, modelled in Dafny

This project models the logic of a browser-based ad creator. The code under
study is TypeScript and React. The model covers these parts:

- **Before/after slider.** There are two drivers of the slider. The live
  preview is a React component. The exported script is a small piece of
  JavaScript embedded in the downloadable HTML. Both are one transition
  function (`SliderEngine.Step`), and a `Variant` parameter tells them
  apart. The function covers pointer drag, click suppression after a drag,
  and the hint sweep animation.
- **Slider look.** `SliderRender` holds the rules that decide the look of
  the slider: labels, call-to-action button, handle, icon, clip of the
  "after" layer. `Color.HexToRgba` is the hex-to-rgba helper they use.
- **Video + image display ad.** `DisplayLayout` holds the split of the
  container into a video box and an image box. `ExportService` holds the
  export: the click-tag macro, the choice between a zip and a single
  document, the asset file names, the data-URL parse and the
  all-or-nothing zip download.
- **Carousel.** `Carousel` covers modular navigation, what the preview
  shows for an index (also for a stale index), the autoplay schedule, and
  the editor's slide-list operations.

Browser services are parameters of the model. `atob`, `fetch`, the zip
generator, the `FileReader`, `Math.sin` and the container's bounding box
each stand only for their success, failure or value. JavaScript
semantics are written out where they matter:

- `%` truncates toward zero.
- `substring` clamps its arguments and swaps them.
- `split`/`pop` and `indexOf` are modelled as the source uses them.
- `Math.round` is rounding half up.
- `Uint8Array` keeps the low eight bits of each value.
- In the regular expression `/:(.*?);/`, `.` does not match line
  terminators, and the leftmost match wins.
- `!startTime` is true for both "unset" and `0`.

Where the system's documentation and its code disagree, the model
follows the code:

- During a live drag the "after" layer is visible over `[0, pos]`, to the
  left of the divider (`clip-path: inset(0 (100-pos)% 0 0)`). The exported
  document's initial CSS instead clips from the left, so before the first
  handle press or sweep frame the visible side is `[start, 100]`.
  `SliderEngine.ExportInitialClipMismatch` states this.
- The exported script arms a drag only when the press lands on the handle.
  The live preview arms a drag on a press anywhere in the container.
- The hint sweep amplitude is 50 in the live preview and 30 in the export.

## Model

| member | source | states |
|---|---|---|
| Text.NatToString | services/exportService.ts:414 | the decimal text of a number is non-empty and all digits |
| Text.ParseNatToString | services/exportService.ts:414 | `Number` applied to the decimal text of `n` gives back `n` |
| Text.IndexOf | services/exportService.ts:489 | `indexOf` is -1 exactly when the character is absent; otherwise it is the first position holding it |
| Text.LastIndexOf | services/exportService.ts:490 | the last occurrence: -1 exactly when absent, and no later position holds the character |
| Text.BeforeFirst | services/exportService.ts:490 | `split(c)[0]` is a prefix free of `c`; the character `c` follows it when `c` occurs, and otherwise it is the whole text |
| Text.AfterLast | services/exportService.ts:490 | `split(c).pop()` is a suffix free of `c`; a `c` precedes it when `c` occurs, and otherwise it is the whole text |
| Text.SecondPiece | services/exportService.ts:399-404 | `split(c)[1]` is free of `c` and starts right after the first `c` |
| Text.JsSubstring | services/exportService.ts:489 | `substring(a, b)` is the slice between the two indices in either order; a negative end gives the prefix up to the start |
| AdTypes.ParseJoinedSize | services/exportService.ts:414 | `"<digits>x<digits>".split('x').map(Number)` returns the two numbers |
| AdTypes.SizeTextParses | types.ts:10 | every size literal parses to that size's width and height |
| AdTypes.TextJoinsDims | types.ts:10 | every size literal is its width and height joined by `x` |
| Color.HexToRgba | services/exportService.ts:53-61 | non-hex input passes through unchanged; `#rgb`/`#rrggbb` gives channels in 0..255 that are the digit pairs of the expanded form, and keeps the alpha |
| Color.ShiftsReadPairs | services/exportService.ts:58-60 | `(c >> 16) & 255`, `(c >> 8) & 255` and `c & 255` read the three digit pairs of a six-digit value |
| Color.SixDigitValue | services/exportService.ts:57 | the value of six hex digits is the pairs weighted by 65536, 256 and 1 |
| Color.ShortFormDoubles | services/exportService.ts:55-56 | `#rgb` is the same colour as `#rrggbb` |
| Color.PairValue | components/SliderPreview.tsx:11-19 | a digit pair is a byte value |
| SliderEngine.Clamp | components/SliderPreview.tsx:38 | the result is in [0, 100]; values inside are kept, values outside go to the nearer bound |
| SliderEngine.PositionAt | components/SliderPreview.tsx:34-40 | the position is in [0, 100]; it is 0 left of the container and 100 right of it; inside, position times width equals the offset times 100 |
| SliderEngine.PositionOfClientX | services/exportService.ts:315-324 | the export's sweep maps a percentage to a client x and back, which gives the clamped percentage |
| SliderEngine.PositionMonotone | components/SliderPreview.tsx:34-40 | a pointer further right never puts the divider further left |
| SliderEngine.Initial | components/SliderPreview.tsx:23 | the initial state sits at the start position, not dragging; a first sweep frame is pending exactly when the hint is on |
| SliderEngine.SweepFrame | components/SliderPreview.tsx:130-148 | a frame never changes the drag flags; in the export, a frame during a drag only forgets the origin; otherwise the origin is the first frame's time (a time of 0 counts as unset); while the sweep is unfinished or looping the divider goes to the clamped wave target and a follow-up frame is requested; afterwards it goes back to the start and the sweep stops |
| SliderEngine.Step | components/SliderPreview.tsx:46-156 | an arming press starts a drag at the pointer and cancels the sweep; a non-arming press does nothing; a move changes the state only while dragging, and then marks a drag; a release stops dragging and changes nothing else; clicks change nothing; an edit of the hint fields changes nothing in the export, and in the live preview resets the position when the start changed and restarts the sweep (with a fresh origin) exactly when the hint is on and no drag runs |
| SliderEngine.NonZeroDurationRunsAll | components/SliderPreview.tsx:130-148 | with a non-zero duration every event sequence can be stepped: only a continuing frame with duration 0 divides by zero |
| SliderEngine.FramelessRunDefined | components/SliderPreview.tsx:46-70 | a sequence without frames can always be stepped, whatever the duration |
| SliderEngine.QuietRunDefined | components/SliderPreview.tsx:130-148 | with no frame pending and no edit to request one, every sequence can be stepped, whatever the duration |
| SliderEngine.InitialInvariant | components/SliderPreview.tsx:23 | for a well-formed ad, the initial state satisfies the invariant |
| SliderEngine.StepPreservesInvariant | services/exportService.ts:326-385 | every event keeps the divider in [0, 100] and never has a frame pending during a drag |
| SliderEngine.RunPreservesInvariant | components/SliderPreview.tsx:46-156 | every reachable state satisfies the invariant |
| SliderEngine.HasDraggedAfter | components/SliderPreview.tsx:59-65 | after events with no arming press, "has dragged" holds exactly when it held before, or a move came during the drag before any release |
| SliderEngine.ClickSuppressedIffMoved | components/SliderPreview.tsx:113-118 | after a press on the handle, the click that follows is cancelled exactly when a move came before the release |
| SliderEngine.FramesInert | components/SliderPreview.tsx:51-53 | with no sweep pending and no reconfiguration, animation frames have no effect |
| SliderEngine.PressHaltsSweep | services/exportService.ts:326-333 | after an arming press, the sweep never resumes on its own |
| SliderEngine.SweepEndsAtStart | components/SliderPreview.tsx:142-147 | a non-looping sweep that has run its duration snaps back to the start position and stops |
| SliderEngine.SweepStaysNearStart | components/SliderPreview.tsx:136-139 | each sweep frame stays within the variant's amplitude of the start position |
| SliderEngine.OneSweepReturnsToStart | services/exportService.ts:362-385 | from the initial state, two frames a duration apart leave a non-looping sweep at the start with nothing pending |
| SliderEngine.DragParity | services/exportService.ts:326-346 | on traces of handle presses, moves, releases and clicks, the two variants reach the same state |
| SliderEngine.ExportKeepsSuppressingAfterDrag | services/exportService.ts:326-353 | after a handle drag, a later press off the handle and a click: the export still cancels the click, the live preview does not |
| SliderEngine.ExportSuppressionTrace | services/exportService.ts:348-353 | the same five-event trace, for either variant |
| SliderEngine.NonPositiveDurationEndsAtOnce | services/exportService.ts:374-382 | with a duration of 0 or less and no loop, the first sweep frame already snaps to the start position and stops |
| SliderEngine.AmplitudeRatio | services/exportService.ts:375 | for any wave and elapsed time, the live sweep's offset from the start is 5/3 of the export's (amplitude 50 against 30) |
| SliderEngine.AmplitudesDiffer | services/exportService.ts:375 | for start 20 and a wave peak of 1, the live sweep reaches 70 while the export reaches 50 |
| SliderEngine.DragView | components/SliderPreview.tsx:159 | while dragging, the after layer is visible over [0, pos], and the divider and handle are at pos |
| SliderEngine.ExportInitialView | services/exportService.ts:204-205 | the export's initial CSS shows the after layer over [start, 100], with divider and handle at start |
| SliderEngine.ExportInitialClipMismatch | services/exportService.ts:204-225 | the initial export view and the drag view share the divider but never the visible interval; they have equal widths only at 50 |
| SliderRender.LabelRadius | services/exportService.ts:94-135 | tag labels round only their outer corners, mirrored per side; badge labels use 4px; every other style is a full pill |
| SliderRender.LabelFor | components/SliderPreview.tsx:213-253 | a label sits at the top in classic and at the bottom in modern, on its own side, inset 10px, with its side's text and the shared colours |
| SliderRender.Labels | components/SliderPreview.tsx:370-375 | labels are drawn exactly when shown and the style is not "none" |
| SliderRender.LabelsMirrorEachOther | services/exportService.ts:290 | the two labels are mirror images in corner radius and side, at the same height |
| SliderRender.CtaLookFor | components/SliderPreview.tsx:201-211 | solid fills with the colour under a transparent border; ghost is transparent under a coloured border; glass is frosted white with a 5px blur and no border |
| SliderRender.Cta | components/SliderPreview.tsx:393-404 | the call to action appears exactly when shown and the template is classic |
| SliderRender.GhostInvertsSolid | services/exportService.ts:68-92 | ghost swaps solid's fill and border colour |
| SliderRender.HandleLookFor | services/exportService.ts:137-162 | circle is 8t square with an 80% divider-colour fill and shadow; pill is 10t by 5t; line is auto by 40 and transparent |
| SliderRender.CircleFillFromDividerColour | components/SliderPreview.tsx:266-285 | the circle fill is the divider colour at alpha 0.8 |
| SliderRender.IconColor | services/exportService.ts:164-166 | the icon is black on circle and pill handles, and takes the divider colour on a line handle |
| SliderRender.Icon | components/SliderPreview.tsx:385-386 | an icon is drawn exactly when one is chosen, in the handle's icon colour |
| SliderRender.Render | components/SliderPreview.tsx:370-404 | the live layers show the after side over [0, pos]; the two labels are drawn exactly when shown and the style is not "none"; the call to action exactly when shown and the template is classic, in its style's look; the handle has its style's look; the icon is drawn exactly when one is chosen, in the handle's icon colour |
| SliderRender.ExportInitialRender | services/exportService.ts:204-298 | the exported document is the live rendering at the start position except for the clip |
| DisplayLayout.VideoHeight | services/exportService.ts:431 | the 16:9 video height is the width times 9/16 rounded to the nearest integer |
| DisplayLayout.VideoHeightIsRounded | services/exportService.ts:437 | the integer formula equals `Math.round(w * 9/16)` |
| DisplayLayout.PreviewMatchesExport | components/SoccerPreview.tsx:18-51 | the preview and the export split every size string the same way |
| DisplayLayout.LayoutTilesContainer | services/exportService.ts:424-449 | for each size, video and image boxes tile the container exactly, side by side for 970x250 and stacked otherwise |
| DisplayLayout.UnknownSizeFallsBack | services/exportService.ts:442-448 | any unlisted size string gets the 300x250 split |
| DisplayLayout.HintMatchesImageRegion | components/SoccerAdForm.tsx:26-31 | the form's recommended image size is the image box the export produces |
| ExportService.ClicktagMacro | services/exportService.ts:415 | gam gets `%%CLICK_URL_UNESC%%`; every other platform gets `{{PUB_CLKT}}` |
| ExportService.Clicktag | services/exportService.ts:18-19 | the click tag is the macro followed by the untouched destination |
| ExportService.ClicktagRoundTrip | services/exportService.ts:415-416 | the platform and the destination can be read back from a click tag |
| ExportService.SliderExportLinks | services/exportService.ts:65-66 | both slider halves always use the gam macro; the call to action, when present, links to the after half |
| ExportService.Extension | services/exportService.ts:488-490 | an asset extension is never empty; it is the raw extension when that is non-empty and the kind's default (`mp4`, `png`) otherwise |
| ExportService.AssetFileName | services/exportService.ts:491 | asset files are named `video.` or `image.`, and everything after that prefix is exactly the extension |
| ExportService.DataUrlExtension | services/exportService.ts:489 | for a data URL of the asset's kind with a `;`, the extension is the subtype between the prefix and the first `;`, or the default when that is empty |
| ExportService.DataUrlWithoutSemicolon | services/exportService.ts:489 | for such a data URL without any `;`, the "extension" is the `data:video/` or `data:image/` prefix itself |
| ExportService.UrlExtensionIsLastSegment | services/exportService.ts:490 | for any other reference, the extension is the text after the last `.` up to the first `?`, and contains neither character |
| ExportService.AssetNamesDistinct | services/exportService.ts:502-528 | the three zip entry names never collide |
| ExportService.ScanToSemicolon | services/exportService.ts:401 | the lazy `.*?;` stops at the first `;` with no line break in between, or fails when none can be reached |
| ExportService.MimeFrom | services/exportService.ts:401-403 | the mime is the capture of the leftmost `:` that has a reachable `;`; none exists when no position matches |
| ExportService.MatchEndIsUnique | services/exportService.ts:401 | a given `:` can end its match at only one `;` |
| ExportService.ToBytes | services/exportService.ts:406-409 | one byte per decoded character, each in 0..255, and each the character code's low eight bits |
| ExportService.FillBytes | services/exportService.ts:405-409 | the downward loop stores at every position the character code's low eight bits, so it yields the same bytes as the functional conversion |
| ExportService.DataUrlToBlob | services/exportService.ts:398-411 | no `,`, no mime or a failed decode gives null; when all three succeed there is a blob, carrying the header's mime and the bytes of the decoded text after the first `,` |
| ExportService.DisplayDocFor | services/exportService.ts:413-418 | the document carries the platform's click tag; the given file names are used, falling back to the asset references; the box layout matches the size |
| ExportService.ExportVideoDisplayAd | services/exportService.ts:486-540 | single gam document exactly when not (dv360 with both assets), with the gam click tag, the asset references as sources and the size's layout; zip exactly when dv360, both assets load and the zip generates; the zip holds index.html and both assets, and the document points at them with the dv360 click tag and the size's layout |
| ExportService.Dv360FallsBackToGam | services/exportService.ts:487 | a dv360 request with a missing asset downloads the gam document, with the gam macro |
| ExportService.ZipIsAllOrNothing | services/exportService.ts:500-535 | the zip branch either downloads three distinctly named entries or alerts |
| Carousel.Next | components/CarouselPreview.tsx:20-22 | next stays in range from any index, stale ones included; it moves one on, and wraps from the last slide to the first |
| Carousel.Prev | components/CarouselPreview.tsx:24-26 | prev stays in range; it moves one back, and wraps from the first slide to the last |
| Carousel.PrevUndoesNext | components/CarouselPreview.tsx:20-26 | for an in-range index, next and prev undo each other |
| Carousel.NextIterClimbs | components/CarouselPreview.tsx:20-22 | below the wrap-around, k presses move k slides on |
| Carousel.FullCycle | components/CarouselPreview.tsx:20-22 | n presses of next return to the starting slide |
| Carousel.View | components/CarouselPreview.tsx:62-98 | one face and one dot per slide; the link is never empty; the progress bar shows exactly under autoplay |
| Carousel.ExactlyOneActive | components/CarouselPreview.tsx:65-86 | for an in-range index, exactly one slide is shown on top and exactly one dot lit, both at the index; for a stale index, none |
| Carousel.StaleIndexDegrades | components/CarouselPreview.tsx:43-80 | a stale index gives link `#` and no text, instead of failing |
| Carousel.CurrentSlideShown | components/CarouselPreview.tsx:62-80 | an in-range index shows its slide's text and, when set, its destination |
| Carousel.Autoplay | components/CarouselPreview.tsx:34-40 | a timer of playDuration seconds is scheduled exactly when autoplay is on, and it leads to an in-range slide |
| Carousel.AutoplayCycles | components/CarouselPreview.tsx:34-40 | left alone, autoplay returns to the slide after one timer per slide |
| Carousel.SetField | pages/CarouselAdCreatorPage.tsx:51 | the named field takes the value and every other field is kept |
| Carousel.UpdateSlide | pages/CarouselAdCreatorPage.tsx:49-54 | length and order are kept; matching slides take the value in the named field only; other slides are untouched |
| Carousel.AddSlide | pages/CarouselAdCreatorPage.tsx:56-65 | exactly one default slide is appended, and the old list is a prefix |
| Carousel.WithoutId | pages/CarouselAdCreatorPage.tsx:69 | the filter keeps exactly the slides without the id, in their order, and drops one slide per occurrence |
| Carousel.DeleteSlide | pages/CarouselAdCreatorPage.tsx:67-71 | a one-slide list is left alone; otherwise exactly the slides with that id go and the rest keep their order |
| Carousel.DeleteAbsentIsNoop | pages/CarouselAdCreatorPage.tsx:69 | deleting an id no slide carries changes nothing |
| Carousel.DeleteKeepsASlide | pages/CarouselAdCreatorPage.tsx:67-71 | with distinct ids, a deletion removes at most one slide and never empties the list |
| Carousel.ImageUpload | pages/CarouselAdCreatorPage.tsx:73-76 | a read file's data URL replaces only the image of the matching slide; a failed read changes nothing |
| Carousel.UploadCommit | pages/CarouselAdCreatorPage.tsx:41-54 | a finished upload writes the update of the list captured before the read over the current list; a failed read leaves the current list |
| Carousel.AddDuringUploadIsLost | pages/CarouselAdCreatorPage.tsx:56-76 | a slide added while the file is read is gone after the upload |
| Carousel.HeadlineEditDuringUploadIsLost | pages/CarouselAdCreatorPage.tsx:41-76 | a headline typed into another slide while the file is read is overwritten after the upload |

## Left out

- Rendering: the DOM, exact HTML/CSS text, fonts, headline sizes, zoom and logo transforms are not modelled. Only the decisions that pick a look are.
- `Math.sin` is the parameter `wave`. The sweep bound assumes only that its values lie in [-1, 1].
- SliderEngine.Step: a pending sweep frame with `sweepDurationMs` equal to 0 that continues the sweep (looping, or a negative elapsed time) computes `NaN` positions in the source. The model does not give that frame a value: `StepDefined` and `RunDefined` exclude exactly that case. Every other duration, negative ones included, is modelled.
- The model does not track which clip form the exported document shows after load. The first sweep frame or handle press rewrites the clip to the drag form `inset(0 (100-pos)% 0 0)`; the model only states the initial form and the drag form.
- Carousel.Next, Carousel.Prev: with no slides, the source computes `NaN`, so the model requires at least one slide. Deletion never empties a list of distinct ids.
- Carousel.ImageUpload: its slide list is the copy the upload handler captured before the file read, not the list current when the read ends. The result replaces the current list, so edits made during the read are lost; `Carousel.UploadCommit` states that overwrite.
- `newId` (time plus random) is nondeterministic. Ids are arguments.
- The numeric form guards (`handleNumericChange`) wrap `parseInt` and are not modelled. Numeric fields are integers.
- Browser services are parameters, not code:
  - `atob`: a decode failure and an exception both count as failure;
  - `fetch` with `response.ok`;
  - JSZip's generator: its success only;
  - `Blob`;
  - the download itself;
  - `FileReader`.
- ExportService.DataUrlToBlob: the model does not distinguish a thrown `atob` error from a `null` result, because the caller's `catch` treats both alike.
- Video playback, the touch adapters, the pointer cursor style and listener cleanup are not modelled.
- The cube, gif and soccer-specific pages are not modelled. The video-only and carousel exports are left out apart from the click-tag rule, because they are templates with placeholders.
- The export script's "skip the frame while dragging" branch cannot be reached from any state the invariant allows. It is modelled, but no lemma needs it.
