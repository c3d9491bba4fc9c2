# Verification of qtapplications: rich text, versions, camera, cropping and ENet endpoint

A Dafny model of five parts of the repository that carry state, loops or arithmetic, with proofs of what
they keep and compute. `dafny verify dfyconfig.toml` checks all of it. Nothing was executed.

**Rich-text simplifier** (`XmlDocument`, `RichTextFilter`, `RichTextSimplifier`, `RichTextPruning`,
`RichTextStability`, `RichTextContent`). `RichTextSimplifier` holds the pull reader, the writer with its own stack of open
elements, the attribute list edited in place, and the loop that drives them. Its specification is the
function `Simplify`, which takes one `Turn` per token. `RichTextPruning` proves that `Simplify` writes the
flattened, recursively pruned document tree. `RichTextStability` proves, on every token stream, that the
output nests and is clean, that a second run leaves whatever it gets to read as it is, and that it changes
nothing exactly when the first run did not stop right behind a start tag: that tag has no closing bracket yet
in what was printed (`LastStartTagIsLost` is such a document). `RichTextContent` says what is lost and what is
not from the token stream alone: nothing is written but what stands outside all meta and style elements, and
a document without these keeps all its elements and text. Well-nestedness is Element Type Match of
XML 1.0, section 3; unique attribute names are section 3.1.
The comment at `HHSharedLibs/src/core/utilities.cpp:316` says that nested elements are skipped. The call
there uses the toolkit's default, which raises an error on a child element, and the model follows the call.
`DocumentPrunedIff` says exactly for which documents the outcome is nevertheless the pruned tree, and
`SkippingAlwaysPrunes` that skipping would have given it for all.

**Version comparison** (`VersionCompare`, with `TextBasics`): the order of the four
dot-separated parts, read as the digits of one number in base 2^32, the first part first.

**Capture timers and pixel conversion** (`CaptureState`, `CVCamera`, `CaptureProperties`; `PixelRaster`,
`PixelConversion`, `PixelProperties`). The camera's slots are a state machine over the live timers of the
object. The environment decides what opens and which positive, unused identifiers timers get. The conversion
loops run over arrays with raw cursors and are proved against row-major rasters. Some places do not do what
they are meant to, each with its exact condition:
`TimersAreItsOwnIffNoneLeaked` (resuming while capturing leaks a timer), `TicksThroughoutIffNeverLost` (a
timer ticks without a device), `GreyImagesShowSourceIff` (packed grey rows are skewed unless their width is a
multiple of four), `WordsGiveHighBytesIff` and `WordsAreInsideIff` (16-bit samples are read in 4-byte steps,
and past the rows of the image).

**Crop rectangle** (`CropGeometry`, `PaintArea`, `CropProperties`). Events update the outline, the picture's
origin and the picture shown. A picture is a photo with the outlines painted on it, so painting twice shows.

**ENet endpoint** (`EnetWorld`, `EnetEndpoint`, `EnetProperties`, `EnetThreads`). The endpoint's table runs
against the library's peer slots, in atomic steps of either side; the bundled library source
(`HHSharedLibs/src/enet/enet/protocol.c`, `peer.c`, `host.c`) says which steps the library can take. Three
assumptions are built into the steps: a slot carries one connection at a time, its id is stable until
it is reset, and it has been reset by the time a disconnect is reported. That ids are nonzero and distinct is
not assumed, because for incoming connections the other side chooses them: `StepAgreesIffSafe` shows it to be
what a connect needs for the table to stay right. An event loop is served in rounds: what the library does by
itself, and then what its service call reports. `EnetThreads` models the event-loop threads and the
counter on which closing waits, as shipped and with the decrement moved behind the loop: when a loop loses
its host (`SafeThroughoutIff`), and when closing can never finish (`ClosingCanFinishIff`), with a run of each.

## Model

| member | source | states |
|---|---|---|
| XmlDocument.WellNestedIsFlattenedTree | HHSharedLibs/src/core/utilities.cpp:304-329 | the streams whose end tags match are exactly the flattenings of document trees |
| XmlDocument.TreeOfFlattened | HHSharedLibs/src/core/utilities.cpp:304-329 | a tree can be read back from its token stream |
| RichTextSimplifier.XmlReader.ReadNext | HHSharedLibs/src/core/utilities.cpp:305 | the next token, the reader's open-element path, and an error on an end tag that does not match |
| RichTextSimplifier.XmlReader.ReadElementText | HHSharedLibs/src/core/utilities.cpp:316 | reads to behind the end tag of a discarded element, or raises an error at a child element |
| RichTextSimplifier.XmlWriter.WriteEndElement | HHSharedLibs/src/core/utilities.cpp:324 | closes the innermost element on the writer's own stack, and nothing when there is none |
| RichTextSimplifier.FilterAttributes | HHSharedLibs/src/core/utilities.cpp:252-279 | edits the list in place to what the element may keep; the alignment flag is raised by an aligned paragraph and never cleared |
| RichTextSimplifier.EraseAllButAlign | HHSharedLibs/src/core/utilities.cpp:269-276 | the erasing walk ends with exactly the align attributes, and raises the flag iff there is one |
| RichTextSimplifier.IsWhiteSpace | HHSharedLibs/src/core/utilities.cpp:282-289 | true iff every character is white space |
| RichTextSimplifier.TakeTurn | HHSharedLibs/src/core/utilities.cpp:305-328 | one turn of the loop; afterwards the writer's stack again holds the names of the reader's open elements |
| RichTextSimplifier.SimplifyRichTextFilter | HHSharedLibs/src/core/utilities.cpp:294-334 | the loop yields the output and the verdict of the specification, on every stream |
| RichTextPruning.PassOverForest | HHSharedLibs/src/core/utilities.cpp:304-329 | the pass over any forest writes its pruned form, restores the open elements and counts the elements met |
| RichTextPruning.SimplifiedIsPruned | HHSharedLibs/src/core/utilities.cpp:291-334 | for every well-nested document whose discarded elements hold only text, the result is the pruned tree with everything closed |
| RichTextPruning.DocumentPrunedIff | HHSharedLibs/src/core/utilities.cpp:308-317 | a document comes out pruned iff no discarded element has a child, or the root is itself discarded |
| RichTextPruning.ChildOfDiscardedCutsOutputShort | HHSharedLibs/src/core/utilities.cpp:316 | a family of documents that do not come out pruned |
| RichTextPruning.SkippingAlwaysPrunes | HHSharedLibs/src/core/utilities.cpp:316 | skipping children, as the comment has it, would prune every document; the actual output is a prefix of that |
| RichTextPruning.StoppingEarlyCutsOutputShort | HHSharedLibs/src/core/utilities.cpp:304-329 | on every stream, stopping at a child leaves a prefix of what skipping it would have written |
| RichTextPruning.BrokenOffTextLeavesPrefix | HHSharedLibs/src/core/utilities.cpp:304-329 | a text that breaks off anywhere leaves a prefix of the whole text's output |
| RichTextStability.OnlyAlignKeepsOrder | HHSharedLibs/src/core/utilities.cpp:267-276 | what is left of a paragraph's attributes is the attributes at the align positions, in order |
| RichTextStability.AlignPositionsAreAll | HHSharedLibs/src/core/utilities.cpp:270 | those positions are increasing, and are all the positions of align attributes |
| RichTextStability.FilteredAttributesStable | HHSharedLibs/src/core/utilities.cpp:252-279 | filtering twice is filtering once, keeps names unique and keeps a paragraph's alignment |
| RichTextStability.OutputNests | HHSharedLibs/src/core/utilities.cpp:304-329 | on every stream, the tags written nest up to the elements still open, and the alignment flag says whether an aligned paragraph was written |
| RichTextStability.OutputIsSimple | HHSharedLibs/src/core/utilities.cpp:291-293 | on every stream, no meta or style, no blank text, no body attributes and no paragraph attribute but align is written |
| TextBasics.JoinedNotBlank | HHSharedLibs/src/core/utilities.cpp:282-289 | joined text is blank iff both parts are |
| RichTextStability.CleanTextUnchanged | HHSharedLibs/src/core/utilities.cpp:294-334 | clean tokens that nest are copied as they are, up to the end of the text or an error |
| RichTextStability.SecondRunKeepsWhatIsRead | HHSharedLibs/src/core/utilities.cpp:294-334 | for every text, a second run leaves as it is whatever part of the first output, from the start on, is read back with adjacent text joined |
| RichTextStability.SecondRunChangesNothingIff | HHSharedLibs/src/core/utilities.cpp:294-334 | for every text, the second run over the printed output changes nothing iff the first did not stop right behind a start tag; if it did, that tag is lost and all else stays |
| RichTextStability.LastStartTagIsLost | HHSharedLibs/src/core/utilities.cpp:316 | a family of documents whose first output is one start tag and whose second is empty |
| RichTextStability.SecondRunOfCompleteChangesNothing | HHSharedLibs/src/core/utilities.cpp:294-334 | a run that closed everything is followed by one that changes nothing and closes everything, too |
| RichTextStability.StartTagsOfPruned | HHSharedLibs/src/core/utilities.cpp:307-313 | elements written and elements discarded add up to elements met |
| RichTextStability.CounterIsWrittenAndDiscarded | HHSharedLibs/src/core/utilities.cpp:296-307 | on every stream, the element counter is the start tags written plus the meta and style elements met, modulo 2^32 |
| RichTextStability.PlainTextVerdicts | HHSharedLibs/src/core/utilities.cpp:330-332 | the verdict on every text in terms of what was written and discarded, the verdict on its printed output in terms of what is read back, and when the two agree |
| RichTextStability.PlainTextVerdictsOfTree | HHSharedLibs/src/core/utilities.cpp:330-332 | the same two verdicts in terms of the document tree |
| RichTextStability.MergeIsWhatIsRead | HHSharedLibs/src/core/utilities.cpp:318-321 | what is read back has no two adjacent runs of text, and the same characters in order |
| RichTextContent.AttributesKept | HHSharedLibs/src/core/utilities.cpp:252-279 | attribute by attribute: one stays, at its turn, unless the element is a body, or a paragraph and the attribute is not its alignment |
| RichTextContent.SkippingWritesVisible | HHSharedLibs/src/core/utilities.cpp:304-329 | on every stream, skipping child elements would write exactly what stands outside all meta and style elements |
| RichTextContent.OutputIsVisible | HHSharedLibs/src/core/utilities.cpp:304-329 | on every stream, the output is a first part of that, and all of it if no element stands within a meta or style element |
| RichTextContent.NothingElseIsLost | HHSharedLibs/src/core/utilities.cpp:246-329 | a document without meta and style elements keeps all its elements, by local name and in order, and all text that is not blank |
| VersionCompare.SplitIsExact | HHSharedLibs/src/core/utilities.cpp:179-180 | splitting can be undone by joining, leaves no dot in a part and makes one part more than dots |
| VersionCompare.SplitOfJoined | HHSharedLibs/src/core/utilities.cpp:179-180 | parts without dots, joined by dots, are split into the same parts |
| VersionCompare.ToUIntOfPadded | HHSharedLibs/src/core/utilities.cpp:186-208 | numerals below 2^32 are converted, with or without a plus sign and white space around; larger ones yield 0 |
| VersionCompare.ToUIntElseZero | HHSharedLibs/src/core/utilities.cpp:186-208 | every field that is not 0 comes from such a numeral: all else yields 0 |
| VersionCompare.ToUIntOfDecimal | HHSharedLibs/src/core/utilities.cpp:186-208 | the decimal form of every number below 2^32 is read back |
| VersionCompare.NumeralIsPositional | HHSharedLibs/src/core/utilities.cpp:186-208 | a numeral counts its first part once for every power of ten that the digits behind it make |
| VersionCompare.CompareIsOrderOfRanks | HHSharedLibs/src/core/utilities.cpp:176-213 | -2 iff a version lacks its three dots; otherwise the sign of the difference of the fields packed in base 2^32 |
| VersionCompare.CompareOfParts | HHSharedLibs/src/core/utilities.cpp:176-213 | p0.p1.p2.p3 against q0.q1.q2.q3: 1, -1 or 0 as the number ((p0 * 2^32 + p1) * 2^32 + p2) * 2^32 + p3 is above, below or equal |
| VersionCompare.CompareIsInvalidIff | HHSharedLibs/src/core/utilities.cpp:181-184 | -2 iff one of the versions is not made of four such parts |
| VersionCompare.CompareIsTotalOrder | HHSharedLibs/src/core/utilities.cpp:176-213 | antisymmetric, transitive, and 0 iff all fields are equal |
| CVCamera.CVCamera.StartCameraCapture | Camera/cvcamera/cvcamera.cpp:58-73 | on success the remembered timer is replaced by one of 40 ms, also while capturing, at 25 frames, and there is a device; on failure timers, rate and size stay and there is none |
| CVCamera.CVCamera.StartFileCapture | Camera/cvcamera/cvcamera.cpp:75-86 | on success a timer at the current rate is added to those there were, and remembered; on failure the timers stay |
| CVCamera.CVCamera.StopCapture | Camera/cvcamera/cvcamera.cpp:88-106 | not capturing, nothing started, no device, rate and size kept; from a consistent state, the remembered timer gone and no other; no timer left if there were no others, and only then none ticks without a device |
| CVCamera.CVCamera.PauseCapture | Camera/cvcamera/cvcamera.cpp:108-119 | from a consistent state: not capturing, the remembered timer gone and no other; device, rate and size kept |
| CVCamera.CVCamera.ResumeCapture | Camera/cvcamera/cvcamera.cpp:121-130 | one more timer at the current rate, which is remembered; from a consistent state, the timers stay the object's own iff it was not capturing, and tick on a device iff there is one |
| CVCamera.CVCamera.ResetFPS | Camera/cvcamera/cvcamera.cpp:132-154 | a rate in 1..50 is taken, any other is 25; from a consistent state a ticking timer is replaced by one at that rate, and all others stay |
| CVCamera.CVCamera.SetResolution | Camera/cvcamera/cvcamera.cpp:164-173 | the size is taken, and the capture is left paused, its remembered timer gone |
| CVCamera.CVCamera.OpenCam | Camera/cvcamera/cvcamera.cpp:175-193 | on success a pause at 25 frames, with a device; on failure timers and rate stay, without one |
| CVCamera.CVCamera.OpenFile | Camera/cvcamera/cvcamera.cpp:195-246 | changes nothing but the device flags, nothing at all for a file that is not there; consistency stays, and ticking on a device iff it does not fail to open while timers live |
| CaptureProperties.CallKeepsConsistent | Camera/cvcamera/cvcamera.cpp:58-193 | every call keeps: capturing iff the remembered timer is live, at the current rate; rate in 1..50, intervals in 20..1000 |
| CaptureProperties.CallCountsTimers | Camera/cvcamera/cvcamera.cpp:58-193 | every call keeps the number of surplus timers, but for resuming or opening a file while capturing, which adds one |
| CaptureProperties.RunCountsTimers | Camera/cvcamera/cvcamera.cpp:58-193 | over a run, surplus timers grow by exactly the number of such calls, and never shrink |
| CaptureProperties.TimersAreItsOwnIffNoneLeaked | Camera/cvcamera/cvcamera.cpp:58-193 | after any run of a new object, its timers are the remembered one or none iff no such call was made |
| CaptureProperties.TicksOnDeviceKeptIff | Camera/cvcamera/cvcamera.cpp:58-130 | a timer is left ticking without a device exactly by failing to open while one is live, resuming without a device, or stopping while there are timers besides the remembered one |
| CaptureProperties.TicksThroughoutIffNeverLost | Camera/cvcamera/cvcamera.cpp:58-193 | over a run, all live timers have a device at every point iff no call is one of those |
| CaptureProperties.LeakedTimerOutlivesStop | Camera/cvcamera/cvcamera.cpp:58-130 | start, resume and stop: a run after which a leaked timer ticks without a device |
| PixelRaster.RasterAt | Camera/cvcamera/cvcamera.cpp:277-312 | the value of row y, column x of a packed buffer stands at index y * columns + x |
| PixelConversion.ConvertGrey | Camera/cvcamera/cvcamera.cpp:277-287 | byte x of row y of the buffer is byte x of row y of the source; the cursors end at height * widthStep and height * width |
| PixelConversion.ConvertColour | Camera/cvcamera/cvcamera.cpp:295-312 | every pixel's three bytes are the source's, and a zero follows; the cursors end at height * widthStep and 4 * width * height |
| PixelConversion.ConvertWords | Camera/cvcamera/cvcamera.cpp:326-339 | pixel (x, y) is the second byte of word y * (widthStep / 4) + x; whether all words read are within the source, for any source |
| PixelConversion.ConvertSamples | Camera/cvcamera/cvcamera.cpp:353-369 | pixel (x, y) is sample y * (widthStep / size) + x, scaled, cut off and rounded down; the same loop for 4-byte and 8-byte samples |
| PixelConversion.ScaleSample | Camera/cvcamera/cvcamera.cpp:387-394 | 0 below the range, 255 above it, and else the p with p * (maxi - mini) <= 255 * (v - mini) < (p + 1) * (maxi - mini); a range that runs down is turned around |
| PixelRaster.ScaledIsIt | Camera/cvcamera/cvcamera.cpp:361-364 | the number computed is the only one with these bounds |
| PixelProperties.PaddingIsIgnored | Camera/cvcamera/cvcamera.cpp:260-312 | sources that agree on the visible bytes give equal buffers |
| PixelProperties.ColourImageShowsSource | Camera/cvcamera/cvcamera.cpp:295-312 | channel c of pixel (x, y) of the image over the colour buffer is the source's |
| PixelProperties.GreyImagesShowSourceIff | Camera/cvcamera/cvcamera.cpp:421-426 | the image over the grey buffer shows every source's pixels iff width is a multiple of 4 or there is at most one row |
| PixelProperties.CursorMeetsPixelsIff | Camera/cvcamera/cvcamera.cpp:368-398 | for samples of any size, the cursor meets every pixel's own sample iff rows hold whole samples or there is at most one row |
| PixelProperties.ScalingIsMonotone | Camera/cvcamera/cvcamera.cpp:361-364 | for mini < maxi, larger samples are no darker, with 0 and 255 at the ends |
| PixelProperties.HighByteIsQuotient | Camera/cvcamera/cvcamera.cpp:332-334 | the high byte of a sample is the sample divided by 256 |
| PixelProperties.WordsGiveHighBytesIff | Camera/cvcamera/cvcamera.cpp:328-338 | for images of height * widthStep bytes, the 16-bit loop takes every pixel's high byte iff the image is one pixel wide and has one row or rows of whole words |
| PixelProperties.WordsAreInsideIff | Camera/cvcamera/cvcamera.cpp:329-338 | the loop reads within the rows of the image iff 4 * width <= widthStep + (height - 1) * (widthStep % 4) |
| PixelProperties.AlignedImagesAreOverrun | Camera/cvcamera/cvcamera.cpp:329-338 | for rows padded to whole words, it does so iff the image is one pixel wide |
| PixelProperties.FrameIsOverrun | Camera/cvcamera/cvcamera.cpp:329-338 | a 640 by 480 frame past which it reads |
| PixelProperties.WordsAreRightIff | Camera/cvcamera/cvcamera.cpp:328-338 | exactly when the loop is right and stays inside |
| PaintArea.PaintArea.constructor | Camera/paintarea.cpp:14-40 | the initial state |
| PaintArea.PaintArea.SetImage | Camera/paintarea.cpp:58-77 | shows the new original with one outline, at the unchanged crop; origin, outline and drag stay |
| PaintArea.PaintArea.MousePress | Camera/paintarea.cpp:170-183 | the grab offset leads from the outline to the cursor, and the position is noted iff that offset is within the outline; crop, picture and placement stay |
| PaintArea.PaintArea.MouseMoved | Camera/paintarea.cpp:185-226 | in a drag, takes the outline as near as possible to the cursor less the grab offset and shows it once; otherwise changes nothing |
| PaintArea.PaintArea.MouseRelease | Camera/paintarea.cpp:228-233 | ends a drag iff it is the left button, and changes nothing else |
| PaintArea.PaintArea.Resized | Camera/paintarea.cpp:282-304 | centres the picture; keeps the crop, the picture shown, and whether it shows the crop and is placed |
| PaintArea.PaintArea.CalculateImageTopLeft | Camera/paintarea.cpp:307-327 | centres the picture to half a pixel on both axes, unless it has an origin already |
| CropProperties.OriginIsTheCentredOne | Camera/paintarea.cpp:315-322 | the origin computed is the only centred one |
| CropProperties.ShownIsOutlinedOnce | Camera/paintarea.cpp:379-396 | the picture shows the crop iff it is the original with one outline, as far from its corner as in the widget |
| CropProperties.MoveStandsNearest | Camera/paintarea.cpp:436-466 | a move takes the outline to the nearest place the picture allows |
| PaintArea.PaintArea.SaveTargetImage | Camera/paintarea.cpp:329-334 | what is saved: the original's rectangle at the crop, which is the one outlined on the picture shown |
| PaintArea.PaintArea.PaintOutline | Camera/paintarea.cpp:379-396 | one more outline on the picture; painted on the clean original, the picture shows the crop |
| PaintArea.PaintArea.MoveOutlineRectToLeft | Camera/paintarea.cpp:399-407 | five columns to the left and to row 0, as near as the picture allows, with one outline shown |
| PaintArea.PaintArea.MoveOutlineRectToRight | Camera/paintarea.cpp:409-416 | five columns to the right and to twice the row, as near as the picture allows, with one outline shown |
| PaintArea.PaintArea.MoveOutlineRectUp | Camera/paintarea.cpp:418-425 | five rows up and to column 0, as near as the picture allows, with one outline shown |
| PaintArea.PaintArea.MoveOutlineRectDown | Camera/paintarea.cpp:426-433 | five rows down and to twice the column, as near as the picture allows, with one outline shown |
| PaintArea.PaintArea.MoveOutlineRect | Camera/paintarea.cpp:436-466 | the outline stands as near to the wanted place as the picture allows, shown once |
| CropProperties.CropIsShownFromFirstDrawing | Camera/paintarea.cpp:58-77 | in every run, the picture shown is the original outlined once at the current crop iff an image was set or the outline moved |
| CropProperties.PlacedOnceMoved | Camera/paintarea.cpp:436-466 | from the first move after the last new image on, through any events, the crop is inside the original or flush with its right and bottom |
| CropProperties.SavedCropIsInside | Camera/paintarea.cpp:329-334 | what is saved after such a run is 480 by 640 and inside an original that is large enough |
| CropProperties.ResizesKeepCrop | Camera/paintarea.cpp:282-304 | any number of resizes keeps the crop and the pictures; the origin is that of the last |
| CropProperties.ClampAxisIsNearest | Camera/paintarea.cpp:439-455 | the clamp takes the nearest allowed value, or the upper bound when none is allowed |
| CropProperties.MovingTwiceIsMovingOnce | Camera/paintarea.cpp:436-466 | moving the outline to where a move has put it changes nothing |
| CropProperties.DragIsOneJump | Camera/paintarea.cpp:185-226 | any list of moves in a drag is one jump to the last move, or to the first that reports (-1, -1) |
| CropProperties.DragFollowsCursor | Camera/paintarea.cpp:170-226 | a drag begun inside moves the outline by as much as the cursor, clamped |
| CropProperties.DragForgetsItsPath | Camera/paintarea.cpp:185-304 | even with resizes in between, a move undoes all trace of earlier ones |
| CropProperties.NoDragMovesNothing | Camera/paintarea.cpp:177-233 | after a release, or a press outside, moves have no effect on the outline |
| CropProperties.ArrowKeysKeepOtherAxisIff | Camera/paintarea.cpp:399-433 | for every placed outline, exactly where an arrow key leaves the other coordinate alone, small pictures included |
| CropProperties.LeftKeyJumpsToTop | Camera/paintarea.cpp:405 | a place where the left key also changes the row |
| EnetEndpoint.Endpoint.Listen | HHSharedLibs/src/enet/enetprotocolbase.cpp:386-404 | takes a new host and listens iff there was none and one was created; otherwise nothing changes |
| EnetEndpoint.Endpoint.Close | HHSharedLibs/src/enet/enetprotocolbase.cpp:153-172 | not listening, no host, an empty table; nothing is announced any more |
| EnetEndpoint.Endpoint.KeyOf | HHSharedLibs/src/enet/enetprotocolbase.cpp:228 | a key of the given value, or 0 when there is none |
| EnetEndpoint.Endpoint.HandleEvent | HHSharedLibs/src/enet/enetprotocolbase.cpp:196-241 | what each event does to table and signals: an id entered and announced, the data announced as they are under the slot's id, or a key of the slot removed and announced; the table stays right iff the step is safe |
| EnetEndpoint.Endpoint.ServeRound | HHSharedLibs/src/enet/enetprotocolbase.cpp:186-241 | one round: the steps the library takes, and then the step of what it reports; its data are announced |
| EnetEndpoint.Endpoint.WaitForIO | HHSharedLibs/src/enet/enetprotocolbase.cpp:178-249 | the steps of all rounds in turn, or none when not listening; the data announced are those of the rounds, in order, each under its slot's last id; the thread counter ends at one up and one down per event |
| EnetEndpoint.NewPeerIsServed | HHSharedLibs/src/enet/enet/protocol.c:274-422 | a peer may open and be reported within one round, also to a host that has none yet |
| EnetEndpoint.Endpoint.AwaitConnection | HHSharedLibs/src/enet/enetprotocolbase.cpp:275-283 | stops at the first round but the last after which the slot is up, and otherwise after all rounds |
| EnetEndpoint.Endpoint.ConnectToHost | HHSharedLibs/src/enet/enetprotocolbase.cpp:251-303 | succeeds iff the slot is up after some round but the last, at the first of which it stops; otherwise all rounds pass and the slot is reset; the id returned is the one the slot was last opened with, and, while the table agrees, an announced one found there |
| EnetEndpoint.Endpoint.DisconnectNow | HHSharedLibs/src/enet/enetprotocolbase.cpp:334-357 | the slot's id is removed and announced, and the slot is free; a table that was right stays so, without the given id |
| EnetEndpoint.Endpoint.Disconnect | HHSharedLibs/src/enet/enetprotocolbase.cpp:359-370 | the slot is on its way down, or free if it was not up; the table is unchanged and stays right |
| EnetEndpoint.Endpoint.DisconnectLater | HHSharedLibs/src/enet/enetprotocolbase.cpp:372-384 | the slot is on its way down, or free if it was not up; the table is unchanged and stays right |
| EnetEndpoint.EventCountIsReporting | HHSharedLibs/src/enet/enetprotocolbase.cpp:186-243 | the events counted are the rounds whose service call reports one |
| EnetProperties.TableIsInjective | HHSharedLibs/src/enet/enetprotocolbase.cpp:202 | no two ids lead to the same slot |
| EnetProperties.ReverseLookupIsExact | HHSharedLibs/src/enet/enetprotocolbase.cpp:221-231 | a disconnect finds the announced id and removes that entry; for an unknown slot it yields 0 and removes nothing |
| EnetProperties.DropNowAgrees | HHSharedLibs/src/enet/enetprotocolbase.cpp:334-357 | an immediate disconnect announces the given id and removes its entry only |
| EnetProperties.ConnectAgreesIff | HHSharedLibs/src/enet/enetprotocolbase.cpp:197-210 | a connect keeps the table right iff its id is neither 0 nor taken |
| EnetProperties.DialTimeoutAgreesIff | HHSharedLibs/src/enet/enetprotocolbase.cpp:275-283 | a dial that times out keeps the table right iff its connection has not been announced |
| EnetProperties.StepAgreesIffSafe | HHSharedLibs/src/enet/enetprotocolbase.cpp:153-384 | of all steps, only those two can break the agreement of table, slots and signals, and exactly then |
| EnetProperties.AgreesThroughoutIffSafe | HHSharedLibs/src/enet/enetprotocolbase.cpp:153-384 | a run agrees at every point iff every step is safe |
| EnetProperties.TableIsSignalHistory | HHSharedLibs/src/enet/enetprotocolbase.cpp:153-384 | in every safe run, the table's keys are the ids announced and not since taken back, and every signal comes in its place |
| EnetProperties.SlotHasLastId | HHSharedLibs/src/enet/enet/host.c:203 | in every run, a slot in use has the id it was last opened with |
| EnetProperties.DataIsAnnouncedInOrder | HHSharedLibs/src/enet/enetprotocolbase.cpp:212-219 | in every run, the data announced are exactly those reported, in order, each under the id its slot was last opened with |
| EnetProperties.DroppedPeerStaysSilent | HHSharedLibs/src/enet/enetprotocolbase.cpp:359-384 | after asking for a disconnect, no data comes under the id before it is announced as gone |
| EnetProperties.TakenIdHidesPeer | HHSharedLibs/src/enet/enetprotocolbase.cpp:197-210 | a run in which a second peer comes up under the id of the first, which is then out of reach |
| EnetProperties.LateTimeoutConfusesPeers | HHSharedLibs/src/enet/enetprotocolbase.cpp:278-282 | a run in which a late dial timeout makes the reverse lookup announce the wrong id |
| EnetThreads.RunCounts | HHSharedLibs/src/enet/enetprotocolbase.cpp:178-249 | in every run, what the thread counter counts, for either place of the decrement |
| EnetThreads.ShippedCounter | HHSharedLibs/src/enet/enetprotocolbase.cpp:153-166 | as shipped, closing gets past its wait iff as many events were handled as loops entered; how many loops then still run |
| EnetThreads.ShippedCountsFromNew | HHSharedLibs/src/enet/enetprotocolbase.cpp:178-249 | as shipped, in every run of a new endpoint, the counter is loops entered less events handled |
| EnetThreads.SafeThroughoutIff | HHSharedLibs/src/enet/enetprotocolbase.cpp:153-166 | no point of a run has a loop in a destroyed host iff, whenever closing finishes, no loop is inside the library |
| EnetThreads.ShippedSafeFromNewIff | HHSharedLibs/src/enet/enetprotocolbase.cpp:153-249 | the same for the shipped counter, from a new endpoint |
| EnetThreads.ClosingCanFinishIff | HHSharedLibs/src/enet/enetprotocolbase.cpp:153-249 | as shipped, closing that has begun can still finish, in some continuation, iff the counter does not exceed the number of loops inside the library |
| EnetThreads.ShippedClosingCanFinishIff | HHSharedLibs/src/enet/enetprotocolbase.cpp:153-249 | wherever a run has come to in closing, iff the loops entered are no more than the events handled and the loops inside the library |
| EnetThreads.ShippedClosingFromNewIff | HHSharedLibs/src/enet/enetprotocolbase.cpp:153-249 | the same from a new endpoint |
| EnetThreads.QuietEndpointNeverCloses | HHSharedLibs/src/enet/enetprotocolbase.cpp:155-161 | a run without events after which closing can never finish |
| EnetThreads.ClosingWaitsForNewLoops | HHSharedLibs/src/enet/enetprotocolbase.cpp:155-161 | once more events were handled than loops entered, closing can finish, but only after as many new loops as the counter is short of |
| EnetThreads.ShippedPlacementIsUnsafe | HHSharedLibs/src/enet/enetprotocolbase.cpp:243 | a run as shipped in which a loop serves a destroyed host |
| EnetThreads.AfterLoopIsSafe | HHSharedLibs/src/enet/enetprotocolbase.cpp:153-166 | with the decrement behind the loop, no run lets a loop serve a destroyed host |
| EnetThreads.IntendedFromNew | HHSharedLibs/src/enet/enetprotocolbase.cpp:153-249 | the same from a new endpoint |
| EnetThreads.AfterLoopCanFinish | HHSharedLibs/src/enet/enetprotocolbase.cpp:153-249 | with the decrement behind the loop, closing that has begun can always finish |
| EnetThreads.IntendedClosingFromNew | HHSharedLibs/src/enet/enetprotocolbase.cpp:153-249 | the same from a new endpoint |

## Left out

- Bytes of XML: parsing, escaping, encodings and line-end normalisation belong to the toolkit; a text is its token stream.
- RichTextStability.SecondRunChangesNothingIff: characters at the very end of a broken-off output are taken to be read back; SecondRunKeepsWhatIsRead holds whatever part of the output is read.
- Namespace prefixes: names are expanded names; the writer's choice of prefixes is the toolkit's.
- RichTextSimplifier.SimplifyRichTextFilter: always yields the verdict, where the program does so only when asked for it.
- EnetProperties.TableIsSignalHistory: an event's table update is one atomic step with the library's own change; interleavings inside one are not modelled, because the program does not lock its table.
- EnetEndpoint.Endpoint.WaitForIO: calls on the endpoint from other threads while a loop or a dial is under way are not part of its rounds; runs with such calls in between are those of EnetProperties.
- EnetEndpoint.Endpoint.ConnectToHost: what the library and the event loop do meanwhile is an input, in rounds, and the time is up after the last one.
- Packets, addresses, ports, peer data, and starting and ending the ENet library.
- EnetThreads.AfterLoopIsSafe: listening does not begin while another thread is still closing.
- EnetThreads.ShippedCounter: the counter is unbounded and its updates are atomic, while the program's is a plain int shared by threads.
- CVCamera.CVCamera.StartCameraCapture: whether a device or file opens is an input; device properties, frames and the view widget are left out.
- PixelConversion.ConvertColour: sizes, strides and their products are unbounded natural numbers, while the program's are of type int; so in all conversions.
- PixelConversion.ConvertSamples: samples are real numbers, so floating-point rounding, infinities and an empty range (mini equal to maxi) are left out.
- The inner loops of the conversions are methods of their own, one for each outer loop.
- PixelConversion.ConvertWords: where the loop would read past the source, the model stops; what the program then reads is not modelled.
- PixelProperties.ScalingIsMonotone: for real numbers, without floating-point rounding.
- PixelConversion.ScaleSample: for real numbers, without floating-point rounding.
- PixelRaster.ScaledIsIt: for real numbers, without floating-point rounding.
- The colour table of grey images, and the choice of branch by depth and channel count.
- Painting is a constructor on pictures; brushes, colours and the file dialogue of saving are left out.
- PaintArea.PaintArea.Resized: coordinates are unbounded integers, and the widget's centre is an input.
- VersionCompare.ToUIntOfDecimal: conversion of text to numbers is the toolkit's; signs other than a leading plus, group separators and Unicode digits all count as bad fields.
- Translators, user names, file hashes, clocks and sleeping: input and output only.
