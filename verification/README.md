# Atlas: verified models of its core algorithms

Atlas drives an interactive 3D experience through a state machine, records what happened, and judges
the recording. This project models the parts of it whose correctness is not visible from reading one
function, and proves what the rest of the system relies on.

- **Images** (`Pixels`, `Painting`, `RowFilters`, `Neighbours`, `Crc`, `Png`, `PngFormat`, `Redact`, `Grid`, `Luminance`,
  `Diff`, `DiffMeasures`, `Overlay`): the hand-written PNG codec (RFC 2083: section 4.1.1 for colour types,
  section 3.2 for chunks, section 3.4 and the sample code of section 15 for the CRC, section 6 for row filters), which
  buffers it accepts and what they show, the redaction of rectangles in a screenshot, the image diff and its overlay. Deflate and inflate are
  two function parameters whose one assumed law is that inflate inverts deflate.
- **Transition graphs** (`Transitions`, `StateOrdering`, `Runtime`, `RecordedNames`): breadth-first
  reachability and shortest paths, the check of an observed state sequence, and the runtime that has to
  stay inside the graph whatever is decided, loads, throws or is clicked.
- **Destinations** (`Strings`, `Bitwise`, `Ipv4`, `Ipv6`, `Prefixes`, `DestinationPolicy`, `ReservedRanges`): dotted quads,
  the IPv6 text forms of section 2.2 of RFC 4291, prefix masks (section 3.1 of RFC 4632), and the address
  classifier over its two block tables, whose verdict is also given as ranges of octets and groups. The runtime's own address recognisers are parameters.
- **Measurement** (`Rounding`, `Reals`, `Percentiles`, `Pacing`, `AtlasScore`, `ScoreParts`): the sliding worst window, the graded
  comfort dimensions and the capped weighted score. The exponential is a parameter that is positive,
  never falls and is 1 at 0.
- **Decisions** (`Capability`, `RuleBased`, `LinkSpeed`, `DeviceSpeed`, `RuleBasedWitnesses`, `Orbital`, `Sharpness`,
  `Guarded`, `ShareRounding`, `Distributions`, `ShareLimits`, `Questions`): fallback paths, the cost model and its tier
  choice, how the choice follows the speed of the link and of the device, the decisions for the repository's own
  manifest and sample devices, the guard around an arbitrary model-backed engine, and
  distributions that must sum to exactly one after rounding.
- **Suggestions** (`EditDistance`): the edit distance behind the command line's "did you mean".

`Prelude` holds the result types and `Integers` small facts of integer arithmetic. Numbers that the
program keeps as floating point are exact reals here, or whole millionths and ten-thousandths where it
rounds. Code that works step by step is a method with loops, or a class where an object is updated in
place; each is proved against a specification, and the promises are lemmas about that specification.

Where the code and its own documentation disagree, the model follows the code, and the disagreement is
proved together with the condition under which the documentation is right:

- `held` is documented as `ratio <= 1`, but the ratio is rounded (`Pacing.HeldVersusRatio`).
- A shortest path stops at a state with the empty name; every path from a start is returned whole exactly
  when the start has a name and cannot reach the empty one (`Transitions.WholeFrom`).
- Transitions are compared as joined text, so a `>` in a name can admit an undeclared move
  (`StateOrdering.ExactOnEverySequence`).
- Manifest validation says the business flow must be reachable within a limit. It accepts a manifest whose
  end state cannot be reached from `interactive` (`StateOrdering.UncheckedBusiness`), and one where it can,
  but only over the limit and through a state with the empty name (`StateOrdering.EmptyNameHidesLength`);
  an accepted length means a completable flow exactly when `interactive` does not reach the empty name
  (`StateOrdering.AcceptedBusiness`).
- A trace with an uncaught exception records a move the manifest does not declare, unless it was thrown
  while loading or degraded; after `interactive`, clicks may come before and after it
  (`Runtime.App.Session`).
- Reduced motion is meant to exclude every interactive tier, but a richest tier without a usable frame rate
  or with an asset of unknown weight passes validation, has no score and is never displaced
  (`RuleBased.ReducedMotion`, `RuleBasedWitnesses.ValidatedButUnscored`). The guard does not repeat the
  exclusion either (`Guarded.ReducedMotionServed`).
- A confidence that is not a number passes the guard's floor; null or text below the floor raises the
  low-confidence counter of a call that is then rejected, and so do an exception or a tier without a text
  form with their own counters (`Guarded.ServedIsSafe`). So the guard's `total` is the sum of its other
  counters, the calls in flight and the calls rejected uncounted, and callers see more rejections than that
  (`Guarded.Replay`).
- A trusted verdict may carry more optimistic side answers: exactly when the model's own answers are
  (`Guarded.FanOutLoosensIff`).
- A faster link can get a poorer tier in a near-tie (`RuleBasedWitnesses.RoundingCanFlip`); for budgets of
  at least 9.6 ms it never does exactly for leads of more than one millionth (`Sharpness.LeadIsExact`), and
  for any budget when the lead also covers four roundings of a time (`LinkSpeed.LeadingChoiceStays`).
- The first-frame bound of 4.75 budgets is missed by the rounding of the score
  (`RuleBasedWitnesses.BoundNeedsSlack`); it holds for `high` exactly at frame headrooms of at most
  1 - 0.0000005 / 1.6, and for the poorer tiers always (`Sharpness.BoundIsExact`, `RuleBased.WithinBound`).
- The fold that makes a distribution sum to one keeps every entry non-negative exactly for up to 1415
  options (`ShareLimits.NonNegativeIffFew`).
- The score's label is chosen before rounding (`AtlasScore.LabelAgrees`).
- The IPv6 parser also takes a `::` that stands for no group at all (`Ipv6.Spelled`).

## Model

| member | source | states |
|---|---|---|
| EditDistance.Distance | bin/atlas.js:870-883 | the matrix loop computes the recursive edit distance |
| EditDistance.LeastScriptLength | bin/atlas.js:870-883 | a number is the length of a shortest insert, delete and substitute script exactly when it is the distance |
| EditDistance.NoShorterScript | bin/atlas.js:870-883 | every script that turns one text into the other is at least as long as the distance |
| EditDistance.BestScript | bin/atlas.js:870-883 | for each matrix cell there is a script of exactly that length between the two prefixes |
| EditDistance.OneEdit | bin/atlas.js:875-879 | one legal edit moves a text by a distance of at most one |
| EditDistance.Symmetric | bin/atlas.js:870-883 | the distance does not depend on the order of the two texts |
| EditDistance.Triangle | bin/atlas.js:870-883 | the distance through a third text is never shorter |
| EditDistance.Nearest | bin/atlas.js:855-867 | the answer is the first candidate of least distance when that is within the threshold, and none exactly when every candidate is beyond it |
| Crc.BuildTable | src/image/png.js:29-37 | all 256 entries equal eight bit steps of their index |
| Crc.Entry | src/image/png.js:32-34 | one table entry, by the eight-step inner loop |
| Crc.Crc32 | src/image/png.js:40-44 | the byte-at-a-time table loop gives the bit-serial CRC-32 of section 3.4 of RFC 2083 for every buffer |
| Crc.StepLinear | src/image/png.js:33 | one bit step distributes over exclusive or |
| Crc.StepsLinear | src/image/png.js:33 | any number of bit steps distributes over exclusive or |
| Crc.StepsShiftOut | src/image/png.js:33 | while the low bits are zero the steps only shift |
| Crc.TableStep | src/image/png.js:42 | eight steps of a register split into a table entry and a shift |
| Crc.FeedIsSteps | src/image/png.js:42 | feeding bits one by one equals stepping the register combined with them |
| Crc.NextByte | src/image/png.js:42 | one table lookup takes in exactly one byte of the bit-serial message |
| Crc.PolynomialTerms | src/image/png.js:33 | the register holds the polynomial of section 3.4 of RFC 2083, highest power first |
| Crc.OnesAreOnes | src/image/png.js:41-43 | the checksum starts as all ones and is complemented at the end |
| RowFilters.Paeth | src/image/png.js:251-259 | the predictor is one of its three neighbours, nearest to the linear estimate, ties in the order left, up, upper left |
| RowFilters.Filter | src/image/png.js:58-81 | the nested filter loops write each row's filter byte and filtered bytes |
| RowFilters.Unfilter | src/image/png.js:172-195 | the row loop reconstructs the image of its scanlines or names the first row with an unknown filter |
| RowFilters.UnfilterRowInPlace | src/image/png.js:174-194 | one row is reconstructed in the shared buffer; the rows above it are unchanged |
| RowFilters.UnfilterByte | src/image/png.js:180-193 | one byte is its raw value plus the prediction from the bytes already reconstructed, modulo 256 |
| RowFilters.RowInverse | src/image/png.js:172-195 | unfiltering a filtered row gives the row back, for each of the five filters and any pixel size |
| RowFilters.RowInverseBack | src/image/png.js:172-195 | filtering an unfiltered row gives the stored bytes back |
| RowFilters.UnfilterInvertsFilter | src/image/png.js:172-195 | whole images: any choice of filter per row is undone |
| RowFilters.FilterInvertsUnfilter | src/image/png.js:172-195 | whatever decodes is the filtering of what it decodes to |
| Neighbours.RowRestored | src/image/png.js:174-194 | a row is unfiltered to exactly the bytes whose difference from the stored ones is what section 6 of RFC 2083 says of the left, upper and upper-left byte: nothing, the left, the upper, half their sum rounded down, or the nearest of the three |
| Neighbours.RowsRestored | src/image/png.js:172-195 | the same for all rows, each under the row before it and the first under zeros |
| Neighbours.UnfilteredIff | src/image/png.js:171-195 | the unfilter loop succeeds with exactly the one flat image whose every byte stands in that relation to its neighbours |
| Neighbours.RefusedIff | src/image/png.js:177-192 | it stops at the first row of an unknown filter type, and never when the image has no columns |
| Neighbours.StreamIff | src/image/png.js:163-195 | the same said of the bytes of the inflated stream, a filter type before each row |
| Neighbours.FilteredIff | src/image/png.js:61-81 | the encoder writes exactly the stream of the right length whose rows all have the asked filter type and restore the image |
| Png.MakeChunk | src/image/png.js:101-108 | a chunk is length, type, body and the CRC of type and body, or an error when the length does not fit |
| Png.EncodePng | src/image/png.js:53-95 | the encoder computes the specified result, which `PngFormat.EncodeIff` and `PngFormat.EncodingHolds` characterise |
| Png.CollectChunks | src/image/png.js:121-156 | the chunk loop gathers header, palette, transparency and data in order and stops at the end chunk or the first error |
| Png.ToRgba | src/image/png.js:221-248 | the in-place pixel loop computes the colour of each pixel for every supported colour type |
| Png.UnpackPixels | src/image/png.js:158-197 | the decoder after the chunk loop computes the specified result, which `PngFormat.UnpackIff` characterises |
| Png.DecodePng | src/image/png.js:116-198 | the decoder computes the specified result for every buffer, which `PngFormat.DecodeIff` characterises |
| Png.ChunkRoundTrip | src/image/png.js:131-135 | reading at a written chunk gives its length, type and body back |
| Png.ThreeChunks | src/image/png.js:131-156 | the chunk loop over header, data and end finds exactly that header and that data |
| Png.PixelsRoundTrip | src/image/png.js:61-81 | the filtered rows of an image unfilter to its bytes |
| Png.RoundTrip | src/image/png.js:53-198 | decoding an encoded image gives the same width, height and bytes, for every image and filter the encoder takes |
| Png.DecodedSize | src/image/png.js:116-198 | a decoded image always has four bytes per pixel |
| PngFormat.HeaderIff | src/image/png.js:137-146 | a header is accepted exactly with 13 bytes, eight bits a channel and no interlacing, and holds the big-endian size and the colour type |
| PngFormat.ChunksIff | src/image/png.js:131-156 | over any buffer the chunk loop ends well exactly when every header chunk is accepted, and has then found the last header, palette and transparency and every piece of data in order, whatever the checksums |
| PngFormat.PixelsIff | src/image/png.js:221-248 | the RGBA buffer is the one whose every pixel has the colour of its samples: grey, colours, palette entry, grey with alpha, or as they are |
| PngFormat.UnpackIff | src/image/png.js:158-197 | collected chunks decode to an image exactly when its pixels are the colours of the samples restored from the inflated data |
| PngFormat.RefusedFor | src/image/png.js:158-197 | why collected chunks are refused: inflate failed, too short, the first unknown filter type, or a palette that is missing |
| PngFormat.DecodeIff | src/image/png.js:116-198 | every buffer: it decodes exactly when it starts with the signature and its chunks hold an image, and then to that image |
| PngFormat.EncodeIff | src/image/png.js:53-108 | an image is encoded exactly when its buffer has four bytes a pixel, the filter type is at most 2 or there are no rows, and sizes and compressed rows fit 32 bits; otherwise which error it is |
| PngFormat.EncodingHolds | src/image/png.js:82-108 | the encoding, field by field: signature, header, compressed filtered rows and end chunk, each with length, type and checksum |
| Redact.BoxIsExact | src/image/redact.js:27-30 | the rounded and clipped box holds exactly the pixels whose square meets the padded, scaled rectangle |
| Redact.TouchesIff | src/image/redact.js:19-30 | a pixel meets a padded rectangle exactly when it shows some point of the page within the padding of the rectangle |
| Redact.PaintBox | src/image/redact.js:31-39 | painting a box in place adds exactly its pixels to those already black |
| Redact.PaintAll | src/image/redact.js:23-40 | all rectangles are painted, or an invalid one is reported |
| Redact.RedactPngRectangles | src/image/redact.js:12-42 | it succeeds exactly when everything asked for is there and the filtered rows of the painted copy compress to what a chunk can hold; decoding the output then gives opaque black at every covered pixel and the original pixel everywhere else; each refusal is the first failing check |
| Redact.NothingLeaks | src/image/redact.js:12-42 | two images that differ at covered pixels only are redacted to the same bytes |
| Redact.OnlyTooLarge | src/image/redact.js:41 | the painted copy is re-encoded exactly when its filtered rows compress to less than 2^32 bytes; nothing else is ever wrong with it |
| Redact.AdmitIff | src/image/redact.js:13-26 | which redactions are admitted, and which of the five refusals another gets |
| Diff.CountDifferences | src/image/diff.js:48-65 | each of the 256 counters is the number of differing pixels in its cell, and they sum to the total |
| Diff.DiffersIff | src/image/diff.js:51-56 | two pixels differ exactly when some channel is further apart than the tolerance |
| Grid.BucketIsExact | src/image/diff.js:46-47 | every pixel falls in the grid cell whose interval holds it |
| Grid.CellSizeIs | src/image/diff.js:46-47 | a cell is the smallest of which sixteen span the image |
| Diff.DivergenceBox | src/image/diff.js:132-157 | there is no box exactly when all counters are zero; otherwise it spans exactly the cells at or above a quarter of the peak |
| Diff.BoxEncloses | src/image/diff.js:151-156 | the box is non-empty, lies inside the image, covers every pixel of a cell at or above a quarter of the peak, and has such a pixel on each of its four sides |
| Diff.DiffImages | src/image/diff.js:31-78 | the whole report for images of equal and of different sizes; identical, and without a box, exactly when no pixel differs |
| Luminance.LumaGrid | src/image/diff.js:102-120 | the accumulating loops and the division give each cell the mean luminance of its pixels, and 0 to a cell without pixels |
| Luminance.MeanBetween | src/image/diff.js:102-120 | the mean of a cell lies between any bounds of the Rec. 709 luminance of its pixels |
| Luminance.PerceptualScore | src/image/diff.js:90-96 | the score is one less the mean distance of the cell means, as a share of the range, rounded |
| Luminance.ScoreInUnit | src/image/diff.js:90-96 | the score lies in [0, 1], ignores the order of the images, and is 1 exactly when the cell means are on average within half a millionth of the range |
| Luminance.IdenticalScoreOne | src/image/diff.js:90-96 | an image scores 1 against itself |
| DiffMeasures.IdenticalIsClose | src/image/diff.js:48-96 | images reported identical under a tolerance score at least one less the tolerance as a share of the range |
| Diff.RatioZero | src/image/diff.js:68 | the rounded ratio is 0 or 1 exactly when the true one is below half a millionth or within half a millionth of 1 |
| Diff.RatioNearest | src/image/diff.js:68 | the reported number of millionths is the nearest to the true share, halves up |
| Overlay.DiffOverlay | src/image/overlay.js:29-67 | each pixel is the outline on the rounded and clipped box, and otherwise marked where the images differ and dimmed grey elsewhere |
| Overlay.StrokeRect | src/image/overlay.js:124-147 | the four lines of the box get the outline colour and no other pixel changes |
| Overlay.ClippedIs | src/image/overlay.js:125-128 | a line lies on the nearest pixel inside the image |
| Overlay.DimmedIs | src/image/overlay.js:54-59 | the grey of a pixel that does not differ, in whole numbers |
| Overlay.OverlayAgrees | src/image/overlay.js:41-51 | the marked pixels are exactly the differing pixels that the diff counts, except under the outline |
| Transitions.ReachableStates | src/manifest/validate.js:213-227 | a state is returned exactly when some path of declared transitions leads to it |
| Transitions.Search | src/manifest/validate.js:237-248 | the queue loop builds a predecessor tree whose depths are distances, or exhausts the reachable states |
| Transitions.WalkBack | src/manifest/validate.js:251-258 | the predecessor walk ends and rebuilds the tree path, up to its last empty name |
| Transitions.ShortestPath | src/manifest/validate.js:235-259 | null exactly when the target is unreachable; otherwise a shortest path after its last empty name |
| Transitions.NoCloser | src/manifest/validate.js:237-248 | a path no longer than the settled bound shows the target's distance is at most its length |
| Transitions.ResultIsPath | src/manifest/validate.js:254-258 | the result is a path from start to target exactly when no state on it has the empty name |
| Transitions.NamedStates | src/manifest/validate.js:254-258 | from a named start, if no transition leaves a named state for the empty name, the result is the whole shortest path |
| Transitions.EmptyNameLost | src/manifest/validate.js:254-258 | a path from or to the empty name is never returned whole |
| Transitions.WholeFrom | src/manifest/validate.js:235-259 | every path from a start is returned whole exactly when the start has a name and the empty name is unreachable from it |
| Transitions.WholeIffNamed | src/manifest/validate.js:235-259 | every path from every named start is returned whole exactly when no transition leaves a named state for the empty name |
| StateOrdering.ValidateStateOrdering | src/manifest/validate.js:268-281 | accepts exactly when every move passes, and otherwise reports the least failing index and its two states |
| StateOrdering.ExactOnEverySequence | src/manifest/validate.js:269-277 | the joined-key check agrees with the graph on every sequence exactly when each cut of a declared key at a `>` is itself declared |
| StateOrdering.PlainNamesAreExact | src/manifest/validate.js:269-277 | names without `>` meet that condition |
| StateOrdering.AmbiguousKey | src/manifest/validate.js:269-277 | an undeclared move that the check accepts |
| StateOrdering.MovesArePath | src/manifest/validate.js:272-279 | a legal stretch of a trace is a path of as many steps as it has non-stuttering moves |
| StateOrdering.AcceptedFollowsGraph | src/manifest/validate.js:213-281 | an accepted trace visits only reachable states, and needs at least the shortest path's number of moves between two of them |
| StateOrdering.CheckBusiness | src/manifest/validate.js:87-99 | the two issues raised; a length issue always means the flow is not completable, and without one, if `interactive` does not reach the empty name, it is completable exactly when the end state is reachable from `interactive` |
| StateOrdering.AcceptedBusiness | src/manifest/validate.js:93-99 | a counted length within the limit means a completable flow, for every end state and limit, exactly when `interactive` does not reach the empty name |
| StateOrdering.UncheckedBusiness | src/manifest/validate.js:87-99 | a transition table that raises no issue, with its checkpoint states reachable, whose end state `interactive` never reaches |
| StateOrdering.EmptyNameHidesLength | src/manifest/validate.js:93-99 | a table that raises no issue whose end state `interactive` reaches, but not within the limit |
| Runtime.App.SetState | experience/runtime.js:733-742 | the recorder gains the state once, and only for the phases it records |
| Runtime.App.Fail | experience/runtime.js:720-728 | a failure records the error state, legally exactly when the current phase declares it |
| Runtime.App.LoadForTier | experience/runtime.js:239-289 | on a choice of the ladder off the static path the richest declared rung at or below it that loads is served on the same path; when none does the poster on the static path; for any other choice, or on the static path, the poster; without a poster it ends legally in error |
| Runtime.App.PrepareScene | experience/runtime.js:420-428 | the scene is built exactly on the static path or when the environment allows, else the run ends legally in error; the tier stays and only a refused camera changes the path |
| Runtime.App.MaybeDowngrade | experience/runtime.js:482-531 | the tier is lowered exactly when the second decision asks for a poorer declared rung whose assets load; how each way ends; every ending records declared moves |
| Runtime.App.EnterFirstFrame | experience/runtime.js:417-455 | the tier, the path and the ending from loaded assets on, said of the environment; every failure is legally recorded |
| Runtime.App.Launch | experience/runtime.js:112-455 | up to the wired buttons: the tier, the path and the ending, said of the environment; a run without an uncaught exception records only declared moves; a thrown one does exactly when it threw while loading or degraded |
| Runtime.App.Click | experience/runtime.js:593-648 | a click on a button that is on screen records its phase, legally exactly when the current state declares it, also after an error |
| Runtime.App.Session | experience/runtime.js:112-728 | boot, any clicks and possibly an exception between them: what is served, said of the environment; the page shown is where the clicks lead; the record is legal exactly when nothing was thrown outside loading and degraded, and after routing the tier and the path only descend |
| Runtime.BootSteps | src/manifest/atlas-orbital.manifest.js:38-55 | the boot steps are declared |
| Runtime.ErrorSteps | src/manifest/atlas-orbital.manifest.js:38-55 | only loading and degraded declare a way to the error state |
| Runtime.ClicksLead | experience/runtime.js:593-599 | each way back undoes a way forward, and the way forward ends at the finished checkout |
| RecordedNames.RecordedIsAccepted | src/manifest/validate.js:268-281 | the sequence check accepts a recording exactly when all its moves are declared |
| Strings.SplitJoin | src/net/destination-policy.js:169 | splitting joined parts gives the parts back |
| Strings.JoinSplit | src/net/destination-policy.js:169 | joining split parts gives the text back |
| Ipv4.Ipv4ToInt | src/net/destination-policy.js:168-179 | the octet loop computes the value of the quad or refuses it |
| Ipv4.OctetIffDecimal | src/net/destination-policy.js:173-175 | each byte has exactly one accepted decimal text |
| Ipv4.DottedParses | src/net/destination-policy.js:168-179 | every canonical quad parses to its 32-bit value |
| Ipv4.ParsedIsDotted | src/net/destination-policy.js:168-179 | nothing but a canonical quad parses |
| Ipv6.Groups | src/net/destination-policy.js:214-223 | the piece loop reads one side of a `::` |
| Ipv6.Ipv6ToGroups | src/net/destination-policy.js:188-239 | the parser's result for every text |
| Ipv6.Parses | src/net/destination-policy.js:188-239 | every legal spelling, with or without `::`, a dotted tail and a zone, parses to exactly its eight groups |
| Ipv6.Spelled | src/net/destination-policy.js:188-239 | whatever parses is a legal spelling of the groups it parses to |
| Ipv6.ZeroRun | src/net/destination-policy.js:188-239 | any run of zero groups of any address can be written `::` |
| Ipv6.GroupsAreSmall | src/net/destination-policy.js:188-239 | a parsed address is eight sixteen-bit groups |
| Prefixes.V4Prefix | src/net/destination-policy.js:246-254 | the 32-bit mask test holds exactly when the top bits of the two numbers agree |
| Prefixes.InV6 | src/net/destination-policy.js:261-274 | the group loop computes the block test |
| Prefixes.V6Prefix | src/net/destination-policy.js:261-274 | the group-wise mask test holds exactly when the top bits of the two 128-bit numbers agree |
| Prefixes.MaskedIsPrefix | src/net/destination-policy.js:266-272 | the same from any group of the loop on |
| Bitwise.AndMask | src/net/destination-policy.js:252-253 | a mask of ones over zeros clears exactly the low bits |
| DestinationPolicy.FirstV4 | src/net/destination-policy.js:297-301 | no block is found exactly when the address is in none |
| DestinationPolicy.FirstV6 | src/net/destination-policy.js:311-312 | a block found contains the address, and none is found only when it is in none |
| DestinationPolicy.Classify | src/net/destination-policy.js:288-332 | the classifier's loops and its recursion into the embedded address end and compute the verdict |
| DestinationPolicy.AllowedIff | src/net/destination-policy.js:91-332 | an address is allowed exactly when it is in no flat block and any IPv4 address it embeds is allowed, whatever the order of the two tables |
| DestinationPolicy.DeclaredTables | src/net/destination-policy.js:91-144 | the declared tables with a strict recogniser meet what the classifier's lemmas assume |
| DestinationPolicy.PublicIffAllowed | src/net/destination-policy.js:288-332 | the kind `public` is given exactly to allowed addresses, also through an embedded one |
| DestinationPolicy.FirstDecides | src/net/destination-policy.js:311-328 | if flat and embedding blocks meet only at refused addresses, the first block found decides like all of them |
| DestinationPolicy.Inconsistent | src/net/destination-policy.js:129-144 | an address in both a flat and an embedding block embeds a refused IPv4 address |
| DestinationPolicy.SpellingNeverMatters | src/net/destination-policy.js:288-332 | texts that spell one address, whatever space or brackets surround them, get the same verdict |
| DestinationPolicy.MappedFollowsIpv4 | src/net/destination-policy.js:316-326 | a v4-mapped address, however written, is allowed exactly when its dotted quad is |
| DestinationPolicy.MappedSameKind | src/net/destination-policy.js:316-326 | and has the kind of its dotted quad |
| DestinationPolicy.BareIs | src/net/destination-policy.js:289-290 | space around an address goes, and one pair of brackets inside it |
| DestinationPolicy.FirstV4IsFirst | src/net/destination-policy.js:297-301 | the IPv4 block that gives the kind is the first that contains the address |
| DestinationPolicy.FirstV6IsFirst | src/net/destination-policy.js:310-314 | the IPv6 block that gives the kind is the first that contains the address |
| ReservedRanges.Safe4Iff | src/net/destination-policy.js:91-118 | no IPv4 block contains an address exactly when it lies outside the listed ranges of octets |
| ReservedRanges.QuadAllowedIff | src/net/destination-policy.js:91-303 | a dotted quad is allowed exactly outside those ranges |
| ReservedRanges.Safe6Iff | src/net/destination-policy.js:129-144 | the same for the IPv6 table, as ranges of groups and of the octets of an embedded address |
| ReservedRanges.AddressAllowedIff | src/net/destination-policy.js:129-332 | an IPv6 address, however spelled, is allowed exactly outside those ranges |
| DestinationPolicy.CheckRedirectChain | src/net/destination-policy.js:512-533 | allowed exactly when every hop is, else the least refused hop, with the checks made so far |
| Rounding.Round4AtMost | src/trace/schema.js:179-185 | when a rounded value stays at or below a multiple of a ten-thousandth |
| Percentiles.Sort | src/gate/comfort.js:323 | an ascending permutation |
| Percentiles.PercentileInRange | src/trace/schema.js:168-176 | a percentile lies between the rounded least and greatest samples |
| Percentiles.PercentileOrder | src/trace/schema.js:168-176 | a higher quantile never gives a smaller percentile |
| Pacing.FrameTimes | src/trace/assemble.js:237-252 | ingest keeps exactly the first `limit` of the samples from 0 to ten seconds, rounded and in order |
| Pacing.FramesGrow | src/trace/assemble.js:237-252 | samples added at the end never change the frames kept before |
| Pacing.FramesNext | src/trace/assemble.js:241-250 | a sample is kept, to the nearest ten-thousandth, exactly from nothing to ten seconds |
| Pacing.Shrink | src/gate/comfort.js:309-318 | the inner loop stops at the largest start whose run still covers the window, or nothing covers it |
| Pacing.StopsTight | src/gate/comfort.js:314-318 | where the loop stops is the start the naive search finds |
| Pacing.WorstWindow | src/gate/comfort.js:297-340 | the report is the first worst of all tightest windows of at least 20 samples, with their number and median; null exactly when there are none |
| Pacing.WindowsIff | src/gate/comfort.js:309-331 | the windows chosen from are exactly the shortest runs, ending at each sample, that cover the window, where they have at least twenty samples, each with its 95th percentile |
| Pacing.HeldVersusRatio | src/gate/comfort.js:147-148 | held agrees with a ratio of at most one exactly when the measurement is not over budget by less than 0.005 percent |
| Pacing.PacingHeldIff | src/gate/comfort.js:243-251 | the same for the sustained-pacing dimension |
| Pacing.ResponseHeldIff | src/gate/comfort.js:500-504 | the same for the responsiveness dimension |
| Pacing.OverBudgetByRounding | src/gate/comfort.js:500-504 | a measurement over budget whose ratio is one |
| Capability.ResolvesFirst | src/capability/buckets.js:113-129 | the first usable path of least priority, the static path when none is usable, and always for the poster |
| Capability.FirstByPriority | src/capability/buckets.js:123-127 | searching the stably sorted paths finds the first usable one of least priority |
| Capability.MeetsIff | src/capability/buckets.js:89-98 | requirements are met exactly when the device has each thing named |
| Capability.UsableIff | src/capability/buckets.js:116-126 | a path is usable exactly when the device has what it needs, except the camera path on a weak GPU with at most two gigabytes or after frames of more than 60 ms |
| RuleBased.RouteTier | src/decision/rule-based.js:204-262 | the score table, its penalties and the running best give the choice and its path; it throws exactly when a tier it asks about has no requirement list |
| RuleBased.Best | src/decision/rule-based.js:260-262 | the choice is the first candidate of greatest score, or the richest when that has no score |
| RuleBased.NeverUnrenderable | src/decision/rule-based.js:219-262 | a tier the device cannot render is never picked |
| RuleBased.ReducedMotion | src/decision/rule-based.js:246-262 | a reduced-motion preference gets the poster on the static path exactly when `high` is not renderable or its declared numbers give a score; otherwise it gets `high` |
| RuleBased.FirstFrameBound | src/decision/rule-based.js:226-262 | a scored interactive tier is picked only when its predicted first frame is at most (7 + richness) / 2.4 budgets plus the half unit that rounding the score gives away; only `high` is picked without a score |
| RuleBased.WithinBound | src/decision/rule-based.js:226-243 | 4.75 budgets bound it without that slack unless the pick is `high` with a frame headroom within a third of a millionth of 1 |
| Sharpness.BoundIsExact | src/decision/rule-based.js:226-243 | on accepted manifests 4.75 budgets bound every pick of `high` at a given frame headroom exactly when that is at most 1 - 0.0000005 / 1.6 |
| RuleBasedWitnesses.BoundNeedsSlack | src/decision/rule-based.js:242-243 | a pick at 4.7500001 budgets on an accepted manifest, by the rounding of the score |
| RuleBasedWitnesses.ValidatedButUnscored | src/manifest/validate.js:102-159 | validation accepts a richest tier with any frame rate or none and with an asset of unknown weight, and reduced motion is served that tier exactly when one of them leaves it without a score |
| LinkSpeed.FasterLinkNeverPoorer | src/decision/rule-based.js:128-262 | with all else fixed and weight not growing down the ladder, a faster link never picks a poorer tier, without the roundings its speed passes through |
| LinkSpeed.NearSmooth | src/decision/rule-based.js:136-243 | the program's score is within 0.0000005 + 0.0000024 / budget of the one without those roundings |
| LinkSpeed.ScoreRises | src/decision/rule-based.js:128-262 | a faster link never lowers a score, roundings and all |
| LinkSpeed.LeadingChoiceStays | src/decision/rule-based.js:128-262 | on the program's own scores a faster link never picks a poorer tier when the slower link's choice leads every poorer interactive tier by 0.000001 + 0.0000096 / budget |
| LinkSpeed.LeadAboveOneMillionth | src/decision/rule-based.js:128-262 | for budgets of at least 9.6 ms any lead of more than a millionth is enough |
| Sharpness.LeadIsExact | src/decision/rule-based.js:128-262 | on accepted manifests with such budgets a lead keeps the choice on every faster link exactly when it is more than a millionth |
| Sharpness.OneMillionthFlips | src/decision/rule-based.js:128-262 | an accepted manifest and two links where a lead of one millionth is given up |
| LinkSpeed.GainUnclamped | src/decision/rule-based.js:226-243 | a tier off the lower clamp gains all of its saved transfer time |
| LinkSpeed.GainAtMost | src/decision/rule-based.js:226-243 | no tier gains more than its saved transfer time |
| DeviceSpeed.TransferTakes | src/decision/rule-based.js:128-137 | the transfer time: the bits at the measured or guessed speed, and a round trip with half of one more for each of the first four assets |
| DeviceSpeed.ComputingPart | src/decision/rule-based.js:112-163 | the first frame is the transfer and 110 + 45 passes + 18 (texture / 256)^2 units, a frame its work and particles / 900, both times what the cores, the memory and the GPU each cost |
| DeviceSpeed.HalvedCores | src/decision/rule-based.js:113-119 | halving the cores doubles the computing time between eight cores and one |
| DeviceSpeed.MemoryScales | src/decision/rule-based.js:114-117 | it is 1.3 times as long with at most four gigabytes and 1.8 times with at most two |
| DeviceSpeed.GpuScales | src/decision/rule-based.js:118 | it is 1.15, 1.6 and 2.2 times as long with a mid, a low and no GPU |
| DeviceSpeed.WeakerIsSlower | src/decision/rule-based.js:112-163 | fewer cores, less memory or a weaker GPU never lower a predicted time, roundings and all |
| DeviceSpeed.WeakerNeverScoresMore | src/decision/rule-based.js:112-257 | nor raise a score |
| Orbital.TierScore | src/decision/rule-based.js:128-243 | a score on the Orbital manifest from its rounded steps: transfer, first frame, frame time |
| Orbital.PacketLoss4g | src/decision/fixtures/states.js:146-166 | the sample device with heavy packet loss scores 1.159796 for `low` and 0.501504 for `mid`, and gets `low` on the camera path |
| Orbital.SampleDevices | src/decision/fixtures/states.js:61-272 | the three scores, the tier and the path of each of the twelve sample devices; every one gets the tier it is labelled with, except the contested `stalling-midsession`, which gets `high` for `low` |
| RuleBasedWitnesses.RoundingCanFlip | src/decision/rule-based.js:242-243 | two links and an accepted manifest where rounding gives the faster link the poorer tier |
| Guarded.ServedIsSafe | src/decision/guarded.js:71-136 | whatever the primary engine does, a served tier is renderable and carries the path resolved for it; which calls are rejected, and which of them are counted and where |
| Guarded.ReducedMotionServed | src/decision/guarded.js:71-136 | what is served under a reduced-motion preference is the poster exactly when the answer is, if it is renderable and not below the floor, and otherwise when `high` is not an unscored tier |
| Guarded.EndsWhere | src/decision/guarded.js:71-136 | which counter each call ends at, and whose tier and confidence are served; a confidence equal to the floor passes it |
| Guarded.GuardedEngine.constructor | src/decision/guarded.js:57-64 | all counters start at zero and balance |
| Guarded.GuardedEngine.Begin | src/decision/guarded.js:72 | a call adds one to the total and to the calls in flight |
| Guarded.GuardedEngine.Finish | src/decision/guarded.js:75-135 | a call that ends raises exactly one of the four counters or none, and is rejected when it raises none or its report throws; the balance is kept |
| Guarded.Replay | src/decision/guarded.js:71-136 | over every interleaving of calls the counters balance, each is the number of calls that ended there, `trusted` is the number of model answers served, and the rejections are those the callers saw |
| Guarded.OutcomesAreSafe | src/decision/guarded.js:71-136 | the k-th outcome of every interleaving is safe for the device and manifest of the k-th finished call |
| Guarded.MergeTighteningFanOut | src/decision/guarded.js:316-370 | the merge loop computes the merged verdict and its provenance |
| Guarded.MergeIncidents | src/decision/guarded.js:350-367 | the entry loop computes the merged incident answers and the changes made |
| Guarded.MergeOnlyTightens | src/decision/guarded.js:316-370 | each merged answer is one of the two and no more optimistic than either; the outcome is untouched |
| Guarded.ProvenanceIsExact | src/decision/guarded.js:316-370 | a key is listed exactly when its answer changed |
| Guarded.ProvenanceIsTrue | src/decision/guarded.js:316-370 | each key is listed once, with the answer before and the model's answer after |
| Guarded.JudgeNeverLoosens | src/decision/guarded.js:205-286 | the served outcome is never more permissive, is the model's own exactly when allowed, and an override keeps every side answer as pessimistic |
| Guarded.FailsClosed | src/decision/guarded.js:205-287 | outcome by outcome: against `fail` only `fail` is served, against `inconclusive` or an unlisted outcome never `pass` or `degraded-but-acceptable`, against `degraded-but-acceptable` never `pass`, and against `pass` whatever the model is sure of |
| Guarded.PreflightByTier | src/decision/guarded.js:143-276 | the model's advice is served exactly when it is sure and names no richer tier of high, mid, low and static-fallback |
| Guarded.PreflightNeverRicher | src/decision/guarded.js:143-200 | which preflight calls are rejected, and that what is served is one of the two answers and never the richer |
| Guarded.FanOutLoosensIff | src/decision/guarded.js:205-286 | no served side answer is more optimistic exactly when the verdict was overridden or the model's own answers are as pessimistic |
| Guarded.TrustedFanOutMayLoosen | src/decision/guarded.js:247-264 | a trusted verdict with more optimistic side answers |
| Distributions.NormalizeDistribution | src/decision/jev.js:656-681 | the loops compute the rounded and folded shares, including the all-zero case |
| Distributions.NormalizedIsExact | src/decision/jev.js:656-681 | up to 1415 options: non-negative, summing to exactly one, each entry within (n + 1) / 2 millionths of its exact share |
| Questions.SoftmaxLoop | src/decision/questions.js:533-551 | the loops compute the rounded and folded softmax |
| Questions.SoftmaxIsExact | src/decision/questions.js:533-551 | the same guarantee for the softmax of up to 1415 scores |
| Questions.SoftmaxOrder | src/decision/questions.js:535-537 | a higher score never gets a smaller weight, and no weight exceeds one |
| Questions.ExpectedScore | src/decision/questions.js:582-591 | the accumulating loop computes the mean level |
| Questions.ExpectedInRange | src/decision/questions.js:582-591 | the expected score of non-negative entries lies between the first and the last level |
| ShareRounding.RoundAndFold | src/decision/questions.js:538-550 | the rounding loop and the running maximum give the rounded shares with the residual in the first greatest |
| ShareRounding.FoldSums | src/decision/questions.js:544-549 | folding the residual into the top entry makes any rounded entries sum to exactly one |
| ShareRounding.RoundedShares | src/decision/questions.js:540-549 | rounding and folding exact shares gives a distribution close to them |
| Distributions.ManyOptionsGoNegative | src/decision/jev.js:665-672 | 1998 options without weight give the first an entry below zero |
| ShareLimits.NonNegativeIffFew | src/decision/jev.js:656-681 | no weights of the options push an entry below zero exactly when there are at most 1415 |
| ShareLimits.PiecesGoNegative | src/decision/jev.js:656-681 | for any 1416 or more options, weights whose first entry folds to -1 |
| AtlasScore.GradeFalls | src/gate/atlas-score.js:550-555 | the curve lies in [0, 1], never rises, and its pieces meet at 0 and at 1 |
| ScoreParts.GradeIs | src/gate/atlas-score.js:550-555 | the pieces of the curve: a straight line from 1 to 0.8 at the budget, then an exponential decay |
| AtlasScore.ScoreTrace | src/gate/atlas-score.js:130-184 | the accumulation loops compute the score, the uncapped score and the caps |
| AtlasScore.MassPositive | src/gate/atlas-score.js:142-162 | some dimension always has evidence, so the score is never null |
| AtlasScore.UncappedInside | src/gate/atlas-score.js:147-162 | the uncapped score lies between any bounds of the applicable dimensions, so between the worst and the best |
| AtlasScore.UncappedIs | src/gate/atlas-score.js:67-162 | the uncapped score is the mean of the applicable dimensions under the declared weights, whichever dimensions are missing |
| ScoreParts.BusinessIs | src/gate/atlas-score.js:197-248 | nothing without reaching the end, else three quarters and a quarter for the steps |
| ScoreParts.VisualIs | src/gate/atlas-score.js:264-342 | the worst of the visual measurements that were taken |
| ScoreParts.InteractionIs | src/gate/atlas-score.js:351-417 | the mean of the legal ordering, the response time and the dropped frames, as far as measured |
| ScoreParts.ComfortIs | src/gate/atlas-score.js:425-476 | the mean of the pacing, the XR fallback and the responsiveness, as far as measured |
| ScoreParts.ScoreIs | src/gate/atlas-score.js:165-176 | the displayed score is the rounded mean, or exactly 35, 40, 45 or 55, for the gravest failure, where that is lower |
| AtlasScore.ScoreInRange | src/gate/atlas-score.js:78-175 | the displayed score is from 0 to 100 and at most every applied cap: 40, 35, 45 and 55 |
| AtlasScore.ImprovingNeverLowers | src/gate/atlas-score.js:130-555 | improving any measured ratios, alone or together, never lowers the score |
| AtlasScore.LabelAgrees | src/gate/atlas-score.js:560-567 | the label is that of the displayed score exactly when the score is not in the half point below a threshold |

## Left out

- Deflate and inflate: one assumed inverse pair; compression levels and corrupt streams are inflate's own results.
- Allocation limits and memory of very large images: an image that fits the format is taken to fit memory.
- `nonBlankness`, `focalCoverage` and `edgeDrift` in `src/image/diff.js`: means and histograms over pixels, whose bounds would only add easy members.
- `sideBySide` in `src/image/overlay.js`: copying two images next to each other.
- Redact.RedactPngRectangles: coordinates are finite reals; the checks for numbers that are not finite have nothing to refuse.
- Diff.DiffImages: the tolerance is any real.
- The rest of manifest validation, one branch per rule.
- Runtime.App.Session: the page, real loading and frame timing are outcomes chosen by the environment; the posting of the trace is not modelled, checkpoints only as the places where an exception can come from, and a boot failure before the first recorded state is one of the exceptions.
- DNS, URL parsing, host canonicalisation and allowlists: a redirect hop's check is a function parameter.
- DestinationPolicy.Classify: blocks hold their base and prefix length apart rather than as one text, and the human-readable reasons are dropped.
- `xrFallback`, `comfortPolicy` and `evaluateComfort` in `src/gate/comfort.js`: structural checks and defaults.
- Pacing.WorstWindow: durations are non-negative, as ingest guarantees.
- `bucketOf` and `normalizeSnapshot` in `src/capability/buckets.js`: branch tables over single fields.
- LinkSpeed.LeadingChoiceStays: for a round trip, declared weights and shader passes that are not negative, and weights that do not grow down the ladder; validation checks none of these.
- The rule engine's verdict on a trace, its camera and risk answers and its rationale text: hand-tuned constants, branch by branch.
- RuleBased.RouteTier: needs a positive first-frame budget, which validated manifests have; numbers are numbers or missing (null, which arithmetic reads as zero, is not modelled), and a tier without a `params` object, at which validation itself throws, is not modelled.
- Guarded.GuardedEngine.Finish: the fallback is the rule engine; another fallback could reject a call in further ways.
- Guarded.MergeTighteningFanOut: an answer is its number alone, and numbers that are not numbers are not modelled in side answers.
- Readers of the model's wire format in `src/decision/jev.js` and the confidence helpers in `src/decision/questions.js`.
- Distributions.NormalizeDistribution: options are distinct, and an entry is its whole number of millionths.
- AtlasScore.ScoreTrace: takes the measured ratios as given; how each is read off the trace, the component lists and the comparison with the judge's verdict are not modelled.
- Rounding noise of floating point.
