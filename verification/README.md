# Tile reconstruction engine — a Dafny model

The sketch `sketch-original.js` rebuilds a slowly changing target picture out
of tiles cut from a source picture. The canvas below the two previews is an
800 x 600 processing area. It is split into 4800 sections of 10 x 10 pixels,
each with a `processed` flag. On every frame the sketch does three things:

- It advances the cross-fade between five target images.
- When processing is on, it runs `sectionsPerFrame` iterations. Each
  iteration picks a random unprocessed section and computes the mean colour
  of that section in the blended target. It draws 50 random source squares
  and keeps the first one whose mean colour is closest, in L1 distance, to
  that mean. That square is pasted onto the processed layer. When no
  section is left, an iteration clears every flag and the layer instead.
- The keys `r`, space and the arrow keys reset the grid, toggle processing
  and change the speed. Pressing "Load New Source" points the source at a
  new image straight away; once the image has loaded, its callback resets
  the grid.

The model keeps the sketch's own structure:

| module | file | what it models |
|---|---|---|
| `Pixels` | pixels.dfy | positions, RGBA pixel buffers, colours, the section size |
| `Randomness` | randomness.dfy | `floor(random(n))` on a given `Math.random()` result |
| `ColorSampler` | color_sampler.dfy | `getAverageColor` |
| `MatchSearch` | match_search.dfy | `colorDifference`, `findBestMatch` |
| `TransitionBlender` | transition_blender.dfy | `updateTargetBlend` |
| `RegionGrid` | region_grid.dfy | the grid `setup` builds, and the flag bookkeeping |
| `Engine` | engine.dfy | the sketch state, `setup`, `draw`, `keyPressed`, the load button and its callback |
| `EngineProperties` | engine_properties.dfy | properties across several passes, frames and key presses |

Modelling choices:

- **Randomness is an input.** Every `Math.random()` result the core uses is
  passed in as a real in [0, 1). One iteration's numbers are an
  `IterationDraws` value: the pick among the waiting sections, then 50
  candidate `Probe`s of two numbers each. `floor(random(n))` is
  `floor(u * n)`, as in p5.
- **JavaScript numbers.** A mean over zero pixels is `0 / 0`, so NaN. It is
  `None` here. `findBestMatch` compares against `Infinity` and possibly NaN;
  that is the `Num` type, whose `Less` is false whenever either side is NaN.
- **Images are indices.** Target images are known by their index in
  `targetImages`. Line 73 first assigns `currentTargetImage = nextTargetImage`;
  line 74 then reads `targetImages.indexOf(currentTargetImage)`. The images
  are distinct objects, so that is the index just installed.
- **The layer.** The processed layer is the ordered list of tiles pasted
  since it was last cleared. Each entry holds the point the layer is
  translated to, which is the section's corner in layer coordinates, and the
  source corner the tile was copied from. The tile is drawn half a section up
  and to the left of that point (sketch-original.js:131 and 138), so it is
  centred on the corner.
- **How the layer is computed.** `Draw` first runs the loop's flag updates
  and keeps a log of what each pass did (`Event`). It then computes the layer
  from that log (`Paste`). The source pastes inside the loop instead. The
  paste reads the flags of no section. It does draw random numbers for its
  effects (lines 134, 137, 141 and 143-147), from the same generator as the
  pick (line 114) and the candidates (lines 187-188). In the model each
  iteration's pick and candidates are inputs of their own (`IterationDraws`),
  independent of those extra draws. Under that reading, running the paste
  after the loop gives the same state as running it inside.

Details that the model keeps as the code has them:

- **The reset uses up an iteration.** The `continue` at
  sketch-original.js:110 ends the pass that clears the grid. So a frame that
  starts on a finished grid fills only `sectionsPerFrame - 1` sections
  (`RolloverUsesIteration`).
- **Ties.** The strict `<` at line 192 keeps the earliest of equally close
  candidates (`BestMatchIsEarliestMinimum`).
- **The `r` key stops processing.** The comment at line 208 says "Reset and
  start processing", but line 211 sets `isProcessing = false`. The model
  follows the code: `Reset` and `KeyPressed` leave processing off.

## Model

| member | source | states |
|---|---|---|
| Pixels.PixelIndex | sketch-original.js:165-168 | the red, green and blue samples of an in-bounds pixel at `4 * (j * width + i)` all lie inside the pixel buffer |
| Randomness.RandomFloor | sketch-original.js:114 | `floor(random(n))` is an index below `n` when `n > 0`, and 0 when `n` is 0 |
| Randomness.RandomFloorReaches | sketch-original.js:114 | every index below `n` is produced by some `Math.random()` result, so every waiting section can be picked |
| ColorSampler.PixelSums | sketch-original.js:165-169 | one pixel adds a count of 1 and three channel values in [0, 255] |
| ColorSampler.ColumnSum | sketch-original.js:164-170 | the inner loop counts exactly the rows between its start and its clamped end |
| ColorSampler.ColumnsSumCount | sketch-original.js:163-171 | the nested loops count columns times rows, and count something exactly when both ranges are non-empty |
| ColorSampler.ColumnsSumBounded | sketch-original.js:163-171 | the sums the outer loop accumulates are at most 255 per channel for every pixel counted, and never negative |
| ColorSampler.RegionSum | sketch-original.js:163-171 | the clamped square holds at least one pixel exactly when the corner is inside the image and the size is positive |
| ColorSampler.RegionSumCount | sketch-original.js:163-169 | `count` is `min(size, width - x) * min(size, height - y)` for a corner inside the image, and 0 otherwise |
| ColorSampler.Mean | sketch-original.js:173-177 | the division yields NaN exactly when no pixel was counted, and a mean of sums bounded by 255 per pixel has every channel in [0, 255] |
| ColorSampler.AverageColor | sketch-original.js:158-178 | the mean is a colour, not NaN, exactly when the corner is inside the image and the size is positive |
| ColorSampler.AverageColorInRange | sketch-original.js:158-178 | a mean colour that is not NaN has every channel in [0, 255] |
| ColorSampler.UniformRegionAverage | sketch-original.js:158-178 | a square whose in-bounds pixels all share one colour averages to exactly that colour |
| ColorSampler.AverageColorFrame | sketch-original.js:163-168 | only the in-bounds pixels of the square are read: images of the same size that agree there give the same mean |
| ColorSampler.GetAverageColor | sketch-original.js:158-178 | the nested accumulation loop followed by the division returns the column-by-column mean `AverageColor` |
| ColorSampler.AddColumn | sketch-original.js:164-170 | the inner loop adds exactly the sums of the column's clamped rows to the running sums |
| MatchSearch.ColorDifference | sketch-original.js:202-204 | the L1 distance is non-negative, and zero exactly when the two colours are equal |
| MatchSearch.ColorDifferenceSymmetric | sketch-original.js:202-204 | the distance does not depend on the order of its arguments |
| MatchSearch.ColorDifferenceTriangle | sketch-original.js:202-204 | the distance obeys the triangle inequality |
| MatchSearch.Less | sketch-original.js:192 | `<` never holds with NaN on either side or with `Infinity` on the left, and a finite value is below `Infinity` |
| MatchSearch.Difference | sketch-original.js:191 | the distance is NaN exactly when one of the colours is NaN, and never `Infinity` |
| MatchSearch.Candidate | sketch-original.js:187-188 | a candidate corner lies in `[0, width - 10) x [0, height - 10)`, or is 0 in a dimension of exactly 10 |
| MatchSearch.DistancesAt | sketch-original.js:186-191 | entry `j` of the distance list is candidate `j`'s distance to the target |
| MatchSearch.DistancesAll | sketch-original.js:186-191 | every entry of the distance list is the matching candidate's distance |
| MatchSearch.FirstMinimum | sketch-original.js:192-196 | the entry a strict-improvement scan keeps is minimal, and strictly below every earlier entry |
| MatchSearch.FirstMinimumUnique | sketch-original.js:192-196 | exactly one index is both minimal and strictly below all earlier entries |
| MatchSearch.SearchStep | sketch-original.js:187-196 | one pass either keeps the best so far or replaces it by its own candidate at a strictly smaller, finite distance; the best distance never gets worse |
| MatchSearch.SearchAll | sketch-original.js:186-197 | after the loop the best distance is never NaN, and it is still `Infinity` exactly when no candidate was kept, i.e. the variables are still at their initial values |
| MatchSearch.SearchOutcome | sketch-original.js:180-200 | with a NaN target or no candidates the loop's variables stay at `Infinity` and (0, 0); otherwise `bestDiff` is finite and the best corner is one of the drawn candidates |
| MatchSearch.CandidateDifference | sketch-original.js:189-191 | against a colour target, a candidate's measured difference is its finite distance |
| MatchSearch.SearchIsFirstMinimum | sketch-original.js:186-197 | after the candidates, `bestDiff` is the least distance and the best corner is the first candidate reaching it |
| MatchSearch.SearchStepFirstMinimum | sketch-original.js:192-196 | one more candidate keeps the scan at the earliest minimum of the longer list |
| MatchSearch.FindBestMatch | sketch-original.js:180-200 | the result is (0, 0) for a NaN target or no candidates, and a corner of a whole section inside the source otherwise |
| MatchSearch.SearchBestMatch | sketch-original.js:180-200 | the source's loop, with `bestDiff` starting at `Infinity` and strict improvement, returns `FindBestMatch` |
| MatchSearch.BestMatchIsEarliestMinimum | sketch-original.js:180-200 | the result is a drawn candidate, no drawn candidate is closer, and every earlier candidate is strictly farther |
| MatchSearch.SingleCandidate | sketch-original.js:186-199 | with a single candidate and a colour target, that candidate is returned whatever its distance |
| MatchSearch.TiesKeepFirst | sketch-original.js:192 | when all candidates are equally far, the first one is returned |
| MatchSearch.ExactMatchIsFinal | sketch-original.js:192-196 | once a candidate matches exactly, the result matches exactly and was drawn no later than that candidate |
| TransitionBlender.Advance | sketch-original.js:72-76 | a switch from a state whose next image is in range lands in a state of the cycle: amount 0, the old next image current, and the image after it next |
| TransitionBlender.UpdateTargetBlend | sketch-original.js:66-77 | below 1 the amount grows by exactly the speed and both images stay; at 1 or more it restarts at 0 and the pair moves one image on, cyclically; the amount stays in [0, 1) |
| TransitionBlender.UpdatePreservesInvariant | sketch-original.js:66-77 | one update keeps the amount in [0, 1), both indices in range and the next image right after the current one |
| TransitionBlender.Frames | sketch-original.js:66-77 | frames started on two images among the `n` targets keep showing images among them |
| TransitionBlender.FramesPreserveInvariant | sketch-original.js:66-77 | any number of frames keeps that invariant |
| TransitionBlender.FramesWithoutSwitch | sketch-original.js:68 | until the amount reaches 1, `k` frames add exactly `k` times the speed and keep both images |
| TransitionBlender.FirstSwitch | sketch-original.js:68-76 | from the initial pair at speed 1/2000, frame 1999 still shows images 0 and 1 at 0.9995, and frame 2000 moves on to images 1 and 2 at 0 |
| TransitionBlender.SwitchesRotate | sketch-original.js:73-76 | after `w` switches the current image is `w` places further on, modulo the number of images, and the next one the place after |
| TransitionBlender.SwitchesReturn | sketch-original.js:73-76 | after as many switches as there are images the cycle is back at its starting pair |
| RegionGrid.GridCell | sketch-original.js:40 | each pushed record is unprocessed, with `x` a multiple of 10 in [0, 800) and `y` 300 plus a multiple of 10; `y` is below 900 exactly for the first 4800 records |
| RegionGrid.Grid | sketch-original.js:38-42 | the initial grid has 4800 records |
| RegionGrid.CellIndex | sketch-original.js:38-40 | record `row * 80 + col` is in row `row` and column `col` |
| RegionGrid.BuildGrid | sketch-original.js:38-42 | the nested loop pushes exactly the records of `Grid` in row-major order |
| RegionGrid.GridShape | sketch-original.js:38-42 | the grid is 80 x 60 records; each is unprocessed, has `x` a multiple of 10 in [0, 800) and `y - 300` a multiple of 10 in [0, 600); no corner appears twice and every such corner appears |
| RegionGrid.GridSamplesInBounds | sketch-original.js:117-120 | each section's sampled square lies inside an 800 x 600 target, so all 100 pixels are counted and the mean is never NaN |
| RegionGrid.ProcessedCount | sketch-original.js:106 | the number of processed records never exceeds the number of records |
| RegionGrid.Unprocessed | sketch-original.js:106 | the filter is no longer than the list, and each entry is an index of the list (which entries, `UnprocessedSpec` states) |
| RegionGrid.UnprocessedSpec | sketch-original.js:106 | the filter keeps exactly the unprocessed records, each once and in order, so its length is the number not yet processed |
| RegionGrid.UnprocessedLength | sketch-original.js:106 | the filter's length is the number of records minus the number processed |
| RegionGrid.UnprocessedSound | sketch-original.js:106 | the filter keeps only unprocessed records, in increasing order |
| RegionGrid.UnprocessedComplete | sketch-original.js:106 | every unprocessed record is kept by the filter |
| RegionGrid.UnprocessedEmpty | sketch-original.js:106-107 | the filter is empty exactly when every record is processed |
| RegionGrid.Mark | sketch-original.js:154 | marking sets the chosen record's flag, keeps its corner and leaves every other record unchanged |
| RegionGrid.MarkCount | sketch-original.js:154 | marking an unprocessed record raises the processed count by exactly one |
| RegionGrid.ClearFlags | sketch-original.js:108 | clearing keeps every corner and makes every flag false |
| RegionGrid.ClearFlagsCount | sketch-original.js:108 | after clearing, nothing is processed |
| RegionGrid.ClearFlagsIdempotent | sketch-original.js:209 | clearing twice is clearing once |
| Engine.Setup | sketch-original.js:24-42 | `setup` leaves exactly the 4800-record grid, whatever the source, with nothing processed, idle, 50 sections per frame, images 0 and 1 at blend 0, an empty layer; the state is well formed when the source holds a whole section |
| Engine.GridUnprocessed | sketch-original.js:38-42 | nothing in the initial grid is processed, and all 4800 records are waiting |
| Engine.ValidInArea | sketch-original.js:38-42 | in a well-formed state every section sits on a corner of the 10-pixel lattice with `x` in [0, 800) and `y` in [300, 900), so its square sampled at `y - 300` starts inside the 800 x 600 target |
| Engine.Pick | sketch-original.js:106-114 | the picked record is a record of the grid that is not yet processed |
| Engine.Iterate | sketch-original.js:106-154 | a pass keeps every section's corner, and a visit names a section of the grid with the iteration's candidates |
| Engine.RunSections | sketch-original.js:105-155 | `n` passes keep the corners, log one event each, and use at most `n` iterations' random numbers |
| Engine.TileFor | sketch-original.js:117-124 | the tile pasted for a section is the corner of a whole 10 x 10 square inside the source |
| Engine.LastReset | sketch-original.js:107-111 | the cut sits just after the last reset, or at the start when no pass reset, and every pass after it is a visit |
| Engine.Tiles | sketch-original.js:117-136 | the visits paint one placement each |
| Engine.Paste | sketch-original.js:105-151 | a frame adds at most one placement per pass to the layer |
| Engine.Draw | sketch-original.js:93-155 | a frame advances the blend by one `updateTargetBlend` and keeps processing, speed, source and corners; an idle frame returns with flags and layer untouched and no random number used |
| Engine.KeyPressed | sketch-original.js:206-225 | `r`/`R` clears every flag and the layer and stops processing, as line 211 does (the comment at line 208 says it starts processing); space toggles processing; ArrowUp adds 5 capped at 50; ArrowDown subtracts 5 floored at 1; any other key changes nothing; the source, blend and corners always stay |
| Engine.Reset | sketch-original.js:207-212 | after a reset nothing is processed, the layer is empty, processing is off and every corner is kept |
| Engine.InstallSource | sketch-original.js:53-58 | after the press and the end of the load, the new image is the source; flags, layer and processing are reset; blend and speed stay |
| EngineProperties.IterateMarksOne | sketch-original.js:106-154 | with a section waiting, a pass visits the picked section, which was waiting, marks it, leaves every other record unchanged, raises the processed count by one and uses its random numbers |
| EngineProperties.IterateCount | sketch-original.js:106-154 | with a section waiting, a pass is a visit and moves exactly one section from waiting to processed |
| EngineProperties.IterateRollover | sketch-original.js:107-111 | on a finished grid a pass is a reset: every flag is cleared, all sections wait again, and no random number is used |
| EngineProperties.RunSectionsProgress | sketch-original.js:105-155 | while at least `n` sections wait, `n` passes are all visits, fill exactly `n` sections and use exactly `n` iterations' random numbers |
| EngineProperties.RunSectionsUsed | sketch-original.js:107-114 | any run of passes reads exactly one iteration's random numbers per visit and none per reset: the position reached is the start plus the number of visits |
| EngineProperties.FullCoverage | sketch-original.js:105-154 | from the initial grid, 4800 passes leave every section processed: no section is visited twice in a cycle |
| EngineProperties.RolloverUsesIteration | sketch-original.js:105-111 | `n` passes on a finished grid begin with the reset and fill only `n - 1` sections with `n - 1` iterations' random numbers |
| EngineProperties.RolloverCount | sketch-original.js:105-111 | the same as `RolloverUsesIteration`, for a grid whose filter is empty, with the number of waiting sections |
| EngineProperties.PasteVisits | sketch-original.js:117-136 | without a reset, pasting keeps the old layer as a prefix and appends, in order, one tile per visit centred on `(x, y - 300)`: the source square that best matches the section's mean target colour |
| EngineProperties.LastResetUnique | sketch-original.js:107-111 | the cut is the only position with a reset just before it (or none) and only visits after it |
| EngineProperties.LastResetAfterClear | sketch-original.js:107-111 | a reset in the log moves the cut past it, leaving what the later passes alone leave |
| EngineProperties.PasteAfterClear | sketch-original.js:107-110 | a reset forgets the whole layer: what follows it paints on an empty layer |
| EngineProperties.GridInArea | sketch-original.js:38-42 | every section of the initial grid sits on a corner of the 10-pixel lattice with `x` in [0, 800) and `y` in [300, 900) |
| EngineProperties.DrawProgress | sketch-original.js:102-155 | an idle frame changes no record and pastes nothing; a processing frame with at least `sectionsPerFrame` sections waiting makes exactly `sectionsPerFrame` passes: it fills that many sections, uses that many iterations' random numbers and appends that many tiles after the old layer |
| EngineProperties.DrawPreservesValid | sketch-original.js:93-155 | a frame keeps the state well formed |
| EngineProperties.IdleTicks | sketch-original.js:102 | idle frames keep flags, layer, source and speed, and stay idle |
| EngineProperties.IdleTicksBlend | sketch-original.js:93-102 | `k` idle frames move the blend exactly as `k` updates do; below the switch the amount grows by exactly `k` times the speed |
| EngineProperties.ResetIdempotent | sketch-original.js:207-212 | pressing `r` twice is pressing it once |
| EngineProperties.ToggleTwice | sketch-original.js:213-216 | pressing space twice restores the state |
| EngineProperties.KeyPressedPreservesValid | sketch-original.js:206-225 | every key keeps the state well formed, so `sectionsPerFrame` stays in [1, 50]; ArrowUp never lowers it and ArrowDown never raises it |
| EngineProperties.ArrowUpPresses | sketch-original.js:218-219 | `t` presses of ArrowUp add `5 t` capped at 50, so ten presses from any valid speed reach 50 |
| EngineProperties.InstallSourceIsReset | sketch-original.js:53-58 | the press together with the load callback does what `r` does and also swaps the source, and keeps the state well formed for a searchable image |

## Left out

- Loading images (`preload`, `loadImage`, the picsum URLs, the random image number in the press handler): network I/O. The loaded image is an input to `InstallSource`.
- Frames drawn while a new source is loading. The press assigns `sourceImage` at once (sketch-original.js:54), so until the load ends `findBestMatch` samples an image that is not loaded yet. The callback's reset (lines 56-58) then clears the flags and the layer those frames produced, but they still advance the blend and draw random numbers. `InstallSource` takes the press and the end of the load as one step, so it does not model those frames.
- Two loads in flight at once: the first callback then resets while `sourceImage` already names the second image. Not modelled, for the same reason.
- The button wiring and `mousePressed` (sketch-original.js:49-53): DOM and event plumbing. The callback's effect is `InstallSource`.
- All drawing to the canvas: the `image` and `tint` calls, and the compositing of the two target images into `blendedTarget` (sketch-original.js:79-90). This is rendering with alpha blending. The blended target a frame samples from is an input to `Draw`.
- The glitch effects on each pasted tile (sketch-original.js:126-148): rotation, scale and the occasional RGB shift, with their `random()` calls. They only change how a tile looks on the layer; the chosen section and tile never depend on the values these calls return. They do share the generator with the pick (line 114) and the candidates (lines 187-188), so in the sketch they shift every later draw. Each iteration's pick and candidates are modelled as separate inputs, so the interleaving with these extra `random()` calls is not modelled.
- `console.log` in `keyPressed`: logging.
- sketch.js, the other version of the sketch, is not part of this model.
- Floating point: colours, the blend amount and the speed are exact reals. In binary floating point `0.0005` is not exact, so the frame on which the amount first reaches 1 differs from the 2000 that `FirstSwitch` states: in IEEE doubles 2000 additions of `0.0005` give about 0.99999999999995, below 1, and the `>= 1` test at line 71 first holds on frame 2001.
- Pixel density: images are modelled with four samples per pixel at `pixelDensity` 1, as `ValidImage` states, so the model covers density-1 displays only. `createGraphics(800, 600)` at line 45 takes the display's density, which is 2 on HiDPI screens. There `blendedTarget.pixels` holds 1600 x 1200 pixels, and the index `4 * (j * img.width + i)` at line 165 reads samples from the wrong place; the sketch does not call `pixelDensity` itself.
- MatchSearch.FindBestMatch: requires the source to be at least 10 x 10 pixels (`Searchable`), because for a smaller source `random` of a negative number can give a negative corner. The images the sketch requests are 800 x 600, but while a new source is still loading, the frames search an image that is not loaded yet, and such frames are left out (see above).
- Engine.Draw: requires the processing draws only when processing is on. It also requires the sections to lie in the processing area (`Ready`), which every well-formed state satisfies (`ValidInArea`).
- Engine.Tiles: its own contract gives only the length; `PasteVisits` states each placement.
- Engine.Paste: its own contract bounds only the length; `PasteVisits` and `PasteAfterClear` state its content.
- RegionGrid.Grid: its own contract gives only the length; `GridShape` and `BuildGrid` state its content.
