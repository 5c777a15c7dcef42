# Pulsefield core, modelled in Dafny

Pulsefield is a room-scale installation. LIDAR units see the legs of the
people walking on the floor. A front end turns scans into tracked people and
announces them over OSC. Visual apps are projected back onto the floor
through several projectors, and laser projectors draw on it too. This
project models the decision logic of that pipeline and proves what it
promises:

- `Masks` (masks.dfy): the per-pixel projector-ownership pass of the newer
  tracker's `buildMasks`, over the persistent `pselect` array and the mask
  pixel buffers. It also models the reallocation of `pselect` in
  `makeCanvases`.
- `Coords` (coords.dfy): the affine maps between floor metres and the
  normalized [-1, 1] square.
- `Tracker` (tracker.dfy): the newer tracker's state. This covers:
  - the display bounds with their setters and `resetcoords`;
  - the tracking bounds the front end reports;
  - the visualizer list with `addVis`, `getAppIndex`, `setapp`, `vsetapp`
    and `cycle`;
  - the people map fed by the `/pf/...` messages;
  - corner alignment and the projector calibration messages.
- `People` (people.dfy): the people map as pure functions, one per message.
- `LegModel` (leg.dfy): one leg of a tracked person in the LIDAR front end.
  This covers its position history, the variance growth of `predict`, the
  invisibility counter and the diameter estimate.
- `World` (world.dfy): one frame of the front end's `World`. This covers:
  - assigning each scan point to entry, background or a person's leg;
  - creating a track from a pair of unassigned points;
  - splitting a person's points between the two legs, and the swap check;
  - deleting dead tracks;
  - the entry, exit and count announcements of `sendMessages`.
- `Laser` (laser.dfy): the blank points inserted for a laser slew, and the
  write-only-with-two-points rule.
- `VideoTracker` (video.dfy): the older video tracker. This covers its
  position map, the axis swap of `/pf/update`, the eight cycling mouse ids,
  app selection and the bounds messages.
- `Soccer` (soccer.dfy): the soccer app's ball. It rolls, bounces off the
  walls and slows down. A leg it touches kicks it, and a two-frame cooldown
  follows the kick.
- `Common` (common.dfy): points over `real`, `Option`, and min/max helpers.

Floats are modelled as `real`. Java `int` pixel words are modelled as 32-bit
integers (`Masks.Int32`). The DAC's coordinates and colours are modelled as
16-bit integers (`Laser.Int16`, `Laser.UInt16`).

## Model

| member | source | states |
|---|---|---|
| Masks.Scan | modules/Tracker/src/com/pulsefield/tracker/Tracker.java:744-747 | the running maximum ends on a projector whose coverage is at least every later projector's and the start's; it moves only to a strictly larger coverage, the first such maximum |
| Masks.Owner | modules/Tracker/src/com/pulsefield/tracker/Tracker.java:739-751 | the new owner is "no projector" exactly when every coverage is 0; otherwise it is a projector with positive and maximal coverage |
| Masks.FullOwnerKept | modules/Tracker/src/com/pulsefield/tracker/Tracker.java:743 | an owner at full coverage 255 is kept |
| Masks.SentinelRestartsAtZero | modules/Tracker/src/com/pulsefield/tracker/Tracker.java:739-742 | a pixel that had no projector is resolved as if projector 0 owned it |
| Masks.MaximalOwnerKept | modules/Tracker/src/com/pulsefield/tracker/Tracker.java:743-747 | a lit owner whose coverage no projector exceeds is kept, so ties never move ownership |
| Masks.SwitchCondition | modules/Tracker/src/com/pulsefield/tracker/Tracker.java:743-750 | ownership leaves a projector only when it is below 255 and another projector is strictly brighter, or when the pixel is dark everywhere |
| Masks.MovesToFirstMaximum | modules/Tracker/src/com/pulsefield/tracker/Tracker.java:744-747 | a moved owner is the lowest-numbered projector of maximal coverage |
| Masks.OwnerIdempotent | modules/Tracker/src/com/pulsefield/tracker/Tracker.java:738-753 | resolving a pixel a second time on the same coverage changes nothing |
| Masks.ResolveAll | modules/Tracker/src/com/pulsefield/tracker/Tracker.java:738-753 | the pass keeps one owner per pixel, each a projector index or the sentinel |
| Masks.ResolveAllIdempotent | modules/Tracker/src/com/pulsefield/tracker/Tracker.java:738-753 | running the pass twice on unchanged coverage leaves `pselect` as after one pass |
| Masks.EmissionExclusive | modules/Tracker/src/com/pulsefield/tracker/Tracker.java:757-763 | at most one mask is fully on at a pixel, none at a sentinel pixel, and a mask's coverage byte is 255 exactly at the pixels its projector owns |
| Masks.MaskSize | modules/Tracker/src/com/pulsefield/tracker/Tracker.java:220 | the mask side is the canvas side divided by 8, rounded to nearest |
| Masks.Compositor.constructor | modules/Tracker/src/com/pulsefield/tracker/Tracker.java:204 | before the first canvas there are empty masks, one per projector |
| Masks.Compositor.MakeCanvases | modules/Tracker/src/com/pulsefield/tracker/Tracker.java:210-228 | a changed canvas size reallocates masks and `pselect` with every pixel owned by projector 0; an unchanged size keeps both arrays |
| Masks.Compositor.ScanPixel | modules/Tracker/src/com/pulsefield/tracker/Tracker.java:744-747 | the projector loop computes `Scan` over the pixel's coverage column |
| Masks.Compositor.ResolvePixel | modules/Tracker/src/com/pulsefield/tracker/Tracker.java:739-751 | one pixel gets `Owner` of its column and its previous owner; other pixels are untouched |
| Masks.Compositor.ResolveOwnership | modules/Tracker/src/com/pulsefield/tracker/Tracker.java:736-753 | after the loop every pixel holds `Owner` of its column and its old owner, i.e. `ResolveAll` of the old `pselect` |
| Masks.Compositor.EmitMasks | modules/Tracker/src/com/pulsefield/tracker/Tracker.java:757-763 | pixel i of mask j becomes `fullon` exactly when projector j owns pixel i, else `fulloff` |
| Masks.Compositor.BuildMasks | modules/Tracker/src/com/pulsefield/tracker/Tracker.java:736-763 | ownership is resolved from the drawn coverage, then the masks show exactly the owners |
| Coords.FloorToNormalized | modules/Tracker/src/com/pulsefield/tracker/Tracker.java:877-889 | the map is defined exactly when the floor has non-zero width and depth (and, with the aspect kept, a non-zero smaller side) |
| Coords.MapVelocity | modules/Tracker/src/com/pulsefield/tracker/Tracker.java:867-870 | defined exactly when the floor has non-zero size |
| Coords.RoundTrip | modules/Tracker/src/com/pulsefield/tracker/Tracker.java:877-917 | `normalizedToFloor` and `floorToNormalized` are inverse to each other, in both orders |
| Coords.Landmarks | modules/Tracker/src/com/pulsefield/tracker/Tracker.java:876-889 | the floor centre maps to (0,0), the (minx,miny) corner to (-1,-1) and the (maxx,maxy) corner to (1,1) |
| Coords.InBoundsIffInSquare | modules/Tracker/src/com/pulsefield/tracker/Tracker.java:1263-1266 | a point is in bounds exactly when its normalized image lies in the closed square [-1,1]² |
| Coords.VelocityIsDisplacement | modules/Tracker/src/com/pulsefield/tracker/Tracker.java:867-870 | `mapVelocity` scales each axis by 2/size and mirrors x relative to the position map |
| Coords.AspectPreservedUniform | modules/Tracker/src/com/pulsefield/tracker/Tracker.java:882-883 | with the aspect kept, both axes are scaled by 2 over the smaller side |
| Tracker.Extent | modules/Tracker/src/com/pulsefield/tracker/Tracker.java:927-936 | the extent only widens the start and contains every point of the list |
| Tracker.ExtentAttained | modules/Tracker/src/com/pulsefield/tracker/Tracker.java:927-936 | each side of the extent is the starting one or some point's coordinate |
| Tracker.ExtentLoop | modules/Tracker/src/com/pulsefield/tracker/Tracker.java:927-936 | the inner loop over one projector's bounds computes `Extent` |
| Tracker.CoverageOf | modules/Tracker/src/com/pulsefield/tracker/Tracker.java:924-939 | the bounding box of all projector bounds, started at 100/-100: it contains every point |
| Tracker.CoverageAttained | modules/Tracker/src/com/pulsefield/tracker/Tracker.java:924-939 | each side of the coverage is the sentinel 100/-100 or some projector point's coordinate |
| Tracker.CoverageLoop | modules/Tracker/src/com/pulsefield/tracker/Tracker.java:926-939 | the nested loop computes `CoverageOf` |
| Tracker.ClampShrinks | modules/Tracker/src/com/pulsefield/tracker/Tracker.java:941-944 | `resetcoords` only shrinks the bounds and keeps them inside the coverage |
| Tracker.ResetCanInvertBounds | modules/Tracker/src/com/pulsefield/tracker/Tracker.java:941-944 | with no projector bounds the clamp gives minx > maxx: the one-metre gap of the setters is not kept |
| Tracker.ClampInsideCoverageIsIdentity | modules/Tracker/src/com/pulsefield/tracker/Tracker.java:941-944 | bounds already inside the coverage are unchanged |
| Tracker.VisPos | modules/Tracker/src/com/pulsefield/tracker/Tracker.java:416-420 | the button of visualizer i has a column 1..5 and row 5 - i/5, and i is recovered from it |
| Tracker.VisPosInjective | modules/Tracker/src/com/pulsefield/tracker/Tracker.java:416-420 | distinct visualizers have distinct buttons |
| Tracker.SetAppAsWrittenLeavesInvalid | modules/Tracker/src/com/pulsefield/tracker/Tracker.java:476-479 | the written guard lets `appNum == vis.length` through and leaves `currentvis` out of range |
| Tracker.SetAppTarget | modules/Tracker/src/com/pulsefield/tracker/Tracker.java:475-493 | a valid index becomes current; anything else leaves the selection; the result is always -1 or a valid index |
| Tracker.SetAppDiffersOnlyAtLength | modules/Tracker/src/com/pulsefield/tracker/Tracker.java:476 | the corrected and the written guards disagree exactly at `vis.length` |
| Tracker.ResetIsNoOp | modules/Tracker/src/com/pulsefield/tracker/Tracker.java:1224-1225 | the `setapp(currentvis)` meant as a reset selects what was already selected |
| Tracker.NextSelectable | modules/Tracker/src/com/pulsefield/tracker/Tracker.java:1211-1214 | the visualizer reached is selectable and every one stepped over is not |
| Tracker.SelectableWithinOneTurn | modules/Tracker/src/com/pulsefield/tracker/Tracker.java:1211-1214 | when any visualizer is selectable, the do-while loop ends within one turn |
| Tracker.NextIndex | modules/Tracker/src/com/pulsefield/tracker/Tracker.java:1211-1214 | the loop with Java's `%` stops at the first selectable visualizer after the current one |
| Tracker.AlignCorner | modules/Tracker/src/com/pulsefield/tracker/Tracker.java:1179-1188 | a list of another length is replaced by an empty one; the corner is stored when in range; a negative size or a corner past the end throws |
| Tracker.AlignCornerKeepsOthers | modules/Tracker/src/com/pulsefield/tracker/Tracker.java:1179-1188 | sending two different corners of a list of the right length keeps both |
| Tracker.EmbeddingsActAsHomography | modules/Tracker/src/com/pulsefield/tracker/Tracker.java:368-386 | both 4x4 embeddings act on (x, y, z, 1) as the 3x3 homography acts on (x, y, 1); world-to-screen depth is the constant 0.5 |
| Tracker.Tracker.constructor | modules/Tracker/src/com/pulsefield/tracker/Tracker.java:98-228 | the configured bounds clamped by `resetcoords`, no visualizer selected, nobody present, no calibration; the canvas fits the clamped bounds and every pixel belongs to projector 0 |
| Tracker.Tracker.ResetCoords | modules/Tracker/src/com/pulsefield/tracker/Tracker.java:920-962 | the bounds become the clamp of the old bounds to the projector coverage, then `makeCanvases` remakes the canvas (`CanvasRemade`); only the bounds and the compositor change |
| Tracker.Tracker.SetMinX | modules/Tracker/src/com/pulsefield/tracker/Tracker.java:323-328 | accepted only below maxx - 1, then clamped and the canvas remade (`CanvasRemade`); a refused value changes nothing; only the bounds and the compositor may change |
| Tracker.Tracker.SetMaxX | modules/Tracker/src/com/pulsefield/tracker/Tracker.java:329-334 | accepted only above minx + 1, then clamped and the canvas remade (`CanvasRemade`); a refused value changes nothing; only the bounds and the compositor may change |
| Tracker.Tracker.SetMinY | modules/Tracker/src/com/pulsefield/tracker/Tracker.java:335-340 | accepted only below maxy - 1, then clamped and the canvas remade (`CanvasRemade`); a refused value changes nothing; only the bounds and the compositor may change |
| Tracker.Tracker.SetMaxY | modules/Tracker/src/com/pulsefield/tracker/Tracker.java:341-346 | accepted only above miny + 1, then clamped and the canvas remade (`CanvasRemade`); a refused value changes nothing; only the bounds and the compositor may change |
| Tracker.Tracker.PfSetMinX | modules/Tracker/src/com/pulsefield/tracker/Tracker.java:1147-1152 | the tracking bound is stored; only when it changed are the display bounds reset and the canvas remade; nothing else changes |
| Tracker.Tracker.PfSetMaxX | modules/Tracker/src/com/pulsefield/tracker/Tracker.java:1159-1164 | the tracking bound is stored; only when it changed are the display bounds reset and the canvas remade; nothing else changes |
| Tracker.Tracker.PfSetMinY | modules/Tracker/src/com/pulsefield/tracker/Tracker.java:1153-1158 | the tracking bound is stored; only when it changed are the display bounds reset and the canvas remade; nothing else changes |
| Tracker.Tracker.PfSetMaxY | modules/Tracker/src/com/pulsefield/tracker/Tracker.java:1165-1170 | the tracking bound is stored; only when it changed are the display bounds reset and the canvas remade; nothing else changes |
| Tracker.Tracker.PfSetRotation | modules/Tracker/src/com/pulsefield/tracker/Tracker.java:1172-1177 | the rotation is stored; only when it changed are the display bounds reset and the canvas remade; nothing else changes |
| Tracker.Tracker.AddVis | modules/Tracker/src/com/pulsefield/tracker/Tracker.java:266-277 | a fresh list: the old visualizers in order, then the new one; nothing else changes |
| Tracker.Tracker.GetAppIndex | modules/Tracker/src/com/pulsefield/tracker/Tracker.java:467-473 | the first index with that name, or -1 exactly when no visualizer has it |
| Tracker.Tracker.SetApp | modules/Tracker/src/com/pulsefield/tracker/Tracker.java:475-507 | the selection becomes `SetAppTarget`; nothing else changes |
| Tracker.Tracker.VSetApp | modules/Tracker/src/com/pulsefield/tracker/Tracker.java:422-430 | the visualizer on the pressed button is selected; a button naming none changes nothing; only the selection may change |
| Tracker.Tracker.Cycle | modules/Tracker/src/com/pulsefield/tracker/Tracker.java:1210-1221 | the selection moves to the next selectable visualizer, wrapping around; nothing else changes |
| Tracker.Tracker.PfSetNPeopleReset | modules/Tracker/src/com/pulsefield/tracker/Tracker.java:1222-1226 | the reset by `setapp(currentvis)` changes nothing at all |
| Tracker.Tracker.PfUpdate | modules/Tracker/src/com/pulsefield/tracker/Tracker.java:1097-1124 | the people map becomes `People.Update` of the old one; nothing else changes |
| Tracker.Tracker.PfBody | modules/Tracker/src/com/pulsefield/tracker/Tracker.java:1126-1138 | the people map becomes `People.Body` of the old one; nothing else changes |
| Tracker.Tracker.PfLeg | modules/Tracker/src/com/pulsefield/tracker/Tracker.java:1139-1146 | the people map becomes `People.Leg` of the old one, or it throws on a bad leg index of a known id; nothing else changes |
| Tracker.Tracker.PfExit | modules/Tracker/src/com/pulsefield/tracker/Tracker.java:1235-1243 | the people map becomes `People.Exit` of the old one; nothing else changes |
| Tracker.Tracker.PfEntry | modules/Tracker/src/com/pulsefield/tracker/Tracker.java:1245-1248 | the people map becomes `People.Entry` of the old one; nothing else changes |
| Tracker.Tracker.PfAlignCorner | modules/Tracker/src/com/pulsefield/tracker/Tracker.java:1179-1188 | the corner list becomes `AlignCorner` of the old one (a fresh array when resized); nothing else changes |
| Tracker.Tracker.SetScreen2World | modules/Tracker/src/com/pulsefield/tracker/Tracker.java:362-374 | a projector number out of range changes nothing; otherwise that projector's matrix is the embedding and its coverage outline is the one given; nothing else changes |
| Tracker.Tracker.SetWorld2Screen | modules/Tracker/src/com/pulsefield/tracker/Tracker.java:376-388 | a projector number out of range changes nothing; otherwise that projector's matrix is the embedding; nothing else changes |
| People.Fresh | modules/Tracker/src/com/pulsefield/tracker/Tracker.java:1123 | a new person carries its id and channel and has two legs |
| People.Update | modules/Tracker/src/com/pulsefield/tracker/Tracker.java:1123 | the id is created if absent, then moved; its channel and legs are kept if present; every other person is unchanged |
| People.Body | modules/Tracker/src/com/pulsefield/tracker/Tracker.java:1133-1137 | a known person gets the new separation and diameter; an unknown id changes nothing |
| People.LegVelocity | modules/Tracker/src/com/pulsefield/tracker/Tracker.java:1145 | the velocity is perpendicular to (cos, sin) of the heading and has the given speed |
| People.Leg | modules/Tracker/src/com/pulsefield/tracker/Tracker.java:1144-1145 | an unknown id changes nothing; a leg index outside the person's legs throws; otherwise only that leg moves |
| People.Exit | modules/Tracker/src/com/pulsefield/tracker/Tracker.java:1237 | the id is removed and every other person is kept |
| People.Entry | modules/Tracker/src/com/pulsefield/tracker/Tracker.java:1246 | the id is added if absent, and a known id is left alone |
| People.HandlersPreserveWellFormed | modules/Tracker/src/com/pulsefield/tracker/Tracker.java:1123-1246 | every handler keeps each person filed under its own id with two legs |
| People.LegFailsOnlyOutsideTwoLegs | modules/Tracker/src/com/pulsefield/tracker/Tracker.java:1145 | on a well-formed map `pfleg` throws exactly for a leg index other than 0 and 1 |
| People.ExitThenMessagesAreNoOps | modules/Tracker/src/com/pulsefield/tracker/Tracker.java:1133-1145 | after an exit, body and leg messages for that id change nothing |
| People.EntryExitRoundTrip | modules/Tracker/src/com/pulsefield/tracker/Tracker.java:1235-1248 | an entry of a new id followed by its exit restores the map |
| People.UpdateIsEntryThenMove | modules/Tracker/src/com/pulsefield/tracker/Tracker.java:1123 | `pfupdate` on any id equals an entry followed by a move |
| People.EntryIdempotent | modules/Tracker/src/com/pulsefield/tracker/Tracker.java:1003-1006 | a second entry for the same id changes nothing |
| LegModel.AppendCapped | modules/FrontEnd/leg.cc:152-157 | the saved position is last; a history of at most 1000 stays at most 1000; the result is a suffix of old history plus the position, losing 500 only on overflow |
| LegModel.PriorPosition | modules/FrontEnd/leg.cc:166-176 | the n-th most recent entry; past the start the first entry, or (0,0) for an empty history |
| LegModel.DeltaIsDifferenceOfPositions | modules/FrontEnd/leg.cc:159-176 | `getPriorDelta(n)` is the difference of prior positions n and n+1, and (0,0) when n+1 exceeds the history |
| LegModel.SaveShiftsHistory | modules/FrontEnd/leg.cc:152-176 | after a save the most recent position is the saved one, and every older one moves back by one |
| LegModel.TrimKeepsRecent | modules/FrontEnd/leg.cc:155-156 | trimming keeps at least the 501 most recent positions |
| LegModel.StationaryPrior | modules/FrontEnd/leg.cc:127-128 | for a leg that has stood still, the weighted sum is the position times the sum of the weights |
| LegModel.StationaryLegsPredictNoMotion | modules/FrontEnd/leg.cc:125-130 | with both legs still at one point and weights summing to one, the prediction is that point |
| LegModel.GrownVariance | modules/FrontEnd/leg.cc:138 | the new variance is the old one plus rmse², capped at the maximum |
| LegModel.VisibilityResetIff | modules/FrontEnd/leg.cc:421-437 | the counter restarts exactly when the leg was fitted and some scan point stands out from the background; otherwise it grows by 1, or by 2 when there was no usable fit |
| LegModel.NaNFitCountsOnce | modules/FrontEnd/leg.cc:423-437 | a NaN fit with scan points counts one frame, not two |
| LegModel.ClampDiam | modules/FrontEnd/leg.cc:445 | the estimate lies in [MINLEGDIAM, MAXLEGDIAM] and is unchanged when already inside |
| LegModel.BlendStaysBetween | modules/FrontEnd/leg.cc:484 | the smoothed diameter stays between any bounds that hold the old and the new diameter |
| LegModel.Leg.constructor | modules/FrontEnd/leg.cc:82-104 | initial position, variance and diameter; diameter updates off; counters and fit cleared |
| LegModel.Leg.SavePriorPositions | modules/FrontEnd/leg.cc:152-157 | the history becomes `AppendCapped` of the old history and the position; nothing else changes |
| LegModel.Leg.PredictedPosition | modules/FrontEnd/leg.cc:125-130 | the two weighted sums over this leg's and the other leg's history |
| LegModel.Leg.Predict | modules/FrontEnd/leg.cc:124-149 | the position becomes the weighted prediction; the old variance is saved; the new one is at most MAXPOSITIONVAR; the fit is cleared |
| LegModel.Leg.ClearFit | modules/FrontEnd/leg.cc:141-148 | the per-frame fit (likelihoods, scan points, maximum, grid size, bounds) is cleared and nothing else changes |
| LegModel.Leg.UpdateVisibility | modules/FrontEnd/leg.cc:421-437 | the counter becomes `NextInvisibleCount` of the old one; nothing else changes |
| LegModel.Leg.UpdateDiameter | modules/FrontEnd/leg.cc:481-487 | the diameter is smoothed only when diameter updates are on, otherwise unchanged; nothing else changes |
| LegModel.Leg.UpdateDiameterEstimates | modules/FrontEnd/leg.cc:439-447 | the corrected diameter, clamped, is passed to the smoothing; only the diameter may change |
| World.Initial | LIDAR/FrontEndLIDAR/world.cc:27-33 | a scan starts as an entry, and becomes background only when background is strictly more likely |
| World.ScanIsEarliestMax | LIDAR/FrontEndLIDAR/world.cc:34-45 | after the person/leg loop the best likelihood is at least every candidate's, and a winning leg beats every earlier candidate strictly |
| World.ScanStep | LIDAR/FrontEndLIDAR/world.cc:39-43 | one candidate replaces the running choice exactly when it is strictly more likely |
| World.AssignIsArgmax | LIDAR/FrontEndLIDAR/world.cc:26-45 | the code is entry, background or a valid person with leg 0 or 1; the best is the maximum of all candidates, and ties go to the earliest |
| World.Tally | LIDAR/FrontEndLIDAR/world.cc:46-52 | assigned, entry and background counts add up to the number of measurements |
| World.IndicesWith | LIDAR/FrontEndLIDAR/world.cc:87-90 | exactly the scans with that code, in increasing order |
| World.EntryScans | LIDAR/FrontEndLIDAR/world.cc:87-90 | exactly the scans whose assignment is entry, in increasing order |
| World.PairTable | LIDAR/FrontEndLIDAR/world.cc:104 | the distances between the unassigned points, by position in the list |
| World.BestPair | LIDAR/FrontEndLIDAR/world.cc:98-112 | the kept separation is at least as close to the mean as every ordered pair's, and it is a real pair's unless none improves on 1e10 |
| World.LegScans | LIDAR/FrontEndLIDAR/world.cc:135-138 | exactly the scans assigned to that person and leg, in increasing order |
| World.FirstGap | LIDAR/FrontEndLIDAR/world.cc:148-149 | the first position whose step from its predecessor is not 1 |
| World.FirstGapIs | LIDAR/FrontEndLIDAR/world.cc:147-148 | when every earlier step is 1 and step i is not, the first gap is at i |
| World.SpanTestDetectsGap | LIDAR/FrontEndLIDAR/world.cc:146 | on an increasing list the span test fails exactly when the list has a gap |
| World.SpanAtLeastLength | LIDAR/FrontEndLIDAR/world.cc:146 | an increasing list spans at least its length |
| World.Cut | LIDAR/FrontEndLIDAR/world.cc:150-152 | cutting moves the tail to the other list and loses or duplicates nothing |
| World.SplitAtGap | LIDAR/FrontEndLIDAR/world.cc:144-157 | the split happens exactly when the span test fails (which happens only for a list with a gap); the kept prefix runs to the first gap and is contiguous; nothing is lost |
| World.ContiguousSpan | LIDAR/FrontEndLIDAR/world.cc:144-147 | a list without gaps passes the span test |
| World.SplitAtRangeJump | LIDAR/FrontEndLIDAR/world.cc:159-174 | the list is cut at `FirstJump`: before the first range jump larger than half a leg diameter, and not at all when there is none; nothing is lost |
| World.FirstJump | LIDAR/FrontEndLIDAR/world.cc:162-171 | the first position at or after k whose range jump exceeds half a leg diameter, or the end |
| World.FirstJumpIs | LIDAR/FrontEndLIDAR/world.cc:162-171 | when no jump precedes i and i jumps (or is the end), the first jump is at i |
| World.SplitPointIsFirstBreak | LIDAR/FrontEndLIDAR/world.cc:142-175 | the cut point is the first gap when the span test fails, otherwise the first range jump; the list is cut exactly when such a break exists |
| World.SplitLegs | LIDAR/FrontEndLIDAR/world.cc:142-175 | the points of the two legs are preserved; two empty or two non-empty lists are never split; when one leg has every point, that list is cut at `SplitPoint`, and split holds exactly when the cut is inside the list |
| World.SwapKeepsLikelierMatching | LIDAR/FrontEndLIDAR/world.cc:176-193 | `swaplike` is the as-is matching minus the swapped one, so the lists end up in the more likely order |
| World.SwapAsWrittenReadsPastPeople | LIDAR/FrontEndLIDAR/world.cc:182 | as written, one person with two points on a leg reads `people[1]`, past the end |
| World.SwapAsWrittenUsesOtherPerson | LIDAR/FrontEndLIDAR/world.cc:182 | as written, the sum mixes in another person's likelihoods and differs from the intended one |
| World.Alive | LIDAR/FrontEndLIDAR/world.cc:199-204 | no dead track is left, and every living track is kept |
| World.AliveOfLivingIsIdentity | LIDAR/FrontEndLIDAR/world.cc:199-204 | a list with no dead track is unchanged |
| World.AliveSplits | LIDAR/FrontEndLIDAR/world.cc:199-204 | deletion keeps the order of the living |
| World.ActiveIds | LIDAR/FrontEndLIDAR/world.cc:239-247 | an id is active exactly when some person with it has reached the age threshold |
| World.ActiveCount | LIDAR/FrontEndLIDAR/world.cc:238-241 | the count of people old enough is at most the number of people |
| World.Entries | LIDAR/FrontEndLIDAR/world.cc:239-247 | an entry is sent for every active id not previously known, and for no other |
| World.ExitEvents | LIDAR/FrontEndLIDAR/world.cc:250-253 | one exit per id, in order |
| World.AscendingIds | LIDAR/FrontEndLIDAR/world.cc:250 | the set's ids in the ascending order `std::set` iterates |
| World.SecondDestinationMissesEntries | LIDAR/FrontEndLIDAR/world.cc:236-257 | as written, a second destination gets no entry for a new person and is left believing nobody is present |
| World.ViewOfEntries | LIDAR/FrontEndLIDAR/world.cc:239-247 | applying the entries adds exactly the active ids |
| World.ViewOfExits | LIDAR/FrontEndLIDAR/world.cc:250-253 | applying the exits removes exactly those ids |
| World.AnnounceBringsViewUpToDate | LIDAR/FrontEndLIDAR/world.cc:236-257 | a destination that knew `lastid` and applies the entries and exits knows exactly the active ids |
| World.SendAll | LIDAR/FrontEndLIDAR/world.cc:222-257 | each destination that hears the frame gets the same entries, exits and count, worked out once |
| World.EveryDestinationUpToDate | LIDAR/FrontEndLIDAR/world.cc:222-289 | with the corrected sends, every destination reached ends up knowing exactly the active ids |
| World.World.constructor | LIDAR/FrontEndLIDAR/world.cc:9-13 | no frame seen yet, next id 1, nobody tracked |
| World.World.Advance | LIDAR/FrontEndLIDAR/world.cc:66-71 | nsteps is the frames since the last one, or 1 on the first frame, and the frame is recorded |
| World.World.AssignScan | LIDAR/FrontEndLIDAR/world.cc:26-45 | the loop for one scan point computes `Assign` |
| World.World.MakeAssignments | LIDAR/FrontEndLIDAR/world.cc:15-53 | every scan point gets `Assign`; the counts are the tally and add up to the number of measurements; every code is valid |
| World.World.AssignAll | LIDAR/FrontEndLIDAR/world.cc:26-52 | the loop over scan points gives each its `Assign`, counts the tally, and keeps every code valid |
| World.World.Unassigned | LIDAR/FrontEndLIDAR/world.cc:87-90 | the scans coded as entry, in order |
| World.World.MaybeCreate | LIDAR/FrontEndLIDAR/world.cc:92-129 | a track is created (one, with the next id) only with enough unassigned points after the background frames and a pair within two sigmas of the mean; otherwise no pair qualifies |
| World.World.KeptScansBelongToPerson | LIDAR/FrontEndLIDAR/world.cc:133-175 | the split lists hold only the person's own scans |
| World.World.LegLists | LIDAR/FrontEndLIDAR/world.cc:133-194 | the lists are `PersonLists`: the person's points by leg, split and put in the likelier order when needed; unsplit lists are the points by leg |
| World.UpdateListsSplitsLikelier | LIDAR/FrontEndLIDAR/world.cc:133-194 | the update keeps the person's points, and changes the lists only by splitting a single full leg into two non-empty lists in the likelier order |
| World.SplitThenSwapIsUpdateLists | LIDAR/FrontEndLIDAR/world.cc:142-193 | any split that meets `SplitLegs`' contract, followed by the swap check, gives `UpdateLists` |
| World.World.SplitAndSwap | LIDAR/FrontEndLIDAR/world.cc:142-193 | the split then the swap check computes `UpdateLists`; unsplit lists are returned as they are |
| World.World.PersonUpdate | LIDAR/FrontEndLIDAR/world.cc:133-194 | points by leg, then split and swap, computes `PersonLists` |
| World.World.PointsByLeg | LIDAR/FrontEndLIDAR/world.cc:135-138 | the scans assigned to the person, by leg, in order |
| World.World.TrackFrame | LIDAR/FrontEndLIDAR/world.cc:65-197 | the frame step, assignment, at most one new track with a redone assignment, and each person's leg lists as `PersonLists`; a track is created only when the frame's entry scans (`EntryScans`) pass the count and frame gate and hold a plausible pair, and when the gate passes without creation no pair is plausible |
| World.World.AllLegLists | LIDAR/FrontEndLIDAR/world.cc:133-197 | each person's leg lists are `PersonLists`, in order |
| World.World.DeleteDead | LIDAR/FrontEndLIDAR/world.cc:199-204 | the tracks become `Alive` of the old ones; nothing else changes |
| World.World.SendMessages | LIDAR/FrontEndLIDAR/world.cc:220-257 | `lastid` becomes the active ids when some destination heard the frame and is kept otherwise; every destination gets the corrected sends; nothing else changes |
| Laser.DevDist | Laser/laser.cc:69 | the Chebyshev distance is 0 exactly for points at the same x and y, and at most 0xFFFF |
| Laser.BlankCountBounds | Laser/laser.cc:66-71 | no blanks exactly for the same x and y; otherwise between 10 and 30 |
| Laser.BlankCountMonotonic | Laser/laser.cc:71 | a longer slew never takes fewer blanks |
| Laser.Dark | Laser/laser.cc:73-74 | the end point with red, green and blue off and every other channel kept |
| Laser.GetBlanks | Laser/laser.cc:66-79 | `BlankCount` copies of the darkened end point |
| Laser.Laser.constructor | Laser/laser.cc:12-16 | 30000 points per second, 600 points, the DAC handle as given, nothing written |
| Laser.Laser.Open | Laser/laser.cc:18-45 | success exactly when the unit exists and connects; the DAC is picked before the connection is tried |
| Laser.Laser.Update | Laser/laser.cc:47-63 | the points are written exactly when there are at least two and a DAC is picked |
| Laser.Laser.Render | Laser/laser.cc:82-87 | the drawing's points become current and are written only when there are at least two |
| VideoTracker.MapAxis | Video/Tracker/src/Tracker.java:218-220 | defined exactly when the bounds differ |
| VideoTracker.MapPosition | Video/Tracker/src/Tracker.java:218-220 | defined exactly when both axes have distinct bounds |
| VideoTracker.MapAxisLandmarks | Video/Tracker/src/Tracker.java:218-220 | the low bound maps to -1, the high bound to 1, the midpoint to 0 |
| VideoTracker.MapAxisRoundTrip | Video/Tracker/src/Tracker.java:218-220 | the map is invertible, in both orders |
| VideoTracker.MapAxisMonotone | Video/Tracker/src/Tracker.java:218-220 | increasing for increasing bounds, and the floor interval goes into [-1,1] |
| VideoTracker.NextMouseId | Video/Tracker/src/Tracker.java:186-189 | the id stays within 90..97, and 97 goes back to 90 |
| VideoTracker.EightReleasesCycle | Video/Tracker/src/Tracker.java:188 | eight releases bring the id back |
| VideoTracker.OnlyLit | Video/Tracker/src/Tracker.java:144-159 | after a selection only the selected app's button is lit |
| VideoTracker.VisPosTableIsRule | Video/Tracker/src/Tracker.java:29 | the button table follows the newer tracker's rule, so no button names two apps |
| VideoTracker.EqualBoundsLoseEveryPosition | Video/Tracker/src/Tracker.java:218-220 | equal bounds make every position undefined |
| VideoTracker.VideoTracker.constructor | Video/Tracker/src/Tracker.java:23-88 | bounds of 3.2 m around the origin, mouse id 90, app 8 selected |
| VideoTracker.VideoTracker.SetApp | Video/Tracker/src/Tracker.java:138-166 | the selection becomes `SetAppTarget` (corrected guard); a valid app is the only one lit; the rest is unchanged |
| VideoTracker.VideoTracker.VSetApp | Video/Tracker/src/Tracker.java:117-125 | the app on the pressed button is selected; a button naming none changes nothing; only the selection and the lit buttons may change |
| VideoTracker.VideoTracker.MouseReleased | Video/Tracker/src/Tracker.java:186-189 | the mouse id becomes `NextMouseId` of the old one; nothing else changes |
| VideoTracker.VideoTracker.PfUpdate | Video/Tracker/src/Tracker.java:239-252 | the fourth argument is y and the fifth x; y is negated before the map; only that id's position changes |
| VideoTracker.VideoTracker.PfSetMinX | Video/Tracker/src/Tracker.java:254-256 | minx is stored unchecked |
| VideoTracker.VideoTracker.PfSetMaxX | Video/Tracker/src/Tracker.java:260-262 | maxx is stored unchecked |
| VideoTracker.VideoTracker.PfSetMinY | Video/Tracker/src/Tracker.java:257-259 | miny is stored unchecked |
| VideoTracker.VideoTracker.PfSetMaxY | Video/Tracker/src/Tracker.java:263-265 | maxy is stored unchecked |
| Soccer.Bounce | Video/Tracker/src/VisualizerSoccer.java:34-49 | past a wall the position is mirrored in it and the velocity reversed and scaled by 0.7 |
| Soccer.Step | Video/Tracker/src/VisualizerSoccer.java:31-53 | the cooldown counts down to 0 and never below |
| Soccer.Touch | Video/Tracker/src/VisualizerSoccer.java:62-70 | on a hit the velocity becomes the kick and the cooldown 2; otherwise nothing changes |
| Soccer.CooldownBlocksRepeatHits | Video/Tracker/src/VisualizerSoccer.java:52-69 | a kick starts a cooldown of 2; after one update no leg counts, and after two updates legs count again |
| Soccer.KickFollowsLeg | Video/Tracker/src/VisualizerSoccer.java:67 | the kick is the leg's velocity times a factor from 0 to below 1.7 |
| Soccer.BounceDamps | Video/Tracker/src/VisualizerSoccer.java:35 | a bounce never increases that velocity component |
| Soccer.WalledDamps | Video/Tracker/src/VisualizerSoccer.java:34-49 | the four wall tests never increase either velocity component |
| Soccer.StepNeverSpeedsUp | Video/Tracker/src/VisualizerSoccer.java:31-53 | for a frame time of at most a second an update never speeds the ball up |
| Soccer.BounceReturnsInside | Video/Tracker/src/VisualizerSoccer.java:34-37 | a ball past a wall by less than the area's width comes back between the walls, moving inwards |
| Soccer.OneKickPerFrame | Video/Tracker/src/VisualizerSoccer.java:97-103 | from a ball out of collision, the pass over everyone equals the detection by the first person whose legs change the ball, and changes nothing when nobody's do |
| Soccer.CoolingBallIgnoresEveryone | Video/Tracker/src/VisualizerSoccer.java:56-58 | a ball cooling down from a collision is unchanged by the whole pass |
| Soccer.Ball.constructor | Video/Tracker/src/VisualizerSoccer.java:14-18 | a new ball is not in a collision |
| Soccer.Ball.Update | Video/Tracker/src/VisualizerSoccer.java:31-53 | the ball's state becomes `Step` of the old one |
| Soccer.Ball.CollisionDetect | Video/Tracker/src/VisualizerSoccer.java:56-72 | the ball's state becomes `Detect` of the old one: nothing while cooling down, else each leg in turn |
| Soccer.VisualizerSoccer.constructor | Video/Tracker/src/VisualizerSoccer.java:76-80 | no ball before the first start |
| Soccer.VisualizerSoccer.Start | Video/Tracker/src/VisualizerSoccer.java:83-87 | a fresh ball at the given place and speed, out of collision |
| Soccer.VisualizerSoccer.Stop | Video/Tracker/src/VisualizerSoccer.java:90-94 | the ball is dropped |
| Soccer.VisualizerSoccer.Update | Video/Tracker/src/VisualizerSoccer.java:97-103 | the ball moves, then meets every person in turn |

## Left out

- Drawing is not modelled: canvases, the shadow quads of `buildMasks`, the blur filter, projector rendering and the ball's drawing. The coverage the masks hold after drawing is an input of `Masks.Compositor.BuildMasks`.
- The OSC transport is not modelled: sending, TouchOSC button messages, the labels and configuration writes of `resetcoords`, and `sendMouseOSC`. Events a destination receives are lists of values; a TouchOSC button message is the `Button` it names.
- `Masks.Compositor.MakeCanvases` takes the canvas width and height as parameters. The float arithmetic that computes them from the area is not modelled.
- `Coords` floats are `real`. Division by a zero floor size gives a non-finite float in Java; the model gives `None`.
- `Tracker.Tracker.ResetCoords`: the canvas size `makeCanvases` computes from the floor (a square root of the canvas area over the floor area, truncated to int) is the function `canvasSize` given at construction.
- `Tracker.Tracker.constructor` requires at least one projector, because `makeCanvases` sizes `pselect` from `mask[0]`.
- `Tracker.Tracker.SetScreen2World`: the projector's recomputation of its coverage outline from the new matrix belongs to the `Projector` class, which is not part of this model. The new outline is a parameter, and it becomes that projector's entry in `projBounds`.
- `Tracker.Tracker.Cycle` requires some selectable visualizer. Without one, the source's do-while loop never ends.
- `Tracker.Tracker.PfExit`: the automatic `cycle` after the last exit is not modelled, because the `autocycle` flag and the clock are outside this model.
- `Tracker.Tracker.PfSetNPeopleReset`: only the `setapp(currentvis)` step is modelled. The automatic `cycle` is not (the `autocycle` flag is outside this model), and neither is `people.setnpeople`, because the `People` class is not part of this model.
- `People`: the `People`, `Person` and `Leg` classes of the newer tracker are not part of this model. People are a map from id to a record, and a new person starts at rest at the origin with two legs.
- `People.LegVelocity` takes the sine and cosine of the heading as inputs, because there is no trigonometry over `real`.
- `Tracker.Tracker.GetAppIndex` compares names by value; Java compares `String` references. The two agree for the interned literals the tracker registers.
- `setprojection`, `setpose`, `setcameraview`, `setcursor`, `pfbackground`, `pfgeo` and `pfgroup` are left out. They store matrices or debug data nothing in this model reads, or they do nothing.
- `LegModel`: `Leg::update` (the likelihood grid search), `getObsLike`, `updateVelocity` and the leg's messages are left out. They are floating-point statistics (log, exp, normcdf) with no exact `real` counterpart. Likelihoods appear as given inputs.
- `LegModel.Leg.Predict` takes the norm as a function parameter, because there is no square root over `real`.
- `LegModel.Leg.UpdateDiameterEstimates` takes the scan error as an input, because it is a dot product with a normalized direction (a square root). The code after its early `return` is unreachable and is not modelled.
- `LegModel`: the constants of the front end's parameters header are not part of this model. They are parameters (`LegParams`, `WorldParams`).
- `World`: the per-point likelihoods (`getObsLike`), the background likelihoods and the distances between scan points are given as tables. The entry likelihood of a frame comes from `exp`/`log` and is an input.
- `World`: `log(100)` is the constant `LogHundred`, the double nearest to it.
- `World`: a person's own `predict` and `update`, group tracking, the background update, `draw`, `convertToMX` and the `/pf/update`, `/pf/body`, `/pf/leg`, group and geo messages are left out. The success of each geo send is an input (`geoOk`), because a failed geo send ends the destination loop.
- `World`: a destination's failure count and its removal after 100 failures are left out. Whether the frame message reaches a destination is an input (`ok`).
- `World.World.MaybeCreate`: the new track's leg positions are not modelled, because they need a square root. Only its id, its age 0 and its liveness are.
- `World.SplitAtRangeJump`: the source's integer `abs` of a float difference is read as the absolute value of the difference.
- `World.World.DeleteDead`: `isDead` is a field of the track, because the person's own logic is not modelled.
- `Laser.Laser.constructor`: the constructor does not initialise the DAC handle `d`, so whether it starts out set is a parameter (`handleSet`).
- `Laser.Laser.Open`: the Ether Dream library (starting it, the wait, listing DACs, connecting) is left out. The DAC count and the connection result are inputs.
- `Laser.Laser.Update`: waiting for the DAC and the write itself are abstracted. Each write appends the points to `written`.
- `Laser.Laser.Render`: the drawing's conversion to points (`Drawing::getPoints` with the transform) is not part of this model. The points are an input.
- `VideoTracker`: the visualizers' `start`, `stop`, `update` and drawing, the synthesizer, `pfsetnpeople`, `pfexit`, `pfentry` and the auto cycler are left out. The `Positions` class is not part of this model beyond the last mapped position of each id.
- `VideoTracker.VideoTracker.PfUpdate`: channel, group and velocity arguments are accepted and not stored, because `Positions.move` is not part of this model.
- `Soccer`: the frame time `1 / frameRate` and the walls (the tracker's bounds) are inputs. Person order follows the `HashMap` iteration order, which is the order of the given list.
- `Soccer.Hits` compares squared distances instead of taking a square root. This is the same test whenever the sum of the radii is positive, and it is never true otherwise.
- `Soccer.BallRadius` is 0.69/(2π) to float precision, because π is not a `real` constant.
- `Soccer.Kg`: leg masses are taken as non-negative, as a mass is. The mass of a person's leg comes from the `Position` class, which is not part of this model.
- Concurrency is not modelled. `synchronized` only serialises the OSC thread against drawing, so every operation is sequential.

Other notes on the code:

- `resetcoords` does not re-establish the one-metre gap that the setters insist on (`Tracker.ResetCanInvertBounds`).
- `pfsetnpeople(0)` calls `setapp(currentvis)` "to reset". That call returns at the equality guard and does nothing (`Tracker.ResetIsNoOp`).
- `makeCanvases` writes `pselect[0]` on every turn of its loop. Java zero-fills a new array, so every pixel still starts owned by projector 0.
- In `Laser::open`, a failed connection still leaves the DAC picked, so a later `update` writes to it (`Laser.Laser.Open`).
- The older tracker's `pfupdate` names its fourth argument `ypos` and its fifth `xpos`: the axes are swapped with respect to the newer tracker.

## Findings

| source | as written | input that shows it | evidently intended | confidence | as-written member | corrected member |
|---|---|---|---|---|---|---|
| modules/Tracker/src/com/pulsefield/tracker/Tracker.java:476 | `setapp` rejects only `appNum > vis.length`, so `vis.length` passes, becomes `currentvis`, and `vis[currentvis]` then throws with the selection out of range | `setapp(vis.length)` | reject `appNum >= vis.length` | high; not executed | Tracker.SetAppAsWrittenLeavesInvalid | Tracker.SetAppTarget |
| Video/Tracker/src/Tracker.java:139 | the same guard in the older tracker: `setapp(9)` with nine apps sets `currentvis` to 9 before `visnames[9]` throws | `setapp(9)` | reject `appNum >= vis.length` | high; not executed | Tracker.SetAppAsWrittenLeavesInvalid | VideoTracker.VideoTracker.SetApp |
| LIDAR/FrontEndLIDAR/world.cc:182 | the swap check reads `people[i]`, where `i` is the position in the point list, instead of the person `p` being split | one person whose leg list has two points: `people[1]` is read past the end; with two people, person 1's likelihoods are summed for person 0's points. The model reads another person's likelihoods from the table of the frame's assignment; in the source a person before `p` has already been updated earlier in the same loop, which changes the numbers but not the mix-up | `people[p]` | high; not executed | World.SwapAsWrittenReadsPastPeople | World.SwapKeepsLikelierMatching |
| LIDAR/FrontEndLIDAR/world.cc:245 | `lastid` is updated inside the loop over destinations, so only the first destination that hears the frame gets a new person's entry, an exit or a changed count | two destinations and one new person of age 10 with threshold 5: the second destination gets no entry | work out the entries, exits and count once per frame, then send them to every destination | high; not executed | World.SecondDestinationMissesEntries | World.EveryDestinationUpToDate |
