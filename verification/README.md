# Speed-Ball-Game in Dafny

This project models the game logic of Speed-Ball-Game, a browser game. A ball (or a star)
runs along a zig-zag track of rectangles. Space switches its direction between the x and y
axes, and it speeds up as it goes. When the run ends, one star is revealed for each distance
milestone the player passed.

The model covers these parts of the game:

- the quadtree that stores the seed points of the Worley-noise background;
- the Worley-noise distance field and the pixel buffer built from it;
- the two scrolling backgrounds;
- the track generator and the power-up timer;
- the particle and tracer trail effects;
- the player's key handling, speed ramp and frame counter;
- the star-reveal animation;
- the radial background menu;
- the saved setups in the browser's key-value store;
- the game loop's stars-earned computation and its game-over gate;
- the small helpers in `js/utils.js`: rounding, clamping, random integers, consecutive lines and
  the hex colour codec.

Everything is modelled with immutable datatypes and pure functions. Methods are used where
the source has a loop worth following. Anything the code reads from the environment comes in as
a parameter:

- `Math.random()` is a draw in `[0, 1)`;
- `**` is an uninterpreted `pow`;
- the window size and the frame time are passed in;
- `localStorage` is a map.

Modules follow the source files:

| module | file |
|---|---|
| `Wrappers`, `Geometry`, `Arith`, `Grids`, `Seqs` | shared helpers |
| `Utils` | `js/utils.js` |
| `QuadTree` | `js/quadtree.js` |
| `Worley` | `js/worleyNoise.js` and the generator in `js/worleyNoiseGen.js` |
| `Scroll` | `js/ex-background.js` and `WorleyHandler` in `js/worleyNoiseGen.js` |
| `Rectangles` | `js/rectangle.js` |
| `Powers` | `js/powerups.js` |
| `Tracks` | `js/track.js` |
| `Particles` | `js/particles.js` |
| `Players` | `js/player.js` |
| `StarAnimations` | `js/progressStars.js` |
| `RadialMenus` | `js/radialMenu.js` |
| `Setups` | `setup.js` |
| `Games` | `main.js` |

Some facts the proofs establish about the source as written:

- `QuadTree.insert` never returns `true`. A leaf that stores a point returns `undefined`, so a
  full node always offers the point to all four children. A point on an edge that two quadrants
  share is therefore stored in every quadrant that contains it.
- The wrap-around query folds the parts of a range that stick out of the canvas back onto the
  opposite edge. The proof of this needs two things:
  - the root boundary has its corner at the origin, which is the only shape the game builds;
  - the range is no larger than the boundary.
- The stars earned are the number of milestones passed, because the milestone list is
  ascending.
- Holding a key down repeats its `keydown` event, and the radial menu ignores the repeats.

## Model

| member | source | states |
|---|---|---|
| Utils.RandomInteger | js/utils.js:12-14 | for a draw in [0, 1) and `lo < hi` the result lies in `[lo, hi)` |
| Utils.Clamp | js/utils.js:16-18 | the result is never below the minimum, lies in the interval when it is non-empty, and is the value itself inside it, the minimum below it and the maximum above it |
| Utils.RoundOff | js/utils.js:1-3 | the result is a whole multiple of `10^-digits` within half a unit of the value; a tie rounds away from zero, and a non-negative value stays non-negative |
| Utils.RoundOffIsNearest | js/utils.js:1-3 | a multiple of `10^-digits` inside the half-unit window, taking ties away from zero, is exactly the rounded value, so the contract fixes the result |
| Utils.RoundOffTiesAway | js/utils.js:1-3 | `0.25` rounds to `0.3` and `-0.25` to `-0.3` at one decimal |
| Utils.RoundOffIdempotent | js/utils.js:1-3 | rounding an already rounded value changes nothing |
| Utils.ConsecutiveLines | js/utils.js:20-29 | one line per neighbouring pair of points, joining point `i` to point `i + 1`, and none for fewer than two points |
| Utils.RgbToHex | js/utils.js:173-183 | `#` followed by two lower-case hex digits per channel, each the channel clamped to 0..255 |
| Utils.ParseToHexRoundTrip | js/utils.js:162-169 | parsing the hex text of a number gives the number back |
| Utils.HexOfRgbRoundTrip | js/utils.js:162-183 | decoding the hex colour of `(r, g, b)` gives the three channels clamped to 0..255 |
| Utils.RgbOfHexRoundTrip | js/utils.js:162-183 | every `#rrggbb` text decodes to three channels, and encoding them gives the text back in lower case |
| Utils.PaletteStart | js/worleyNoise.js:38 | `#aaa8d7` decodes to (170, 168, 215) |
| Utils.PaletteEnd | js/worleyNoise.js:39 | `#7c7c9d` decodes to (124, 124, 157) |
| QuadTree.ContainsIsClosed | js/quadtree.js:11-17 | a rectangle with non-negative extents contains its centre and its four corners, so its boundary is closed |
| QuadTree.ContainsWithinHalfExtents | js/quadtree.js:11-17 | a point is contained exactly when it lies within the half-width of the centre along x and within the half-height along y |
| QuadTree.IntersectsIffCommonPoint | js/quadtree.js:19-24 | two rectangles intersect exactly when they share a point, and intersection is symmetric |
| QuadTree.Subdivide | js/quadtree.js:130-153 | a subdivided node has four empty children, one on each quarter of its boundary, with the parent's capacity |
| QuadTree.QuadrantsCoverParent | js/quadtree.js:130-153 | a point lies in the boundary exactly when it lies in one of the four quarters |
| QuadTree.Insert | js/quadtree.js:155-174 | the tree stays well formed with the same boundary and capacity; the result is `false` exactly when the point is outside the boundary, and then the tree is unchanged; the result is never `true` |
| QuadTree.InsertKeeps | js/quadtree.js:155-174 | an insert keeps every point stored before, adds copies of only the inserted point, and adds at least one copy when the point is inside the boundary |
| QuadTree.QueryLocal | js/quadtree.js:115-127 | a query of a child branch returns only points inside the range |
| QuadTree.QueryLocalIsFilter | js/quadtree.js:115-127 | a query without wrap-around returns exactly the stored points inside the range, in storage order |
| QuadTree.OffsetRootStripRepeats | js/quadtree.js:78-83 | for a boundary whose minimum corner is not the origin, the right-overflow strip centred at the absolute `newW` can be the range it came from |
| QuadTree.Query | js/quadtree.js:59-128 | a range that does not meet the boundary finds nothing |
| QuadTree.QueryContained | js/quadtree.js:59-128 | every point the wrap-around query returns lies inside the range, the strips' points included once shifted across the edge |
| QuadTree.QueryInsideBoundary | js/quadtree.js:59-128 | a range inside the canvas returns exactly the stored points inside it |
| QuadTree.QueryTiles | js/quadtree.js:64-110 | the wrap-around query returns the stored points seen through each tile of the torus that the range overlaps, with the corner tile included once per strip |
| QuadTree.SharedEdgeStoredInEveryQuadrant | js/quadtree.js:155-174 | a point at the centre of a full node is stored in all four quadrants |
| Worley.DistSquare | js/worleyNoise.js:16-18 | the squared distance is non-negative and at least each squared coordinate |
| Worley.LowestValue | js/worleyNoise.js:8-14 | the result is the minimum of the values and `MAX_SAFE_INTEGER`: no larger than any element, and one of them unless it is the starting value |
| Worley.ClosestIsMinimum | js/worleyNoise.js:244-250 | a pixel's distance is no larger than its squared distance to any candidate, and equals one of them unless there is none |
| Worley.NewNoise | js/worleyNoise.js:21-50 | the given size, a point count of the given one or else the area-based default, a squared search distance that is the square, and no points or distances yet |
| Worley.NewNoisePalette | js/worleyNoise.js:38-46 | the colour ramp runs between the decoded fixed palette colours |
| Worley.PaletteIgnoresFallback | js/worleyNoise.js:38-46 | the palette's channels are all non-zero, so the constructor's fallback colours are never used |
| Worley.DefaultGenerator | js/worleyNoiseGen.js:12-24 | the default 400 by 400 generator has 4 seed points and a squared search distance of 40000 |
| Worley.SetSize | js/worleyNoiseGen.js:38-42 | a new size brings the area-based point count, and nothing else changes |
| Worley.SetMaxDistForRatio | js/worleyNoiseGen.js:48-52 | the search distance and its square are set together, and nothing else changes |
| Worley.SetRatioPower | js/worleyNoiseGen.js:44-46 | only the exponent changes |
| Worley.CreateRandomPoints | js/worleyNoise.js:206-214 | `pointCount` seed points, each the integer draw inside the canvas, and nothing else changes |
| Worley.SeedPointAccepted | js/worleyNoise.js:221-225 | every seed point lies inside the canvas boundary, so the tree accepts it |
| Worley.BuildTreeHolds | js/worleyNoise.js:219-225 | the tree holds every seed point inside the canvas |
| Worley.BuildTreeOnlyInserted | js/worleyNoise.js:219-225 | the tree holds no point that was not seeded |
| Worley.BlockStep | js/worleyNoise.js:232-243 | the candidate cache is refreshed at multiples of `checkMultiple` and reused between them |
| Worley.CandidatesStep | js/worleyNoise.js:229-243 | the cached candidates of a pixel are the query around the start of its block in both directions |
| Worley.GeneratePixelDistances | js/worleyNoise.js:216-254 | one distance per pixel, row by row, each the minimum over the cached candidates, and nothing else changes |
| Worley.NoRefreshNoDistance | js/worleyNoise.js:232-251 | when `checkMultiple` is 0 the cache is never filled and every pixel keeps `MAX_SAFE_INTEGER` |
| Worley.PixelDistanceAttained | js/worleyNoise.js:244-250 | a pixel's distance is the squared distance to one of its candidates, unless it has none |
| Worley.FillRow | js/worleyNoise.js:239-252 | one row of the field, equal to the pixel distances of that row |
| Worley.ToByte | js/worleyNoise.js:256-274 | a channel written to the byte buffer lies in 0..255 and keeps values already in range |
| Worley.CreateImageData | js/worleyNoise.js:256-274 | four bytes per pixel, in pixel order, each from that pixel's distance, with alpha 255, and all bytes in 0..255 |
| Scroll.NewBackground | js/ex-background.js:3-13 | the image is twice the screen height and starts one image height above the screen's bottom edge |
| Scroll.NewHandler | js/worleyNoiseGen.js:202-219 | the same start for the handler, through `setImageHeight` |
| Scroll.SetImageHeight | js/worleyNoiseGen.js:221-224 | only the image height changes |
| Scroll.SameMultiplier | js/ex-background.js:101-105 | the two backgrounds use the same per-frame multiplier |
| Scroll.Advance | js/ex-background.js:101-111 | once loaded the offset moves by the step, and jumps back one image height when it passes the screen bottom |
| Scroll.UpdateBackground | js/ex-background.js:80-112 | nothing moves until the image has loaded; then the offset advances by wind plus, while moving, base speed |
| Scroll.UpdateHandler | js/worleyNoiseGen.js:241-253 | the handler's update, with the same behaviour |
| Scroll.ScrollStaysInBand | js/ex-background.js:101-111 | steps no longer than the image keep the offset in the band where the two copies cover the screen |
| Scroll.ConfigureGenerator | js/worleyNoiseGen.js:226-230 | `start` sizes the generator to the screen width and twice its height, with search distance 350 and exponent 1.5 |
| Rectangles.NewRect | js/rectangle.js:4-14 | the given bounds, hue 197 and the dark-to-darkest gradient unless given, not off screen |
| Rectangles.NewColorRect | js/rectangle.js:47-57 | a colour rectangle ignores the hue argument and keeps the defaults |
| Rectangles.DrawPath | js/rectangle.js:28-33 | the drawn path is the bounds inset by the offset on every side |
| Rectangles.DrawPathWithin | js/rectangle.js:28-33 | a non-negative inset small enough to keep a non-negative size stays inside the bounds |
| Rectangles.InsetTwice | js/rectangle.js:28-33 | two insets add up |
| Powers.NewPowerUps | js/powerups.js:4-13 | no power-ups and a zero timer |
| Powers.Update | js/powerups.js:26-33 | the timer accumulates and resets to 0 once it reaches 100, and the power-ups are unchanged |
| Powers.UpdatesKeepPowers | js/powerups.js:26-33 | no sequence of updates ever adds a power-up |
| Powers.SpawnIndex | js/powerups.js:17-18 | the chosen segment is the draw's index plus 5, capped at the last segment |
| Powers.AddPowerUp | js/powerups.js:15-24 | a 20 by 20 power-up of hue 0 is appended at the drawn position |
| Powers.CornerInset | js/powerups.js:19-21 | the power-up's corner lies inside its segment inset by half the player's size |
| Tracks.MaxRectsGen | js/track.js:13-14 | the segment budget is an even, non-negative number |
| Tracks.TrackLengthBounds | js/track.js:38-40 | a segment's length lies between `width * (2 + max - difficulty)` and `width * (2 + max)` |
| Tracks.AddRect | js/track.js:47-69 | even segments run along x and odd ones along y, each starting at the track's end, and the end moves by length minus player size; the milestone index advances by one exactly when the milestone is reached |
| Tracks.AddRectLinks | js/track.js:47-69 | the new track end lies on the segment just added |
| Tracks.Generate | js/track.js:42-45 | the generation loop appends one segment per draw without checking milestones |
| Tracks.NewTrack | js/track.js:6-31 | the constructor fills the budget, starts at milestone 1, difficulty 2 of 3, and enables milestone checks |
| Tracks.NewTrackLinked | js/track.js:42-69 | every segment of a new track starts on the previous one |
| Tracks.NewTrackAlternates | js/track.js:47-62 | the segments of a new track alternate between horizontal and vertical |
| Tracks.Resize | js/track.js:33-36 | only the segment budget changes |
| Tracks.EvictExactly | js/track.js:71-77 | a segment survives the update exactly when it was on screen and is not behind the player |
| Tracks.Update | js/track.js:71-82 | the segments behind the player are evicted in order; while below budget exactly the segment `addRect` builds is appended (with its cursor and milestone effects), otherwise nothing but the segments and the power-ups changes; the power-up timer advances |
| Tracks.UpdateKeepsChained | js/track.js:71-82 | when eviction drops only the oldest segments, an update keeps the track one connected path ending at the cursor |
| Tracks.UpdateAddsAtMostOne | js/track.js:79 | an update adds at most one segment |
| Particles.NewParticle | js/particles.js:5-23 | a new particle has its given size as current and default size, twice that as its maximum, friction 0.98, and a growth rate in [1.015, 1.025) for a draw in [0, 1) |
| Particles.StepParticle | js/particles.js:36-44 | a particle goes off screen once it reaches its maximum size, and stays off screen |
| Particles.OffscreenSticky | js/particles.js:36-44 | once off screen, a particle stays off screen over any number of updates |
| Particles.NewTrailEffect | js/particles.js:57-72 | the trail effect defaults: hue 185, size 9, 10 per burst, at most 100 |
| Particles.AddParticles | js/particles.js:97-108 | the burst appends one spawned particle per draw and keeps the old ones |
| Particles.UpdateTrail | js/particles.js:110-124 | no particle left is off screen, the timer resets on a burst, the count grows by at most one burst, and the particles kept are the stepped list filtered by liveness |
| Particles.UpdateTrailSurvivors | js/particles.js:110-124 | a particle survives exactly when it is a stepped particle that is not off screen, and the survivors appear in their original relative order: the new list reads the stepped list at strictly increasing positions, exactly those of the live particles |
| Seqs.FilterKeepsOrder | js/particles.js:123 | filtering keeps relative order: the result reads the input at a strictly increasing sequence of positions, and those are exactly the positions whose elements pass |
| Particles.NewRectTracer | js/particles.js:413-420 | a new rectangle tracer holds no glows and its timer is zero |
| Particles.NewTracer | js/particles.js:131-142 | a tracer starts with one point at the player |
| Particles.AddPoint | js/particles.js:159-179 | the new point is appended, with a corner point inserted when the move is diagonal |
| Particles.AddPointAxisAligned | js/particles.js:159-179 | the points added are joined by axis-aligned segments |
| Particles.ShiftWhileLong | js/particles.js:181-192 | the shift loop drops the oldest points until at most `maxPoints` remain |
| Particles.UpdateTracer | js/particles.js:181-192 | the tracer records a point when its interval has passed and never holds more than `maxPoints` |
| Particles.UpdateKeepsNewest | js/particles.js:181-192 | the newest point recorded is always kept |
| Particles.CornerIndices | js/particles.js:239-252 | the loop picks exactly the reference scan's corners, closed with the last index; the indices start at 0, end at the last point and never decrease |
| Particles.ScanFollowsRule | js/particles.js:241-249 | the reference scan obeys the selection rule: corner `k` is the index just before the first point, compared with corner `k - 1`, that differs from it on both x and y, and every point compared before that shares an axis with it |
| Particles.RuleIsScan | js/particles.js:241-249 | any list of corners that obeys the selection rule is the reference scan, so the rule fixes the corners |
| Particles.CornerRuleUnique | js/particles.js:241-249 | two corner lists that both obey the selection rule are equal |
| Particles.SimplifyPath | js/particles.js:238-252 | the simplified path is the trail's points at the scanned corners, in index order, from the first point to the last, using only points of the trail |
| Particles.CornerLines | js/particles.js:238-253 | the simplified path together with the lines joining consecutive corners |
| Particles.Resample | js/particles.js:256-270 | the samples along a line lie strictly between its ends, one per step of the line resolution |
| Particles.SampleBetween | js/particles.js:261-268 | sample `i` of a line sits `i` steps from its start along the line's axis and strictly between its end points, so the clamp to `p2` never applies |
| Particles.TrailWidthNewest | js/particles.js:274-276 | the newest line of a fire trail has the full trail width |
| Particles.NewFireTrail | js/particles.js:194-210 | the fire trail defaults: 20 points, width 12, minimum width 0.3, resolution 5, with an offset of a quarter of the player's size |
| Particles.UpdateFireTrail | js/particles.js:238-281 | the tracer updates; the corners are the simplified path of the updated points, and the trail lines join consecutive resamples of the lines between them |
| Particles.NewGoldenTrail | js/particles.js:305-321 | the golden trail defaults: hue 60, 15 points, width 15 |
| Particles.UpdateGoldenTrail | js/particles.js:347-369 | the tracer updates; the corners are the simplified path of the updated points, and the trail lines join consecutive corners |
| Particles.RectTracerBounded | js/particles.js:435-446 | the rectangle tracer never holds more than its maximum number of glows |
| Particles.PlacedPrepends | js/particles.js:422-433 | each record places two new glows in front of the older ones |
| Particles.UpdateRectTracer | js/particles.js:402-446 | the update keeps the placed glows in order, each with its alpha multiplied by `0.98 ** loopFactor` and nothing else changed, and resets the timer exactly when it records |
| Players.NewPlayer | js/player.js:6-48 | a new player stands still at `(x + width/2, y + width/2)` of segment 2 (the third) or at the given position, with maximum speed 10 and distance 0 |
| Players.KeyDown | js/player.js:59-71 | Space not already held starts the run; the first press moves along x and later presses swap the axis; other keys and held keys change nothing |
| Players.KeyUp | js/player.js:36 | releasing a key only clears the held flag |
| Players.FirstSpaceStartsAlongX | js/player.js:59-71 | the first Space moves the player along x only |
| Players.SpaceKeepsOneAxis | js/player.js:59-71 | from one axis, Space moves the player along exactly one axis |
| Players.SpaceTwiceRestores | js/player.js:59-71 | two Space presses with a key release between them restore the velocity, when each speed was 0 or the base speed |
| Players.CountFrame | js/player.js:112-118 | every 500 ms the frame rate becomes the frames counted times two and counting restarts |
| Players.CountFrameBounded | js/player.js:112-118 | the elapsed time stays non-negative and below one interval plus the frame time |
| Players.Ramp | js/player.js:127-132 | the mark advances by 500 exactly when the top speed is at most 15 and the score is at least 500 past the mark, and then the top speed rises by 2, capped at 15; it never falls |
| Players.RampKeepsPace | js/player.js:127-132 | a mark lagging the score by less than two marks lags by less than one after the ramp, so the top speed rises once per 500 units while no frame covers 500 |
| Players.Update | js/player.js:111-137 | the player moves by speed times loop factor, and the base speed accelerates up to the maximum speed and is clamped there |
| Players.BaseSpeedClamp | js/player.js:124-125 | the base speed never falls below its value while under the maximum, and is clamped to the maximum otherwise |
| Players.UpdateKeepsRamp | js/player.js:120-132 | the maximum speed stays between 10 and 15, never falls, and matches the distance marks passed |
| Players.DistanceMonotone | js/player.js:107-109 | a player further along the track has covered at least as much distance |
| Players.EaseAngle | js/player.js:230-240 | after game over the star stops turning; before that it turns towards its target and stays between its old angle and the target, so it never overshoots |
| Players.EaseApproaches | js/player.js:230-240 | each frame closes the gap to the target angle by the rotation step, or closes it entirely |
| Players.UpdateStar | js/player.js:230-240 | the star updates as a player and eases its angle by one easing step towards the target of its direction of travel |
| StarAnimations.CreateStarPivots | js/progressStars.js:32-40 | the pivot loop produces one centre per star, starting at `-(count - 1) / 2` places from the middle |
| StarAnimations.PivotsLayout | js/progressStars.js:32-40 | the row is centred on the pivot, on the pivot's line, with neighbours `2 * starSize + 10` apart |
| StarAnimations.NewStarAnimation | js/progressStars.js:4-30 | at most `starCount` stars are revealed, starting from size 300, angle 0 and timer 0 |
| StarAnimations.Resize | js/progressStars.js:48-51 | resizing re-centres the pivots and leaves the animation untouched |
| StarAnimations.Update | js/progressStars.js:53-70 | a star is counted exactly when the interval has passed, stars remain and it has shrunk to size, and the next one restarts; otherwise it shrinks by `0.96 ** loopFactor` and turns by its remaining shrink |
| StarAnimations.WaitingOnlyTimes | js/progressStars.js:53-56 | before the interval, or once all stars are shown, only the timer moves |
| StarAnimations.CounterMonotone | js/progressStars.js:53-70 | over any frames the shown count never decreases and never passes the count to show |
| RadialMenus.NewMenu | js/radialMenu.js:7-67 | the menu starts hidden and transparent on the first option, with no key held |
| RadialMenus.Next | js/radialMenu.js:106-108 | right moves to the next option, from the last back to the first |
| RadialMenus.Prev | js/radialMenu.js:109-111 | left moves to the previous option, from the first back to the last |
| RadialMenus.NextPrevInverse | js/radialMenu.js:106-111 | the two steps undo each other |
| RadialMenus.KeyDown | js/radialMenu.js:92-125 | a key already cooling down changes nothing and sets no pause; otherwise it is held and the pause flag is set; the selection only steps, or reverts to the last purchase; a notice appears only for an option the balance cannot afford; with Shift+B held the menu toggles (closing restores the last purchase); on an open menu a held ArrowRight steps to the next slot, else a held ArrowLeft to the previous one, else a held Enter closes it and either buys the selection or shows the notice, exactly when the balance is short; a closed menu keeps its selection |
| RadialMenus.KeyUp | js/radialMenu.js:40-45 | the released key is no longer held or cooling down, and nothing else changes |
| RadialMenus.HeldKeyActsOnce | js/radialMenu.js:93-97 | a repeated keydown of a held key changes nothing |
| RadialMenus.RightThenLeft | js/radialMenu.js:106-111 | on an open menu a right press moves to the next slot, and a left press after it returns to the starting option |
| RadialMenus.EnterBuys | js/radialMenu.js:112-121 | Enter closes the menu and buys the option exactly when the balance covers its cost, and otherwise reverts and shows the notice |
| RadialMenus.ShiftBToggles | js/radialMenu.js:99-103 | Shift+B toggles the menu, and closing it restores the last purchase |
| RadialMenus.Update | js/radialMenu.js:152-171 | the opacity stays in [0, 1]; for a positive frame an open menu below full opacity gains strictly, by at most `deltaTime * 0.0075`, reaching 1 exactly when that step covers the gap, and a closed one loses the same way towards 0; the colours option advances the hue |
| RadialMenus.FadeSaturates | js/radialMenu.js:153-160 | a frame of `1 / 0.0075` ms or more completes the fade |
| Setups.KeyInjective | setup.js:9-12 | different slots have different keys |
| Setups.FindFreeSlot | setup.js:8-12 | the search loop ends at the first free slot |
| Setups.SaveSetup | setup.js:5-20 | a setup saved once goes to the extra slot; otherwise it goes to the first free slot, or nothing is saved when all ten slots are taken |
| Setups.DeleteSetup | setup.js:22-24 | only the given slot is removed |
| Setups.RetrieveSetup | setup.js:26-35 | a slot's setup is returned exactly when the slot holds non-empty text |
| Setups.SaveThenRetrieve | setup.js:5-35 | a saved setup is what its slot returns, and other slots are untouched |
| Setups.DeleteOpensLowestGap | setup.js:5-24 | deleting a slot below the first free one makes it the first free slot |
| Setups.DeleteThenRetrieve | setup.js:22-35 | a deleted slot returns nothing, and other slots keep their setups |
| Games.StarsEarned | main.js:75-76 | the stars earned lie between 0 and the number of milestones |
| Games.ReduceIsLastReached | main.js:75-76 | the reduction returns one past the last milestone reached |
| Games.StarsAreMilestonesReached | main.js:75-76 | for ascending milestones, the stars earned are the number of milestones reached |
| Games.StarsMonotone | main.js:75-76 | going further never earns fewer stars |
| Games.ThreeStarsAt1200 | main.js:75-76 | a run of 1200 earns three stars |
| Games.SetGameOver | main.js:72-80 | game over starts the five-star animation, showing the stars earned for the distance covered, and nothing else changes |
| Games.Update | main.js:108-119 | while running the player and then the track update; after game over only the star animation does |
| Games.GameOverFreezes | main.js:108-119 | after game over the player and track never change, and the stars shown never exceed the stars earned |

## Left out

- Rendering is not modelled: drawing, canvases, gradients, shadows, HSL colour strings, the DOM
  and audio.
- `Math.random()` is a parameter: each use takes a draw in `[0, 1)`, and a draw outside that
  range is allowed but gets no guarantee.
- `**` is a parameter `pow` with no interpretation. `StarAnimations.Update`, `StarAnimations.CounterMonotone`
  and `Games.Update` require `0.96 ** e > 0`, which holds for real exponentiation.
- Players.BaseSpeedClamp requires `1.0002 ** loopFactor >= 1` for its monotone half, because `pow` is uninterpreted.
- Floating point is not modelled:
  - numbers are exact reals or unbounded integers;
  - `0.1`, `1.2`, `0.02`, `0.06` and `0.0075` are exact;
  - NaN, infinities and rounding error do not arise;
  - `Utils.RoundOff` rounds the exact real, so a value such as `1.005` rounds up, while `toFixed`
    on its binary double rounds down.
- Worley.DistSquare: states only non-negativity and the per-coordinate bound, not that it is 0 exactly at the origin.
- The query at the start of each row in `generatePixelDistances` is not modelled. Its result is
  always replaced by the query at `i = 0` before any pixel reads it.
- The colour ramp in `createImageData` is modelled only up to the bytes it writes. The ratio
  `(distance / maxDistForRatioSq) ** (ratioPower * 0.5)` is a parameter.
- Tracks.AddRect: requires a positive track width, through `Tracks.Valid`. A zero width would make `innerHeight / width` infinite, and the model does not follow that case.
- Particles.NewTracer: requires `maxPoints >= 1`; the source's tracers have at least 10, the minimum of the 'Trail Length' slider (js/particles.js:221, :330), whose saved value reaches the constructors.
- Powers.AddPowerUp: the source never calls `#addPowerUpToMap`, because the call in `update` is commented out.
  The operation is modelled but not wired into `Powers.Update`.
- The collision test `#isPlayerOnTrack` and the trail effect's update inside `Player.update` are
  not modelled. They decide game over and drawing, and read the track's geometry frame by frame.
- The saved setup is opaque text. Its JSON encoding and the setup list UI (`showSetups`,
  `createSetupListComponent`, `createSetupComponents`) are not modelled.
- Key names are lower-cased for ASCII letters only. JavaScript's `toLowerCase` covers all of
  Unicode.
- The star's rotation offset (`Math.PI / 2`) is a parameter, because the model has no π.
- `Handler.preview` (main.js:356-366) is not modelled. This is the preview loop, and it uses
  `deltaTime * 0.0625` without rounding. `Handler` also drives the game through `animate`
  (main.js:394), which calls the modelled `Games.Update`.
- `js/previewPlayer.js`, `js/settings.js` and `js/prop_component.js` are not modelled. They are
  separate modules for the DOM and the preview.
- The Worley generator's worker message handler and `addCustom` (DOM colour pickers) are not
  modelled.
- `Color`, `Gradient`, `createStarBody`, `calculateDistance`, `setShadow` and `isMobile` in
  `js/utils.js` are not modelled. They only serve drawing or the DOM.
