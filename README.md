# JeuDePresse game logic in Dafny

JeuDePresse is a set of five small browser canvas games:
- **Train**: a train rides an endless random terrain.
- **Alexei**: a shield bats coins away from Europe.
- **Robert**: a walker dodges falling guillotines.
- **Eiffel**: the player paints the Eiffel tower.
- **Test**: a walking prototype that leaves footprints.

The repository also has a pattern-sampling test and a Python script that cuts a recording into 30-second chunks. Most of each game is DOM, audio and canvas glue. This project models the parts that are plain logic, and proves what they promise.

Modules:
- `Common` (common.dfy) holds optional values, 2D vectors, `Math.min/max` clamping and `Array.prototype.filter`. The filter comes with its order and membership lemmas.
- `Geometry` (geometry.dfy) covers the box algebra of Train/lib.js (`bboxOffset`, `bboxShrink`, `bboxFromImage`, `bboxIntersection`, `bboxIsEmpty`), plus `lerp` and `lerpAngles`. `lerpAngles` uses JavaScript's truncating `%`. Alexei and Robert carry identical copies of the box helpers, so those are modelled once.
- `Pixels` (pixels.dfy) covers the three RGBA byte scans of Train/lib.js:
  - the colour-key loop of `replaceColorByAlpha`, working in place on an array;
  - `computeImageContentBBox`;
  - the bounds guard of `isOpaqueAt`.
- `Scenes` (scenes.dfy) covers the `setScene` switch, in its two orders:
  - Train, Alexei, Test and Eiffel store the new name before the enter hook;
  - Robert stores it only after the enter hook.

  It also covers where each order leads over a sequence of requests.
- `CameraDrag` (camera_drag.dfy) is the camera drag and the click-versus-drag decision. Train and Test share the same code.
- `Patterns` (patterns.dfy) covers `samplePatternIndex`, from Alexei and from the pattern-sampling test, with the random draw as a parameter. It also covers the test table and the bucket counting of `runSampleTest`.
- `Chunkify` (chunkify.dfy) covers the chunk-to-timestamp arithmetic of chunkify_discours.py and its stop rule.
- `Alexei`, `Robert`, `Train`, `Eiffel` and `TestApp` model one class per game. Each class holds the state fields that its methods update in place.

Random draws, clock readings and pointer positions already turned into scene coordinates are parameters. Timer and promise chains become one method per synchronous step.

## Model

| member | source | states |
|---|---|---|
| Common.Clamp | Robert/app.js:858 | the result lies in [lo, hi] and equals v whenever v already does |
| Common.Abs | Train/app.js:462 | the result is non-negative and is v or -v |
| Common.Filter | Alexei/app.js:949 | the survivors are no more than the input and each one passes the test |
| Common.FilterMembership | Alexei/app.js:949 | an element survives exactly when it was in the list and passes the test |
| Common.FilterAppend | Test/app.js:705 | filtering a concatenation is the concatenation of the filtered parts, so survivors keep their order |
| Common.FilterIdempotent | Robert/app.js:842 | a second sweep with the same test removes nothing |
| Common.FilterAllKept | Alexei/app.js:949 | when every element passes, the sweep returns the list unchanged |
| Geometry.Offset | Train/lib.js:46-53 | every bound moves by (x, y); width and height are unchanged |
| Geometry.Shrink | Train/lib.js:55-62 | every bound moves inward by m; width and height each drop by exactly 2m |
| Geometry.FromImage | Train/lib.js:64-71 | the box starts at (x, y) and is exactly as wide and high as the image |
| Geometry.Intersection | Train/lib.js:73-80 | the result's minima are at least, and its maxima at most, those of both inputs |
| Geometry.IntersectionCommutes | Train/lib.js:73-80 | the intersection does not depend on the order of its arguments |
| Geometry.EmptyMeansNoPoint | Train/lib.js:82-87 | a box is empty exactly when no point lies in it |
| Geometry.OverlapIff | Train/lib.js:73-87 | the collision test holds iff max of the minima < min of the maxima on both axes, iff some point lies in both boxes |
| Geometry.Lerp | Train/lib.js:8 | t = 0 gives a, t = 1 gives b, and the offset from a is t times b - a |
| Geometry.LerpBetween | Train/lib.js:8 | for t in [0, 1] the value lies between the two ends |
| Geometry.JsMod360 | Train/lib.js:11-12 | the truncating remainder: x minus whole turns, below 360 in size, and signed like x |
| Geometry.LerpAngles | Train/lib.js:10-14 | t = 0 gives a |
| Geometry.ArcIsShortest | Train/lib.js:10-14 | the arc equals b - a up to whole turns and is at most half a turn in size |
| Pixels.Keyed | Train/lib.js:33-41 | only alpha bytes of pixels whose colour equals the key change, and they become 0 |
| Pixels.KeyedIdempotent | Train/lib.js:33-41 | a second keying pass changes nothing |
| Pixels.ReplaceColorByAlpha | Train/lib.js:24-44 | no key leaves the bytes untouched; otherwise the array becomes the keyed bytes |
| Pixels.KeyedBytes | Train/lib.js:34-41 | keying a pixel keeps its three colour bytes and zeroes its alpha exactly when the colour is the key |
| Pixels.KeyedPixel | Train/lib.js:34-41 | the same four bytes, read from the keyed sequence |
| Pixels.KeyPixel | Train/lib.js:34-40 | one loop pass writes only the pixel's alpha byte, and only when its colour is the key |
| Pixels.ScanPixel | Train/lib.js:110-123 | one loop pass keeps the running box equal to the box of the visible pixels seen so far |
| Pixels.ComputeImageContentBBox | Train/lib.js:100-128 | the sentinel (0, 0, -1, -1) iff no pixel has alpha > 0; otherwise a box holding every such pixel, each side touched by one |
| Pixels.IsOpaqueAt | Train/lib.js:130-134 | positions outside [0, width) x [0, height) are never opaque; inside, the pixel's alpha decides |
| Pixels.OpaqueIsPerPixel | Train/lib.js:130-134 | every position in one pixel gets that pixel's answer |
| Scenes.SetScene | Alexei/app.js:820-852 | an unknown current scene changes nothing; otherwise one exit hook, then an enter hook for a known scene and a redraw; an unknown new scene is stored first or kept, depending on the order |
| Scenes.HooksMatchScenes | Alexei/app.js:820-852 | every exit hook belongs to the scene left and every enter hook to the scene entered |
| Scenes.CommitLastStaysKnown | Robert/app.js:762-794 | storing the name last keeps the scene in the known set whatever is asked |
| Scenes.WriteFirstStoresUnknown | Alexei/app.js:836-850 | storing the name first stores an unknown request and sets no redraw |
| Scenes.OrdersAgreeOnKnown | Robert/app.js:762-794 | the two orders agree whenever the requested scene is known |
| Scenes.Run | Train/app.js:713-745 | no request changes nothing, and n requests run at most 2n hooks |
| Scenes.UnknownSceneIsStuck | Alexei/app.js:821-834 | from an unknown scene every later request changes nothing |
| Scenes.CommitLastRunStaysKnown | Robert/app.js:762-794 | under Robert's order a run that starts in a known scene stays in known scenes |
| Scenes.EiffelBackButtonLocksScene | Eiffel/app.js:548-574 | from GAME, asking for MENU runs stopGame, stores MENU without a redraw, and every later request is ignored |
| CameraDrag.CameraDrag.constructor | Train/app.js:59-68 | no drag and the camera at the origin |
| CameraDrag.CameraDrag.StartDragging | Train/app.js:442-450 | ignored while a drag is active; otherwise it records the pointer and camera and clears `moved` |
| CameraDrag.CameraDrag.UpdateDragging | Train/app.js:452-465 | a no-op without a drag; otherwise the camera is start plus pointer delta, and `moved` is set once the pointer has gone more than 2 px on an axis |
| CameraDrag.CameraDrag.StopDragging | Train/app.js:467-474 | false without a drag; otherwise it ends the drag and returns `moved` |
| CameraDrag.CameraDrag.CancelDragging | Train/app.js:476-482 | a no-op without a drag; otherwise it ends it and restores the camera's start position |
| CameraDrag.CameraDrag.PointerUp | Test/app.js:396-418 | the release is a click exactly when no drag moved, including when none was active |
| Patterns.SelectedIsLastQualifying | Alexei/app.js:241-248 | on a sorted table the likelihoods are those of the last row whose starting difficulty is at most the difficulty, or empty if none is |
| Patterns.PrefixMono | Alexei/app.js:249-258 | running sums never decrease |
| Patterns.Draw | Alexei/app.js:250 | `Math.floor(u * total)` is in [0, total) for u in [0, 1) |
| Patterns.DrawBelow | Alexei/app.js:250 | a non-empty total always gives a sample below it |
| Patterns.Scan | Alexei/app.js:251-258 | the loop's index is between its start and the list's length |
| Patterns.PatternIndex | Alexei/app.js:251-259 | no selected row gives -1; a non-empty table gives an index in [0, length) |
| Patterns.ScanBracket | Alexei/app.js:251-258 | a sample in [Prefix(j), Sum) stops at the first k whose running sum exceeds it |
| Patterns.BucketIff | Robert/tests/test-ennemy-pattern-sampling.mjs:29-39 | for a sample s in [0, total), the result is k iff Prefix(k) <= s < Prefix(k+1) and l_k > 0 |
| Patterns.SamplePatternIndex | Alexei/app.js:241-260 | the loop returns the pattern index of the selected likelihoods for the drawn sample |
| Patterns.TestTableRows | Robert/tests/test-ennemy-pattern-sampling.mjs:4-28 | difficulty 0 uses [1,1], 1 uses [1,1,2], 2 and 3 use [1,1,10], 4 and up use [0,0,1] |
| Patterns.TestIndexRange | Robert/tests/test-ennemy-pattern-sampling.mjs:57-59 | for every difficulty >= 0 and draw in [0, 1) the index lies in [0, 3) |
| Patterns.HighDifficultyAlwaysLast | Robert/tests/test-ennemy-pattern-sampling.mjs:17-20 | from difficulty 4 on every draw gives 2 |
| Patterns.DifficultyZeroNeverLast | Robert/tests/test-ennemy-pattern-sampling.mjs:5-8 | at difficulty 0 no draw gives 2 |
| Patterns.BucketsCountEveryDraw | Robert/tests/test-ennemy-pattern-sampling.mjs:52-62 | the three buckets together count every draw exactly once |
| Patterns.RunSampleTest | Robert/tests/test-ennemy-pattern-sampling.mjs:52-62 | the assertions pass and each bucket holds the number of draws that gave it |
| Patterns.SampleTestPasses | Robert/tests/test-ennemy-pattern-sampling.mjs:55-61 | with every draw in [0, 1), each index passes the range assertions |
| Chunkify.ChunkTime | Robert/scripts/chunkify_discours.py:6-9 | 3600 h + 60 m + s = 30 chunk, minutes in [0, 60), seconds 0 or 30, and seconds 0 iff the chunk is even |
| Chunkify.StopOnlyOnOddChunks | Robert/scripts/chunkify_discours.py:11 | only odd chunks can meet the stop test |
| Chunkify.FirstStopIs169 | Robert/scripts/chunkify_discours.py:11-12 | chunk 169, at 01:24:30, is the first to stop the loop |
| Chunkify.Chunkify | Robert/scripts/chunkify_discours.py:5-12 | 170 commands, one per chunk from 0, each with its chunk's time; only the last meets the stop test |
| Chunkify.ComponentwiseIsNotTimeOrder | Robert/scripts/chunkify_discours.py:11 | chunk 2 starts after a 45-second length yet fails the componentwise test |
| Alexei.Integrated | Alexei/app.js:899-903 | one step of ballistic motion: position by velocity times dt, then gravity on the vertical velocity |
| Alexei.Bounced | Alexei/app.js:753-762 | the bounced coin flies right (velocity.x >= 0) and keeps its position |
| Alexei.MovedShieldY | Alexei/app.js:890-895 | with both keys or neither the height is kept; down alone adds shieldSpeed dt, up alone subtracts it |
| Alexei.CollidesShield | Alexei/app.js:914-917 | the shield test: the coin's box and the shield's box, offset by half the shield's height, intersect |
| Alexei.ShieldHitIsOverlap | Alexei/app.js:907-917 | the shield test holds iff some point lies in both the coin's box and the shield's box |
| Alexei.HitsEurope | Alexei/app.js:924-929 | a Europe hit needs the lower-left corner of the coin's box to lie on the Europe image |
| Alexei.HitsPutin | Alexei/app.js:936-941 | a Putin hit needs the lower-right corner of the coin's box to lie on the Putin image |
| Alexei.Keep | Alexei/app.js:949 | the sweep test: not destroyed and above the bottom of the screen |
| Alexei.EuropeGain | Alexei/app.js:929-933 | the corruption of the coins whose Europe test holds, summed |
| Alexei.TestsOf | Alexei/app.js:907-941 | the three tests of one coin, all taken on the box computed before any hit handler runs |
| Alexei.Collide | Alexei/app.js:919-945 | one coin's handlers in order: a shield hit bounces it, a Europe hit destroys it and adds its corruption, a Putin hit destroys it unless Putin sleeps and then puts him to sleep; position and corruption value are kept |
| Alexei.CollideAll | Alexei/app.js:906-946 | the coins in list order, each seeing the sleep state the earlier ones left: one result per coin, and the corruption grows by exactly the Europe gain; the game is over only once the maximum is reached |
| Alexei.CollideAllSnoc | Alexei/app.js:906-946 | handling one more coin extends the result by that coin's impact |
| Alexei.PutinHitBeforePrefix | Alexei/app.js:940-945 | whether an earlier coin hit Putin depends only on the coins before it |
| Alexei.CollideAllAsleep | Alexei/app.js:777-784 | after the loop Putin sleeps iff he slept before or some coin hit him |
| Alexei.CollideAllPerCoin | Alexei/app.js:906-946 | every coin ends as its own handlers make it, given whether Putin slept when its turn came |
| Alexei.CollideAllEndsGame | Alexei/app.js:764-775 | if the corruption grew and reached the maximum, the game ended |
| Alexei.AlexeiGame.constructor | Alexei/app.js:263-310 | MENU, no corruption, no coin, shield at its start, no drag |
| Alexei.AlexeiGame.StartDragging | Alexei/app.js:538-543 | the drag records the shield's and the pointer's heights; every other field is kept |
| Alexei.AlexeiGame.UpdateDragging | Alexei/app.js:545-551 | a no-op without a drag; otherwise the shield's height is its start plus the pointer delta clamped to [0, height] |
| Alexei.AlexeiGame.StopDragging | Alexei/app.js:553-556 | the drag is no longer active, its start values stay, and every other field is kept |
| Alexei.AlexeiGame.CancelDragging | Alexei/app.js:558-562 | the drag ends and the shield returns to the height the drag started from |
| Alexei.AlexeiGame.StartMenu | Alexei/app.js:618-624 | the pending walk-out is cleared |
| Alexei.AlexeiGame.RestartGameAfterHit | Alexei/app.js:683-688 | no corruption, no coin, shield back at its start |
| Alexei.AlexeiGame.StartCountDown | Alexei/app.js:702-706 | the count starts at 3 with a redraw |
| Alexei.AlexeiGame.CountDownStep | Alexei/app.js:707-721 | a later step shows 2, 1 or 0 with a redraw and changes nothing else |
| Alexei.AlexeiGame.CollideNext | Alexei/app.js:906-946 | one pass of the collision loop extends the agreement with `CollideAll` by one coin |
| Alexei.AlexeiGame.StartGame | Alexei/app.js:666-681 | restart and count-down together |
| Alexei.AlexeiGame.SetScene | Alexei/app.js:820-852 | the scene switch of `Scenes.SetScene` in the store-first order; entering GAME restarts the game, entering MENU clears the walk-out |
| Alexei.AlexeiGame.StartGameOver | Alexei/app.js:816-818 | the switch to END |
| Alexei.AlexeiGame.TriggerPoutineFire | Alexei/app.js:724-751 | one fresh coin appended at the launch position; every other field is kept |
| Alexei.AlexeiGame.OnShieldHit | Alexei/app.js:753-762 | only coin i changes, to its bounced self |
| Alexei.AlexeiGame.OnEuropeHit | Alexei/app.js:764-775 | corruption grows by exactly the coin's corruption, the coin is destroyed, and the game ends iff the maximum is reached |
| Alexei.AlexeiGame.OnPutinHit | Alexei/app.js:777-784 | nothing while Putin sleeps; otherwise the coin is destroyed and Putin falls asleep |
| Alexei.AlexeiGame.WakePutin | Alexei/app.js:785-786 | Putin wakes; every other field is kept |
| Alexei.AlexeiGame.MoveShield | Alexei/app.js:890-896 | the keys move the shield, which ends up in [0, height] |
| Alexei.AlexeiGame.IntegrateProjectiles | Alexei/app.js:899-903 | every coin takes one integration step, in place |
| Alexei.AlexeiGame.HandleCollisions | Alexei/app.js:906-946 | one coin becomes its `Collide` impact, the corruption grows by its gain, the sleep state follows, and the game ends iff a Europe hit reached the maximum; shield, drag and count-down are kept |
| Alexei.AlexeiGame.DetectCollisions | Alexei/app.js:906-946 | coins, corruption, sleep state, scene and redraw become exactly those of `CollideAll` over the coins in order |
| Alexei.AlexeiGame.SweepProjectiles | Alexei/app.js:949 | the list becomes the coins that are not destroyed and are above the bottom, in order |
| Alexei.AlexeiGame.UpdateGame | Alexei/app.js:884-952 | the shield moves and is clamped; the coins are integrated, collided in order as `CollideAll` says, and swept; corruption, sleep state and scene follow; every coin left is live; redraw set |
| Alexei.SweepKeepsExactlyLive | Alexei/app.js:949 | a coin survives the sweep iff it was there, is not destroyed and is above the bottom |
| Robert.Fallen | Robert/app.js:833-835 | every guillotine moves down by fallSpeed dt and keeps its column |
| Robert.SpawnX | Robert/app.js:838 | when the image is narrower than the screen, the spawn column is an integer in [0, width - image width) |
| Robert.Spawned | Robert/app.js:836-841 | a guillotine is appended just above the screen iff the list is empty or the last one has fallen past the spawn distance |
| Robert.WalkedX | Robert/app.js:852-857 | with both keys or neither the abscissa is kept; right alone adds characterSpeed dt, left alone subtracts it |
| Robert.OnScreen | Robert/app.js:842 | the sweep test: the guillotine's top is above the bottom of the screen |
| Robert.Hits | Robert/app.js:863-891 | the hit test: the boxes intersect and one of the four blade points is an opaque pixel of the character |
| Robert.HitMeansOverlap | Robert/app.js:863-891 | a hit means the guillotine's box and the character's box share a point |
| Robert.HitCount | Robert/app.js:863-891 | the count is at most the number of guillotines, and 0 iff none hits |
| Robert.Falling | Robert/app.js:846-850 | the position moves by the velocity times dt, the walking flags and horizontal velocity are kept, gravity adds to the vertical velocity, and the spin grows by the rotation speed |
| Robert.DeathKick | Robert/app.js:735-738 | sideways by the walking direction, upward by the death velocity |
| Robert.OpaquePointIsOnCharacter | Robert/app.js:862-892 | a point that passes the opacity test lies inside the character's box |
| Robert.RobertGame.constructor | Robert/app.js:226-278 | MENU, full lives, alive, upright, no guillotine |
| Robert.RobertGame.StartDragging | Robert/app.js:496-501 | the drag records the character's and the pointer's abscissas; every other field is kept |
| Robert.RobertGame.UpdateDragging | Robert/app.js:503-509 | a no-op without a drag; otherwise the character's abscissa is its start plus the pointer delta clamped to [0, width] |
| Robert.RobertGame.StopDragging | Robert/app.js:511-514 | the drag is no longer active, its start values stay, and every other field is kept |
| Robert.RobertGame.CancelDragging | Robert/app.js:516-520 | the drag ends and the character returns to where it started |
| Robert.RobertGame.StartMenu | Robert/app.js:632-637 | the pending walk-out is cleared |
| Robert.RobertGame.RestartGameAfterHit | Robert/app.js:662-667 | alive, at (width/2, 600), rotation 0 |
| Robert.RobertGame.StartCountDown | Robert/app.js:681-684 | the count starts at 3 with a redraw |
| Robert.RobertGame.CountDownStep | Robert/app.js:686-699 | a later step shows 2, 1 or 0 with a redraw and changes nothing else |
| Robert.RobertGame.StartGame | Robert/app.js:654-660 | no guillotine, full lives, character restarted, count at 3 |
| Robert.RobertGame.SetScene | Robert/app.js:762-794 | the scene switch of `Scenes.SetScene` in the store-last order; entering GAME starts the game |
| Robert.RobertGame.StartGameOver | Robert/app.js:757-760 | the switch to END |
| Robert.RobertGame.OnCharacterHit | Robert/app.js:703-739 | the character dies with its kick velocity and a heart-break starts |
| Robert.RobertGame.FinishHeartBreak | Robert/app.js:726-728 | exactly one life is taken |
| Robert.RobertGame.AfterHitAnimations | Robert/app.js:707-714 | no lives left leads to END; otherwise the character restarts invincible |
| Robert.RobertGame.EndInvincibility | Robert/app.js:754 | invincibility ends; every other field is kept |
| Robert.RobertGame.UpdateEnnemies | Robert/app.js:832-843 | during the count-down nothing moves; otherwise fall, spawn, then keep exactly the guillotines above the bottom; the list from before the sweep is returned |
| Robert.RobertGame.UpdateCharacter | Robert/app.js:845-859 | a dead character falls; a live one walks and stays in [0, width] |
| Robert.HitCountStep | Robert/app.js:861-893 | one more guillotine adds one to the hit count exactly when it hits |
| Robert.RobertGame.TestHit | Robert/app.js:863-892 | one pass of the collision loop extends the effects taken so far by guillotine i's hit, if it hits |
| Robert.RobertGame.DetectHits | Robert/app.js:861-893 | nothing is tested while dead or invincible; otherwise each hitting guillotine of the given list costs one heart-break, and any hit kills the character, kicks it and shows the first broken heart |
| Robert.RobertGame.UpdateGame | Robert/app.js:826-898 | the list is the swept one of `UpdateEnnemies`, the character the moved one of `UpdateCharacter`, and the hits are counted on the list from before the sweep against the moved character, with their kick, death and heart-break; redraw set |
| Robert.SweepKeepsOnScreen | Robert/app.js:842 | a guillotine stays iff it was there and is above the bottom |
| Train.RunningSumAt | Train/app.js:632-636 | under the invariant, point i is at startX plus the sum of the steps up to i |
| Train.ConsistentIsRunningSum | Train/app.js:632-636 | the invariant holds iff every point is at startX plus its running sum of steps |
| Train.ResetTerrainSpan | Train/app.js:616-636 | the reset terrain starts at startX, ends 700 further on and rises strictly after its first point |
| Train.GrownIsLerp | Train/app.js:652-656 | a grown point takes its step and height from the two `lerp` calls |
| Train.GrownBounds | Train/app.js:652-656 | a grown step is in [50, 150) and the height moves by at most 20 one way and under 80 the other |
| Train.GrowKeepsConsistent | Train/app.js:654-657 | appending a grown point keeps the running-sum invariant |
| Train.ClearCount | Train/app.js:678-682 | the count is at most the number of points and every counted point is left of the target |
| Train.ClearCountIsFirstReaching | Train/app.js:678-682 | the count is the first index whose point reaches the target, or the length if none does |
| Train.ConsistentSuffix | Train/app.js:683-687 | dropping a prefix and moving startX to the last dropped point keeps the invariant |
| Train.LerpNum | Train/app.js:869 | with finite operands it is `lerp`; a non-finite operand gives a non-finite result |
| Train.Scan | Train/app.js:857-882 | the hit is at the target abscissa and names a segment of the list |
| Train.TerrainAtSpec | Train/app.js:849-883 | null iff the target is negative or the list is empty; otherwise a hit at the target abscissa |
| Train.ScanStopsAtFirstReaching | Train/app.js:857-872 | the loop stops at the first point that reaches the target |
| Train.ScanRunsOffTheEnd | Train/app.js:876-882 | when no point reaches the target the loop returns the last height with no identifier |
| Train.TerrainAtPastTheEnd | Train/app.js:876-882 | past the last point the result is the last height with a null identifier |
| Train.TerrainAtInSegment | Train/app.js:854-872 | in a segment k > 0 of positive length, the fraction is in (0, 1], the height lies between the segment's ends, and the identifier names k |
| Train.TerrainAtFirstSegment | Train/app.js:855 | in the first segment the lookup as written gives NaN, and the corrected one gives the first point's height when the step is not 0 |
| Train.AsWrittenFirstSegmentIsNaN | Train/app.js:855 | a concrete terrain where the written lookup returns NaN and the corrected one returns 200 |
| Train.TrainGame.constructor | Train/app.js:51-90 | MENU, an empty terrain at 0, no transition, no drag |
| Train.TrainGame.ResetTerrain | Train/app.js:612-643 | the table's points with each `x` the running sum from startX |
| Train.TrainGame.EnsureElevationUntil | Train/app.js:648-658 | the old points stay a prefix, the invariant holds, the last point reaches the target, all earlier points are left of it, and each new point is grown from fresh draws |
| Train.TrainGame.ClearElevationUntil | Train/app.js:673-689 | the longest prefix left of the target is dropped, the rest kept in order, startX moved to the last dropped point or left alone |
| Train.TrainGame.Lookup | Train/app.js:853-883 | the loop returns the lookup of `TerrainAtSpec` |
| Train.TrainGame.TerrainAtAsWritten | Train/app.js:849-883 | the lookup with the point object as first height |
| Train.TrainGame.TerrainAt | Train/app.js:849-883 | the lookup with the first point's height as first height |
| Train.TrainGame.KeepTerrain | Train/app.js:958-964 | the terrain grows to the right edge of the view and is pruned every clear period, keeping the invariant |
| Train.TrainGame.PruneWhenDue | Train/app.js:961-964 | after a full clear period the terrain is pruned and the clear time updated; the invariant holds and the terrain still reaches the right end |
| Train.TrainGame.StartMenu | Train/app.js:553-560 | no transition and a fresh terrain |
| Train.TrainGame.StartTransitionToGame | Train/app.js:595-611 | the transition start time is recorded |
| Train.TrainGame.SetScene | Train/app.js:713-745 | the scene switch of `Scenes.SetScene` in the store-first order; entering MENU resets the terrain |
| Train.TrainGame.MouseDown | Train/app.js:399-403 | the left button starts a drag in GAME only |
| Train.TrainGame.MouseUp | Train/app.js:409-415 | only the left button ends a drag; the release is a click iff nothing moved |
| Eiffel.Thresholded | Eiffel/app.js:239-249 | each pixel becomes transparent black if its alpha is below 64 and opaque black otherwise |
| Eiffel.ThresholdedIsBlack | Eiffel/app.js:239-249 | afterwards every pixel is (0,0,0,0) or (0,0,0,255) |
| Eiffel.ThresholdedIdempotent | Eiffel/app.js:239-249 | a second pass changes nothing |
| Eiffel.ThresholdedPixel | Eiffel/app.js:239-249 | a thresholded pixel has black colour bytes and an alpha of 0 below 64, 255 otherwise |
| Eiffel.BlackenPixel | Eiffel/app.js:239-249 | one loop pass rewrites exactly the four bytes of its pixel, to the thresholded values |
| Eiffel.ThresholdAlpha | Eiffel/app.js:238-250 | the loop leaves the thresholded bytes in place |
| Eiffel.CoveredGrows | Eiffel/app.js:464-479 | painting more keeps a won painting won |
| Eiffel.CoveredEdgeCases | Eiffel/app.js:464-479 | an empty mask is covered by any painting, a non-empty one by no blank painting |
| Eiffel.Covered | Eiffel/app.js:472-478 | the win test: no pixel has a visible mask and a transparent painting |
| Eiffel.IsVictory | Eiffel/app.js:464-479 | true iff no pixel has a visible mask and a blank painting |
| Eiffel.EiffelGame.constructor | Eiffel/app.js:111-127 | GAME, not won, nothing pending, no drag, brush at its initial position |
| Eiffel.EiffelGame.TriggerCheckVictory | Eiffel/app.js:455-462 | nothing while a check is pending; otherwise exactly one is scheduled |
| Eiffel.EiffelGame.CheckVictory | Eiffel/app.js:481-486 | victory becomes true when the painting covers the mask and never goes back to false |
| Eiffel.EiffelGame.RunScheduledCheck | Eiffel/app.js:457-460 | the pending check runs, wins when the painting covers the mask, and clears the pending flag |
| Eiffel.EiffelGame.UpdateDragging | Eiffel/app.js:415-439 | a no-op without a drag; otherwise a stroke is added and brush and previous mouse both become the new position, with a check scheduled |
| Eiffel.EiffelGame.StartDragging | Eiffel/app.js:407-413 | with no guard: the drag starts at the mouse, and a dot is stroked there |
| Eiffel.EiffelGame.StopDragging | Eiffel/app.js:441-444 | the drag is no longer active; every other field is kept |
| Eiffel.EiffelGame.MouseDown | Eiffel/app.js:369-373 | the left button in GAME starts a drag at the pointer with a dot and a check scheduled; otherwise nothing changes |
| Eiffel.EiffelGame.SetScene | Eiffel/app.js:548-574 | the scene switch of `Scenes.SetScene` with only GAME and END known |
| Eiffel.EiffelGame.BackButton | Eiffel/app.js:303-305 | from GAME the scene becomes MENU without a redraw, every later request is ignored, and every other field is kept |
| TestApp.Opacity | Test/app.js:728-735 | 1 while no fade start is set; never negative; at most 1 from the fade start on, falling linearly, and 0 once the duration has passed |
| TestApp.OpacityNeverRises | Test/app.js:728-735 | the opacity never increases over time, and before the fade start time it exceeds 1 |
| TestApp.StartFadeout | Test/app.js:738-739 | only footprint id gets its fade start time |
| TestApp.Destroy | Test/app.js:741 | only footprint id is marked destroyed |
| TestApp.Arrives | Test/app.js:688-700 | the walk stops when the capped speed is below the maximum |
| TestApp.ArrivesWithinOneStep | Test/app.js:688-700 | with dt >= 0 the character arrives iff dt > 0 and the distance is shorter than one full-speed step |
| TestApp.SweepRemovesDestroyed | Test/app.js:705 | a destroyed footprint is gone after the sweep and every other stays, in order |
| TestApp.TestGame.constructor | Test/app.js:40-75 | GAME, the character idle in the middle, no target, no footprint |
| TestApp.TestGame.Click | Test/app.js:368-374 | the target becomes active at the click position |
| TestApp.TestGame.MouseUp | Test/app.js:396-402 | only the left button ends a drag; a release that is not a drag is a click |
| TestApp.TestGame.TouchEnd | Test/app.js:414-418 | every release ends the drag and may be a click |
| TestApp.TestGame.MouseDown | Test/app.js:386-390 | the left button starts a drag in GAME only |
| TestApp.TestGame.EmitFootprint | Test/app.js:710-724 | a live footprint is appended under the character, turned 90 degrees, and the emission time recorded |
| TestApp.TestGame.UpdateGame | Test/app.js:675-708 | the camera is smoothed; the target stays active iff it was and the character has not arrived; the action is walk iff the target is active; the footprints are the old plus emitted ones without the destroyed |
| TestApp.TestGame.FadeFootprint | Test/app.js:738-739 | the first timer starts the fade of that footprint |
| TestApp.TestGame.DestroyFootprint | Test/app.js:740-741 | the second timer destroys that footprint |
| TestApp.TestGame.StartMenu | Test/app.js:541-547 | no transition under way |
| TestApp.TestGame.SetScene | Test/app.js:611-643 | the scene switch of `Scenes.SetScene` in the store-first order |

## Left out

- Asset and audio I/O (`fetchImage`, `loadImages`, `loadAudio`, `playSound`, `turnSound`, music fades): browser APIs with no logic to state.
- DOM glue (`onDomContentLoaded`, `onResize`, `setupButton`, `setButtonImage`, fullscreen): browser APIs.
- `mouseToScenePosition` and `transformMouseToLocal`: they depend on `getBoundingClientRect`. The pointer arrives already in scene coordinates.
- TestApp.TestGame.TouchEnd: a tap's click is given a real scene position, but the source passes the TouchEvent to `onClick`, which reads `clientX` and `clientY`. A TouchEvent has neither, so the source stores a target at (NaN, NaN). The walk toward it never arrives (`NaN < maxSpeed` is false), and the character's position becomes NaN. `TestApp.TestGame.UpdateGame` takes a non-negative real distance, so it does not cover that walk.
- Canvas rendering (`draw`, `drawLoading`, `drawSprite`, trees, Eiffel's stroke drawing and mask compositing): the painting's and the mask's alpha bytes are inputs of `Eiffel.IsVictory`. Strokes are recorded as segments.
- `onMouseEnter` in every game: it calls `includes` on the number `ev.buttons`, which throws. It is left out as DOM behaviour.
- Timer and promise chains (count-downs, Putin's sleep, invincibility blinking, heart-break frames, footprint fades, the delayed victory check, Alexei's coin-throwing loop): each synchronous step is its own method. Their wall-clock interleaving is not modelled.
- Floating-point trigonometry is not modelled: Train's train dynamics and `updateGame`, Alexei's launch velocity, and Test's steering and step length.
  - The launch velocity, the heading and the distance to the target are parameters.
  - JavaScript floating point is modelled by exact reals.
- Train's landscape elevation: it depends on the float `scale` and on `terrainAt` of the scaled abscissa.
- `Math.random`: every draw is a parameter with its stated range. `PseudoRandomGenerator` / `mulberry32` is unused and is not part of this model.
- The Python script's `print` formatting and the test's `assertIsClose` tolerances: only the arithmetic is kept. The statistical distribution claims are not proved.
- Train.TrainGame.EnsureElevationUntil: requires a non-empty terrain. The source reads the last point of the list, which throws on an empty one.
- Train.TrainGame.TerrainAt: a terrain whose first step is 0, with a target at or left of startX, divides by zero in the first segment: 0/0 at startX, a negative number over 0 left of it. The fraction is then not finite, and both lookups give NaN, as the source does.
- Alexei's coins, Robert's guillotines and Test's footprints are values in a sequence rather than shared objects. Aliasing between the list and the timer closures that hold a footprint is modelled by the footprint's `id` field, a counter the game stamps on each new footprint.
- Test's configuration has no `anim` entry, so its `startTransitionToGame` throws after recording the start time. The menu walk-out of Test is not modelled.
- Source quirks that are modelled as written:
  - Robert's constructor sets `idDead` instead of `isDead`.
  - Several guillotines hitting in one frame each start a heart-break, so each takes a life.
  - Robert's hit test walks the guillotine list from before the sweep, so a guillotine swept in the same frame can still hit.
  - Alexei's configuration lists `startScene` twice, and the later GAME wins.
  - Eiffel's `startDragging` has no guard against a drag already under way.
  - The script's stop test compares hours, minutes and seconds separately.

## Findings

| source | as written | input that shows it | evidently intended | confidence | as-written member | corrected member |
|---|---|---|---|---|---|---|
| Train/app.js:855 | `terrainAt` starts `prevY` at the first point object, so `lerp` of an object gives NaN for every target in the first segment | startX 100, elevation [{dx: 100, y: 200, x: 200}], targetX 150 gives y NaN | start `prevY` at the first point's `y`, giving y 200 | not executed | Train.AsWrittenFirstSegmentIsNaN | Train.TrainGame.TerrainAt |
