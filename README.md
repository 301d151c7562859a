# OreoreSite core, modelled in Dafny

A model of the behaviour behind the portfolio site OreoreSite. It covers:

- **Background particles.** Spheres bounce inside a cube or a sphere and collide with each other (`BackgroundPhysics`, and its older copy `BgPhysics`).
- **Fixed-step frame loop.** The three copies of the loop that drive the animations.
- **Background scene.** The controller and the entry script that rotate a wire-frame polyhedron, a grid and a cloud of orbiting cubes, each at its own rate.
- **Boot overlay.** Its progress bar and its gate: it closes only after a minimum time and the page load, unless the user skips it.
- **Easter egg.** The keyboard matcher for the sequence Up Up Down Down Left Right Left Right B A.
- **Works pages.** The works carousel with its five position slots and its two galleries, the simple works page, and the works data loader.
- **Retro flag.** The global retro flag and its change events.
- **Avatar effects.** The morphing point cloud, and the avatar that explodes into pieces and is restored.

Each source module that keeps state and changes it step by step is a class. Its `Valid()` predicate holds the invariant, and each method is specified against pure functions of the old state. The physics, the frame drain, the carousel rotation and the key matcher have independent reference definitions. Lemmas relate those definitions to what the source promises:

- Reflection keeps every particle inside its container.
- A collision conserves total momentum and the centroid, is elastic, and separates the pair.
- The frame loop drains exactly `floor(acc / step)` steps.
- Five carousel rotations cycle back, and each rotation keeps exactly one centre card.
- The corrected key matcher fires exactly when the typed keys end with the sequence.

The modules are:

| module | file | models |
|---|---|---|
| `Geometry` | geometry.dfy | 3-vectors and real arithmetic facts shared by the others |
| `PhysicsSpec` | physics_spec.dfy | `step`, `_reflect`, `_collide`, `_placeRandom`, `setMode` as functions on buffer values |
| `Physics` | physics.dfy | the `BackgroundPhysics` class over its `Float32Array` buffers |
| `FixedStepLoop` | loop.dfy | `runFixedStepLoop` (src/core/loop.js and src/core/utils.js; lib/utils.js as `LegacyLoop`) |
| `BackgroundShared`, `BackgroundController`, `BackgroundEntry` | background.dfy | the background controller and entry script |
| `PatternMatch`, `EasterEgg` | easter_egg.dfy | the key matcher, as written and corrected |
| `Carousel` | carousel.dfy | carousel-util.js |
| `JsInt` | jsint.dfy | JavaScript's `%` on integers |
| `WorksLoader` | loader.dfy | loader.js |
| `WorksGallery`, `WorksGalleryLegacy` | gallery.dfy, gallery_legacy.dfy | the two works gallery scripts |
| `WorksPage` | works_page.dfy | works.js |
| `BootOverlay` | boot_overlay.dfy | the boot overlay (both copies) |
| `RetroState` | retro_state.dfy | src/core/state.js |
| `Morph` | morph.dfy | lib/morph.js |
| `AvatarExplosion` | explode.dfy | src/features/avatar/explode.js |

Where the code and its own comments disagree, the model follows the code. For example, `setBackgroundFPS` says that a rate `<= 0` stops a subsystem, but the update stops a subsystem only at exactly `0`. A negative rate takes the frame's `dt` as its step; `BackgroundController.StepOf` models that.

## Model

| member | source | states |
|---|---|---|
| PhysicsSpec.NormalizeMode | src/features/background/physics.js:235 | Any mode name other than `'sphere'` becomes `'cube'`; the result is always one of the two. |
| PhysicsSpec.RandVec | src/features/background/physics.js:52 | Three `Math.random` draws turned by `rand(min, max)` give a vector with every component in `[min, max]`. |
| PhysicsSpec.RandInRange | src/features/background/physics.js:52 | `min + u * (max - min)` lies in `[min, max]` for a draw `u` in `[0, 1)`. |
| PhysicsSpec.Sample | src/features/background/physics.js:57-88 | An accepted candidate passes the in-sphere and the overlap tests, lies in the box `[-limit, limit]^3`, and gets a velocity in `[-1, 1]^3`; at least two draws are used. |
| PhysicsSpec.SampleStep | src/features/background/physics.js:57-80 | One rejection iteration: the candidate is kept when it passes the tests, else the loop goes on with the next draw. |
| PhysicsSpec.SampleAdvance | src/features/background/physics.js:57-80 | A rejected candidate moves the rejection loop on by one draw without changing its outcome. |
| PhysicsSpec.Populate | src/features/background/physics.js:41-47 | `_init` keeps the buffers' shape and places between `i` and `n` slots. |
| PhysicsSpec.PopulateNonOverlapping | src/features/background/physics.js:41-88 | Every slot placed by `_init` is at least `2 radius` from each slot placed before it. |
| PhysicsSpec.PlacementKeepsNonOverlapping | src/features/background/physics.js:68-87 | Writing an accepted candidate into slot `i` extends a non-overlapping prefix by one. |
| PhysicsSpec.ReflectCubeAxis | src/features/background/physics.js:108-126 | Each axis of the cube reflection is the one-axis rule applied to that axis alone. |
| PhysicsSpec.ReflectCubeSpec | src/features/background/physics.js:108-126 | After the cube reflection each coordinate is in `[-limit, limit]`. A coordinate clamped to `+limit` moves with `-abs(v)`, one clamped to `-limit` with `+abs(v)`, and one in range is untouched; the speed along the axis is kept. |
| PhysicsSpec.ReflectSphereSpec | src/features/background/physics.js:127-147 | Outside the sphere the centre is put on it, scaled by `limit / r`, and the velocity keeps its speed with its normal component negated. Inside, nothing changes. |
| PhysicsSpec.ReflectContains | src/features/background/physics.js:106-148 | After `_reflect` the centre lies in its container, the cube or the ball. |
| PhysicsSpec.MoveAt | src/features/background/physics.js:203-210 | One particle's move keeps the buffers' length. |
| PhysicsSpec.MoveFrom | src/features/background/physics.js:203-210 | The first loop of `step` keeps the buffers' length. |
| PhysicsSpec.MoveFromSlots | src/features/background/physics.js:203-210 | Every active slot ends as its own integrate-then-reflect step, and the other slots are untouched. |
| PhysicsSpec.CollidePair | src/features/background/physics.js:160-194 | The pair body keeps the buffers' length. |
| PhysicsSpec.CollideRow | src/features/background/physics.js:151-197 | The inner loop keeps the buffers' length. |
| PhysicsSpec.CollideFrom | src/features/background/physics.js:151-197 | The outer loop keeps the buffers' length. |
| PhysicsSpec.CollidePairConserves | src/features/background/physics.js:160-194 | A resolved pair keeps the sum of its two positions and of its two velocities, and leaves every other slot alone; a pair that does not overlap, or is coincident, is unchanged. |
| PhysicsSpec.CollidePairElastic | src/features/background/physics.js:181-193 | The velocity exchange swaps the two normal components and keeps the total kinetic energy. |
| PhysicsSpec.ExchangeNormal | src/features/background/physics.js:186-193 | Replacing the normal component of a velocity along a unit normal gives that component and the matching squared speed. |
| PhysicsSpec.CollidePairSeparates | src/features/background/physics.js:168-180 | When `i` has not moved since its row began, a resolved pair ends `2 radius + 2e-4` apart. |
| PhysicsSpec.CollidePairKeepsTotals | src/features/background/physics.js:160-194 | One pair keeps the sums of positions and velocities over the active slots. |
| PhysicsSpec.CollideRowKeepsTotals | src/features/background/physics.js:151-197 | The inner loop keeps those sums. |
| PhysicsSpec.CollideKeepsTotals | src/features/background/physics.js:151-197 | The whole collision pass keeps the centroid and the total momentum, and never touches a slot at or above `count`. |
| PhysicsSpec.MoveContains | src/features/background/physics.js:203-210 | After the first loop of `step` every active particle is inside its container. |
| PhysicsSpec.StepSpec | src/features/background/physics.js:200-212 | `step` first brings every active particle inside its container, then collides, keeping the totals of that intermediate state; inactive slots never change. |
| PhysicsSpec.ClampToCubeSpec | src/features/background/physics.js:240-246 | The cube branch of `setMode` puts every axis in `[-limit, limit]`, keeps a centre already inside, and is idempotent. |
| PhysicsSpec.ScaleIntoSphereSpec | src/features/background/physics.js:247-258 | The sphere branch puts the centre within `limit`, keeps a centre already inside, and is idempotent. |
| PhysicsSpec.ScaleInside | src/features/background/physics.js:247-258 | A centre no further than `limit` stays where it is. |
| PhysicsSpec.ScaleOutside | src/features/background/physics.js:247-258 | A centre further than `limit` lands on the sphere of radius `limit`. |
| PhysicsSpec.RemapSpec | src/features/background/physics.js:240-258 | One remapped position lies in the new container, one already inside is kept, and remapping is idempotent. |
| PhysicsSpec.RemapAllStep | src/features/background/physics.js:239-259 | One more iteration of the `setMode` loop remaps one more slot. |
| PhysicsSpec.SetModeSpec | src/features/background/physics.js:233-260 | Over the buffer, `setMode` puts every active position in the container, keeps a buffer already inside, is idempotent, and never touches inactive slots. |
| Physics.Particles.constructor | src/features/background/physics.js:20-38 | Defaults: `maxCount` is `count` and the mode is `'cube'`; `half` and `sphereRadius` are `bounds / 2`; the zeroed buffers are placed by `_init`, without overlap. |
| Physics.Particles.Init | src/features/background/physics.js:41-47 | `_init` is `Populate` on the buffers; `count` becomes the number of slots placed, and they do not overlap. |
| Physics.Particles.PlaceRandom | src/features/background/physics.js:50-88 | `_placeRandom` writes slot `i` as `Sample` chooses, and nothing else. |
| Physics.Particles.ClearOfBelow | src/features/background/physics.js:68-79 | The overlap test holds exactly when every slot below `i` is at least `2 radius` away. |
| Physics.Particles.AddBall | src/features/background/physics.js:91-96 | At capacity nothing happens; otherwise one more ball is placed at random. A non-overlapping population stays non-overlapping. |
| Physics.Particles.RemoveBall | src/features/background/physics.js:99-103 | One fewer active ball, never below zero; the buffers are kept. |
| Physics.Particles.Reflect | src/features/background/physics.js:106-148 | `_reflect` writes slot `i` as `PhysicsSpec.Reflect` gives it, and nothing else. |
| Physics.Particles.Collide | src/features/background/physics.js:151-197 | `_collide` leaves the buffers as `PhysicsSpec.Collide` gives them. |
| Physics.Particles.CollidePairInPlace | src/features/background/physics.js:160-194 | The inner loop body updates the pair as `CollidePair` gives it. |
| Physics.Particles.Step | src/features/background/physics.js:200-212 | `step(dt)` is `PhysicsSpec.Step` with `dt * speed`. |
| Physics.Particles.SetMode | src/features/background/physics.js:233-260 | The mode is normalised, and positions become `RemapAll` of the old ones; velocities are kept. |
| Physics.Particles.RemapSlot | src/features/background/physics.js:239-259 | One iteration of the `setMode` loop remaps slot `i` alone. |
| Physics.Particles.Sync | src/features/background/physics.js:215-227 | Each active slot gets its instance matrix from its position, and the scratch rotation advances once per slot; the mesh shows `count` instances and is flagged for upload. |
| Physics.Particles.AttachMesh | src/features/background/physics.js:266-271 | The new mesh is drawn into and shows `count` instances. |
| FixedStepLoop.Updates | src/core/loop.js:35-39 | The fixed-mode update calls of a frame are `k` calls of `update(stepMs / 1000)`. |
| FixedStepLoop.DrainedSpec | src/core/loop.js:32-40 | The drain removes whole steps only, runs nothing below one step, and from a non-negative accumulator runs `floor(acc / step)` steps and leaves `[0, step)`. |
| FixedStepLoop.Drain | src/core/loop.js:34-39 | The drain loop computes `Drained`. |
| FixedStepLoop.FrameEffectSpec | src/core/loop.js:26-47 | Each frame renders exactly once, last. Fixed mode runs `floor((acc + delta) / stepMs)` updates of `stepMs / 1000` seconds, covering the time the accumulator gives up; variable mode runs one update of the whole elapsed time. |
| FixedStepLoop.Loop.constructor | src/core/loop.js:11-88 | Building the loop registers one visibility listener and requests the first frame with an empty accumulator. |
| FixedStepLoop.Loop.Request | src/core/loop.js:28 | `requestAnimationFrame` adds one fresh pending request. |
| FixedStepLoop.Loop.Frame | src/core/loop.js:26-47 | A frame requests the next one, sets `last` to `now`, and appends exactly the calls `FrameEffect` gives. |
| FixedStepLoop.Loop.LoopStart | src/core/loop.js:49-54 | Timing restarts from `now` with an empty accumulator, and one frame is requested. |
| FixedStepLoop.Loop.LoopStop | src/core/loop.js:56-59 | The latest frame request is cancelled. |
| FixedStepLoop.Loop.Start | src/core/loop.js:61-69 | The listener is registered once however often `start` runs, then `loopStart`. |
| FixedStepLoop.Loop.Stop | src/core/loop.js:71-79 | The listener is removed and the latest request cancelled. |
| FixedStepLoop.Loop.Dispose | src/core/loop.js:81-84 | `dispose` is `stop`. |
| FixedStepLoop.Loop.OnVisibilityChange | src/core/loop.js:18-24 | While registered: hidden cancels the latest frame and keeps the timing; visible requests one fresh frame with fresh timing. The listener stays registered. |
| FixedStepLoop.LegacyLoop.constructor | lib/utils.js:39-90 | The legacy loop registers its listener for good and starts. |
| FixedStepLoop.LegacyLoop.Frame | lib/utils.js:45-66 | The same drain, updates and render as `Loop.Frame`. |
| FixedStepLoop.LegacyLoop.Start | lib/utils.js:68-73 | `start` always resets the timing and requests one more frame. |
| FixedStepLoop.LegacyLoop.Stop | lib/utils.js:75-78 | `stop` cancels the latest request, and the listener stays. |
| FixedStepLoop.LegacyLoop.OnVisibilityChange | lib/utils.js:80-86 | The listener stops when hidden and starts otherwise, even after an explicit `stop`. |
| BackgroundShared.CountBounds | src/features/background/controller.js:247-259 | Increase and decrease keep the count in `[0, INST_MAX]`. Away from the bounds each undoes the other; at the bounds they saturate. |
| BackgroundShared.Toggle | src/features/background/controller.js:261-265 | The toggle yields `'ico'` or `'ring'`, and `'ico'` exactly when the shape was not `'ico'`. |
| BackgroundShared.ToggleTwice | src/features/background/controller.js:261-265 | Two toggles of `'ico'` or `'ring'` return it. |
| BackgroundShared.LimitRadius | src/features/background/controller.js:215 | The orbit limit is in `[0.65, 0.8]`, and is 0.8 exactly for `'ico'`. |
| BackgroundShared.ClampRadiusSpec | src/features/background/controller.js:223 | The clamped radius lies in `[0.4, limitR]`, equals `r` when `r` is already in range, and saturates below and above. |
| BackgroundShared.WriteOrbit | src/features/background/controller.js:213-229 | Each drawn instance gets its clamped orbit radius; other entries are kept. |
| BackgroundShared.WriteOrbitInRange | src/features/background/controller.js:213-229 | Writing orbits with a limit of at most 0.8 keeps every recorded radius in `[0.4, 0.8]`. |
| BackgroundShared.AddTimesSpec | src/features/background/controller.js:205-212 | `k` increments of `d` add `k * d`. |
| BackgroundController.StepOf | src/features/background/controller.js:204 | A positive rate's step is `1 / fps`; otherwise the frame's `dt`. Either way it is positive. |
| BackgroundController.AdvanceSpec | src/features/background/controller.js:172-236 | A running subsystem leaves its accumulator in `[0, step)` and advances by exactly the whole steps the added time allows; a stopped one is untouched. |
| BackgroundController.Controller.constructor | src/features/background/controller.js:14-31 | Initial state: 24 instances, `'ico'`, rates 20/24/15, empty accumulators, nothing built. |
| BackgroundController.Controller.Start | src/features/background/controller.js:131-157 | Without a canvas nothing changes. Otherwise the given rates are applied and the reduced-motion preference recorded; only the rates, that flag and the three accumulators change. |
| BackgroundController.Controller.EnsureInnerObjects | src/features/background/controller.js:44-65 | The instances and their seeds are created once, drawing the current count. |
| BackgroundController.Controller.MakeWirePoly | src/features/background/controller.js:68-120 | The group is rebuilt for the shape as a new group at rotation 0, and the instances are kept, or created once. |
| BackgroundController.Controller.Init | src/features/background/controller.js:158-171 | The scene, grid, group and instances exist, and the group has the current shape. The new grid and group start at rotation 0. Seeds are drawn only if the instances did not exist, and only those parts change. |
| BackgroundController.Controller.Update | src/features/background/controller.js:172-236 | Under reduced motion nothing changes. Otherwise each running subsystem drains whole steps, and its accumulator ends below one step; only accumulators, angles, `elapsed` and orbits change, so counts and shape are kept. |
| BackgroundController.Controller.UpdatePoly | src/features/background/controller.js:177-187 | The group turns by its rate per drained step, and the accumulator ends in `[0, step)`. |
| BackgroundController.Controller.UpdateGrid | src/features/background/controller.js:190-199 | The grid turns per drained step, and the accumulator ends in `[0, step)`. |
| BackgroundController.Controller.UpdateInner | src/features/background/controller.js:202-235 | `elapsed` advances one step per drained step, and orbits are rewritten only when a step was taken. |
| BackgroundController.Controller.RefreshOrbit | src/features/background/controller.js:213-229 | Every drawn instance gets its clamped orbit for the current time and shape. |
| BackgroundController.Controller.IncreaseBalls | src/features/background/controller.js:247-252 | One more instance, at most `INST_MAX`, mirrored into the mesh; nothing before the mesh exists. |
| BackgroundController.Controller.DecreaseBalls | src/features/background/controller.js:254-259 | One fewer instance, at least 0; nothing before the mesh exists. |
| BackgroundController.Controller.SwitchToSphereMode | src/features/background/controller.js:261-265 | The shape toggles and the group is rebuilt at rotation 0. Before `init` the rebuild throws after the group is made, and the instances are not created. |
| BackgroundController.Controller.SetBackgroundFps | src/features/background/controller.js:273-279 | Rates given as numbers replace the old ones, the others are kept, and all three accumulators are reset. |
| BackgroundEntry.Scene.constructor | src/entry/background.js:16-24 | Initial state: 24 instances, `'ico'`, reduced motion read once, nothing built. |
| BackgroundEntry.Scene.MakeWirePoly | src/entry/background.js:37-116 | The group is rebuilt for the shape as a new group at rotation 0, and the instances are created once. |
| BackgroundEntry.Scene.Init | src/entry/background.js:133-147 | The scene, grid, group and instances exist, with the current shape. The new grid and group start at rotation 0. Seeds are drawn only if the instances did not exist, and only those parts change. |
| BackgroundEntry.Scene.Update | src/entry/background.js:148-187 | Under reduced motion nothing changes. Otherwise rotations turn by `rate * dt`, `elapsed` grows by `dt` once the instances exist, and every drawn instance gets its clamped orbit; nothing else changes. |
| BackgroundEntry.Scene.IncreaseBalls | src/entry/background.js:195-200 | One more instance, at most `INST_MAX`; nothing before the mesh exists. |
| BackgroundEntry.Scene.DecreaseBalls | src/entry/background.js:202-207 | One fewer instance, at least 0; nothing before the mesh exists. |
| BackgroundEntry.Scene.SwitchToSphereMode | src/entry/background.js:209-214 | The shape toggles and the group is rebuilt at rotation 0. Before `init` the rebuild throws after the group is made. |
| PatternMatch.BestBelow | src/entry/easter-egg.js:23-32 | The result is a length `<= m` of a pattern prefix that the history ends with. |
| PatternMatch.BestBelowMax | src/entry/easter-egg.js:23-32 | That length is the largest such one. |
| PatternMatch.Progress | src/entry/easter-egg.js:8 | A history's progress is a proper prefix length that the history ends with. |
| PatternMatch.NoBorder | src/entry/easter-egg.js:3-7 | With a last key that occurs only once, a complete history ends with no shorter prefix. |
| PatternMatch.Step | src/entry/easter-egg.js:23-32 | The corrected step keeps the index below the pattern's length. |
| PatternMatch.EndsWithShorter | src/entry/easter-egg.js:23-32 | A history ending with a prefix ends with the shorter prefixes exactly as that prefix does. |
| PatternMatch.ExtendEnding | src/entry/easter-egg.js:23-32 | One more key extends an ending by one exactly when it is the next key of the pattern. |
| PatternMatch.EndingsForward | src/entry/easter-egg.js:23-32 | An ending of the extended history is an ending of the matched prefix plus the key. |
| PatternMatch.EndingsBackward | src/entry/easter-egg.js:23-32 | The converse of `EndingsForward`. |
| PatternMatch.StepExactComplete | src/entry/easter-egg.js:23-32 | When the extended history is complete, the step fires and the progress restarts at 0. |
| PatternMatch.StepExactIncomplete | src/entry/easter-egg.js:23-32 | Otherwise the step lands on the extended history's progress. |
| PatternMatch.StepExact | src/entry/easter-egg.js:23-32 | From any history's progress, the step gives the extended history's progress, and fires iff that history ends with the whole pattern. |
| PatternMatch.Scan | src/entry/easter-egg.js:16-33 | Feeding keys to the step keeps the index below the pattern's length. |
| PatternMatch.ScanExact | src/entry/easter-egg.js:16-33 | Over any keys, the step fires once for each point where the typed keys end with the whole pattern, and never otherwise. |
| PatternMatch.HitsAtEnd | src/entry/easter-egg.js:16-33 | Keys ending with the whole pattern count at least one hit. |
| PatternMatch.ScanCatches | src/entry/easter-egg.js:16-33 | From a fresh start, keys ending with the whole pattern make the step fire. |
| EasterEgg.NormalizeSpec | src/entry/easter-egg.js:20 | Letter keys match by physical key, and arrows by name. |
| EasterEgg.Next | src/entry/easter-egg.js:21-32 | The index stays below ten, and the action fires iff the tenth key is matched. |
| EasterEgg.NextSound | src/entry/easter-egg.js:21-32 | As written, the index is always a prefix the keys end with, and a firing means the keys end with the whole sequence. |
| EasterEgg.Run | src/entry/easter-egg.js:16-33 | Feeding keys keeps the index below ten. |
| EasterEgg.RunSequence | src/entry/easter-egg.js:3-32 | The sequence from a fresh start fires once and returns the index to 0. |
| EasterEgg.MissesAfterExtraUp | src/entry/easter-egg.js:29-32 | As written, the sequence after one extra `ArrowUp` never fires, although the keys end with it. |
| EasterEgg.SequenceLastUnique | src/entry/easter-egg.js:3-7 | `KeyA` occurs only at the end of the sequence. |
| EasterEgg.NextCorrected | src/entry/easter-egg.js:21-32 | The corrected step keeps the index below ten. |
| EasterEgg.NextCorrectedExact | src/entry/easter-egg.js:21-32 | The corrected step fires exactly when the history ends with the whole sequence, and tracks its progress. |
| EasterEgg.CorrectedCatchesExtraUp | src/entry/easter-egg.js:29-32 | The corrected step fires on the sequence after an extra `ArrowUp`. |
| EasterEgg.Matcher.constructor | src/entry/easter-egg.js:8 | The index starts at 0, and nothing has been typed or fired. |
| EasterEgg.Matcher.OnKeyDown | src/entry/easter-egg.js:16-33 | Editable targets are ignored. Any other key takes one step of `Next`, and a firing happens only when the accepted keys end with the whole sequence. |
| Carousel.Card.Blank | src/entry/works-gallery.entry.js:28-42 | A built card has no position class and shows nothing. |
| Carousel.Strip | src/features/works/carousel-util.js:78 | Removing the five slot classes keeps exactly the other classes. |
| Carousel.Placed | src/features/works/carousel-util.js:10-12 | A card whose `pos-` classes are all slots ends with `pos-off` alone. |
| Carousel.PlacedClasses | src/features/works/carousel-util.js:10-12 | After remove-then-add, the card has `pos-off` and exactly its non-slot classes. |
| Carousel.SignOr1 | src/features/works/carousel-util.js:75 | `Math.sign(dir) \|\| 1` is -1 exactly for a negative `dir`, else 1. |
| Carousel.Wrap | src/features/works/carousel-util.js:76-77 | The wrap lands in `[-2, 2]` and keeps an offset already there. |
| Carousel.NextOffset | src/features/works/carousel-util.js:75-77 | A rotated offset lies in `[-2, 2]`. |
| Carousel.RotateBy | src/features/works/carousel-util.js:68-82 | Each card with a `pos-` class moves to `off - step`, wrapped, and is `is-center` exactly at 0; cards without one are unchanged; no card changes what it shows. |
| Carousel.RotateClasses | src/features/works/carousel-util.js:68-82 | `rotateClasses` is `RotateBy` with `Math.sign(dir) \|\| 1`. |
| Carousel.RotatedSlot | src/features/works/carousel-util.js:58-82 | A card with only slot classes moves to `NextOffset`, and `getOffset` reads it back. |
| Carousel.RotateArrangement | src/features/works/carousel-util.js:68-82 | Rotating arranged cards (each with one slot class, the first five a permutation of -2..2) moves each to its rotated offset: they stay arranged, with one `is-center` card among the first five, and show what they showed. |
| Carousel.RotateBack | src/features/works/carousel-util.js:75-77 | Rotating one way and back restores each offset; direction 0 rotates as `+1`. |
| Carousel.Turns | src/features/works/carousel-util.js:75-77 | After one or more rotations the offset is in `[-2, 2]`. |
| Carousel.FiveTurns | src/features/works/carousel-util.js:75-77 | Five rotations return every card to its slot, and no fewer do. |
| Carousel.RotationKeepsArrangement | src/features/works/carousel-util.js:68-82 | A rotation keeps the offsets a permutation of -2..2, with exactly one centre before and after. |
| Carousel.ApplyInitialPositions | src/features/works/carousel-util.js:5-15 | Card `i` takes slot `positions[i] ?? 0`, and is `is-center` exactly at 0; what it shows is kept. |
| Carousel.InitialArrangement | src/features/works/carousel-util.js:5-15 | The default positions are -2..2 in order, and later cards fall back to 0. |
| Carousel.InitialOffsetsArranged | src/features/works/carousel-util.js:53 | The offsets `ensureCarousel` gives start with -2..2 and all lie in the five slots. |
| Carousel.PlacedArranged | src/features/works/carousel-util.js:5-15 | Distinct cards, each placed with the one class `Initial[i] ?? 0`, are arranged. |
| Carousel.Gather | src/features/works/carousel-util.js:28-45 | The root's carousel, created empty if missing, gets `existing` appended unless it is already there; no card repeats. |
| Carousel.Pad | src/features/works/carousel-util.js:46-51 | Fresh blank cards pad the list to `slots`, and the old cards keep their order. |
| Carousel.Collect | src/features/works/carousel-util.js:29-51 | The carousel (old or new) lists the old cards, `existing` once, then fresh blank cards up to `slots`. |
| Carousel.EnsureCarousel | src/features/works/carousel-util.js:26-55 | Without a root, nothing. Otherwise: the carousel, created if missing; `existing` appended once; padding to `slots` with fresh cards; and the initial positions applied to every card. |
| JsInt.JsRem | src/entry/works-gallery.entry.js:87 | JavaScript `%` agrees with the mathematical remainder for `a >= 0` and lies in `(-n, 0]` for `a < 0`. |
| JsInt.WrapInRange | src/entry/works-gallery.entry.js:87 | `(index + d + len) % len` is a valid list index for any `index >= 0` and `d >= -2`. |
| WorksGallery.ItemIndexInRange | src/entry/works-gallery.entry.js:87 | Around any index, the five cards show valid items of the list. |
| WorksGallery.ShowItems | src/entry/works-gallery.entry.js:83-115 | Each placed card shows the item at its offset, is `is-center` exactly at 0, and `aria-hidden` elsewhere; classes are kept. |
| WorksGallery.ShowFallback | src/entry/works-gallery.entry.js:73-79 | The fallback hides the card's image and writes the no-items message, and nothing else. |
| WorksGallery.BuildCarousel | src/entry/works-gallery.entry.js:46-51 | On a root whose cards carry only slot classes: the page's carousel is reused or one is created, the cards sit at -2..2 then 0 with that one class, and each card is the page's or fresh. |
| WorksGallery.Gallery.constructor | src/entry/works-gallery.entry.js:17-25 | Initial state: `'game'`, index 0, no carousel, not animating, with the page as given. |
| WorksGallery.Gallery.SetupCarousel | src/entry/works-gallery.entry.js:44-52 | Once, when the root exists, the carousel is built, reusing the page's own, with its cards arranged at -2..2 then 0; otherwise nothing changes. |
| WorksGallery.Gallery.Render | src/entry/works-gallery.entry.js:67-123 | After `render` the page is drawn: with no carousel or an empty list the fallback card hides its image and shows the message; otherwise every card shows the list element at `index` plus its offset, `aria-hidden` off centre, without the message. A hidden image stays hidden. |
| WorksGallery.Gallery.Draw | src/entry/works-gallery.entry.js:70-115 | The drawing half of `render` leaves the page drawn, as for `Render`. |
| WorksGallery.Gallery.OnTab | src/entry/works-gallery.entry.js:125-136 | A tab sets the category and index 0, and the page is drawn for them. |
| WorksGallery.Gallery.OnLoaded | src/entry/works-gallery.entry.js:167-171 | Data is loaded once, then the page is drawn. |
| WorksGallery.Gallery.StepOnce | src/entry/works-gallery.entry.js:147-160 | One rotation of the cards to their rotated offsets, with one centre card, showing what they showed; the step timer starts. |
| WorksGallery.Gallery.Rotate | src/entry/works-gallery.entry.js:149 | `rotateClassesUtil(cards, dir)` keeps the cards arranged at the rotated offsets. |
| WorksGallery.Gallery.ChangeIndex | src/entry/works-gallery.entry.js:139-162 | Ignored while animating or with an empty list. Otherwise it locks, takes `Math.sign(delta) \|\| 1` for `abs(delta)` steps (at least one), and makes the first. |
| WorksGallery.Gallery.Lock | src/entry/works-gallery.entry.js:143-161 | The lock is taken with `Math.sign(delta) \|\| 1` and `abs(delta)` steps, and the first step made. |
| WorksGallery.Gallery.OnStepTimer | src/entry/works-gallery.entry.js:150-159 | The index moves one place in the captured list, wrapping and staying in range. The next step follows, or after the last the lock is released with the page drawn. |
| WorksGallery.Gallery.NextStep | src/entry/works-gallery.entry.js:154-158 | `done++`; the next step while `done < steps`, else the lock is released with the page as drawn. |
| WorksGalleryLegacy.LegacyGallery.constructor | src/entry/works-gallery.js:5-19 | Initial state: `'game'`, index 0, no carousel, not animating, with the page and the position of `.arrow-right` as given. |
| WorksGalleryLegacy.LegacyGallery.EnsureCarousel | src/entry/works-gallery.js:36-68 | Once, when the root exists: a new carousel. If `.arrow-right` exists but is not a direct child of the root, `insertBefore` throws (`ok` false) and the carousel stays without cards; otherwise it holds the page's card, padded to five, at -2..2. |
| WorksGalleryLegacy.Build | src/entry/works-gallery.js:46-67 | The carousel holds the page's card, then fresh cards up to five, each with its one slot class -2..2. |
| WorksGalleryLegacy.LegacyGallery.Render | src/entry/works-gallery.js:85-143 | A throw from `ensureCarousel` ends `render` with nothing drawn. Otherwise the page is drawn: the fallback with no carousel or an empty list, else every card shows the list element at `index` plus its offset. A hidden image stays hidden. |
| WorksGalleryLegacy.LegacyGallery.Draw | src/entry/works-gallery.js:88-135 | The drawing half of `render` leaves the page drawn. |
| WorksGalleryLegacy.LegacyGallery.OnTab | src/entry/works-gallery.js:145-156 | A tab sets the category and index 0, and the page is drawn for them unless `render` throws. |
| WorksGalleryLegacy.LegacyGallery.OnLoaded | src/entry/works-gallery.js:188-192 | Data is loaded once, then the page is drawn unless `render` throws. |
| WorksGalleryLegacy.LegacyGallery.StepOnce | src/entry/works-gallery.js:167-181 | The local `rotateClasses` moves the cards to their rotated offsets, showing what they showed; then the step timer. |
| WorksGalleryLegacy.LegacyGallery.Rotate | src/entry/works-gallery.js:205-217 | `rotateClasses(dir)` keeps a built carousel arranged at the rotated offsets. |
| WorksGalleryLegacy.LegacyGallery.ChangeIndex | src/entry/works-gallery.js:158-183 | Ignored while animating or with an empty list. Otherwise it locks and makes the first of `abs(delta)` steps. |
| WorksGalleryLegacy.LegacyGallery.Lock | src/entry/works-gallery.js:162-182 | The lock is taken with `Math.sign(delta) \|\| 1` and `abs(delta)` steps, and the first step made. |
| WorksGalleryLegacy.LegacyGallery.OnStepTimer | src/entry/works-gallery.js:171-180 | The index moves one place, wrapping and staying in range. If `render` throws, `done` stays and the lock is never released; otherwise the next step follows, or the lock is released with the page drawn. |
| WorksGalleryLegacy.LegacyGallery.NextStep | src/entry/works-gallery.js:175-179 | `done++`; the next step while `done < steps`, else the lock is released. |
| WorksLoader.NothingBeforeLoad | src/features/works/loader.js:36-51 | Before loading and after a failed load, every list is empty. |
| WorksLoader.ListFound | src/features/works/loader.js:36-51 | A language and category present in the data give exactly their list. |
| WorksLoader.MissingLangReadsJapanese | src/features/works/loader.js:36-40 | A missing language reads as Japanese when that is present. |
| WorksLoader.Loader.constructor | src/features/works/loader.js:4 | Nothing is loaded at start. |
| WorksLoader.Loader.LoadWorks | src/features/works/loader.js:10-30 | It fetches iff nothing is stored yet, and stores the outcome; stored data is never replaced. |
| WorksPage.ArrowsInverse | works.js:87-99 | Both arrows keep the index in range, wrap at the ends, and undo each other. |
| WorksPage.Rights | works.js:94-99 | Repeated right presses keep the index in range. |
| WorksPage.RightsAdvance | works.js:94-99 | Up to `len` right presses advance by that many, wrapping once. |
| WorksPage.RightsCycle | works.js:94-99 | `len` right presses return to the start. |
| WorksPage.NormaliseInRange | works.js:65 | `(index + len) % len` keeps an in-range index. |
| WorksPage.Page.constructor | works.js:101 | The page starts on `'game'` at its first work, shown. |
| WorksPage.Page.Render | works.js:57-75 | An empty list shows the message. Otherwise the work at the normalised index is shown. |
| WorksPage.Page.OnTab | works.js:77-85 | A tab sets the category and index 0. |
| WorksPage.Page.OnLeft | works.js:87-92 | Nothing for an empty list; otherwise the previous work, wrapping. |
| WorksPage.Page.OnRight | works.js:94-99 | Nothing for an empty list; otherwise the next work, wrapping. |
| BootOverlay.ToInt32 | src/features/boot/overlay.js:32 | `x \| 0` is a signed 32-bit value, equal to `x` in range. |
| BootOverlay.Clamp | src/features/boot/overlay.js:32 | The bar value lies in 0..100 and keeps values already in range. |
| BootOverlay.Duration | src/features/boot/overlay.js:81 | The tick duration is at least 1000 ms and at least `floor(minMs * 0.9)`. |
| BootOverlay.TickValueRange | src/features/boot/overlay.js:79-91 | The eased curve stays in `[0, 1]` on `[0, 1]`, so a tick sets at most 90. |
| BootOverlay.Fraction | src/features/boot/overlay.js:86 | The time fraction lies in `[0, 1]`. |
| BootOverlay.Overlay.constructor | src/features/boot/overlay.js:20-125 | Without an overlay, nothing. Otherwise: bar from the first tick; min and max timers set; loaded at once when the document is complete; listeners added. |
| BootOverlay.Overlay.SetProgress | src/features/boot/overlay.js:28-39 | The bar is set to the clamped value. |
| BootOverlay.Overlay.CloseOverlay | src/features/boot/overlay.js:52-76 | Only the first call has an effect: it finishes, cancels the max timer and starts the fade. |
| BootOverlay.Overlay.MaybeClose | src/features/boot/overlay.js:45-49 | Closes exactly when not yet closed and both gate flags are set. |
| BootOverlay.Overlay.Tick | src/features/boot/overlay.js:82-91 | As written: once closed, nothing. Otherwise the bar is set from the eased fraction, at most 90, and another frame is requested while `t < 1`. |
| BootOverlay.Overlay.TickCorrected | src/features/boot/overlay.js:82-91 | Corrected: after loading, a tick leaves the bar at 100. |
| BootOverlay.Overlay.OnMinTimer | src/features/boot/overlay.js:94-97 | The first gate opens, and the overlay closes iff the page has loaded, not by the user; otherwise the max timer is untouched. Only the gate flags and the closing state change. |
| BootOverlay.Overlay.MarkLoaded | src/features/boot/overlay.js:100-107 | Ignored once closed. Otherwise: loaded, a full bar, and one more pending check. |
| BootOverlay.Overlay.OnLoad | src/features/boot/overlay.js:108-111 | The once-only listener is gone. Before the close it runs `markLoaded`: loaded, a full bar, and one more 150 ms check pending; after the close nothing else changes. |
| BootOverlay.Overlay.OnCheckTimer | src/features/boot/overlay.js:106 | The 150 ms check is used up and closes iff both gates are open, not by the user; otherwise the max timer is untouched. |
| BootOverlay.Overlay.OnMaxTimer | src/features/boot/overlay.js:114-117 | The max timer is spent; loaded with a full bar; it closes iff the min time has passed, not by the user. |
| BootOverlay.Overlay.OnSkip | src/features/boot/overlay.js:120 | The skip button closes whatever the gates, by the user, cancelling the max timer; a second close changes nothing. |
| BootOverlay.Overlay.OnKeyDown | src/features/boot/overlay.js:121 | The first key closes whatever the gates, by the user, cancelling the max timer, and the listener is gone. |
| BootOverlay.Overlay.OnOverlayClick | src/features/boot/overlay.js:122-125 | A click on the overlay itself closes it, by the user, cancelling the max timer; any other click changes nothing. |
| BootOverlay.Overlay.OnFadeEnd | src/features/boot/overlay.js:66-75 | The finished fade, or the 800 ms fallback, removes the overlay. |
| BootOverlay.LoadedBarFallsBack | src/features/boot/overlay.js:82-91 | As written, a tick after loading lowers the full bar. A tick half-way gives 67, and every tick gives less than 100. |
| RetroState.Final | src/core/state.js:10-16 | After a series of calls, the flag is the last value set, or unchanged with none. |
| RetroState.EmittedAlternates | src/core/state.js:10-16 | Listeners see values that alternate starting from the old flag; the last event carries the final flag; there are at most as many events as calls. |
| RetroState.RepeatEmitsOnce | src/core/state.js:13 | Setting the same value twice dispatches at most once. |
| RetroState.WithoutMembers | src/core/state.js:22 | Unsubscribing keeps exactly the other listeners, and removing an absent one changes nothing. |
| RetroState.SpliceAbsent | src/core/state.js:19-22 | In a list without repeats a listener occurs only at its own position. |
| RetroState.WithoutSplice | src/core/state.js:22 | Removing a listener that occurs once splices it out of its position, keeping the others in order. |
| RetroState.SpliceDistinct | src/core/state.js:19-22 | Splicing one listener out keeps the list without repeats. |
| RetroState.WithoutKeepsOrder | src/core/state.js:20-22 | Removing one listener from a list without repeats leaves the others in their order, still without repeats. |
| RetroState.Retro.constructor | src/core/state.js:6 | The flag starts on, with no listeners. |
| RetroState.Retro.SetRetroEnabled | src/core/state.js:10-16 | The flag becomes `!!value`; an event reaches every listener exactly when it changes. |
| RetroState.Retro.OnRetroChanged | src/core/state.js:18-23 | A new listener is appended, and its fresh handle is returned. |
| RetroState.Retro.Unsubscribe | src/core/state.js:22 | Only that listener is removed, the others keep their order (the order of delivery), a second call changes nothing, and nothing else changes. |
| RetroState.Retro.OnDisableRetro | src/core/state.js:26-30 | `disable-retro` turns the flag off. Iff it was on, one `false` event is dispatched and reaches every listener in order; the listeners are unchanged. |
| Morph.Lerp | lib/morph.js:31-33 | `lerp` gives `x` at 0 and `y` at 1. |
| Morph.LerpPoint | lib/morph.js:28-34 | The point lerp gives `a` at 0 and `b` at 1. |
| Morph.LerpBetween | lib/morph.js:27-34 | For weights in `[0, 1]` each coordinate stays between the two ends. |
| Morph.Following | lib/morph.js:25 | The next phase is a different one of the three shapes. |
| Morph.FollowingCycle | lib/morph.js:22-26 | Three phase changes return to the start. |
| Morph.Weight | lib/morph.js:27 | `k` is at most 1, and is 1 exactly when `t >= 1`. |
| Morph.Morpher.constructor | lib/morph.js:1-18 | A zeroed buffer, tetrahedron to cube, starting now. |
| Morph.Morpher.Write | lib/morph.js:28-34 | Every slot holds the lerp at `k` of its two targets. |
| Morph.Morpher.Update | lib/morph.js:20-36 | As written: after the duration, one phase change; the points are written at `min(t, 1)` of the old `t`, so the changing frame shows the new target. |
| Morph.Morpher.UpdateCorrected | lib/morph.js:20-36 | Corrected: the changing frame shows the shape just reached. |
| Morph.FlashOnPhaseChange | lib/morph.js:21-34 | With `t >= 1` the frame shows `b`, not `a`, while weight 0 would show `a`. |
| AvatarExplosion.Range | src/features/avatar/explode.js:47 | All indices `0 .. n-1` in order, without repeats. |
| AvatarExplosion.PickInRange | src/features/avatar/explode.js:50 | `Math.floor(draw * n)` is a position in the pool. |
| AvatarExplosion.RemoveAt | src/features/avatar/explode.js:51 | `splice(k, 1)` shifts the later elements down by one. |
| AvatarExplosion.RemoveAtDistinct | src/features/avatar/explode.js:51 | Splicing keeps a pool repeat-free, and removes the taken element. |
| AvatarExplosion.SampleDistinct | src/features/avatar/explode.js:45-54 | The sample has one index per draw while the pool lasts, all from the pool, none repeated. |
| AvatarExplosion.SpliceSample | src/features/avatar/explode.js:47-53 | The drawing loop computes `Sample`. |
| AvatarExplosion.Chosen | src/features/avatar/explode.js:45-59 | The indices `explode` uses: as many as the vertices, at most 100, none repeated, each a vertex index. |
| AvatarExplosion.SelectVertices | src/features/avatar/explode.js:45-59 | Over 100 vertices: 100 distinct indices drawn without replacement; otherwise all, in order. |
| AvatarExplosion.Moved | src/features/avatar/explode.js:113-122 | Moving keeps the number of pieces. |
| AvatarExplosion.MovedAdds | src/features/avatar/explode.js:113-122 | A zero-length tick moves nothing, and two ticks add up. |
| AvatarExplosion.BuildPieces | src/features/avatar/explode.js:79-90 | One piece at each selected vertex, and one velocity per piece. |
| AvatarExplosion.Explosion.constructor | src/features/avatar/explode.js:11-14 | Not exploded, with no group and no velocities. |
| AvatarExplosion.Explosion.Explode | src/features/avatar/explode.js:66-94 | Ignored while exploded. Otherwise a group at the avatar's pose with piece `i` at vertex `Chosen[i]` (all vertices up to 100, else 100 drawn without replacement), one velocity per piece, and the avatar hidden. |
| AvatarExplosion.Explosion.Restore | src/features/avatar/explode.js:97-110 | Ignored unless exploded. Otherwise the avatar is upright and visible again, and the group is gone. |
| AvatarExplosion.Explosion.Tick | src/features/avatar/explode.js:113-122 | While exploded, each piece moves by its velocity times `dt`. |

## Left out

- Rendering is not modelled. THREE.js objects, meshes, materials, the DOM, CSS classes other than the `pos-`/`is-center`/`aria-hidden` state, and post-processing are left out. The model keeps only the state the logic reads and writes.
- Buffers are simplified. `Float32Array` position and velocity buffers hold one `Vec3` per slot, not three floats. Numbers are exact reals, so single-precision rounding is not modelled.
- Browser inputs become parameters. `Math.random` draws, `Math.sqrt` and `Math.hypot` are parameters. So are `sin` and `performance.now()`, and `matchMedia` as the reduced-motion flag. Draws are a finite stream with the hypothesis that each lies in `[0, 1)`.
- Physics.Particles.PlaceRandom: the rejection loop consumes a finite stream of candidates and reports when the stream runs out; the source would keep drawing.
- Physics.Particles.constructor: requires `count <= maxCount`. The source would write past its buffers otherwise.
- src/core/bg-physics.js is the same code as src/features/background/physics.js without `setMode` and `attachMesh`, its lines shifted by four. It is `Physics.Particles` with `SetMode` never called.
- Timers, `requestAnimationFrame` and listeners are events. Timers are pending flags or counters, and the methods that fire them (`OnMinTimer`, `OnStepTimer`, `Frame`) stand for the callbacks. The delays (150 ms, 320 ms, `minMs`, `maxMs`, the fade's 450 ms) are not modelled as time. Interleaving of asynchronous fetches is not modelled.
- BootOverlay.Overlay.OnFadeEnd: the fade's `finish` event and the 800 ms fallback removal are merged into one event.
- The `makeWirePoly` geometry is not modelled. Vertex and edge lists, the ring and tetrahedron shapes, and instance matrices beyond the orbit radius are left out. The polyhedron and grid angles are modelled as three numbers (`polyRotX`, `polyRotY`, `gridRotY`) rather than THREE.js objects. The inner-update trigonometry is abstracted to `RawRadius` with `sin` as a parameter.
- BackgroundController.Controller.Start: `createThreeApp` and the renderer it builds are left out. The application calls `Init` once and then `Update` with its fixed step `dt > 0`.
- AvatarExplosion.SelectVertices: the subdivision loop of `collectVertices` is left out. Its vertex list is a parameter.
- AvatarExplosion.BuildPieces: velocity normalisation, including the random direction for a vertex at the origin, is a `heading` parameter.
- Morph.Morpher.constructor: the tetrahedron, cube and sphere generators are left out. The three shapes are given.
- RetroState.Retro.OnRetroChanged: the `options` argument of `addEventListener` is not modelled. Handlers are identified by subscription number.
- RetroState.Retro.GetRetroEnabled is a plain field read and carries no contract.
- EasterEgg.Matcher.OnKeyDown: the action (`location.href = 'game.html'`) is a firing counter. The entry version's extra logging, and swallowing errors in its action, are not modelled separately.
- WorksLoader.Loader.LoadWorks: `fetch` is a parameter giving the outcome (not OK, unparseable, or parsed JSON). The URL and cache option are left out.
- WorksGallery.ShowItems: every card is taken to hold its image and its description list, as `buildCard` makes them. `render` changes `is-center` only on a card with a description list.
- WorksGallery.Gallery.constructor: requires that the page's card and the cards of the page's own `.works-carousel` carry no `pos-` class outside the five slots, and that this carousel lists each card once (a DOM query never repeats an element). A card with, say, `pos-7` keeps it through `applyInitialPositions`, and `getOffset` may then read 7; such a page is not covered.
- WorksGalleryLegacy.LegacyGallery.constructor: requires that the page's card carries no `pos-` class outside the five slots, for the same reason.
- WorksGallery.Gallery.FallbackCard: the page's first `.works-image img` and `.works-desc` are taken to belong to the carousel's first card, or to the page's card before the carousel has cards. Other page markup before them is not modelled.
- `triggerWorksLoadingBar` in the galleries only toggles a CSS class on a timer and is not modelled. The same goes for the carousel height measurement at the end of `render`.

## Findings

| source | as written | input that shows it | evidently intended | confidence | as-written member | corrected member |
|---|---|---|---|---|---|---|
| src/entry/easter-egg.js:29-32 | On a mismatch the index restarts at 1 if the key is `ArrowUp`, else at 0 | `ArrowUp` followed by the whole sequence (Up Up Up Down Down Left Right Left Right B A): the third Up restarts at 1, the next Down mismatches, and the action never fires | The action fires whenever the typed keys end with the sequence (the Knuth-Morris-Pratt step) | not executed | EasterEgg.MissesAfterExtraUp | EasterEgg.NextCorrectedExact |
| src/features/boot/overlay.js:82-91 | The tick keeps setting the bar from the eased time after `markLoaded` set it to 100 | Document already complete at start-up: `markLoaded` sets 100, and the next frame at half the duration sets 67 | Once loaded, the bar stays at 100 | not executed | BootOverlay.LoadedBarFallsBack | BootOverlay.Overlay.TickCorrected |
| lib/morph.js:21-27 | `k = Math.min(t, 1)` uses the `t` from before the phase change | A frame 3 s after the start of the cube-to-sphere phase: `current` becomes sphere and `next` tetrahedron, and the frame shows the tetrahedron at weight 1 | The frame that changes phase shows the shape just reached (weight 0 of the new phase) | not executed | Morph.FlashOnPhaseChange | Morph.Morpher.UpdateCorrected |
