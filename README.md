# EmojiRain physics engine, modelled in Dafny

This project models the emoji physics engine of the `EmojiRain` React component. The engine lets emoji balls fall, bounce off the walls and the floor, and collide with each other in a container. A click adds a ball. A 300 ms "rain" timer adds small balls above the top edge until more than 45 balls are on screen.

The model has six modules:

- `Physics` — a ball's kinematic state as a value (`Body`). `Step` is one call of `Ball.update`, stage by stage. `Overlapping` is `checkCollision` and `Resolve` is `resolveCollision`. The lemmas say what these promise: clamping bounds, the floor rest rule, conservation of momentum and of the pair's midpoint, the exchange of normal velocities for equal masses, and exact contact after separation.
- `Pass` — one animation frame over the list of balls as pure functions. `StepAll` is the update phase. `PairStep`, `Row`, `Rows` and `CollisionPass` are the nested `i < j` collision loops. The lemmas say that the collision phase conserves the population's momentum and the sum of its centres, and that a population without overlaps passes through unchanged.
- `Spawn` — how `createBall` and the `Ball` constructor turn `Math.random()` draws into a radius, a centre and a velocity.
- `Rain` — the rain controller as a state machine over the population, `rainEnabled` and the registered interval. It includes the one-way valve of the 45-ball cap.
- `EmojiRain` — the imperative part:
  - class `Ball`, whose methods update `x`, `y`, `vx` and `vy` step by step as the source does;
  - class `Engine`, which holds the refs of the component (`ballsRef`, `nextIdRef`, `rainIntervalRef`, `animationIdRef`) and the `rainEnabled` state, with one method per callback.

  Each method is proved against the pure functions: `Ball.Update` against `Step`, `Ball.ResolveCollision` against `Resolve`, `Engine.Animate` against `Frame`, and the rain methods against `Rain.Next` through `RainView()`.
- `Wrappers` — the `Option` type.

Host services are parameters:

- the container's `clientWidth`/`clientHeight`, or `None` when the container element is absent;
- the `Math.random()` draws of one `createBall`, each in `[0, 1)`;
- `Math.sqrt`, as a function `sqrt: real -> real`.

`requestAnimationFrame` and `setInterval` become two methods the host calls when a registered callback is due:
- `OnAnimationFrame` does nothing unless a frame is registered;
- `OnRainInterval` does nothing unless the interval is registered.

Numbers are Dafny reals. Where a property needs the true distance, the lemma requires that the supplied distance `d` satisfies `d >= 0` and `d*d == dx*dx + dy*dy` (`IsDistance`, or `IsSqrt` for the whole function).

## Model

| member | source | states |
|---|---|---|
| Physics.Step | src/app/_component/EmojiRain.tsx:138-188 | One update keeps radius and mass. The centre ends at or inside the right and bottom limits always, and at or inside the left and top limits when the container is at least one diameter across. |
| Physics.Damping | src/app/_component/EmojiRain.tsx:181-187 | Damping moves nothing and never speeds a ball up. Within three radii of the floor it scales vx by 0.95 and vy by 0.98; elsewhere it scales both by 0.999. |
| Physics.FloorHitSettles | src/app/_component/EmojiRain.tsx:167-183 | A floor hit ends one radius above the floor, which is inside the near-floor band. It keeps at most 0.98·0.3 of the vertical and 0.95·0.7 of the horizontal speed. The rest rule fires exactly when the result has vy = 0 and vx scaled by 0.7·0.9·0.95. |
| Physics.OverlappingSymmetric | src/app/_component/EmojiRain.tsx:211-216 | checkCollision gives the same answer for (a, b) and (b, a). |
| Physics.Overlapping | src/app/_component/EmojiRain.tsx:211-216 | For balls of positive size and the true centre distance d, the squared test holds exactly when d < r1 + r2, which is what checkCollision returns. |
| Physics.Resolve | src/app/_component/EmojiRain.tsx:218-234 | Radii and masses are kept. Coincident centres or a separating pair (dvn > 0) leave both balls exactly as they were. |
| Physics.ResolveConserves | src/app/_component/EmojiRain.tsx:235-250 | Total mass-weighted momentum is conserved in x and in y, and so is the sum of the two centres (the midpoint of the pair). |
| Physics.ResolveKeepsTangentialVelocity | src/app/_component/EmojiRain.tsx:225-241 | Each ball's velocity component across the collision normal is unchanged. |
| Physics.ResolveEqualMassesSwapNormalVelocity | src/app/_component/EmojiRain.tsx:225-241 | For equal masses and an engaged pair, the two velocity components along the normal are exchanged. |
| Physics.ResolveSeparatesToContact | src/app/_component/EmojiRain.tsx:243-250 | After an engaged resolution, the centres are exactly r1 + r2 apart along the original normal, so the pair no longer overlaps. |
| Physics.HeadOnExchange | src/app/_component/EmojiRain.tsx:218-250 | Concrete head-on case: equal balls moving at +5 and -5 swap velocities and end touching. |
| Spawn.SpawnRadius | src/app/_component/EmojiRain.tsx:270 | A rain radius lies in [15, 40) and a manual radius in [20, 50). |
| Spawn.InsideCoordinate | src/app/_component/EmojiRain.tsx:278-282 | A random coordinate lies in [radius, extent - radius] when the extent is at least one diameter, and below extent - radius when it is wider. |
| Spawn.SpawnPosition | src/app/_component/EmojiRain.tsx:274-283 | A rain ball starts at y = -radius at a random column inside the width. A manual ball with both coordinates starts exactly there; otherwise it starts at a random point inside the container. |
| Spawn.InitialVelocity | src/app/_component/EmojiRain.tsx:108-114 | A rain ball gets vx in [-0.5, 0.5) and vy in [1, 2.5). A manual ball gets both components in [-3, 3). |
| Rain.Capped | src/app/_component/EmojiRain.tsx:400-404 | Above 45 balls the rain and its interval are off; otherwise nothing changes. The population is never changed. |
| Rain.NextConsistent | src/app/_component/EmojiRain.tsx:300-316 | Every event keeps "interval registered implies rainEnabled". |
| Rain.StartStopShape | src/app/_component/EmojiRain.tsx:300-316 | startRain is a no-op while raining and otherwise turns rain and its interval on. stopRain always ends with both off, and a second stopRain changes nothing. |
| Rain.SpawnOverCapStops | src/app/_component/EmojiRain.tsx:400-404 | A spawn that takes the population over 45 leaves the rain and interval off. |
| Rain.NoRainWithoutStart | src/app/_component/EmojiRain.tsx:296-316 | With no interval registered, events without a startRain spawn no rain ball and never register the interval. |
| Rain.PopulationGrows | src/app/_component/EmojiRain.tsx:284-286 | Without a teardown the population never shrinks. |
| Rain.CapIsOneWay | src/app/_component/EmojiRain.tsx:400-404 | After the cap trips, no rain ball is spawned until a startRain, and the population stays above 45 until a teardown. |
| Pass.StepAll | src/app/_component/EmojiRain.tsx:349-351 | Every ball is stepped against the same container: radii and masses are kept and every centre meets the clamping bounds of Step. |
| Pass.PairStep | src/app/_component/EmojiRain.tsx:356-358 | Only the pair's two balls can change. A pair that does not overlap leaves the list unchanged. |
| Pass.CollisionPassConserves | src/app/_component/EmojiRain.tsx:354-360 | The whole collision phase conserves total momentum in x and y and the sums of the centres. |
| Pass.CollisionPassNoOverlap | src/app/_component/EmojiRain.tsx:354-360 | A population with no overlapping pair leaves the collision phase unchanged. |
| Pass.PairStepTouches | src/app/_component/EmojiRain.tsx:356-357 | With the true square root, an overlapping approaching pair ends its step exactly touching. |
| EmojiRain.Ball.constructor | src/app/_component/EmojiRain.tsx:91-118 | Position, radius and kind are as given; mass equals radius; the velocity is the drawn InitialVelocity; the element is attached. |
| EmojiRain.Ball.Update | src/app/_component/EmojiRain.tsx:138-194 | The new kinematic state is Step of the old one, with the clamping bounds. |
| EmojiRain.Ball.Fall | src/app/_component/EmojiRain.tsx:144-146 | Gravity stage, equal to ApplyGravity. |
| EmojiRain.Ball.Move | src/app/_component/EmojiRain.tsx:148-149 | Integration stage, equal to Advance. |
| EmojiRain.Ball.BounceOffWalls | src/app/_component/EmojiRain.tsx:152-166 | Left, right and top walls in order. |
| EmojiRain.Ball.BounceOffFloor | src/app/_component/EmojiRain.tsx:167-178 | Floor bounce and the rest rule, equal to FloorBounce. |
| EmojiRain.Ball.Damp | src/app/_component/EmojiRain.tsx:181-187 | Damping stage, equal to Damping. |
| EmojiRain.Ball.CheckCollision | src/app/_component/EmojiRain.tsx:211-216 | Symmetric in the two balls, and for the true centre distance d it holds exactly when d < r1 + r2. |
| EmojiRain.Ball.ResolveCollision | src/app/_component/EmojiRain.tsx:218-254 | The two balls' new states are the pair Resolve computes from their old states, so every Resolve lemma applies to the method. |
| EmojiRain.Ball.ApplyImpulse | src/app/_component/EmojiRain.tsx:238-241 | Equal and opposite impulses, each weighted by the other ball's mass. |
| EmojiRain.Ball.Separate | src/app/_component/EmojiRain.tsx:244-250 | The two centres move by opposite offsets. |
| EmojiRain.Ball.Destroy | src/app/_component/EmojiRain.tsx:256-260 | The element is detached; a second call changes nothing. |
| EmojiRain.Engine.constructor | src/app/_component/EmojiRain.tsx:4-12 | No balls, the id counter at 0, rain off, no interval and no frame registered; Valid holds. |
| EmojiRain.Engine.DistinctBalls | src/app/_component/EmojiRain.tsx:99 | Ids increase along the list, so two positions never hold the same ball. |
| EmojiRain.Engine.CreateBall | src/app/_component/EmojiRain.tsx:263-290 | No container means no change. Otherwise exactly one fresh ball is appended after the unchanged list. It has the current id, the counter grows by one, and its radius, centre and velocity are those of Spawn. |
| EmojiRain.Engine.StartRain | src/app/_component/EmojiRain.tsx:300-307 | Refines Rain.Next for startRain; the balls are untouched. |
| EmojiRain.Engine.StopRain | src/app/_component/EmojiRain.tsx:309-316 | Rain and interval end off; refines Rain.Next for stopRain. |
| EmojiRain.Engine.EnforceCap | src/app/_component/EmojiRain.tsx:400-404 | Refines Rain.Capped. |
| EmojiRain.Engine.Click | src/app/_component/EmojiRain.tsx:329-340 | Refines Rain.Next for a click. With a container, one manual ball is appended exactly at the click point, with a radius in [20, 50), the counter's id, the burst velocity and an attached element; the counter grows by one and earlier balls are untouched. |
| EmojiRain.Engine.OnRainInterval | src/app/_component/EmojiRain.tsx:296-306 | Refines Rain.Next for a timer firing. A registered interval with a container appends one rain ball at y = -radius, inside the width, with a radius in [15, 40), the counter's id, the drift velocity and an attached element; x < width - radius as well when the width exceeds one diameter. The counter grows by one and earlier balls are untouched. |
| EmojiRain.Engine.UpdateAll | src/app/_component/EmojiRain.tsx:349-351 | The same list; the balls' states become StepAll of the old states and every `attached` flag is kept. |
| EmojiRain.Engine.CollideAll | src/app/_component/EmojiRain.tsx:354-360 | The same list; the balls' states become CollisionPass of the old states and every `attached` flag is kept. |
| EmojiRain.Engine.CollideRow | src/app/_component/EmojiRain.tsx:355-359 | The inner loop for one i equals Row; the list and the `attached` flags are kept. |
| EmojiRain.Engine.UpdateNext | src/app/_component/EmojiRain.tsx:349-351 | One forEach step: ball k becomes Step of its old state, every other ball keeps its state, and the `attached` flags are kept. |
| EmojiRain.Engine.CollideNextRow | src/app/_component/EmojiRain.tsx:354-360 | One pass of the outer loop takes Rows(start, i) to Rows(start, i + 1); the list and the `attached` flags are kept. |
| EmojiRain.Engine.CollideColumn | src/app/_component/EmojiRain.tsx:355-359 | One pass of the inner loop takes Row(start, i, j) to Row(start, i, j + 1); the list and the `attached` flags are kept. |
| EmojiRain.Engine.CollidePair | src/app/_component/EmojiRain.tsx:356-358 | One test-and-resolve equals PairStep; the list and the `attached` flags are kept. |
| EmojiRain.Engine.Simulate | src/app/_component/EmojiRain.tsx:345-360 | The update phase and then the collision phase equal Frame; the list and the `attached` flags are kept. |
| EmojiRain.Engine.Animate | src/app/_component/EmojiRain.tsx:342-363 | No container: the balls stay put and no frame is registered. Otherwise the states become Frame of the old ones and a frame is registered. The list and the `attached` flags are kept either way. |
| EmojiRain.Engine.OnAnimationFrame | src/app/_component/EmojiRain.tsx:362 | An unregistered frame is never delivered, so nothing changes. A registered one is animate: Frame, and a new registration when the container exists; otherwise the loop ends with the balls unchanged. The list and the `attached` flags are always kept. |
| EmojiRain.Engine.StartAnimation | src/app/_component/EmojiRain.tsx:370-375 | Cancels any registered frame, then animates, as startAnimation and the effect at lines 393-398 do; the list and the `attached` flags are kept. |
| EmojiRain.Engine.Teardown | src/app/_component/EmojiRain.tsx:379-389 | No frame, no interval and no balls are left, and every old ball is detached. rainEnabled and the id counter are kept. Refines Rain.Next for a teardown. |
| EmojiRain.Engine.Mount | src/app/_component/EmojiRain.tsx:365-409 | The mount effects in order: createBall, two animates, the cap, then startRain. They leave one fresh manual ball with the first id, a radius in [20, 50) and an attached element, with rain and its interval on. |

## Left out

- Rendering: the DOM element is reduced to an `attached` flag. The CSS of `createElement`, the style writes of `update`, and `showCollisionEffect` with its 200 ms `setTimeout` are display only.
- The colour and emoji palettes and their two `Math.random()` draws are cosmetic and are not modelled.
- React: state batching, re-renders, `useCallback` dependencies and the stale `rainEnabled` closure are not modelled. `rainEnabled` is read as its latest value.
- The ball-count effect is modelled as a step run right after each spawn (`EnforceCap`), not after the re-render that follows `setBallCount`.
- The click translation through `getBoundingClientRect` is not modelled: `Click` takes coordinates already relative to the container.
- IEEE-754 rounding and `Math.sqrt`: arithmetic is exact over the reals, and `sqrt` is a parameter. Lemmas that need the true distance require `IsDistance` or `IsSqrt`.
- `Ball` ids: the source's constructor reads and increments `nextIdRef` itself. The model's constructor takes the id, and `CreateBall` increments the counter, with the same effect.
- EmojiRain.Ball.ResolveCollision: it takes the distance as an argument instead of computing `Math.sqrt` itself. It requires `other == this ==> distance == 0` — the value `Math.sqrt(0)` would give for a ball against itself.
- EmojiRain.Engine.Mount: it does not state where the first ball lands after the two frames; that is `Frame` applied twice to a spawn.
- Spawn.InsideCoordinate: when the extent is exactly one diameter, the drawn coordinate is `extent - radius`. The half-open bound therefore holds only for wider extents, which is what the contract states.
- The wall bounds of `Step` are not claimed after a whole frame: the later collision separation can push a ball out again.
- The push-notification client and API routes, the service worker, `storage.ts` and the page markup are network, browser and storage calls with no engine logic.
