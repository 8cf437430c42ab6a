# Beam mini-game and generative-art bookkeeping, in Dafny

This project models two browser sketches of the repository and proves what
they promise.

**The beam mini-game (`game1_kame/sketch.js`).** The player holds the mouse
to charge a beam and releases it to fire. Particles fly at three walls and a
treasure. The game is won when every wall is down, the beam is over and no
particle is left. It is lost as soon as the treasure is destroyed.

- `BeamRules` (`beam_rules.dfy`) is the game on values. A `GameView` holds
  every global and every target's fields. Each event handler and each phase
  of one frame of `runGame` is a function from one view to the next.
  `Inv` is the invariant of every reachable state, and the lemmas state what
  the game promises.
- `BeamGame` (`beam_game.dfy`) is the game as the sketch runs it. `Target`
  objects have their `hp` and `hitEffect` updated in place. One `Game`
  object holds the globals. Its methods are the event handlers and
  `runGame`, including the backward particle loop that splices dead
  particles out and the wall loop with its `break`. Every method is proved to
  move the game exactly as the matching `BeamRules` function does. The
  public methods also keep `Valid()`, which is `Inv` plus the object layout.

**The generative-art renderer (`artp5/sketch.js`).** Only the parts with
behaviour worth stating are modelled.

- `P5Random` (`p5_random.dfy`): `random`, `int(random(lo, hi))` and
  `floor(random() * n)`, as functions of a draw `u` in [0, 1). Each is
  proved to land in its range and to reach every value in it.
- `ArtLayers` (`art_layers.dfy`): the coin-flip selection of the shown
  layers with its fallback, the in-place Fisher–Yates `shuffleArray`, and
  the two together as `generateArt` runs them.
- `FlowField` (`flow_field.dfy`):
  - the grid sizing and the `x + y * cols` indexing;
  - the row-by-row fill of `updateFlowField`;
  - the particles (`follow` with its bounds guard, `update`);
  - the tracer of `drawFlowFieldLines`.
- `Subdivision` (`subdivision.dfy`): `subdivide` as a recursive function
  that returns the split lines and leaf cells it draws. The lemmas prove
  that the leaves tile the canvas.
- `PostFilter` (`post_filter.dfy`): the choice of post effect and of filter,
  with the filters' parameter ranges.

Randomness, noise and `Vector.limit` are parameters ("oracles"):
- game: the particles created in a frame (`emitted`) and the draws of every
  wall bounce (`draws`);
- art: the draws `u`, a `sample` function from grid cell to vector, and a
  `limit` function obeying `IsLimit`.

The statements hold for every value of these parameters.

Integer draws are truncated reals:
- The particle count is `int(random(200, 1500))`, so it lies in 200..1499
  (`FlowField.ParticleCount`).
- Blur radii lie in 1..5 and posterize levels in 2..7: the integer parts of
  [1, 6) and [2, 8).

In the code, `checkGameState` runs after the whole particle loop, so the
clear test sees the walls and the particle list as the complete loop left
them (`BeamRules.FrameOutcome`). A particle that hits a wall is kept by the
`continue`, so the frame in which the last wall falls still has that
particle in flight and never clears the game; the clear comes on a later
frame, once every particle is gone (`BeamRules.WallHitFrameNeverClears`).

Two behaviours of the code are stated as they are:
- The `follow` lookup wraps at the right edge: a particle at `x == width`
  reads the first cell of the next row (`FlowField.FollowWrapsAtRightEdge`).
- A wall bounce pushes the particle just left of the wall. So a particle
  with positive size is never inside the wall it bounced off
  (`BeamRules.Deflect`).

## Model

| member | source | states |
|---|---|---|
| BeamRules.TakeDamage | game1_kame/sketch.js:315-320 | hp after damage is never negative; it is `hp - damage` when that is not negative, 0 otherwise, and never more than before |
| BeamRules.Deflect | game1_kame/sketch.js:335-339 | a bounced particle keeps size, life, damage and y, and one with positive size ends outside the wall's box |
| BeamRules.Collide | game1_kame/sketch.js:322-346 | hit iff the target stands and the particle is strictly inside its box; no hit changes nothing; a hit applies the clamped damage and a 10-frame flash, bounces off a wall and sets life 0 at the treasure |
| BeamRules.Display | game1_kame/sketch.js:362-407 | a standing target spends one frame of its hit flash; nothing else of the target changes |
| BeamRules.Advance | game1_kame/sketch.js:284-288 | one frame of motion: life down by 1, position moved by the velocity, everything else kept |
| BeamRules.IsDead | game1_kame/sketch.js:298-300 | `isDead`: out of life or outside the 800 x 600 canvas; the removal test of `ProcessOneShape` |
| BeamRules.Spawned | game1_kame/sketch.js:254-282 | the fields a new beam particle gets: at the emitter, size in [2, 4), life in [120, 180), damage 10; assumed of `emitted` by `FrameKeepsInv` |
| BeamRules.PassWalls | game1_kame/sketch.js:105-112 | no wall is hit iff no standing wall holds the particle; otherwise the FIRST such wall takes the hit and it is the only wall changed |
| BeamRules.ProcessOne | game1_kame/sketch.js:101-123 | one iteration: move, the wall loop, the treasure test when no wall was hit, the splice of a dead particle; it leaves the wall count and at most one particle; its meaning is stated by `ProcessOneShape` and `ProcessOneKeepsTargets` |
| BeamRules.SweepAll | game1_kame/sketch.js:100-124 | the backward loop, last particle first, each against the targets as the later ones left them; keeps the wall count and never adds particles; `SweepKeepsOrder` and `SweepKeepsTargets` state the rest |
| BeamRules.ProcessOneShape | game1_kame/sketch.js:100-124 | per particle per frame at most one wall changes; a wall hit skips the treasure and the removal; a particle is removed iff it hit no wall and is dead after the treasure test |
| BeamRules.SweepKeepsOrder | game1_kame/sketch.js:100-124 | the survivors of the backward loop come from strictly increasing positions of the old list and keep their origin's size and damage |
| BeamRules.SweepKeepsTargets | game1_kame/sketch.js:100-124 | the particle loop never heals a target, never takes hp below 0, takes at most 10 hp per particle and keeps every target's kind, box and initial hp |
| BeamRules.ProcessOneKeepsTargets | game1_kame/sketch.js:101-123 | the same bounds for one particle |
| BeamRules.CheckGameState | game1_kame/sketch.js:156-174 | treasure hp <= 0 always yields gameOver; with a standing treasure, gameClear is entered iff all walls are down, no beam is firing and no particle is left; otherwise the state is unchanged; nothing but the state changes |
| BeamRules.ChargePhase | game1_kame/sketch.js:62-67 | the charge phase of a frame; its effect over k frames is `ChargeFrom` |
| BeamRules.FirePhase | game1_kame/sketch.js:70-91 | the fire phase of a frame: spend one frame and emit, or return to playing; its effect is `FireCountdown` through `FirePhaseCounts` |
| BeamRules.DisplayPhase | game1_kame/sketch.js:94-97 | every wall, then the treasure, spends a frame of hit flash as `Display` states |
| BeamRules.ParticlePhase | game1_kame/sketch.js:100-124 | the effect of the particle loop on the game: the walls, treasure and particles `SweepAll` leaves |
| BeamRules.RunGame | game1_kame/sketch.js:57-131 | the phases in the order `runGame` runs them, ending with `checkGameState`; its outcome is stated by `FrameOutcome` |
| BeamRules.Frame | game1_kame/sketch.js:37-54 | `draw`: `runGame` in playing, charging and firing, nothing on the end screens; it keeps `Inv` (`FrameKeepsInv`) |
| BeamRules.Restart | game1_kame/sketch.js:201-208 | every wall and the treasure get back their initial hp, particles are emptied, the state is playing, the counters are untouched |
| BeamRules.Press | game1_kame/sketch.js:134-142 | playing becomes charging with charge 0; gameClear and gameOver restart; charging and firing are unchanged |
| BeamRules.Release | game1_kame/sketch.js:145-153 | charging becomes firing with both fire durations set to the old charge and the charge reset to 0; other states are unchanged |
| BeamRules.Setup | game1_kame/sketch.js:17-35 | the game starts playing, with three walls and no particle |
| BeamRules.Progress | game1_kame/sketch.js:76 | with a positive total duration the beam's progress lies in [0, 1]: 0 at the start, 1 at the end |
| BeamRules.SetupInv | game1_kame/sketch.js:17-35 | the initial game satisfies the invariant |
| BeamRules.CountersStayInRange | game1_kame/sketch.js:62-91 | after the charge and fire phases, 0 <= chargeTime <= 800 and 0 <= fireDuration <= initialFireDuration <= 800 |
| BeamRules.FrameKeepsInv | game1_kame/sketch.js:37-131 | every frame keeps the invariant: counters in range, hp in [0, initial hp], flash in [0, 10], gameOver iff treasure hp is 0, gameClear only with all walls down and no particle |
| BeamRules.PressKeepsInv | game1_kame/sketch.js:134-142 | a press keeps the invariant |
| BeamRules.ReleaseKeepsInv | game1_kame/sketch.js:145-153 | a release keeps the invariant |
| BeamRules.ChargeFromZero | game1_kame/sketch.js:62-67 | a press from playing followed by k charge phases gives a charge of min(3k, 800), all else as the press left it |
| BeamRules.ChargeFrom | game1_kame/sketch.js:62-67 | k charge phases from a charge c give min(c + 3k, 800) and change nothing else |
| BeamRules.FireCountdown | game1_kame/sketch.js:70-91 | a beam of duration d counts down by exactly 1 per frame for d frames, and the frame after that returns to playing |
| BeamRules.StoppedStaysStopped | game1_kame/sketch.js:88-90 | once back to playing, further fire phases change nothing |
| BeamRules.FirePhaseCounts | game1_kame/sketch.js:70-91 | the fire phase is one step of that countdown, and the division of line 76 only runs with a positive divisor |
| BeamRules.FrameOutcome | game1_kame/sketch.js:156-174 | after any frame, gameOver iff the treasure is destroyed; gameClear implies all walls down, no particle and a standing treasure; firing can only continue a firing beam; and when the particle loop leaves all walls down, no particle, no beam firing and a standing treasure, the frame ends in gameClear |
| BeamRules.WallHitKeepsParticle | game1_kame/sketch.js:105-113 | a particle loop that changes any wall leaves at least one particle, because a wall hit skips the splice |
| BeamRules.WallHitFrameNeverClears | game1_kame/sketch.js:100-172 | a frame whose particle loop changes a wall never ends in gameClear |
| BeamRules.RestartHeals | game1_kame/sketch.js:201-208 | a restart yields a valid playing game with every target at full hp and each target's kind, box and initial hp unchanged |
| BeamGame.Target.constructor | game1_kame/sketch.js:305-313 | a new target has hp equal to its initial hp and no flash |
| BeamGame.Target.TakeDamage | game1_kame/sketch.js:315-320 | the in-place update equals `BeamRules.TakeDamage` |
| BeamGame.Target.CheckCollision | game1_kame/sketch.js:322-346 | the hit flag, the particle and the target afterwards are those of `BeamRules.Collide` |
| BeamGame.Target.Display | game1_kame/sketch.js:362-407 | the flash countdown equals `BeamRules.Display` |
| BeamGame.Game.constructor | game1_kame/sketch.js:17-35 | `setup` builds a valid game equal to `BeamRules.Setup` |
| BeamGame.Game.MousePressed | game1_kame/sketch.js:134-142 | the handler moves the game as `BeamRules.Press` and keeps it valid |
| BeamGame.Game.MouseReleased | game1_kame/sketch.js:145-153 | the handler moves the game as `BeamRules.Release` and keeps it valid |
| BeamGame.Game.RestartGame | game1_kame/sketch.js:201-208 | the restart loop moves the game as `BeamRules.Restart` and keeps it valid |
| BeamGame.Game.Draw | game1_kame/sketch.js:37-54 | one frame moves the game as `BeamRules.Frame` and keeps it valid |
| BeamGame.Game.RunGame | game1_kame/sketch.js:57-131 | the phases run in the sketch's order, as `BeamRules.RunGame` |
| BeamGame.Game.ChargeStep | game1_kame/sketch.js:62-67 | the charge phase equals `BeamRules.ChargePhase` |
| BeamGame.Game.FireStep | game1_kame/sketch.js:70-91 | the fire phase equals `BeamRules.FirePhase` |
| BeamGame.Game.DisplayTargets | game1_kame/sketch.js:94-97 | displaying all targets equals `BeamRules.DisplayPhase` |
| BeamGame.Game.UpdateParticles | game1_kame/sketch.js:100-124 | the backward loop with in-place splicing equals the sweep `BeamRules.ParticlePhase` |
| BeamGame.Game.ProcessParticle | game1_kame/sketch.js:101-123 | one iteration updates walls and treasure as `BeamRules.ProcessOne` and replaces the particle by what is left of it |
| BeamGame.Game.HitWalls | game1_kame/sketch.js:105-112 | the wall loop with its `break` equals `BeamRules.PassWalls` |
| BeamGame.Game.CheckGameState | game1_kame/sketch.js:156-174 | the method, with its `every` loop, equals `BeamRules.CheckGameState` |
| P5Random.Between | artp5/sketch.js:286 | `random(lo, hi)` lies in [lo, hi) |
| P5Random.IntBetween | artp5/sketch.js:194-198 | `int(random(lo, hi))` for lo >= 0 is an integer in [lo, hi - 1] |
| P5Random.PickIndex | artp5/sketch.js:483 | `floor(random() * n)` is an index below n |
| P5Random.BetweenOnto | artp5/sketch.js:286 | every real of [lo, hi) is drawn by some draw |
| P5Random.IntBetweenOnto | artp5/sketch.js:194-198 | every integer of [lo, hi) is drawn by some draw |
| P5Random.PickIndexOnto | artp5/sketch.js:483 | every index below n is picked by some draw |
| ArtLayers.SelectActiveLayers | artp5/sketch.js:113-121 | 1 to 3 layers, in layer order and without duplicates; when any coin is heads, a layer is in the list iff its coin is heads; otherwise the list is the single forced layer |
| ArtLayers.ShuffleFrom | artp5/sketch.js:482-485 | the swaps of the loop from position i down to 1, position k swapped with the index its draw picks in [0, k]; `ShuffleFromPermutes` states that they only reorder |
| ArtLayers.Shuffled | artp5/sketch.js:481-487 | the Fisher–Yates pass over the whole list, which `ShuffleArray` is proved to perform in place and `ShuffledPermutes` proves a permutation |
| ArtLayers.SwapPermutes | artp5/sketch.js:484 | a swap keeps the length and the multiset of elements |
| ArtLayers.ShuffleFromPermutes | artp5/sketch.js:482-485 | the swaps from position i down to 1 keep the length and the multiset |
| ArtLayers.ShuffledPermutes | artp5/sketch.js:481-487 | the shuffle is a permutation: same length, same multiset |
| ArtLayers.PermutationKeepsDistinct | artp5/sketch.js:125 | a permutation of a duplicate-free list is duplicate-free |
| ArtLayers.ShuffleArray | artp5/sketch.js:481-487 | the array is shuffled in place, its contents become the Fisher–Yates result with the same multiset, and the same array is returned |
| ArtLayers.ComposeLayers | artp5/sketch.js:112-125 | the drawing order is a permutation of the selection: 1 to 3 layers, no duplicates |
| FlowField.Cols | artp5/sketch.js:48 | `cols = floor(width / 20)` |
| FlowField.Rows | artp5/sketch.js:49 | `rows = floor(height / 20)` |
| FlowField.DefaultCanvasGrid | artp5/sketch.js:48-50 | 800 x 600 gives 40 x 30 = 1200 cells |
| FlowField.GridIndexInRange | artp5/sketch.js:420-423 | `x + y * cols` lies in [0, cols * rows) for every cell |
| FlowField.GridIndexSplit | artp5/sketch.js:423 | the column and the row are recovered from the index |
| FlowField.GridIndexInjective | artp5/sketch.js:418-432 | distinct cells get distinct indices, so each index is written once |
| FlowField.GridIndexOnto | artp5/sketch.js:418-432 | every index of the array belongs to a cell, so the cells cover the array |
| FlowField.FilledDeterministic | artp5/sketch.js:418-432 | the filled field is determined by the samples |
| FlowField.CellIndex | artp5/sketch.js:446-448 | the field index of the cell under a position, `floor(x / 20) + floor(y / 20) * cols`; `FollowReadsOwnCell` and `FollowWrapsAtRightEdge` state which cell it reads |
| FlowField.FollowStep | artp5/sketch.js:445-453 | `follow` on values, which `FlowParticle.Follow` performs in place; `FollowGuard` and `FollowReadsOwnCell` state what it does |
| FlowField.UpdateStep | artp5/sketch.js:439-444 | `update` on values, which `FlowParticle.Update` performs in place; `UpdateClearsAcceleration` states what it does |
| FlowField.Trace | artp5/sketch.js:324-331 | the line one particle draws: its vertices and its final state after at most `steps` follow-and-update steps, stopping off the canvas; `TraceBounds` states its shape |
| FlowField.FlowGrid.constructor | artp5/sketch.js:48-50 | the field has `cols * rows` entries, none set yet |
| FlowField.FlowGrid.UpdateFlowField | artp5/sketch.js:418-432 | afterwards every entry i holds the sample of cell (i mod cols, i div cols) |
| FlowField.FlowGrid.FillRow | artp5/sketch.js:422-429 | one row more of the field is filled |
| FlowField.FollowGuard | artp5/sketch.js:445-453 | an index outside the array leaves the particle unchanged; only the acceleration ever changes, and only from a set entry in range |
| FlowField.FollowReadsOwnCell | artp5/sketch.js:445-453 | on a filled field, a particle inside the grid is pushed by the sample of its own cell |
| FlowField.FollowWrapsAtRightEdge | artp5/sketch.js:446-449 | a particle in column `cols` reads the first cell of the next row |
| FlowField.UpdateClearsAcceleration | artp5/sketch.js:439-444 | `update` leaves the acceleration at zero and the speed at most `maxspeed`, and moves by the new velocity |
| FlowField.TraceBounds | artp5/sketch.js:325-330 | a line has at most `steps` vertices, all on the canvas, starting at the particle; a shorter one ends off the canvas |
| FlowField.StepCount | artp5/sketch.js:317 | the step count lies in 50..599 |
| FlowField.ParticleCount | artp5/sketch.js:102 | the particle count lies in 200..1499 |
| FlowField.CreateParticles | artp5/sketch.js:102-106 | that many distinct new particles, each on the canvas, at rest, with top speed in [2, 6) |
| FlowField.FlowParticle.constructor | artp5/sketch.js:435-438 | a new particle is on the canvas, at rest, with top speed in [2, 6) |
| FlowField.FlowParticle.Follow | artp5/sketch.js:445-453 | the in-place update equals `FollowStep` |
| FlowField.FlowParticle.ApplyForce | artp5/sketch.js:454-456 | the force is added to the acceleration |
| FlowField.FlowParticle.Update | artp5/sketch.js:439-444 | the in-place update equals `UpdateStep` |
| FlowField.FlowParticle.TraceLine | artp5/sketch.js:324-331 | the vertices and the particle's final state are those of `Trace` |
| FlowField.DrawFlowFieldLines | artp5/sketch.js:315-333 | one line per particle, each the `Trace` of that particle with the same step count |
| Subdivision.Disc | artp5/sketch.js:298 | the circle of a circle leaf fits inside its cell |
| Subdivision.ScaleInside | artp5/sketch.js:303 | a split at ratio in [0.2, 0.8) of a side of at least 20 leaves both parts at least 4 long |
| Subdivision.HalvesTile | artp5/sketch.js:302-312 | the split is along x iff w > h; the children lie side by side inside the parent, their lengths add up to the parent's, each is shorter, and their areas add up |
| Subdivision.SplitCells | artp5/sketch.js:302-312 | a split cell's leaves are the first child's leaves, then the second's |
| Subdivision.Subdivide | artp5/sketch.js:285-313 | `subdivide` as the list of marks it draws: a leaf, or the cut followed by both halves; `SubdivideShape` and `SubdivideTiles` state its shape and tiling |
| Subdivision.SubdivideCanvas | artp5/sketch.js:279-283 | `drawRecursiveSubdivision`: the subdivision of the whole canvas; `CanvasTiles` states that its leaves tile the canvas |
| Subdivision.SubdivideShape | artp5/sketch.js:285-313 | a cell under 20 wide or high is always one leaf; one call draws one mark iff it is a leaf; otherwise it first draws the cut, vertical iff w > h |
| Subdivision.SubdivideTiles | artp5/sketch.js:285-313 | the leaves lie inside the cell, no two overlap, and their areas add up to the cell's: they tile it |
| Subdivision.CanvasTiles | artp5/sketch.js:279-313 | the leaves drawn on the canvas lie on it, do not overlap, and their areas add up to width x height |
| PostFilter.ApplyFilter | artp5/sketch.js:185-205 | a blur radius lies in 1..5, a posterize level in 2..7 |
| PostFilter.ApplyFilterOnto | artp5/sketch.js:190-204 | every filter with a parameter in those ranges is chosen by some draws |
| PostFilter.ChoosePostEffect | artp5/sketch.js:134-147 | one of the three post effects chosen by one draw; `ChoosePostEffectOnto` shows each is reachable |
| PostFilter.ChoosePostEffectOnto | artp5/sketch.js:134-147 | each of the three post effects can be chosen |

## Left out

- Game particles are values in a sequence, not objects. The sketch's
  particle objects are referenced only from the `particles` array, so no
  aliasing is lost.
- `generateParticles` (game1_kame/sketch.js:254-267) is the `emitted`
  argument. The only constraint on it is `Spawned`: created at the emitter,
  size in [2, 4), life in [120, 180), damage 10. Left out:
  - its count formula with `pow` and `map` (lines 76-85);
  - the angle, speed and spread trigonometry.
- BeamRules.Deflect: the bounce draws `random(0.2, 0.5)` and `random()` are
  left unconstrained. Everything proved holds for any values.
- The drawing of both sketches is left out:
  - game: `drawEmitter`, `drawGauge`, `displayHpBar`, colours, the wall
    shake, the clear and game-over screens;
  - art: the geometric and noise layers (`drawGeometricLayer` and
    `drawNoiseLayer` with their giant, swarm, balanced, stippling, halftone
    and scratches modes), the palette, background and blend-mode choice,
    the subdivision-or-flowfield coin of `drawFlowLineLayer`, colours,
    alpha and stroke weights.
- The overall sequence of `generateArt` is not one operation. Its modelled
  steps are separate members: flow field, particles, layer selection and
  shuffle, post effect.
- `applyChromaticAberration` and its shift offsets: image operations only.
- Perlin `noise`, `p5.Vector.fromAngle` and `setMag(1)` are the `sample`
  argument. The model does not state that the samples are unit vectors.
- FlowField.FlowParticle.Update: `vel.limit(maxspeed)` is an argument
  function. Only the speed bound proved from `IsLimit` is stated; its square
  root is not computed.
- `windowResized`, canvas creation, `saveCanvas`, the debug overlay and the
  key and touch handlers are host glue. `FlowGrid.constructor` covers the
  grid sizing they repeat.
- Floating point: positions, velocities and draws are exact reals, so
  rounding is not modelled. `int()` on the non-negative values used is
  modelled as the floor.
- slowedreverb/app.js is not part of this model. It consists of DOM wiring,
  the Web Audio node graph and floating-point audio maths.
