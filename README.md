# Falling words — a Dafny model

`script.js` drives a small birthday page. Words from a configured list fall
into a Matter.js scene. An initial burst comes first, then a drip feed on an
interval, until a spawn limit is reached. The number of live words is capped.

Once spawning stops, the script picks one word: the nearest of the bodies
touching an invisible sensor at the centre, or else the nearest word body. The
chosen word blinks until it is clicked. A click turns it red, cues the pop
sound and then triggers a blast. The blast:

- removes the ground and the walls;
- kicks every other word outward, with a distance falloff;
- applies a decaying outward wind for a short window;
- fades the chosen word out and removes it;
- starts the music and reveals the closing messages one by one.

The model keeps the decisions and the bookkeeping of the script and leaves the
physics engine, the DOM and the audio outside. Its modules:

| module | file | contents |
|---|---|---|
| `Optional` | optional.dfy | `Option`, modelling JavaScript's `null` and `??` |
| `Settings` | settings.dfy | the configuration record, the desktop values, the phone overrides |
| `Geometry` | geometry.dfy | integer points, squared distances, `IsHypot`: what `Math.hypot` denotes over the reals |
| `Spawning` | spawning.dfy | word cycling, the spawn limit, the burst, spawn placement, the live-word cap |
| `Selection` | selection.dfy | the `reduce` argmin used to choose the word |
| `Blast` | blast.dfy | the falloff, the kicks, the wind multiplier and the wind forces |
| `Choreography` | choreography.dfy | the pop cue's delay, the blink period, the messages' reveal schedule |
| `FallingWords` | scene.dfy | the class `Scene`, holding the script's mutable top-level state, and its handlers |

`Scene` keeps the following fields:

- `dom`: the `domById` map, as the sequence of its entries in insertion order.
- `bodies`: the word bodies of the world, which must stay `Ids(dom)`.
- the spawner counters, the phase flags, the walls and the sensor.
- `scheduled`: the log of the `setTimeout` callbacks the model tracks (selection, pop cue, blast, removal, piano, messages), each with its delay. The shockwave and particle removals, the per-line reveals and the resize debounce are not logged.

The invariant `Valid` ties these together. In particular, `scheduled` is
exactly determined by the phase flags, and so every callback kind is pending at
most once.

Randomness, clock readings, measured element sizes and body positions come from
the physics engine or the browser. They are parameters of the operations that
read them: `Draw`, `KickDraw`, `Observed`, `now`, `pos`, `touching`.

## Model

| member | source | states |
|---|---|---|
| Settings.WithMobileOverrides | script.js:44-66 | the phone overrides set the spawn limit and the cap to 120 and keep the word list, the burst, the red transition, the sound timings, the rotation range and the spawn geometry; a well-formed configuration stays well-formed |
| Geometry.SqDist | script.js:294 | the squared distance to the centre is zero exactly when the point is the centre |
| Spawning.LimitStaysReached | script.js:267 | `canSpawnMore`: without a limit spawning is always allowed; with one it is allowed exactly below the limit, and once refused it stays refused for every larger count |
| Spawning.WordAt | script.js:260 | the text `nextWord` hands out is always one of the configured words |
| Spawning.Texts | script.js:258-263 | the texts of n consecutive spawns are n words |
| Spawning.CycleInOrder | script.js:259-263 | every full round of `nextWord` returns the configured words in their configured order |
| Spawning.CyclePeriodic | script.js:260 | the word handed out repeats with a period of the word-list length |
| Spawning.BurstSpawns | script.js:353-356 | the burst spawns at most `initialBurst` words, never passes the limit, and stops early only when the limit is reached |
| Spawning.RawSpawnXNearCentre | script.js:189-190 | before clamping, a word lands within half the spread band (`W * spawnHorizontalSpread`) on either side of the centre |
| Spawning.ClampSpawnX | script.js:195-200 | when the admissible interval is non-empty the spawn x lies in [w/2+4, W-w/2-4], is left alone if already inside and is moved to the nearer bound if outside; otherwise it is not clamped |
| Spawning.SpawnY | script.js:191 | a word starts between `spawnHeightMin` and `spawnHeightMin + spawnHeightRand` pixels above the top edge |
| Spawning.SpawnAngleDeg | script.js:192 | the spawn angle lies within the configured rotation range |
| Spawning.Place | script.js:184-200 | a body is at least the configured minimum size and at least the measured size (one of the two), starts inside the visible width when that is possible, above the top edge, and inside the rotation range |
| Spawning.Evicted | script.js:373-384 | after the cap pass at most `maxWords` entries remain (all of them when under the cap), and they are the newest ones, in order |
| Selection.Nearest | script.js:293-304 | the `reduce` picks nothing only from an empty list, and otherwise the first body at minimal squared distance: strictly nearer than every earlier one and no farther than every later one |
| Selection.FirstNearestUnique | script.js:295 | with the strict `<`, the first nearest body is the only answer the `reduce` can give |
| Selection.Choose | script.js:290-305 | a touching body, when there is one, is chosen among the touching bodies; otherwise the nearest word body is chosen; nothing is chosen only when there are no word bodies at all |
| Selection.SoleToucherChosen | script.js:291-297 | a single touching body is chosen whatever the other words are |
| Blast.Falloff | script.js:459 | the falloff factor is positive and at most 1/0.6 |
| Blast.FalloffLaw | script.js:459 | the falloff is 1/0.6 up to 96 px, 160/d beyond, and 1 at 160 px |
| Blast.FalloffAntitone | script.js:459 | a nearer body never gets a smaller falloff |
| Blast.KickSpeedAt160 | script.js:459-461 | at 160 px the kick speed lies in [0.85, 1.25) times the strength |
| Blast.KickSpeedPositive | script.js:459-461 | `KickSpeed`: with a positive strength every kick speed is positive |
| Blast.KickSpeedAntitone | script.js:458-461 | `KickSpeed`, "closer gets more speed": with the same draw a nearer body is kicked at least as fast |
| Blast.OutwardDirection | script.js:453-481 | `Outward`, the vector of both the kick (floor 8) and the wind (floor 20): it points away from the centre in each coordinate, and it is zero exactly for a body sitting on the centre |
| Blast.OthersMembers | script.js:449-450 | `Others`, the `b === chosenBody` skip: the bodies acted on are exactly the captured word bodies other than the chosen one |
| Blast.OthersCons | script.js:449-450 | `Others` keeps the first body in front unless it is the chosen one, so it is the same filter whichever end it is read from |
| Blast.KickSpinBounded | script.js:463 | `KickFor`: the kick belongs to its own body, and the angular velocity `(random - 0.5) * spin` stays within half the configured spin either way |
| Blast.KicksExtend | script.js:449-464 | `Kicks`: one more body in the `forEach` adds exactly its own kick at the end, or nothing if it is the chosen body |
| Blast.KicksCoverOthers | script.js:449-464 | `Kicks`: every kick is `KickFor` of its own body, every word body but the chosen one receives a kick, and the chosen one receives none |
| Blast.EveryOtherBodyKickedOutward | script.js:449-464 | each other word body receives a kick with its own id whose velocity has, on each axis, the sign of the body's offset from the blast centre (rightward exactly when right of it, leftward exactly when left of it, and likewise vertically), and is zero only at the centre |
| Blast.WindMultiplier | script.js:469-473 | the wind handler stops exactly at the deadline; before it the eased multiplier is positive and at most 1 inside the window |
| Blast.WindDecays | script.js:472-473 | the wind multiplier never grows as time passes |
| Blast.WindForcesExtend | script.js:474-482 | `WindForces`: one more captured body adds exactly its own force, or nothing if it is the chosen body |
| Blast.WindForcesOutward | script.js:474-482 | `WindForces`: every wind force acts on a captured body other than the chosen one and points away from the centre on each axis, and every captured body other than the chosen one receives a force |
| Choreography.PreDelay | script.js:333-334 | the pop cue fires after a non-negative delay no longer than the transition, `dur - lead` when the lead fits, at once when the lead covers the transition, and after the whole transition when the lead is not positive |
| Choreography.PreDelayAntitone | script.js:334 | a longer lead never delays the pop cue more |
| Choreography.BlinkPeriod | script.js:311-318 | the blink period is at least 150 ms, 400 ms when the transition is 0, and the transition itself when that is 150 ms or more |
| Choreography.Lines | script.js:534-536 | there is always at least one message line, and the configured lines are used when there are any |
| Choreography.RevealOffsets | script.js:571-587 | line i is revealed `i * stagger` after the first, the first at once |
| Choreography.MessageOffsets | script.js:534-538 | the messages' schedule as configured: one reveal offset per line of `Lines(postMessages)`, at least one, and line i at `i * (postMessageStaggerMs ?? 600)` |
| Choreography.RevealInOrder | script.js:578 | the reveal offsets are an arithmetic progression, non-decreasing for a non-negative stagger |
| Choreography.RevealAfterDelay | script.js:510-511 | with a non-negative stagger no line appears before the message delay |
| FallingWords.BatchStep | script.js:354-356 | the words of a burst are the previous words of the burst followed by one new token |
| FallingWords.CountConcat | script.js:335-340 | counting callbacks of one kind is additive over logs |
| FallingWords.PhaseTasksDistinct | script.js:335-340 | `ClickTasks` (the two timers of the click) and `BlastTasks` (the removal, piano and message timers of script.js:491-511): each phase schedules each callback kind at most once: finalize once, pop cue and blast once each, removal, music and messages once each |
| FallingWords.WithoutKeyMembers | script.js:494-501 | `WithoutKey`, deleting a key from `domById`: deleting the chosen entries keeps exactly the entries with another id |
| FallingWords.WithoutKeyBounded | script.js:494-501 | deleting entries introduces no new id |
| FallingWords.WithoutAbsentKey | script.js:494-501 | deleting an absent id leaves the map unchanged |
| FallingWords.WithoutKeyDistinct | script.js:494-501 | deleting entries keeps the ids distinct |
| FallingWords.WithoutPaired | script.js:494-501 | removing the chosen body from the world (`Others` on the body ids) and its entry from the map (`WithoutKey`) keeps the two in step |
| FallingWords.DeleteOldest | script.js:376-383 | deleting the oldest key of a map with distinct keys removes exactly the first entry |
| FallingWords.EvictFirst | script.js:376-383 | deleting the oldest key and its body leaves the rest of the map and the world paired, with distinct ids |
| FallingWords.KickAll | script.js:449-464 | the impulse loop yields exactly the kicks of the specification `Kicks` |
| FallingWords.PushAll | script.js:474-482 | the wind loop yields exactly the forces of the specification `WindForces` |
| FallingWords.DeleteEntries | script.js:494-501 | the `forEach` deletion leaves exactly the entries whose id is not the chosen one |
| FallingWords.ThreeWordRun | script.js:352-386 | with a burst of one, a limit of three and a cap of three, the spawner ends with three live words and a single pending finalization |
| FallingWords.Scene.CallbacksOnce | script.js:345-350 | in every reachable state each callback kind is scheduled at most once |
| FallingWords.Scene.constructor | script.js:138-169 | the scene starts with the ground, the walls and the sensor, no words, no timers and nothing scheduled |
| FallingWords.Scene.NextWord | script.js:258-263 | `nextWord` returns the word at the current index, modulo the list length, and advances the index |
| FallingWords.Scene.AddWord | script.js:172-214 | a new body with a fresh id and its map entry are added together at the placement of `Place` |
| FallingWords.Scene.SpawnOne | script.js:266-273 | a word is spawned exactly when the limit allows it; a refused spawn changes nothing |
| FallingWords.Scene.FinalizeSelectionDelayed | script.js:345-350 | the finalization is scheduled 600 ms later, and only once |
| FallingWords.Scene.Burst | script.js:353-356 | the burst spawns `BurstSpawns` words, in order, with consecutive ids and consecutive words |
| FallingWords.Scene.StartSpawning | script.js:352-386 | after the burst the drip feed runs exactly when the limit allows more; otherwise, when there is a limit, the finalization is scheduled |
| FallingWords.Scene.Start | script.js:596-603 | pressing start while a spawn timer is set changes nothing; otherwise it does all that `startSpawning` does: the burst's words, the drip-feed timer exactly when more spawns are allowed, and otherwise the finalization when there is a limit |
| FallingWords.Scene.DeleteEntry | script.js:376-383 | one deletion of the cap pass drops the oldest entry and its body and keeps the map and the world paired |
| FallingWords.Scene.EvictOldest | script.js:373-384 | the cap pass leaves the newest `maxWords` entries and removes the corresponding bodies |
| FallingWords.Scene.IntervalTick | script.js:365-385 | a tick either spawns one word with the next id and applies the cap, or stops the timer, creates nothing and schedules the finalization |
| FallingWords.Scene.FinalizeSelection | script.js:277-343 | the chosen word is armed to blink with the `BlinkPeriod` of the transition, and one is armed exactly when there are word bodies |
| FallingWords.Scene.Click | script.js:322-341 | clicking a blinking word arms it for the blast and schedules the pop cue after `PreDelay` and the blast after the transition; any other click changes nothing |
| FallingWords.Scene.RemoveBoundaries | script.js:392-399 | afterwards the walls are gone; a second call changes nothing |
| FallingWords.Scene.Resize | script.js:234-255 | the walls are rebuilt only while they have not been removed; the sensor is always rebuilt |
| FallingWords.Scene.Impulse | script.js:448-464 | given each body's true distance to the centre (`IsHypot`), the recorded velocities are those of `Kicks` with the configured strength and spin or their defaults 30 and 2 |
| FallingWords.Scene.Detonate | script.js:402-411 | the first blast removes the boundaries, captures the centre and the word bodies, opens the wind window, and schedules the removal after 320 ms, the music and the messages |
| FallingWords.Scene.TriggerBlast | script.js:401-512 | only the first call has an effect: the boundaries are removed, every other word is kicked outward, the wind starts, and the removal, music and messages are scheduled once |
| FallingWords.Scene.WindTick | script.js:469-484 | past the deadline the wind handler deregisters and pushes nothing; before it, it pushes the captured bodies outward with the eased multiplier |
| FallingWords.Scene.RemoveChosen | script.js:487-503 | after the fade, the chosen word's entry and body are removed and all others are kept |

## Left out

- The Matter.js engine: gravity, collisions, sleeping and `Sleeping.set`, body shapes and chamfers, and the `Query.collides` sensor test. Positions and the set of touching bodies are inputs.
- The per-tick DOM sync (`afterUpdate`), CSS transitions, the glow, the red colour, the camera shake, the particles and the shockwave. They only touch the page's appearance.
- Audio: loading, playing, and the `popPlayed` fallback at blast time. The pop cue and the piano appear only as scheduled callbacks.
- Timers: callbacks are recorded in `scheduled` and are not executed by the model. `performance.now()` is the parameter `now`. The 150 ms resize debounce is not modelled.
- `Math.random()`: its values are the fields of `Draw` and `KickDraw`. Their range [0, 1) is a hypothesis of the lemmas that need it.
- Detection of a phone-sized viewport (`matchMedia`, touch points). `WithMobileOverrides` models the assignment only.
- IEEE double arithmetic. Real numbers stand in for doubles, and positions are integer pixels. The `Math.hypot` distance is an input; `Impulse`, `TriggerBlast` and `WindTick` require it to be the true distance (`IsHypot`) from the position to the blast centre. The degree-to-radian conversion is left out.
- The overrides and defaults for font sizes, fade durations, shake and particles. No modelled rule reads them.
- `showPostMessages` is modelled only by its line selection and reveal offsets. Building and styling the elements is not modelled.
- The `String(chosen.id)` fallback lookup in `domById`: the map's keys are the numeric body ids, as in the model, so the lookup by number always finds the entry and the fallback is never reached.
- FallingWords.Scene.WindTick: the `b.isStatic` skip is not modelled. No word body is static in the script, since the walls and the sensor are never captured as words.
- FallingWords.Scene.RemoveChosen: runs unconditionally. The script guards it with `chosenEl`, which a chosen word always has in the model.
- FallingWords.Scene.FinalizeSelection: the element check at script.js:306-308 is modelled as membership of the chosen id in `dom`.
- Blast.OutwardDirection: states the direction of the kick and wind vectors on each axis, not their length (the kick speed or the wind strength), which needs the square-root relation of `IsHypot` in nonlinear real arithmetic.
- The interval period `spawnEveryMs` and the scene height `viewH` are recorded, but no modelled rule reads them: the timer's period and the sensor's vertical position are outside the model.
