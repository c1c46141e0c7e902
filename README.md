# ShadowLight simulation core in Dafny

ShadowLight is a one-file two-character platformer ("fire and water"): a
fire character and a water character walk and jump through a tile level,
collect gems of their own colour, die in the other element's pool and win
when both stand in their own exit. This project models the simulation that
runs underneath the window and the drawing:

- **Level loading** (`level_grid.dfy`, module `LevelGrid`): the ragged rows of
  the level text are padded in place to a common width of at least 10 and
  walled with `#`; the parse loop then turns each cell into solid, water and
  lava tiles, inset gems, spawn points and optional red/blue exits.
- **One character's frame** (`physics.dfy`, module `Physics`): respawn if dead,
  horizontal velocity from the keys, an edge-triggered jump from the ground,
  gravity with a fall-speed cap, the X pass and the Y pass against the solids,
  the hazard check that ends the update with the character dead, and gem
  collection of the character's colour.
- **The session** (`session.dfy`, module `LevelSession`): a `Session` class
  holding the parsed level, the two characters, the shared gem list and the
  completion flag with its timer; its constructor loads the level and places
  the characters (with fixed fallback spawns), and its methods are the
  restart, the per-character update, the exit check and the whole frame.
- **Geometry** (`geometry.dfy`, module `Geometry`): the world constants,
  rectangles and the strict overlap test used for every collision.

Positions, velocities and frame times are reals. Key state and the frame
time are parameters of the frame. Each loop of the source that walks a
list (the solid passes, the hazard scan, the gem loop, the parse loop, the
normalisation loop, the restart's gem reset) is a method with loop
invariants, proved equal to a specification function; the properties are
proved about those functions.

## Model

| member | source | states |
|---|---|---|
| `Geometry.FirstOverlap` | ShadowLight.cpp:212-213 | the index of the first solid in list order the body overlaps, or the list length when there is none; no earlier solid overlaps |
| `Geometry.FirstOverlapFindsAny` | ShadowLight.cpp:212-213 | a first overlapping solid exists exactly when the body overlaps some solid |
| `LevelGrid.ClassifySound` | ShadowLight.cpp:42-53 | a character is classified as a tile kind only when it is that kind's code; any other character is empty |
| `LevelGrid.ClassifyCode` | ShadowLight.cpp:42-53 | every tile code is classified back to its own kind |
| `LevelGrid.LongestRow` | ShadowLight.cpp:73-74 | no row is longer than the result, and some row has exactly that length when there are rows |
| `LevelGrid.Width` | ShadowLight.cpp:72-75 | the level width is at least 10, no row is longer, and it is 10 or the length of some row |
| `LevelGrid.MaxCols` | ShadowLight.cpp:73-75 | the width loop computes the longest row length raised to at least 10 |
| `LevelGrid.Normalize` | ShadowLight.cpp:78-86 | the in-place pass returns the width and leaves exactly the normalised level in the array |
| `LevelGrid.NormalizedShape` | ShadowLight.cpp:78-86 | after normalisation every row has the width, every row starts and ends with `#`, and the first and last rows are all `#` |
| `LevelGrid.NormalizedInterior` | ShadowLight.cpp:79 | an interior cell keeps its raw character, and a cell past the end of a short row is `.` |
| `LevelGrid.TileRects` | ShadowLight.cpp:117-119 | one tile rectangle `{32c, 32r, 32, 32}` per marked cell, in scan order |
| `LevelGrid.GemsAt` | ShadowLight.cpp:130-136 | one gem per gem cell, inset 6 on each side, red exactly for `r`, not collected |
| `LevelGrid.ScanCell` | ShadowLight.cpp:116-149 | one cell of the parse appends to the list of its kind, sets the spawn or exit of its kind, and leaves everything else unchanged; unknown characters change nothing |
| `LevelGrid.GatheredStep` | ShadowLight.cpp:115-150 | absorbing one cell advances the parse state by exactly that cell |
| `LevelGrid.GatheredRow` | ShadowLight.cpp:114-151 | the end of one row is the start of the next |
| `LevelGrid.GatheredAll` | ShadowLight.cpp:114-151 | the state after the last row is the parsed level |
| `LevelGrid.ParseLevel` | ShadowLight.cpp:114-151 | the nested parse loop over a rectangular grid yields exactly the parsed level |
| `LevelGrid.RowMarksCount` | ShadowLight.cpp:115-116 | a row scan lists each cell of the wanted kinds once and no other cell |
| `LevelGrid.GridMarksCount` | ShadowLight.cpp:114-116 | a scan of the first rows lists each cell of the wanted kinds in those rows once and no other cell |
| `LevelGrid.MarksCount` | ShadowLight.cpp:114-116 | the whole scan lists each cell of the wanted kinds exactly once |
| `LevelGrid.MarksSound` | ShadowLight.cpp:114-116 | every listed cell holds a wanted code |
| `LevelGrid.MarksPresent` | ShadowLight.cpp:114-116 | the scan is non-empty exactly when some cell holds a wanted code |
| `LevelGrid.TileRectsCount` | ShadowLight.cpp:117-119 | a cell's tile rectangle occurs as often as the cell was listed |
| `LevelGrid.GemAtInjective` | ShadowLight.cpp:131-135 | two cells give the same gem only when they are the same cell |
| `LevelGrid.GemsAtCount` | ShadowLight.cpp:130-136 | a cell's gem occurs as often as the cell was listed |
| `LevelGrid.ParsedTilesExact` | ShadowLight.cpp:121-137 | each `#`, `~`, `^` cell gives exactly one solid, water or lava tile at its place, each `r`/`b` cell exactly one gem, and no other cell gives one |
| `LevelGrid.ParsedTilesSound` | ShadowLight.cpp:121-129 | every solid, water tile and lava tile is the tile of a cell with that code |
| `LevelGrid.ParsedGemsSound` | ShadowLight.cpp:130-137 | every gem is inset in an `r` or `b` cell, is red exactly for `r`, and starts uncollected |
| `LevelGrid.ParsedExits` | ShadowLight.cpp:144-149 | a red or blue exit is present exactly when some cell is `R` or `B`, and then it is the tile of such a cell |
| `LevelGrid.ParsedSpawns` | ShadowLight.cpp:138-143 | a spawn stays at (0, 0) exactly when there is no marker for it, and otherwise is a marker's tile centred for a 24 by 28 body |
| `LevelSession.SpawnChoice` | ShadowLight.cpp:157-165 | without a marker the fire character spawns at (36, 36) and the water character at (72, 36); with one, each spawns on a marker of its own |
| `Physics.ClampDt` | ShadowLight.cpp:173 | the integrated frame time is at most 0.05, and equals the frame time when that is no more |
| `Physics.Respawn` | ShadowLight.cpp:186-192 | a dead character comes back at its spawn, at rest, alive and not grounded; a living one is untouched |
| `Physics.HorizontalSpeed` | ShadowLight.cpp:195-198 | horizontal velocity is 0 exactly when both or neither key is held, -180 for left alone, +180 for right alone |
| `Physics.Steer` | ShadowLight.cpp:195-198 | steering replaces the horizontal velocity and nothing else |
| `Physics.Jump` | ShadowLight.cpp:201-204 | a jump sets vertical velocity -420 and clears grounded only when pressed while grounded; nothing else changes |
| `Physics.Fall` | ShadowLight.cpp:207-208 | gravity adds 1200 dt to the vertical velocity, capped at 1000; nothing else changes |
| `Physics.PushX` | ShadowLight.cpp:215-220 | moving right, the body's right edge ends 0.001 left of the solid; moving left, its left edge ends 0.001 right of it; either way it no longer overlaps that solid; at rest it stays |
| `Physics.PushY` | ShadowLight.cpp:231-239 | falling, the body's bottom ends 0.001 above the solid; rising, its top ends 0.001 below it; either way it no longer overlaps that solid; at rest it stays |
| `Physics.PassXResult` | ShadowLight.cpp:211-223 | without an overlap the X pass changes nothing; with one, the first overlapped solid pushes the body and horizontal velocity becomes 0 |
| `Physics.PassYResult` | ShadowLight.cpp:226-243 | grounded after the Y pass exactly when some solid was overlapped and the body was falling or already grounded; otherwise the first overlapped solid in list order pushes the body (a falling body lands 0.001 above it, a rising one ends 0.001 below it, x and size kept) and vertical velocity becomes 0 |
| `Physics.ResolveX` | ShadowLight.cpp:212-223 | the X loop over every solid computes the X pass |
| `Physics.ResolveY` | ShadowLight.cpp:227-243 | the Y loop with its collision flag computes the Y pass |
| `Physics.TouchesAny` | ShadowLight.cpp:247-252 | the hazard scan reports a hit exactly when the body overlaps some hazard tile |
| `Physics.Collect` | ShadowLight.cpp:255-262 | collection keeps every gem's place and colour and flips exactly the uncollected, overlapped gems of the character's colour |
| `Physics.CollectGems` | ShadowLight.cpp:255-262 | the gem loop computes the collection and counts the gems it flips |
| `Physics.CollectCounts` | ShadowLight.cpp:255-262 | the collected count of the character's colour rises by exactly the number flipped, and the other colour's count is unchanged |
| `Physics.CollectExhausts` | ShadowLight.cpp:256 | a second collection at the same place flips nothing |
| `Physics.NoneCollected` | ShadowLight.cpp:38 | with every gem uncollected the collected count of either colour is 0 |
| `Physics.Moved` | ShadowLight.cpp:185-243 | after movement the character is alive, keeps its spawn, counter and size, its horizontal velocity is 0 or the steering speed, and its vertical velocity is at most 1000 |
| `Physics.Step` | ShadowLight.cpp:185-263 | a character's frame ends dead exactly when the moved body overlaps a hazard of the other element, and then no gem and no counter changes; otherwise the gem list becomes exactly the collection at the moved body (only uncollected overlapped gems of its colour flip, so the other colour's gems are untouched) and its counter rises by exactly the number flipped |
| `Physics.MovePlayer` | ShadowLight.cpp:186-243 | the stages run in the source's order, each pass over the solids in list order, compute the movement |
| `Physics.StepPlayer` | ShadowLight.cpp:185-263 | movement, then the hazard scan with its early return, then the gem loop compute the character's frame |
| `LevelSession.InExit` | ShadowLight.cpp:270-276 | a character is in its exit only when that exit is present and overlapped |
| `LevelSession.Advance` | ShadowLight.cpp:277-284 | completion becomes true when both are in their exits and never turns false; the timer restarts at dt on the transition, grows by dt while complete, and is unchanged before |
| `LevelSession.RunSticky` | ShadowLight.cpp:277-284 | once complete, the level stays complete and the timer grows by the sum of the frame times |
| `LevelSession.RunNeedsBoth` | ShadowLight.cpp:277-282 | a level completes only on a frame where both characters are in their exits |
| `LevelSession.RunFromTransition` | ShadowLight.cpp:277-284 | from the transition frame on the timer equals the time spent complete |
| `LevelSession.Session.constructor` | ShadowLight.cpp:71-168 | the raw level is normalised in place and parsed, spawns are taken from markers or the fallbacks, both characters stand alive at rest on their spawns with size 24 by 28, no gem is collected, and the level is not complete |
| `LevelSession.Session.Restart` | ShadowLight.cpp:176-182 | whatever the state before, both characters are back at spawn at rest, alive, not grounded with counters 0, every gem is uncollected, the level is not complete and the timer is 0 |
| `LevelSession.Session.UpdatePlayer` | ShadowLight.cpp:185-267 | the chosen character and the shared gems become the result of its frame; the other character and the completion state are untouched; each counter stays the number of collected gems of its colour |
| `LevelSession.Session.CheckExits` | ShadowLight.cpp:269-284 | the completion flag and timer advance by one step of the completion state machine |
| `LevelSession.Session.Frame` | ShadowLight.cpp:171-284 | a frame clamps dt, restarts if asked, updates the fire character then the water character, then checks the exits; completion stays on without a restart and turns on only with both characters in their exits |

## Left out

- The window, the frame-rate target, shutdown, all drawing and the HUD text: they have no effect on the simulated state.
- Key polling and the frame clock: each frame takes the left, right and jump-pressed flags of each character, the restart flag and the raw frame time as parameters.
- IEEE single-precision rounding: coordinates, velocities and times are reals.
- The body of raylib's rectangle collision test is not part of this model; it is taken to be strict, positive-area overlap (rectangles that only share an edge do not collide).
- The colour, name and key-code fields of a character, and the gem drawing data: presentation only.
- A character's spawn, position and velocity have no initial value in the source before the parse; the model starts them at (0, 0), which is what the spawn fallback test compares against.
- The velocity is not set by the source until the first respawn or restart, so the first frame adds gravity to an indeterminate vertical velocity (ShadowLight.cpp:207); the model starts it at (0, 0) and so fixes that value.
- Level cells are bytes of a `std::string` in the source and Dafny characters (Unicode scalars) here: the model agrees with the source on ASCII levels only; a non-ASCII character counts as several cells in the source, widening the level and shifting the rest of its row.
- A level with no rows reads past the end of the row list in the source; the constructor and `Normalize` require at least one row.
- No claim that a body never penetrates a solid: the passes leave overlaps in place when the axis velocity is 0, and only the first overlapped solid moves the body (see below).
- The source's collision passes visit every solid, but once the first overlapped solid has zeroed the axis velocity every later overlap takes the "at rest" branch; the model therefore states the effect through the first overlapped solid in list order.
- After a Y-pass collision with a vertical velocity of 0 or less, the source leaves the grounded flag as it was (it is cleared only when no solid was overlapped); the model follows that.
- Without an exit of its colour in the level, a character can never be in its exit and the level cannot complete.
- Restart idempotence is not a separate lemma: `Restart` ends in the same state from any valid state, so a second restart changes nothing.
