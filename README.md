# Steam particle engine — a Dafny model

This project models the steam renderer of an ASCII particle animation. The
renderer keeps a store of short-lived particles, keyed by ids issued from a
counter that only grows. Each simulation step blows every particle sideways
with the wind, caps its horizontal speed, moves it one Euler step, ages it,
flips its lean on a fixed cadence and retires it once its lifespan is reached.
Each frame is drawn into a reusable `height x (width + offset)` character
buffer, one glyph per on-screen particle (`|` on the source row, `{` or `}`
above it), and the buffer is printed bottom row first, one line per row.

Four modules, one concern each:

- `Numeric` (`numeric.dfy`): the float-to-integer casts of the source
  (`as i32` / `as u32` round toward zero, `as u32` saturates) and `f32::clamp`,
  over exact reals.
- `Particles` (`steam_particle.dfy`): the value of a particle
  (`ParticleState`), its glyph, the pure functions that specify one step
  (`Move`, `Tick`, `Step`, `Steps`), and the mutable `SteamParticle` class whose
  `Update` and `Flip` change a particle in place.
- `Raster` (`frame.dfy`): when a particle lands in a cell, what a correctly
  drawn grid is (`IsFrame`), and the text of a grid (`FrameText`).
- `Renderer` (`steam_renderer.dfy`): the `SteamRenderer` class. It holds
  `particles: map<nat, SteamParticle>`, the `currentHighestId` counter and the
  `frameData: array2<char>` buffer. Its methods are proved against the
  abstract store `States()` and the pure functions above.

Behaviour as the code has it, which the model follows:

- A grid column is `trunc(x)`, not `floor(x)`. So a particle with
  `x` in `(-1, 0)` lands in column 0 and is drawn (`Numeric.TruncNearZero`).
- Culling compares the truncated column against `[0, width)` before the offset
  is added. Buffer columns `[0, offset)` therefore always stay blank.
- The lifespan is `trunc(60 * (1 - |x_percentage - 0.5|))`, a truncation and
  not a rounding. The model evaluates that formula over exact reals; the `f32`
  evaluation can come out one higher (see "## Left out").
- The constructor validates nothing. A zero height gives an empty buffer and an
  empty frame; a zero width still gives `height` lines, each of `offset` spaces
  and a newline.
- The particle that expires in a step is still drawn in the frame generated
  before that step. It is absent from every later frame.

## Model

| member | source | states |
|---|---|---|
| `Numeric.Abs` | src/steam_renderer.rs:124 | `.abs()`: the result is non-negative and is either the input or its negation |
| `Numeric.Trunc` | src/steam_renderer.rs:45-46 | the cast rounds toward zero: for `r >= 0` the result is the floor of `r`, for `r < 0` the ceiling |
| `Numeric.TruncNearZero` | src/steam_renderer.rs:45-53 | every coordinate strictly between -1 and 1 truncates to 0, so it passes the `col < 0` / `row < 0` culling test |
| `Numeric.TruncMonotone` | src/steam_renderer.rs:45-46 | truncation is monotone |
| `Numeric.SaturateU32` | src/steam_renderer.rs:127 | the `as u32` cast maps negatives to 0, caps at `u32::MAX`, and keeps in-range values |
| `Numeric.Clamp` | src/steam_renderer.rs:78-79 | the clamped value lies in `[lo, hi]` and equals the input when the input is already in range |
| `Numeric.ClampIsNearest` | src/steam_renderer.rs:78-79 | the clamped value is no farther from the input than any point of `[lo, hi]` |
| `Particles.ParticleState.ToAscii` | src/steam_renderer.rs:168-179 | the glyph is a vertical bar iff the truncated `y` is 0; otherwise `{` iff the particle leans left and `}` iff it does not; it is never a space or a newline |
| `Particles.Lifespan` | src/steam_renderer.rs:119-127 | for `x_percentage` in `[0, 1)` the lifespan lies in `[30, 60]`; it is 60 at the centre |
| `Particles.LifespanByDistance` | src/steam_renderer.rs:119-127 | the lifespan is determined by the distance to the centre: a particle spawned no farther from the centre lives at least as long (so equal distances give equal lifespans) |
| `Particles.Spawned` | src/steam_renderer.rs:114-140 | a new particle has both counters at 0 and shows a vertical bar; for `x_percentage` in `[0, 1)` it is live with a lifespan in `[30, 60]` |
| `Particles.Move` | src/steam_renderer.rs:77-83 | horizontal velocity becomes the clamped `vx + wind` and lies in `[-maxSpeed, maxSpeed]`; vertical velocity is unchanged; the position advances by the new velocity; nothing else changes |
| `Particles.Tick` | src/steam_renderer.rs:152-166 | `update` ages the particle by exactly one frame and asks for deletion iff the new age has reached the lifespan |
| `Particles.TickCounters` | src/steam_renderer.rs:152-166 | on deletion `update` neither flips nor resets the flip counter. Otherwise it flips and resets the counter iff the counter passed the interval, and afterwards the counter is at most the interval. Only the counters and the lean change |
| `Particles.TickKeepsLive` | src/steam_renderer.rs:152-166 | a live particle that `update` keeps is still live: its age is below its lifespan and its counter at most its interval |
| `Particles.Step` | src/steam_renderer.rs:77-89 | one step leaves `vx` in `[-maxSpeed, maxSpeed]`, asks for deletion iff the age reaches the lifespan, and keeps live particles live |
| `Particles.Steps` | src/steam_renderer.rs:73-96 | after `k` steps a particle is exactly `k` frames older; its lifespan and flip interval never change |
| `Particles.LivesExactlyLifespan` | src/steam_renderer.rs:152-158 | a live particle survives each of its next `lifespan - frames - 1` steps and is retired by the step after them, so a new particle lives exactly `lifespan` steps |
| `Particles.FlipCountUp` | src/steam_renderer.rs:153-163 | from a reset counter, the first `j <= framesBetweenFlips` steps keep the lean and count the counter up to `j` |
| `Particles.FlipCadence` | src/steam_renderer.rs:160-163 | from a reset counter, the lean is unchanged for `framesBetweenFlips` steps and toggles, resetting the counter, on step `framesBetweenFlips + 1` |
| `Particles.RisingParticleScenario` | src/steam_renderer.rs:77-85 | a concrete particle rising from row 0 moves to row 1, flips and shows `}`, and is retired by its second step |
| `Particles.SteamParticle.constructor` | src/steam_renderer.rs:129-140 | the struct literal: the given fields with both counters at 0 |
| `Particles.SteamParticle.Update` | src/steam_renderer.rs:152-166 | the particle's new value is `Tick` of its old value, the result is `Tick`'s deletion verdict, and that verdict holds iff `frames >= lifespan` |
| `Particles.SteamParticle.Flip` | src/steam_renderer.rs:181-183 | toggles `left` and changes no other field |
| `Raster.FrameText` | src/steam_renderer.rs:63-68 | the text of a non-empty grid ends in a newline |
| `Raster.FrameTextLength` | src/steam_renderer.rs:63-68 | `n` rows of `w` cells serialise to exactly `n * (w + 1)` characters |
| `Raster.FrameTextAt` | src/steam_renderer.rs:63-68 | character `c < w` of line `k` is cell `c` of row `n - 1 - k` (rows in reverse order); character `w` of every line is `'\n'` |
| `Raster.FrameTextShows` | src/steam_renderer.rs:37-71 | the frame text has `height` lines of `width + offset` cells plus a newline each. Line `k` shows grid row `height - 1 - k`. A cell is a space iff no particle lands in it; otherwise it is the glyph of a particle that lands there |
| `Raster.CellMeaning` | src/steam_renderer.rs:44-57 | a drawn cell is blank iff no particle lands in it, and otherwise holds a landing particle's glyph |
| `Raster.CulledNowhere` | src/steam_renderer.rs:48-54 | a particle whose truncated position lies outside `[0, width) x [0, height)` is drawn in no cell |
| `Raster.VisibleIsDrawn` | src/steam_renderer.rs:45-56 | a particle inside the grid makes its cell `(trunc y, trunc x + offset)` non-blank |
| `Raster.SoleParticleGlyph` | src/steam_renderer.rs:56 | a particle alone in its cell is drawn with its own glyph |
| `Raster.EmptyFrameIsBlank` | src/steam_renderer.rs:38-41 | with no particles every cell is a space, so nothing survives from an earlier frame |
| `Renderer.Expiring` | src/steam_renderer.rs:85-89 | the ids reported for deletion are stored ids |
| `Renderer.SimulateAll` | src/steam_renderer.rs:73-96 | a step adds no id to the store |
| `Renderer.SimulateAllKeys` | src/steam_renderer.rs:85-95 | a step removes exactly the ids whose next age reaches their lifespan and keeps every other id |
| `Renderer.SimulateAllMotion` | src/steam_renderer.rs:77-85 | every survivor has `vx = clamp(old vx + wind, -maxSpeed, maxSpeed)` within the bounds, the same `vy`, the old position plus the new velocity, age one greater and the same lifespan |
| `Renderer.SimulateAllKeepsLive` | src/steam_renderer.rs:85-95 | if every stored particle is live before a step, every stored particle is live after it |
| `Renderer.StepEach` | src/steam_renderer.rs:77-90 | the first loop keeps the same ids |
| `Renderer.DeferredRemoval` | src/steam_renderer.rs:74-95 | deleting the collected ids after the loop gives the same store as dropping expired particles during the step |
| `Renderer.SteamRenderer.constructor` | src/steam_renderer.rs:100-107 | an empty store, counter 0, and a fresh all-space buffer of `height x (width + offset)` |
| `Renderer.SteamRenderer.SpawnParticle` | src/steam_renderer.rs:109-142 | the new particle gets the old counter as id, which no stored particle holds. The counter grows by exactly 1. The new entry is the `Spawned` particle, no other entry changes, and the store stays valid |
| `Renderer.SteamRenderer.UpdateSimulation` | src/steam_renderer.rs:73-96 | the new store is `SimulateAll` of the old one. Exactly the expiring ids are removed. The counter is unchanged and the store stays valid |
| `Renderer.SteamRenderer.StepParticles` | src/steam_renderer.rs:77-90 | every particle is stepped in place, and the returned ids are exactly those whose step asked for deletion |
| `Renderer.SteamRenderer.StepParticle` | src/steam_renderer.rs:78-85 | one particle's new value is `Step` of its old value, and the result is that step's deletion verdict |
| `Renderer.SteamRenderer.RemoveIds` | src/steam_renderer.rs:92-95 | the store loses exactly the listed ids; absent ids are ignored |
| `Renderer.SteamRenderer.GenerateFrame` | src/steam_renderer.rs:37-71 | the buffer becomes a frame of the current particles, whatever it held before. The result is its text, `height * (width + offset + 1)` characters long. The store is unchanged |
| `Renderer.SteamRenderer.Clear` | src/steam_renderer.rs:38-41 | every cell of the buffer is a space |
| `Renderer.SteamRenderer.Draw` | src/steam_renderer.rs:43-57 | starting from a blank buffer, every cell shows the current particles as `CellShows` defines |
| `Renderer.SteamRenderer.DrawCell` | src/steam_renderer.rs:56 | writing a landing particle's glyph into its cell extends the drawn set by that particle |
| `Renderer.SteamRenderer.Serialize` | src/steam_renderer.rs:59-70 | the result is `FrameText` of the buffer's rows: last row first, each row followed by a newline |

## Left out

- Floating point: positions, velocities and the spawn arithmetic are exact
  reals. NaN, infinities and `f32` rounding in `position += velocity`, in
  `x_percentage * width` and in the lifespan formula are not modelled. The
  saturation of `as i32` on huge values is not modelled either.
- Particles.Lifespan: evaluates the formula over exact reals. For a few
  variates the `f32` product `60.0 * multiplier` rounds up to an integer that
  the exact product falls just short of, so the program's lifespan is one
  higher than the model's. The `[30, 60]` bound and
  `Particles.LifespanByDistance` hold either way, since each `f32` step rounds
  monotonically.
- Random numbers: `spawn_particle` draws `x_percentage`, `left` and
  `frames_between_flips` from a thread-local generator. Here they are
  parameters, restricted to the generator's ranges `[0, 1)` and `[0, 4)`.
- Iteration order of the `HashMap`: both loops visit ids in an unspecified
  order (`:|`). When two particles land in the same cell, the model leaves
  open which glyph wins.
- Renderer.SteamRenderer.UpdateSimulation: requires `maxSpeed >= 0` whenever a
  particle is stored, because `f32::clamp` panics when its lower bound exceeds
  its upper bound. The panic itself is not modelled.
- Renderer.SteamRenderer.SpawnParticle: ids are unbounded naturals. The `u32`
  counter overflowing after 2^32 spawns (a panic or a wrap-around) is not
  modelled. The particle counters cannot overflow, since `frames` stays below
  a lifespan of at most 60.
- `options` is a constant of the renderer. In the source it is a public field.
  A caller that changes `width`, `height` or `offset` after construction would
  make the buffer disagree with the options, and that is not modelled.
- The capacity hint of `String::with_capacity` has no observable effect and is
  omitted.
- The playback driver (src/main.rs), the decorative cup overlay
  (src/coffee.rs), the rounding helpers of src/vector2.rs and the two-method
  trait of src/renderer.rs are not part of this model.
- The `width as i32` and `height as i32` casts of the culling tests
  (src/steam_renderer.rs:49, 52) keep the low 32 bits of the dimension. A
  dimension whose low word is at least 2^31 becomes negative and culls every
  particle; larger dimensions wrap modulo 2^32 and cull against the wrapped
  value. The model compares unbounded integers and does not capture this.
