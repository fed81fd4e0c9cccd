# cpu_renderer in Dafny

A model of a small terminal ray tracer. The renderer is written in Rust. The model covers:

- the ray and sphere primitives;
- the scene's closest-hit search, shading and light animation;
- the first-person camera and the movement integrator it drives;
- the frame buffer and how its indices map to screen cells;
- the terminal input state machine;
- the renderer's mode switch and frame layout;
- the frame clock.

All arithmetic is over `real`; f32 rounding is not modelled. The transcendental functions are deliberately left abstract:

- `sqrt`, `sin`, `cos`, `tan`, `atan2`, `asin`;
- the yaw-then-pitch quaternion rotation.

They are fields of a `Maths` record (module `Vectors`), which every computation that needs them takes as a parameter. Each proof assumes only the laws it needs, stated as predicates on that record:

- `SqrtLaw`: the square root is non-negative and squares back to its argument;
- `TrigLaw`: sin² + cos² = 1;
- `RotationLaw`: a rotation keeps a vector's length;
- `RotationOddLaw`: a rotation maps −v to the negation of v's image.

Where the Rust source updates an object in place, the model is a class whose methods modify its fields:

- `MovementComponent`, `Camera`, `Scene`, `Image` (which keeps its fixed-size `array`);
- `TerminalInputHandler`, `TerminalRenderer`, `Clock`.

Loops in the source are `for` loops proved against specification functions:

- `Camera.Tick` is proved against `SteerAll`;
- `Scene.Trace` against `Shade`;
- `Image.Write` against `TracedPixel`;
- `TerminalRenderer.Render` against `FrameCells`.

Values are datatypes: `Sphere`, `Ray`, `HitData`, `Light` and the input actions.

The shading follows the code: a light's term is added only when its shadow ray **does** hit something, and is skipped when the shadow ray is clear. This is the opposite of the usual shadow test. It is modelled exactly as written, and `LightCountsOnlyWhenShadowRayHits` states it.

The documentation of `SceneAction::RotateCamera` (src/input/mod.rs:24-27) says both delta components lie within ±1000. The code that builds the delta does not enforce this. A mouse position is stored as (row, column). `pixel_to_screen_space` divides the row by the width 213 and the column by the height 120. So a vertical move from row 212 to row 0 gives a first component of 1991 (`WideMoveExceedsDocumentedRange`). A horizontal move across the 426-column frame (each pixel is drawn as two characters) gives a second component of up to 7083 (`FrameSweepExceedsDocumentedRange`). `MouseDeltaProperties` proves a bound of 2000 when the row difference is below 213 and the column difference below 120.

## Model

| member | source | states |
|---|---|---|
| Vectors.NormalizeIsUnit | src/core/common.rs:15-17 | normalizing a non-zero vector gives a vector of unit length (under the square-root law) |
| Common.FromVector3IsUnit | src/core/common.rs:15-19 | `get` returns exactly the normalized vector `from_vector3` wrapped, and it has unit length for a non-zero input |
| Common.NewRay | src/core/common.rs:32-36 | `Ray::new` keeps the origin unchanged and stores the normalized direction |
| Common.RayIsLine | src/core/common.rs:28-30 | for every ray, `position_at(0)` is the origin and moving from t by u adds u times the direction |
| Common.PositionAlongRay | src/core/common.rs:28-30 | `position_at(0)` is the origin; moving from t by u adds u times the unit direction; the point at t is at squared distance t² from the origin |
| Shapes.SmallestPositive | src/core/shapes.rs:41-50 | no root is chosen iff both roots are ≤ 0; otherwise the choice is positive, is one of the two roots, and is ≤ every positive root |
| Shapes.Sphere.WithCenter | src/core/shapes.rs:65-67 | `set_center` changes the centre and keeps radius and colour |
| Shapes.Sphere.Normal | src/core/shapes.rs:61-63 | away from the centre, `normal(point)` has unit length and points outwards (positive dot product with point − centre) |
| Shapes.Sphere.Intersect | src/core/shapes.rs:26-63 | a negative discriminant gives no hit; a hit has t > 0, t is one of the quadratic's roots and no greater than any positive root; with a ≠ 0, a non-negative discriminant and no hit, both roots are ≤ 0; the intersection is `position_at(t)`, the normal is `normal(intersection)` and the colour is the sphere's |
| Shapes.SurfaceEquation | src/core/shapes.rs:15-32 | the squared distance from the centre along the ray, minus r², is the quadratic a t² + b t + c the code builds |
| Shapes.RootsAreSolutions | src/core/shapes.rs:32-39 | with a ≠ 0 and a non-negative discriminant, u solves the quadratic iff u is t1 or t2 |
| Shapes.NegativeDiscriminantNoRoot | src/core/shapes.rs:32-35 | a negative discriminant means no parameter solves the quadratic, so "no hit" is exact |
| Shapes.HitLiesOnSurface | src/core/shapes.rs:26-58 | a reported hit lies on the sphere's surface |
| Shapes.HitIsNearest | src/core/shapes.rs:26-58 | no surface point at a positive parameter comes before a reported hit |
| Shapes.MissMeansNothingAhead | src/core/shapes.rs:26-50 | for a ray with a direction, "no hit" means no surface point lies ahead of the origin at all |
| Shapes.HitNormalIsUnit | src/core/shapes.rs:52-63 | on a sphere of non-zero radius the normal at a hit has unit length |
| Shapes.BothPositivePicksFirstRoot | src/core/shapes.rs:37-43 | when both roots are positive the hit is at t1, the root with the square root subtracted |
| Movement.ClampSpeedBound | src/core/movement.rs:22-25 | after the clamp the speed is ≤ max_speed + EPSILON; a velocity within that bound is unchanged; a faster one keeps its direction and has length exactly max_speed |
| Movement.ClampSpeedZero | src/core/movement.rs:23-25 | a zero velocity is never rescaled |
| Movement.MovementComponent.constructor | src/core/movement.rs:12-16 | `new` keeps the position, starts at rest, with max_speed 5 |
| Movement.MovementComponent.SetVelocity | src/core/movement.rs:18-20 | the velocity is overwritten; position and max_speed are unchanged |
| Movement.MovementComponent.Tick | src/core/movement.rs:22-28 | the velocity becomes the clamped old velocity, the position moves by that velocity times dt, and max_speed is unchanged |
| Camera.ClampPitch | src/core/camera.rs:26-34 | the result is within ±89°; a pitch within the limit is kept; a pitch beyond it becomes the limit on its side |
| Camera.BaseMovementIsUnit | src/core/camera.rs:54-61 | every direction key's camera-space vector has unit length |
| Camera.OppositeMovesCancel | src/core/camera.rs:54-61 | opposite keys have opposite vectors (Forward/Backward, Left/Right, Up/Down) |
| Camera.OppositeMovesCancelAfterRotation | src/core/camera.rs:51-77 | for a linear rotation, a move followed by the opposite move leaves the summed velocity and the orientation where they were |
| Camera.SteeredPitchIsBounded | src/core/camera.rs:65-78 | after a tick's actions the pitch is within ±89° when it started within them or any action was a rotation |
| Camera.SteerWithoutMoves | src/core/camera.rs:65-78 | actions without a move leave the summed movement vector where it started |
| Camera.SteerWithoutRotations | src/core/camera.rs:65-78 | actions without a rotation leave yaw and pitch unchanged |
| Camera.Camera.FromPositionAndTarget | src/core/camera.rs:84-105 | fov 45°, aspect 16/9, near 0.1, far 100; yaw = atan2(f.x, f.z) + π and pitch = −asin(f.y) for the normalized forward vector f, not clamped; a fresh movement component at the eye, at rest |
| Camera.Camera.Rotate | src/core/camera.rs:21-35 | yaw decreases by delta_x exactly; pitch becomes the clamp of pitch − delta_y, so it is always within ±89° |
| Camera.Camera.GetRay | src/core/camera.rs:37-46 | the ray starts at the camera position; its direction is the normalized camera-space direction through the screen point, rotated by the orientation and normalized |
| Camera.Camera.Tick | src/core/camera.rs:65-82 | yaw and pitch are those reached by applying the actions in order (rotation deltas are divided by 1000 and scaled by 2, with the yaw also scaled by `scale`); the velocity is overwritten with the summed rotated key vectors times max_speed, then clamped; the position moves by velocity times dt |
| Camera.GetRayDirectionIsUnit | src/core/camera.rs:37-46 | every primary ray has a unit-length direction (given the square-root and rotation laws) |
| Camera.NoMovesMeansRest | src/core/camera.rs:65-82 | a tick without a move action leaves the camera at rest: the velocity is zero, not the previous one |
| Scene.ClosestHit | src/core/scene.rs:41-48 | no hit iff no sphere reports a hit; a reported hit's t is ≤ every sphere's hit t (`Scene.Scene.Intersect` is this over the scene's own spheres) |
| Scene.ClosestHitOfOne | src/core/scene.rs:41-48 | with a single sphere, `intersect` reports exactly that sphere's hit |
| Scene.ClosestHitIsFirstNearest | src/core/scene.rs:44-47 | the hit returned is some sphere's own hit, and every earlier sphere misses or is hit strictly further away, so on equal t the first-inserted sphere wins |
| Scene.DegenerateRayHitsNothing | src/core/scene.rs:27-30 | a shadow ray built from a direction of length zero hits no sphere |
| Scene.ShadowRayHitHasDistance | src/core/scene.rs:27-37 | a shadow ray that hits something has a light at non-zero distance, so the falloff's division is defined |
| Scene.LightCountsOnlyWhenShadowRayHits | src/core/scene.rs:26-38 | adding a light leaves the colour unchanged when its shadow ray hits nothing, and adds its lighting term when the shadow ray does hit something |
| Scene.ClearShadowRaysAddNothing | src/core/scene.rs:24-39 | when every light's shadow ray is clear, the lights add nothing to the starting colour |
| Scene.ShadeWithoutLightTerms | src/core/scene.rs:19-26 | a miss gives exactly the ambient colour; a hit with no lights, or with every shadow ray clear, gives ambient ⊙ the hit's colour |
| Scene.OrbitStaysOnCircle | src/core/scene.rs:77-87 | the orbiting light keeps its height and lies on the circle of radius 3 about (0, ·, −6) |
| Scene.AxisRayHitsLoneSphere | src/core/shapes.rs:26-59 | a unit sphere at (0, 0, −6) is hit by the ray from the origin along −z at t = 5, with the sphere's colour |
| Scene.CentreRayOnLoneSphere | src/core/scene.rs:18-26 | a unit sphere at (0, 0, −6) is hit by the ray from the origin along −z at t = 5, and with no light the traced colour is (0.1, 0.1, 0.1) |
| Scene.Scene.constructor | src/core/scene.rs:49-56 | `new` keeps the camera, starts with no spheres and no lights, and sets the ambient colour to (0.1, 0.1, 0.1) |
| Scene.Scene.AddSphere | src/core/scene.rs:57-59 | the sphere is appended; earlier spheres and the lights are unchanged |
| Scene.Scene.AddLight | src/core/scene.rs:61-63 | the light is appended; earlier lights and the spheres are unchanged |
| Scene.Scene.Trace | src/core/scene.rs:18-40 | the loop returns exactly `Shade`: ambient on a miss, else ambient ⊙ colour plus the term of each light whose shadow ray hits something |
| Scene.Scene.Tick | src/core/scene.rs:68-92 | the camera ticks with the actions and dt; with no light, spheres and lights are unchanged; otherwise lights[0] moves to (3 cos T, old y, −6 + 3 sin T) for total time T, spheres[0]'s centre moves to the same point, and nothing else changes |
| Screen.ScreenDimensions | src/core/image.rs:8-11 | the width is the truncating cast of 120 × 16/9, which is 213; the height is 120 and the pixel count 25560 |
| Screen.IndexSplitsIntoCell | src/core/image.rs:40-41 | every index below PIXEL_COUNT gives col < width and row < height with row·width + col = index |
| Screen.CellJoinsIntoIndex | src/core/image.rs:40-41 | every on-screen (col, row) is the cell of exactly the index row·width + col |
| Image.IntensityIsMean | src/core/image.rs:18-20 | the intensity lies between the least and greatest channel, equals the channel of a grey pixel, and is in [0, 1] when the channels are |
| Image.Image.constructor | src/core/image.rs:49-53 | pixel i becomes (p[i], 0, 0), in a fresh array of PIXEL_COUNT pixels |
| Image.Image.Write | src/core/image.rs:35-47 | every slot i is overwritten with the colour traced along the camera ray through its own cell (i mod width, i div width) |
| TerminalInput.MapKeyToAction | src/input/terminal_input_handler.rs:106-127 | Quit iff the key is Esc; no action iff the key is neither Esc nor one of w/a/s/d/q/e; any other action is a move |
| TerminalInput.MoveKeyTable | src/input/terminal_input_handler.rs:117-126 | a key moves in a direction iff it is that direction's key (w Forward, a Left, s Backward, d Right, q Down, e Up) |
| TerminalInput.ToggledAfterKeyMembership | src/input/terminal_input_handler.rs:85-103 | an action is held after a key event iff the event presses its key, or it was held and the event does not release its key |
| TerminalInput.PressThenRelease | src/input/terminal_input_handler.rs:91-103 | pressing and then releasing a key removes its action and leaves every other held action as it was |
| TerminalInput.PressIsIdempotent | src/input/terminal_input_handler.rs:91-103 | a second press changes nothing, and a repeat event changes nothing |
| TerminalInput.KeyEventsKeepKinds | src/input/terminal_input_handler.rs:85-103 | key events only ever put Quit and moves in the held set and ChangeRenderType in the one-shot set |
| TerminalInput.ScreenSpaceRoundTrip | src/input/terminal_input_handler.rs:130-141 | the cell coordinates can be recovered from the screen-space point, and an on-screen cell maps strictly inside (−1, 1)² |
| TerminalInput.RoundIsNearest | src/input/terminal_input_handler.rs:78 | `round` moves a value by at most one half and is symmetric about zero |
| TerminalInput.SaturateI16 | src/input/terminal_input_handler.rs:78 | the float-to-i16 cast keeps in-range values and saturates at −32768 and 32767 |
| TerminalInput.WideMoveExceedsDocumentedRange | src/input/terminal_input_handler.rs:74-78 | a vertical move from row 212 to row 0 gives a first delta component of 1991 (the row is divided by the width), outside the documented ±1000 |
| TerminalInput.FrameSweepExceedsDocumentedRange | src/input/terminal_input_handler.rs:74-78 | a horizontal move from column 0 to column 425 of the 426-column frame gives a second delta component of 7083 (the column is divided by the height) |
| TerminalInput.MouseDeltaProperties | src/input/terminal_input_handler.rs:74-78 | an unmoved mouse gives a zero delta; when the row difference is below 213 and the column difference below 120, swapping the positions negates the delta and each component is within ±2000 |
| TerminalInput.TerminalInputHandler.Valid | src/input/terminal_input_handler.rs:11-15 | the held set contains only Quit and moves and the one-shot set only render switches and rotations, so the two sets are disjoint |
| TerminalInput.TerminalInputHandler.constructor | src/input/terminal_input_handler.rs:61-67 | both sets start empty, with no last mouse position |
| TerminalInput.TerminalInputHandler.ContainsInput | src/input/terminal_input_handler.rs:18-21 | `contains_input(a)` holds iff a is among `input_actions` |
| TerminalInput.TerminalInputHandler.InputActions | src/input/terminal_input_handler.rs:23-28 | the actions are exactly those of the held set and the one-shot set |
| TerminalInput.TerminalInputHandler.SceneActions | src/input/terminal_input_handler.rs:30-39 | a scene action is yielded iff it is the payload of an `ActionOnScene` among `input_actions` |
| TerminalInput.TerminalInputHandler.HandleKeyEvent | src/input/terminal_input_handler.rs:85-104 | a Tab press adds ChangeRenderType to the one-shot set only; a press or release of a mapped key adds or removes its action; anything else changes nothing |
| TerminalInput.TerminalInputHandler.HandleMouseEvent | src/input/terminal_input_handler.rs:69-84 | only a Moved event with a known last position adds a rotation with the computed delta; nothing else changes |
| TerminalInput.TerminalInputHandler.PollEvent | src/input/terminal_input_handler.rs:41-57 | the one-shot set is emptied first, even on timeout or error, and afterwards holds at most one action; a key event updates the sets; any mouse event records its position; failure is reported iff polling or reading failed |
| Render.GlyphIndex | src/render/terminal_renderer.rs:42-47 | the glyph index is always below 21, the table size |
| Render.GlyphBands | src/render/terminal_renderer.rs:42-47 | intensity in [k/21, (k+1)/21) picks glyph k; below 1/21 picks glyph 0; from 20/21 up picks glyph 20; the index is monotone in the intensity |
| Render.FrameLength | src/render/terminal_renderer.rs:31-51 | the first n pixels give n + ceil(n / width) cells |
| Render.NonBreaksArePixels | src/render/terminal_renderer.rs:31-51 | exactly n of those cells are not line breaks, one per pixel |
| Render.FrameLineBreaks | src/render/terminal_renderer.rs:31-34 | exactly ceil(n / width) of those cells are line breaks |
| Render.PixelCellPosition | src/render/terminal_renderer.rs:31-51 | pixel i's cell is at position i + i div width + 1, and the position just before it holds a line break when i starts a row |
| Render.CellBeforePixel | src/render/terminal_renderer.rs:31-51 | when i does not start a row, the position just before pixel i's cell holds pixel i−1's cell, so no line break is there |
| Render.WholeFrameLayout | src/render/terminal_renderer.rs:31-34 | a full frame has PIXEL_COUNT + 120 cells, of which exactly 120 (one per row) are line breaks |
| Render.FlipTwiceRestores | src/render/terminal_renderer.rs:21-24 | a flip always changes the mode, and two flips restore it |
| Render.TerminalRenderer.constructor | src/render/terminal_renderer.rs:60-76 | the renderer starts in the given mode with an empty buffer |
| Render.TerminalRenderer.Tick | src/render/terminal_renderer.rs:19-26 | the mode flips iff at least one action is ChangeRenderType, and flips only once however many there are |
| Render.TerminalRenderer.Render | src/render/terminal_renderer.rs:28-56 | the frame's cells are appended and written out in index order, and the buffer is empty afterwards |
| Clock.Since | src/clock.rs:30 | the duration between two instants, zero when they are out of order |
| Clock.SumAppend | src/clock.rs:28-32 | appending a delta adds it to the total, and the total is at least every delta in it |
| Clock.Clock.constructor | src/clock.rs:19-25 | no last tick, zero elapsed time and zero dt |
| Clock.Clock.TotalTime | src/clock.rs:10-12 | `total_time` is the sum of every dt produced since `new` |
| Clock.Clock.Dt | src/clock.rs:14-16 | `dt` is the latest dt, or zero before the second tick |
| Clock.Clock.Tick | src/clock.rs:27-35 | the first tick only records its instant; a later tick sets dt to now − last and adds it to the elapsed time; the elapsed time stays the sum of all dts |

## Left out

- f32 behaviour: rounding, overflow, infinities and NaN are not modelled. cgmath's `normalize` of a zero vector yields NaN components; `Normalize` returns the zero vector instead. `Sphere.Intersect` therefore has an explicit `a == 0` "no hit" branch, which is what every comparison with NaN produces in the source. The `unwrap_or(Ordering::Equal)` of the closest-hit search only matters for NaN, so it is not modelled either.
- Transcendental functions and the quaternion `rotation()` are uninterpreted fields of `Maths`; the model proves nothing about their numeric values.
- Scene.Scene.Trace: the value of a light's term is stated as `LightTerm`, but the only property proved about it is whether it is added, not its size.
- `Pixel::color` (the u8 conversion with rounding and saturation) is left out. A colour cell carries the pixel itself.
- Terminal I/O is left out: crossterm's `poll` and `read` become a `PollOutcome` parameter of `PollEvent`. Writing to stdout becomes appending to `written`. The cursor move, raw mode, mouse capture and screen clearing in `new`, `render` and `Drop` are not modelled.
- Render.TerminalRenderer.Render: the colour escape text is not modelled; a `Swatch` cell stands for the two background-coloured spaces.
- The rayon parallel iterator of `write` is modelled as a sequential loop. Each slot depends only on its own index, which the contract of `Image.Image.Write` states.
- src/main.rs is not part of this model: the frame loop, FPS cap, random scene construction and `display_fps`. `display_fps` calls `Clock::tick_count` and `reset`, which src/clock.rs does not define.
- `HashSet` iteration order is not modelled. The two action sets are Dafny sets, and `Scene.Scene.Tick` and `Camera.Camera.Tick` accept the scene actions in any order as a sequence.
- The `TimeProvider` trait is replaced by its two readings: `Scene.Scene.Tick` takes `dt` and the total time.
- `Instant` is modelled as a real number of seconds. `Clock.Clock.Tick` takes the two readings of `Instant::now()` it makes as parameters. `Duration` is a non-negative real, without nanosecond truncation.
- The `derive(Builder)` camera builder, the `camera()`, `origin()` and `direction()` accessors and `Light::from_position` need no contract: in the model they are field reads and a datatype constructor.
- Camera.Camera.Scale: no contract of its own. It is `tan(fov / 2)` with `tan` abstract; `Camera.Camera.GetRay` and `Camera.Camera.Tick` state how it scales the screen point and the yaw change.
- Scene.Scene.Tick: with a light but no sphere the source panics on `spheres[0]`, after it has already moved the first light. The model requires a sphere whenever there is a light, as the scene set-up in src/main.rs always provides.
- Camera.Camera.DirectionToMovement: no contract of its own. It is the key table `BaseMovement` turned by the abstract rotation. `BaseMovementIsUnit`, `OppositeMovesCancel` and `Camera.Camera.Tick` state what it contributes.
