# Connecta registration page: particle text and form state, in Dafny

This project models the logic inside `src/Form.jsx` of the Connecta
member-registration page. That file is mostly presentation. The model covers
the parts of it that compute something.

- **Build pass of the particle-text canvas** (`RoyCanvas`, `build`). The word
  is rasterised off-screen. Its RGBA image data is an input buffer of
  `4 * W * H` bytes. The pass walks a grid of step `gap` in row-major order and
  creates one particle for each grid cell whose alpha byte is strictly above
  128. The font size is `min(W * 0.072, 92)`. The grid step is
  `max(3, floor(fs / 28))`, and because of the cap it is always 3. The eight
  `Math.random()` calls made for the k-th particle are the k-th element of an
  input stream of draws (`Particles.Draws`).
- **Colour ranges.** The base saturation and lightness of a particle are
  drawn uniformly. The per-frame "brighten with speed" values are clamped
  with `Math.min` (module `Colour`). Both are modelled over `real`.
- **Pointer state** (`onMove`, `onLeave`, `onTouch`). The pointer starts at
  the off-canvas sentinel (-9999, -9999). Mouse and touch movement move it,
  and mouse-leave and touch-end reset it (module `Pointer`).
- **Registration form state** (`Form`). This covers `handleChange`, the
  synchronous start of `handleSubmit`, its three ways of settling (server
  accepts, server refuses with an optional message, exception), and dismissing
  the success overlay (module `Registration`). The network call is replaced by
  its outcome.

Modules:
- `sampling.dfy` (`Sampling`): the grid scan as two recursive functions,
  `RowFrom` for the inner loop and `GridFrom` for the outer one. It also holds
  their soundness, completeness, order and counting lemmas.
- `colour.dfy` (`Colour`): the colour formulas and their bounds.
- `particles.dfy` (`Particles`): font size, grid step, particle creation, the
  build pass as a function (`Build`) and as the source's nested loops
  (`BuildPass`, proved equal to `Build`), and resizing.
- `pointer.dfy` (`Pointer`): the pointer state machine.
- `registration.dfy` (`Registration`): the form state machine.

Two things about the code are easy to miss, and the model follows the code on both:
- The grid spacing does not scale with the font size. The cap of 92 keeps
  `floor(fs / 28)` at 3 or below, so the step is always 3
  (`Particles.GridStep`).
- A resize to a viewport with no width or no height does not clear the
  particles. The canvas API's `getImageData` rejects an empty rectangle and
  throws before `particles = []` runs, so the old list survives
  (`Particles.Resize`).

The colour and opacity ranges are stated over exact reals, where
`0.65 + r * 0.35` stays below 1 for every r < 1. In IEEE doubles the
largest `Math.random()` result can round such a sum up to the upper bound
itself (see "Floating point" under "## Left out").

## Model

| member | source | states |
|---|---|---|
| Sampling.PixelInRange | src/Form.jsx:49 | For an on-canvas pixel, the pixel number `y*W+x` lies in [0, W*H), so the read never leaves the image |
| Sampling.AlphaIndex | src/Form.jsx:49 | The alpha byte read for an on-canvas pixel `(y*W+x)*4+3` lies inside the `4*W*H` buffer and is the fourth byte of a pixel (index ≡ 3 mod 4) |
| Sampling.AlphaIndexInjective | src/Form.jsx:49 | Two different pixels never read the same alpha byte |
| Sampling.RowFrom | src/Form.jsx:48-49 | The inner loop written as recursion over x. It has no contract of its own; `Sampling.RowFromMembers`, `Sampling.RowFromOrdered` and `Sampling.RowFromSize` characterise it |
| Sampling.GridFrom | src/Form.jsx:47-49 | The outer loop written as recursion over y, each row contributing `RowFrom` from column 0. It has no contract of its own; `Sampling.GridFromMembers`, `Sampling.GridFromOrdered` and `Sampling.GridFromSize` characterise it |
| Sampling.Anchors | src/Form.jsx:47-52 | The whole scan from row 0: the cells the build pass creates particles for, in creation order. It has no contract of its own; `Sampling.AnchorsAreSelectedCells`, `Sampling.AnchorsOrdered` and `Sampling.AnchorCount` characterise it |
| Sampling.RowFromMembers | src/Form.jsx:48-49 | The inner loop started at column x emits exactly the opaque grid cells of its row at columns ≥ x |
| Sampling.GridFromMembers | src/Form.jsx:47-49 | The outer loop started at row y emits exactly the opaque grid cells in rows ≥ y |
| Sampling.RowFromOrdered | src/Form.jsx:48 | Started on a grid column, the inner loop emits cells in strictly increasing column order |
| Sampling.GridFromOrdered | src/Form.jsx:47-48 | Started on a grid row, the outer loop emits cells in strictly increasing row-major order |
| Sampling.RowFromSize | src/Form.jsx:48 | The inner loop started at x emits at most as many cells as it has iterations, `Steps(x, W, gap)` |
| Sampling.GridFromSize | src/Form.jsx:47-48 | The outer loop started at row y emits at most (iterations of the inner loop) * (iterations of the outer loop) cells |
| Sampling.AnchorsAreSelectedCells | src/Form.jsx:47-52 | A cell is an anchor if and only if it is on the canvas, on the grid, and its alpha is > 128 |
| Sampling.AnchorsInRange | src/Form.jsx:47-52 | Every anchor has 0 ≤ x < W, 0 ≤ y < H, x and y multiples of gap, an in-bounds alpha index, and alpha > 128 |
| Sampling.ThresholdIsStrict | src/Form.jsx:49 | A cell whose alpha is exactly 128 is never an anchor |
| Sampling.AnchorsOrdered | src/Form.jsx:47-48 | Anchors come out in strictly increasing row-major order (y outer, x inner), so no anchor appears twice |
| Sampling.AnchorCount | src/Form.jsx:47-52 | The number of anchors equals the size of the set of grid cells whose alpha is > 128 |
| Sampling.StepsIsCeiling | src/Form.jsx:47-48 | A loop `v = from; v < bound; v += step` runs k times, the least k with k*step ≥ bound - from |
| Sampling.StepsIsQuotient | src/Form.jsx:47-48 | That iteration count is the integer ceiling (bound - from + step - 1) / step |
| Sampling.AnchorBound | src/Form.jsx:47-48 | There are at most ceil(W/gap) * ceil(H/gap) anchors |
| Colour.BaseSaturation | src/Form.jsx:58 | For a draw in [0,1) the base saturation lies in [60, 100) |
| Colour.BaseLightness | src/Form.jsx:59 | For a draw in [0,1) the base lightness lies in [72, 98) |
| Colour.DerivedLightness | src/Form.jsx:99 | The drawn lightness is at most 98, and for speed ≥ 0 and a base lightness ≤ 98 it is at least the base lightness |
| Colour.DerivedSaturation | src/Form.jsx:100 | The drawn saturation is at most 100, and for speed ≥ 0 and a base saturation ≤ 100 it is at least the base saturation |
| Colour.BrightenMonotone | src/Form.jsx:98-100 | For the same base values, a faster particle is never drawn dimmer or less saturated than a slower one |
| Colour.BrightenSaturates | src/Form.jsx:99-100 | Lightness reaches 98 exactly when speed ≥ (98 - base) / 9, and saturation reaches 100 exactly when speed ≥ (100 - base) / 12 |
| Colour.ColourRange | src/Form.jsx:98-100 | For draws in [0,1) and speed ≥ 0: 60 ≤ base sat ≤ drawn sat ≤ 100 and 72 ≤ base lit ≤ drawn lit ≤ 98 |
| Particles.FontSize | src/Form.jsx:30 | The font size lies in [0, 92], never exceeds W*0.072, equals W*0.072 while that is at most 92, and is 92 from there on |
| Particles.GridStep | src/Form.jsx:30-31 | The grid step is exactly 3 for every non-negative width |
| Particles.Spawn | src/Form.jsx:51-62 | The particle object for one anchor, consuming the eight draws in the order the source calls `Math.random()`. It has no contract of its own; its ranges are stated by `Particles.SpawnInRange` |
| Particles.SpawnInRange | src/Form.jsx:56-60 | For draws in [0,1), a new particle has radius in [0.4, 2), hue in [196, 226), saturation in [60, 100), lightness in [72, 98) and opacity in [0.65, 1) |
| Particles.Build | src/Form.jsx:45-65 | The loops of `build` as a function (a zero width or height makes line 44 throw before the loops; `Particles.Resize` models that): one `Spawn` per anchor, in anchor order, the k-th with the k-th draws. It has no contract of its own; `Particles.BuildPass` proves the source's loops equal it, and the Build lemmas below state its properties |
| Particles.BuildPass | src/Form.jsx:45-65 | The source's nested loops, which read `data[(y*W+x)*4+3]`, produce exactly the particle list `Build` defines: one particle per anchor, in anchor order, the k-th made from the k-th draws |
| Particles.ScanRow | src/Form.jsx:48-64 | One pass of the inner loop at row y appends, to a list that already holds the particles of the earlier rows, exactly one particle per opaque grid cell of row y, each spawned from its anchor with the draws at its position in the list; what remains of the anchor list afterwards is the scan of the rows after y |
| Particles.BuildSound | src/Form.jsx:45-55 | Every built particle is anchored on the canvas at multiples of 3 on an alpha > 128 cell, and starts with vx = vy = 0 |
| Particles.BuildComplete | src/Form.jsx:47-52 | Every on-canvas cell at multiples of 3 with alpha > 128 has a particle anchored on it |
| Particles.BuildOrdered | src/Form.jsx:47-51 | Particles appear in strictly increasing row-major order of their anchors |
| Particles.BuildCount | src/Form.jsx:47-52 | The particle count equals the number of grid cells above the threshold and is at most ceil(W/3) * ceil(H/3) |
| Particles.BuildAnchorsIgnoreDraws | src/Form.jsx:52-55 | Two builds of the same buffer and size with different random draws have the same anchors in the same order |
| Particles.BuildLooks | src/Form.jsx:50-61 | For draws in [0,1), every particle of a build has its radius, hue, saturation, lightness and opacity in those ranges |
| Particles.Resize | src/Form.jsx:20-45 | A resize adopts the viewport size. For a non-empty viewport the new particle count is the number of opaque grid cells of the new buffer. For a zero width or height, `getImageData` throws before the list is cleared, so the particles are kept |
| Particles.ResizeReplacesParticles | src/Form.jsx:44-45 | After a resize to a non-empty viewport the scene does not depend on the previous particle list, and every particle sits on an opaque grid cell of the new buffer |
| Particles.ZeroSizeResizeIsForgotten | src/Form.jsx:20-45 | A zero-size resize keeps the particles, and a later non-empty resize ends exactly as if the zero-size one had not happened |
| Pointer.Handle | src/Form.jsx:121-123 | Mouse-leave and touch-end reset the pointer to the sentinel. Any other event sets it to the position the event carries (client coordinates, or the first touch point), except that a touch-move with no touch point leaves it unchanged |
| Pointer.Track | src/Form.jsx:121-123 | The `mouse` object after a sequence of window events from mount on, starting at the sentinel of line 18. It has no contract of its own; `Pointer.TrackProvenance`, `Pointer.ResetForgetsHistory` and `Pointer.LastMoveWins` characterise it |
| Pointer.TrackProvenance | src/Form.jsx:18 | From mount on, the pointer is the sentinel or a position carried by one of the events, never a made-up coordinate |
| Pointer.ResetForgetsHistory | src/Form.jsx:122 | After a mouse-leave or touch-end, the pointer depends only on later events |
| Pointer.LastMoveWins | src/Form.jsx:121 | After a mouse-move followed only by touch-moves without touch points, the pointer is that move's client coordinates |
| Registration.Put | src/Form.jsx:505 | Overwriting a field sets that field to the new value and leaves the other six unchanged |
| Registration.PutGet | src/Form.jsx:505 | Writing back a field's own value leaves the form unchanged |
| Registration.Change | src/Form.jsx:503-506 | `handleChange` clears the error, sets the named field, keeps the other six fields, and keeps the loading and success flags |
| Registration.ChangesCommute | src/Form.jsx:503-506 | Edits to two different fields give the same state in either order |
| Registration.LastChangeWins | src/Form.jsx:505 | Of two edits to the same field only the last counts |
| Registration.FailureText | src/Form.jsx:527 | The failure text is never empty. It is the server's message when that is present and non-empty, and the default text otherwise |
| Registration.BeginSubmit | src/Form.jsx:509-512 | Submitting sets loading, clears the error, and keeps the fields and the success flag |
| Registration.FinishSubmit | src/Form.jsx:523-533 | Loading always ends. Acceptance sets success and empties all seven fields. A refusal shows the server message or the default text and keeps the fields. An exception shows the "Cannot reach the server" text and keeps the fields |
| Registration.Submit | src/Form.jsx:509-534 | A whole `handleSubmit` with no typing in between: `BeginSubmit` then `FinishSubmit`. It has no contract of its own; `Registration.SubmitErrorIffRejected` and `Registration.AcceptThenDismissIsInitial` characterise it |
| Registration.Dismiss | src/Form.jsx:731 | Dismissing the overlay clears success and changes nothing else |
| Registration.SubmitErrorIffRejected | src/Form.jsx:509-534 | After a submission an error is shown if and only if the server did not accept it, and loading is off |
| Registration.AcceptThenDismissIsInitial | src/Form.jsx:483-495 | An accepted submission followed by dismissing the overlay returns the form to its first-render state |
| Registration.ApplyEdits | src/Form.jsx:503-506 | A run of `handleChange` calls, applied in order. It has no contract of its own; `Registration.EditsKeepFlags` and `Registration.EditsDuringRequest` characterise it |
| Registration.EditsKeepFlags | src/Form.jsx:503-506 | Any sequence of field edits leaves the loading and success flags as they were |
| Registration.EditsDuringRequest | src/Form.jsx:509-534 | Typing while a request is in flight keeps the form loading. An accepted request still empties every field, dropping edits made meanwhile. A refused one keeps those edits |

## Left out

- Per-frame physics in `tick` (src/Form.jsx:74-97): spring, pointer repulsion (including its `dist > 0` guard), jitter, damping and integration. This is a floating-point simulation driven by `Math.random`. Only the colour clamp that follows it is modelled.
- Speed (src/Form.jsx:98) is `Math.sqrt(vx*vx + vy*vy)`. It is a non-negative parameter of the colour functions rather than computed.
- Particles.SpawnInRange: the initial scatter of a particle around its anchor, `(Math.random() - 0.5) * fs` (src/Form.jsx:53-54), is modelled in `Spawn` but not bounded in the contract. That bound is a product of two variables, and the model keeps nonlinear real arithmetic out of its contracts.
- Canvas rasterisation and drawing (`fillText`, `getImageData`, `arc`, `shadowBlur`, hsla strings; src/Form.jsx:33-44, 102-116). These are browser APIs. The alpha buffer is an input instead.
- The zero-size throw on mount (src/Form.jsx:131): when the first `resize()` throws, `tick()` never starts and no cleanup is returned, so the listeners stay registered. `Particles.Resize` models only the effect on the canvas size and particle list.
- `requestAnimationFrame`, and adding and removing the window listeners (src/Form.jsx:118, 125-141). This is host scheduling. Each listener's handler is modelled.
- `fetch`, `JSON.stringify` and `res.json()` (src/Form.jsx:515-521). This is network I/O. Only its outcome is modelled. A body that is not JSON, or a reply that is `null`, throws and is part of `Threw`.
- A server `message` that is not a string (a number, `false`): only absent, empty and non-empty strings are modelled.
- `e.preventDefault()` (src/Form.jsx:510) and React's batching of state updates. Each handler is one immediate state transition.
- The submit button's `disabled={loading}` (src/Form.jsx:710) stops a second submission while one is in flight. The model does not track the button, so it over-approximates: `BeginSubmit` also applies while loading. `handleSubmit` itself has no guard. The same holds for the browser's form validation: five inputs and the role select are `required` (all but organization), the age input is typed `number` with `min="16" max="100"`, and the email input is typed `email` (src/Form.jsx:618-694), so an invalid form never reaches `onSubmit`, but the model lets `BeginSubmit` apply to any form, blank fields included.
- Inputs whose `name` is not one of the seven fields: the form has no such inputs.
- The tsparticles engine, its `init` flag and its options (src/Form.jsx:497-501, 536-557) and all of src/SnowParticles.jsx. These configure a third-party library, which is not part of this model.
- CSS and JSX layout (src/Form.jsx:163-477, 559-740), except the overlay's dismiss button.
- Floating point: all real-valued quantities are exact `real`s. The half-open upper bounds on radius (2), hue (226), saturation (100), lightness (98) and opacity (1) in `Colour.BaseSaturation`, `Colour.BaseLightness`, `Particles.SpawnInRange` and `Particles.BuildLooks` hold only in exact arithmetic. In doubles the largest `Math.random()` result can round the sum up to the bound itself. The grid-step fact has a wide margin (92/28 < 3.3), so it does not depend on rounding.
