# Portfolio site: verified model of its logic

The portfolio site is a React application. Apart from static pages, it has four pieces of sequential logic, and this project models each of them in Dafny.

- **`cn`, the class-name combiner** (module `ClassNames`, `classnames.dfy`). It takes a list of arguments: strings, numbers, nested arrays, key-to-value objects and falsy values. From them it builds one space-separated class string.
  - The loop is a method, `Cn`. It is proved equal to a recursive specification, `Join(Pieces(args))`.
  - Lemmas about `Pieces` and `Join` state, argument by argument, what each argument contributes.
- **The grid sampler of the image worker** (module `GridSampler`, `grid_sampler.dfy`). It downsamples an RGBA byte buffer into `gridSize × gridSize` cells, in row-major order. Each cell gets the rounded mean colour of its sampling window and a percentage position.
  - The buffer is an `array<byte>`.
  - The four nested loops are methods with loop invariants. The outer two, over the grid, are in `Sample`; the inner two, over a cell's window, are in `AccumulateWindow`. `SampleCell` turns one window into one cell.
  - The recursive functions `RowAcc` and `WindowAcc` specify the window sums. `Window` applies them to a cell, and the predicate `IsCell` says what the cell at (x, y) is.
- **The text particle field** (module `TextParticles`, `text_particles.dfy`). Each letter of a word is a particle that springs toward its slot in a centred row. It is modelled in these parts:
  - the layout of the word;
  - the resize rewrite of the targets;
  - the arrow-key nudges of the pointer;
  - the deterministic part of the per-frame step, plus the rule that returns the same array when nothing moved.
- **The pixelated image field** (module `ImageParticles`, `image_particles.dfy`). The particles are grid cells that spring back to their home cell. It is modelled in these parts:
  - The pointer state `{x, y, moving, touchActive}`. It is a class, `PointerTracker`, whose handlers update its fields. Each handler is tied to a pure transition function, `Next`.
  - The per-particle update.
  - The idle short-circuit of a frame.
  - While the pointer is idle, one update step of a particle is a linear recurrence on each axis. The model proves that a quadratic energy of each axis shrinks by exactly a factor 0.8 per update step. So the distance from home is bounded geometrically for as long as the field keeps updating.
  - The field stops updating as soon as the pointer is idle and every velocity component is at most 0.01. A field can therefore freeze with particles away from home (`ImageParticles.FrozenOffHome`).

The shared plane arithmetic, `Math.abs` and squared lengths, is in module `Geometry` (`geometry.dfy`).

The particle fields' numbers are exact `real`s; cn's numeric arguments are `int`s, as the `Num(n: int)` argument holds them. Byte values and counts are `nat`s, and a word is a sequence of UTF-16 code units, as a JavaScript string is. A pointer coordinate of the image field can also be non-finite, as a division by a zero container extent leaves it. The browser's `Math.random` is a parameter in `[0, 1)`. The repulsion and spring terms built from `Math.sqrt`, `Math.atan2`, `Math.cos` and `Math.sin` are opaque velocity increments.

- Each comparison of a distance against a radius is restated on squared lengths, which is exact for non-negative distances (`TextParticles.DistanceComparison`).
- The text field's increments are the `repulsion` and `spring` functions of a `Frame`.
- The image field's increment is the `push` function parameter.

In a few places the site's intended behaviour, as its descriptions state it, differs from what the code does. The model follows the code:

- **The grid sampler emits every cell.** It emits all `gridSize * gridSize` cells. Cells whose windows fall beyond the buffer are not omitted: they get a `NaN` colour (`NaNColour` here).
- **The initial velocity range is half-open.** A text particle's initial velocity is `(r - 0.5) * 4` with `r` in `[0, 1)`, so it lies in `[-2, 2)`, not `[-2, 2]`.
- **The image field has no friction constant.** It applies only `DAMPING = 0.8`, not the text field's friction `0.97`.
- **Words are counted in UTF-16 code units.** A word is laid out by `word.length` and `word.split('')`, which count and yield code units, not characters. A character outside the Basic Multilingual Plane therefore takes two particles, one per surrogate half (`TextParticles.SurrogatePairTakesTwoSlots`).
- **The image field's idle spring does not converge monotonically.** The spring is underdamped, so a particle overshoots its home cell. The distance to home is not non-increasing (`ImageParticles.Overshoots`). What does hold, per update step, is geometric decay of a quadratic energy, and with it a geometric bound on the distance (`ImageParticles.EnergyDecays`, `ImageParticles.AxisReturnsHome`).
- **The image field need not return home.** The frame skips all updates once the pointer is idle and every velocity component is at most 0.01 in size. A particle at rest one unit from its home cell then stays there for every later frame, although one update step would move it to 0.92 units (`ImageParticles.FrozenOffHome`). So a field can settle, and stay, with particles displaced.
- **A move over a zero-size container keeps the image field working.** Such a move leaves a non-finite pointer that pushes nothing, but it still sets `moving`. So every frame keeps stepping the field, where an idle pointer would leave a field at rest alone (`ImageParticles.NonFiniteMoveKeepsStepping`).
- **A long word can overflow its container.** The input accepts up to 20 characters (`app/components/Input.tsx:16`). Twenty letters in a 375-pixel container put the slots from -250.5 to 585.5. Each step clamps a particle into the container, so a particle whose slot is outside stays at or inside the wall and never reaches the slot (`TextParticles.LongWordOverflows`).

## Model

| member | source | states |
|---|---|---|
| ClassNames.DigitChar | app/utils/classnames.ts:22 | a digit below 10 becomes the decimal-digit character whose code is that digit above `'0'` |
| ClassNames.Truthy | app/utils/classnames.ts:17 | the test `!arg`: the empty string, `0`, `false`, `null` and `undefined` are falsy; arrays and objects are truthy |
| ClassNames.JsTruthy | app/utils/classnames.ts:36 | the truthiness of an object's value, by the same rules |
| ClassNames.Join | app/utils/classnames.ts:43 | `classes.join(' ')`: the pieces in order, with one space between neighbours |
| ClassNames.Contribution | app/utils/classnames.ts:17-39 | what one argument pushes: nothing when falsy; a string itself; a number its string form; an array its non-empty recursive result; an object its truthy keys |
| ClassNames.Pieces | app/utils/classnames.ts:16-41 | the contents of `classes` after the loop: the contributions of the arguments, in order |
| ClassNames.NatToString | app/utils/classnames.ts:22 | the decimal form of a natural number is non-empty and all digits, and has no leading zero unless the number is 0 |
| ClassNames.NatToStringValue | app/utils/classnames.ts:22 | reading the decimal form back gives the number, so `toString` loses nothing |
| ClassNames.IntToString | app/utils/classnames.ts:22 | the string form of an integer is non-empty and has no space, so it is a single class name |
| ClassNames.TruthyKeys | app/utils/classnames.ts:34-39 | the keys kept from an object are exactly the keys of its entries whose values are truthy, and there are no more of them than entries |
| ClassNames.Cn | app/utils/classnames.ts:13-44 | the loop over the arguments, with its recursive call for arrays and its inner loop over object keys, returns the pieces of the arguments joined by single spaces |
| ClassNames.PiecesAppend | app/utils/classnames.ts:16 | arguments contribute in order: the pieces of `a + b` are the pieces of `a` followed by those of `b` |
| ClassNames.FalsyIgnored | app/utils/classnames.ts:17 | a falsy argument (`''`, `0`, `false`, `null`, `undefined`) anywhere in the list changes nothing |
| ClassNames.ScalarArgument | app/utils/classnames.ts:21-24 | wherever it stands in the list, a non-empty string argument pushes exactly itself and a non-zero number exactly its decimal string, while `''` and `0` push nothing; alone, that string is the result |
| ClassNames.ArrayArgument | app/utils/classnames.ts:26-31 | an array argument adds the recursive result of its elements as one piece, or nothing when that result is empty |
| ClassNames.ObjectArgument | app/utils/classnames.ts:34-39 | an object argument adds exactly its keys with truthy values, in key order |
| ClassNames.EmptyResult | app/utils/classnames.ts:14-16 | `cn()` is the empty string; with non-empty object keys, the result is empty exactly when no argument contributes a piece |
| ClassNames.JoinEmpty | app/utils/classnames.ts:43 | joining non-empty pieces gives the empty string exactly when there are no pieces |
| ClassNames.PiecesNonEmpty | app/utils/classnames.ts:17-39 | when all object keys are non-empty, no piece pushed onto `classes` is empty |
| ClassNames.TidyConcat | app/utils/classnames.ts:43 | two tidy non-empty strings joined by one space are tidy (no leading, trailing or doubled space) |
| ClassNames.JoinTidy | app/utils/classnames.ts:43 | joining tidy non-empty pieces gives a tidy string, which is non-empty when there are pieces |
| ClassNames.PiecesTidy | app/utils/classnames.ts:17-39 | when every string and key argument is tidy and non-empty, every piece is tidy and non-empty |
| ClassNames.ResultTidy | app/utils/classnames.ts:13-44 | for such arguments, the result has no leading, trailing or doubled spaces |
| ClassNames.JoinNested | app/utils/classnames.ts:27-29 | a non-empty nested join placed among other pieces reads the same as the pieces joined flat |
| ClassNames.JoinPrefix | app/utils/classnames.ts:27-29 | a non-empty nested join placed after other pieces reads the same as the pieces joined flat |
| ClassNames.Flatten | app/utils/classnames.ts:26-31 | when no object key is empty, wrapping arguments in a nested array does not change the result |
| GridSampler.Steps | app/workers/imageProcessor.ts:15-16 | the number of iterations of `for (k = 0; k < t; k++)` is the least natural number not below `t` |
| GridSampler.PixelWidth | app/workers/imageProcessor.ts:3-4 | `width / gridSize` is non-negative, and positive for a non-empty image |
| GridSampler.ScaledBelow | app/workers/imageProcessor.ts:9 | for a grid index below `gridSize`, `x * (extent / gridSize)` lies below `extent` |
| GridSampler.AxisStart | app/workers/imageProcessor.ts:9 | the first column (row) a cell samples, `Math.floor(x * pixelWidth)`, lies inside a non-empty image |
| GridSampler.WindowStart | app/workers/imageProcessor.ts:9 | a window starts at the first byte of a pixel |
| GridSampler.SampleIndex | app/workers/imageProcessor.ts:17 | every sample index falls on the first byte of a pixel |
| GridSampler.WholePixel | app/workers/imageProcessor.ts:18-21 | in a buffer of whole pixels, an index that passes the `i < length` guard has its `i+1`, `i+2` and `i+3` in bounds too |
| GridSampler.SampleInBounds | app/workers/imageProcessor.ts:17-21 | every read the guard admits, at `i`, `i+1` and `i+2`, is inside the buffer |
| GridSampler.AddSample | app/workers/imageProcessor.ts:17-23 | one iteration of the innermost loop: a sample inside the buffer adds its red, green and blue bytes and one to the count; one past the end adds nothing |
| GridSampler.RowAcc | app/workers/imageProcessor.ts:16-24 | the sums after the first n samples of a row of the window, in loop order |
| GridSampler.WindowAcc | app/workers/imageProcessor.ts:15-25 | the sums after the first rows of the window, each of the same number of samples |
| GridSampler.Window | app/workers/imageProcessor.ts:9-25 | the sums of the cell at (x, y): its window from `startIndex`, with `Math.ceil`-many rows and columns of `pixelHeight` and `pixelWidth` |
| GridSampler.RoundedMean | app/workers/imageProcessor.ts:31 | `Math.round(sum / count)`: the nearest integer, halves rounded up |
| GridSampler.ColourOf | app/workers/imageProcessor.ts:31 | the rounded mean of each channel, or the colour `NaN` gives when nothing was counted |
| GridSampler.Spacing | app/workers/imageProcessor.ts:27-28 | the distance between neighbouring cells, `100 / gridSize` percent |
| GridSampler.IsCell | app/workers/imageProcessor.ts:27-38 | the record pushed for (x, y): colour of its window, position `x*(100/gridSize)`, `y*(100/gridSize)`, home equal to it, zero velocity |
| GridSampler.AccumulateWindow | app/workers/imageProcessor.ts:10-25 | the `py`/`px` loops leave in `r`, `g`, `b` and `count` exactly the sums and the count of the in-buffer samples of the window |
| GridSampler.SampleCell | app/workers/imageProcessor.ts:9-38 | the cell at (x, y) has colour `rgb(round(r/count), …)` of its window, position `x*(100/gridSize)`, `y*(100/gridSize)`, home equal to that position, and zero velocity |
| GridSampler.RowMajor | app/workers/imageProcessor.ts:7-8 | cell number `y*gridSize + x` is at column `x` and row `y` |
| GridSampler.AppendCell | app/workers/imageProcessor.ts:30 | pushing cell (x, y) next keeps the list in row-major order |
| GridSampler.Sample | app/workers/imageProcessor.ts:1-43 | the output holds exactly `gridSize²` cells, and cell `k` is the cell at column `k % gridSize` and row `k / gridSize`: y is the outer loop, x the inner one |
| GridSampler.RowAccBounded | app/workers/imageProcessor.ts:15-24 | along a row, `count` grows by at most one per sample, and each channel sum stays within `255 * count` |
| GridSampler.WindowAccBounded | app/workers/imageProcessor.ts:13-25 | over a window, each channel sum is at most `255 * count`, and `count` is at most the number of loop iterations |
| GridSampler.CellBounded | app/workers/imageProcessor.ts:31 | every channel of a cell's colour is between 0 and 255 |
| GridSampler.MeanBounded | app/workers/imageProcessor.ts:31 | the rounded mean of at most 255 per sample lies in 0..255 |
| GridSampler.AddSampleUniform | app/workers/imageProcessor.ts:18-22 | in an image of one colour, a sample keeps each sum equal to that colour's channel times the count |
| GridSampler.RowAccUniform | app/workers/imageProcessor.ts:16-23 | in an image of one colour, a row keeps each sum equal to that colour's channel times the count |
| GridSampler.WindowAccUniform | app/workers/imageProcessor.ts:15-25 | in an image of one colour, each window sum is that colour's channel times the count |
| GridSampler.MeanOfEqual | app/workers/imageProcessor.ts:31 | the rounded mean of `count` copies of `v` is `v` |
| GridSampler.UniformImage | app/workers/imageProcessor.ts:31 | in an image of one colour, every cell with a sample gets exactly that colour |
| GridSampler.RowAccCountsFirst | app/workers/imageProcessor.ts:17-22 | the first row of a window whose first sample is in the buffer counts at least one sample |
| GridSampler.WindowAccCountsFirst | app/workers/imageProcessor.ts:15-25 | a window whose first sample is in the buffer counts at least one sample |
| GridSampler.PixelInImage | app/workers/imageProcessor.ts:9 | a pixel inside the image starts inside a full RGBA buffer |
| GridSampler.FullBufferColoursEveryCell | app/workers/imageProcessor.ts:9-31 | with a full buffer, every cell on the grid samples at least one pixel and gets a real colour, not `NaN` |
| GridSampler.SampleRedSquare | app/workers/imageProcessor.ts:1-43 | a red 100×100 image on a 10×10 grid gives 100 red cells at positions `10*(k % 10)`, `10*(k / 10)` |
| TextParticles.SlotsEvenlySpaced | app/components/ParticlesContainer.tsx:70 | consecutive letter slots are `LETTER_WIDTH + LETTER_GAP = 44` apart |
| TextParticles.WordWidth | app/components/ParticlesContainer.tsx:59 | the width of a row of n letters, `n * 40 + (n - 1) * 4` |
| TextParticles.SlotX | app/components/ParticlesContainer.tsx:70 | the target x of slot i, `(width - wordWidth) / 2 + i * 44` |
| TextParticles.Utf16 | app/components/ParticlesContainer.tsx:64 | a word as a JavaScript string holds it: at least one and at most two code units per character, and exactly the characters' own codes when all lie in the Basic Multilingual Plane |
| TextParticles.CodeUnits | app/components/ParticlesContainer.tsx:64 | a character below 0x10000 is one code unit with its own code; any other is a high surrogate and a low surrogate that decode back to it |
| TextParticles.SurrogatePairTakesTwoSlots | app/components/ParticlesContainer.tsx:59-71 | "A" followed by U+1F600 gives three particles, A and the two surrogate halves, at 436, 480 and 524 in a 1000-pixel container |
| TextParticles.RowCentred | app/components/ParticlesContainer.tsx:59-61 | the row is centred: the margin left of the first slot equals the margin right of the last letter |
| TextParticles.InitialVelocity | app/components/ParticlesContainer.tsx:67-68 | `(r - 0.5) * 4` for `r` in `[0, 1)` lies in `[-2, 2)` |
| TextParticles.InitializeParticles | app/components/ParticlesContainer.tsx:55-74 | one particle per UTF-16 code unit of the word, in order: at the container centre, with velocity in `[-2, 2)`, target at the letter's slot and at half height |
| TextParticles.InitialLayout | app/components/ParticlesContainer.tsx:59-71 | the targets of a new word are 44 apart and centred in the container |
| TextParticles.TestWordLayout | app/components/__tests__/ParticlesContainer.test.tsx:29-34 | "TEST" in a 1000×1000 container gives four particles T, E, S, T with targets 414, 458, 502 and 546 at height 500, all starting at (500, 500) |
| TextParticles.HandleResize | app/components/ParticlesContainer.tsx:83-94 | a resize keeps count, position, velocity and letter, and moves each target to its slot in the new container, for a row of `wordLength` slots. The word length is a parameter of its own because the window listener registered at app/components/ParticlesContainer.tsx:243-246, in an effect run once at mount, keeps the first `handleResize`. So every later resize lays the row out for the length of the word shown at mount; after "TEST" becomes "NEW", 3 targets are placed as in a 4-slot row (414, 458, 502 in a 1000-pixel container) |
| TextParticles.ResizeTwice | app/components/ParticlesContainer.tsx:88-94 | only the last of two resizes matters |
| TextParticles.ResizeMatchesFreshLayout | app/components/ParticlesContainer.tsx:55-94 | resizing a new layout gives the targets of a layout made in the new container |
| TextParticles.HandleKeyboardNavigation | app/components/ParticlesContainer.tsx:99-115 | each arrow key moves the pointer 20 along its axis in its direction; any other key leaves it alone |
| TextParticles.OppositeArrowsCancel | app/components/ParticlesContainer.tsx:99-115 | up then down, and left then right, bring the pointer back |
| TextParticles.DistanceComparison | app/components/ParticlesContainer.tsx:200-202 | for a non-negative distance, `distance < r` exactly when its square is below `r²`, and the distance is zero exactly when its square is |
| TextParticles.WallClamp | app/components/ParticlesContainer.tsx:182-196 | after the wall step the coordinate is inside `[0, limit]`; at the near wall the speed is kept and the velocity points inward (non-negative); at the far wall it points inward (non-positive); inside, nothing changes |
| TextParticles.EffectiveTargetY | app/components/ParticlesContainer.tsx:174-175 | the target y of this frame: the centre line while the input has focus, the stored target otherwise |
| TextParticles.Repelled | app/components/ParticlesContainer.tsx:198-207 | the repulsion increment is added exactly when the squared distance to the pointer is below `40²` |
| TextParticles.Pulled | app/components/ParticlesContainer.tsx:209-224 | the spring increment is added unless the target is reached; both velocity components are then scaled by 0.8 within distance 5 of the target |
| TextParticles.Moved | app/components/ParticlesContainer.tsx:230 | a step moved a particle when it changed `x`, `y`, `vx` or `vy` |
| TextParticles.Stepped | app/components/ParticlesContainer.tsx:172-234 | a frame step keeps the letter and the stored targets, and leaves the particle inside the container |
| TextParticles.FocusOverride | app/components/ParticlesContainer.tsx:174-175 | with the input focused, a step is the unfocused step toward the centre line, with the stored `targetY` left as it was |
| TextParticles.RestIsFixed | app/components/ParticlesContainer.tsx:179-228 | a particle inside the container, at rest on its target and outside the mouse radius, is a fixed point of the step |
| TextParticles.UnmovedIsUnchanged | app/components/ParticlesContainer.tsx:230-234 | a step that changes none of `x`, `y`, `vx`, `vy` returns the particle unchanged |
| TextParticles.Bounce | app/components/ParticlesContainer.tsx:182-196 | the in-place reassignment of the coordinate and velocity at the walls computes the wall step |
| TextParticles.StepParticle | app/components/ParticlesContainer.tsx:172-234 | the per-particle body, which reassigns its locals in order (focus, integrate, walls, repulsion, spring, near damping, friction), computes the frame step |
| TextParticles.Animate | app/components/ParticlesContainer.tsx:169-237 | every particle is stepped, in order; `hasChanged` is set exactly when some particle's `x`, `y`, `vx` or `vy` changed; otherwise the previous array itself comes back |
| Geometry.Abs | app/components/ParticlesContainer.tsx:184-187 | `Math.abs` is non-negative and is the value or its negation |
| TextParticles.SettledFieldIsKept | app/components/ParticlesContainer.tsx:230-237 | a field inside the container, at rest on its targets and away from the pointer, reports no change |
| TextParticles.LongWordOverflows | app/components/ParticlesContainer.tsx:58-61 | a twenty-letter word in a 375-pixel container has slots from -250.5 to 585.5, and a particle whose slot is outside the container is never on it after a step |
| ImageParticles.Next | app/components/PixelatedImage.tsx:119-138 | move sets `moving` and the position; leave clears `moving` only; down sets `moving` and `touchActive`; up clears both; Enter or Space toggles `moving`, and any other key changes nothing |
| ImageParticles.IsToggleKey | app/components/PixelatedImage.tsx:227 | the keys that toggle the interaction are Enter and Space |
| ImageParticles.Replay | app/components/PixelatedImage.tsx:119-138 | the pointer after a sequence of events, handled in order |
| ImageParticles.HeldAfter | app/components/PixelatedImage.tsx:130-138 | whether a press is held after the events: set by the last press or release, the initial flag when there is neither |
| ImageParticles.TouchFollowsLastPress | app/components/PixelatedImage.tsx:130-138 | after any sequence of events, `touchActive` is whatever the last press or release set, or its old value when there was neither |
| ImageParticles.ToggleTwice | app/components/PixelatedImage.tsx:225-230 | two toggle keys in a row, Enter then Space or any other pair, restore the state |
| ImageParticles.PressRelease | app/components/PixelatedImage.tsx:130-138 | a press and a release leave both flags clear and the position unchanged |
| ImageParticles.PressMoveRelease | app/components/__tests__/PixelatedImage.test.tsx:59-69 | a press, a move and a release leave the moved-to position with both flags clear |
| ImageParticles.Percent | app/components/PixelatedImage.tsx:121-122 | the stored coordinate is not a finite number exactly when the extent is zero. Otherwise it is the percentage, `r * extent == (client - origin) * 100`: in `[0, 100]` inside the container, 0 at its near edge and 100 at its far edge |
| ImageParticles.PercentOf | app/components/PixelatedImage.tsx:121-122 | for a non-zero whole, `t / extent * 100` times the whole is `100 t`, lies in `[0, 100]` for a part between 0 and the whole, and is 0 and 100 at the ends |
| ImageParticles.QuotientInUnit | app/components/PixelatedImage.tsx:121-122 | a quotient of `0..extent` by `extent` is in `[0, 1]` |
| ImageParticles.PointerTracker.constructor | app/components/PixelatedImage.tsx:46-50 | the pointer starts at (0, 0) with both flags clear |
| ImageParticles.PointerTracker.HandlePointerMove | app/components/PixelatedImage.tsx:119-124 | for any container, the handler stores the pointer as percentages and sets `moving`, as `Next` says. A coordinate inside a container of positive extent is finite and in `[0, 100]`; over a zero extent it is not a finite number |
| ImageParticles.PointerTracker.HandlePointerLeave | app/components/PixelatedImage.tsx:126-128 | the handler makes the transition of `Next` for a leave |
| ImageParticles.PointerTracker.HandlePointerDown | app/components/PixelatedImage.tsx:130-133 | the handler makes the transition of `Next` for a press |
| ImageParticles.PointerTracker.HandlePointerUp | app/components/PixelatedImage.tsx:135-138 | the handler makes the transition of `Next` for a release |
| ImageParticles.PointerTracker.HandleKeyDown | app/components/PixelatedImage.tsx:225-230 | the handler makes the transition of `Next` for a key |
| ImageParticles.PointerTracker.UpdateParticlePosition | app/components/PixelatedImage.tsx:154-186 | the body, which reassigns `vx`, `vy`, `x`, `y` in order (push, spring, damping, integrate), computes `Updated` under the tracker's current pointer state |
| ImageParticles.ForceMultiplier | app/components/PixelatedImage.tsx:164 | the push multiplier is 3 during a touch and 2 otherwise |
| ImageParticles.WithinForce | app/components/PixelatedImage.tsx:160-162 | `distance < FORCE_RADIUS`: both pointer coordinates finite and the squared distance below `100²` |
| ImageParticles.Repelled | app/components/PixelatedImage.tsx:157-169 | the push is taken off the velocity exactly when the pointer is active and within the force radius, with the touch-dependent multiplier |
| ImageParticles.NonFiniteMoveKeepsStepping | app/components/PixelatedImage.tsx:188-200 | after a move over a zero-size container, a frame moves a particle at rest one unit from home to 0.92 units, where a frame under an idle pointer leaves it |
| ImageParticles.NonFinitePointerIsIdle | app/components/PixelatedImage.tsx:157-169 | after a move over a zero-size container, the pointer pushes nothing: one update step is the idle pointer's step; frames keep running while `moving` is set |
| ImageParticles.Updated | app/components/PixelatedImage.tsx:154-186 | the colour and home cell are kept; with the pointer idle, the step is exactly `vx' = (vx + (originalX - x)*0.1)*0.8`, `x' = x + vx'`, and likewise for y |
| ImageParticles.HomeIsFixed | app/components/PixelatedImage.tsx:171-185 | a particle at home and at rest is a fixed point while the pointer is idle |
| ImageParticles.IdleAxisStep | app/components/PixelatedImage.tsx:171-183 | the offset from home moves by the new velocity |
| ImageParticles.IdleStepLinear | app/components/PixelatedImage.tsx:171-183 | with the pointer idle, each axis's offset and velocity follow the linear recurrence `v' = 0.8v - 0.08e`, `e' = e + v'` |
| ImageParticles.ReleaseFromRest | app/components/PixelatedImage.tsx:171-183 | a particle released at rest closes 8% of its distance to home in its first update step |
| ImageParticles.Energy | app/components/PixelatedImage.tsx:171-183 | the energy `e² + 1.5ev + 10v²` of one axis, with offset e and velocity v; by `EnergyBounds` it is at least `e²/16` and at least `9.4375 v²` |
| ImageParticles.EnergyBounds | app/components/PixelatedImage.tsx:171-183 | the quadratic form is at least `e²/16` and at least `9.4375 v²` |
| ImageParticles.EnergyContracts | app/components/PixelatedImage.tsx:171-183 | one idle update step scales the energy by exactly 0.8 |
| ImageParticles.Decay | app/components/PixelatedImage.tsx:178-179 | `0.8ⁿ` lies in `(0, 1]` |
| ImageParticles.AxisSteps | app/components/PixelatedImage.tsx:171-183 | one axis after n idle update steps |
| ImageParticles.IdleSteps | app/components/PixelatedImage.tsx:171-185 | a particle after n calls of the update with the pointer idle throughout; the field makes such calls only while it has work |
| ImageParticles.IdleStepsByAxis | app/components/PixelatedImage.tsx:171-185 | n idle update steps of a particle move each axis by n steps of its own recurrence |
| ImageParticles.EnergyDecays | app/components/PixelatedImage.tsx:171-183 | after n idle update steps the energy is exactly `0.8ⁿ` times the initial energy |
| ImageParticles.AxisReturnsHome | app/components/PixelatedImage.tsx:171-185 | after n idle update steps the squared offset from home is at most `16 * 0.8ⁿ` times the initial energy |
| ImageParticles.Overshoots | app/components/PixelatedImage.tsx:171-183 | an axis released at rest one unit from home has crossed home after 7 update steps, and is farther from it after 8 than after 7 |
| ImageParticles.NeedsUpdate | app/components/PixelatedImage.tsx:192-193 | a frame has work exactly when the pointer is active or some particle has `|vx| > 0.01` or `|vy| > 0.01` |
| ImageParticles.Restless | app/components/PixelatedImage.tsx:193 | a particle is not at rest when `|vx| > 0.01` or `|vy| > 0.01` |
| ImageParticles.UpdateParticles | app/components/PixelatedImage.tsx:190-197 | a frame with work maps every particle through the update, in order; otherwise the current array itself comes back |
| ImageParticles.IdleFrameIsKept | app/components/PixelatedImage.tsx:192-195 | with the pointer idle and every velocity component at most 0.01 in size, the frame returns the current array |
| ImageParticles.Frames | app/components/PixelatedImage.tsx:188-200 | the field after n frames of the animation loop |
| ImageParticles.FrozenFieldStaysFrozen | app/components/PixelatedImage.tsx:192-195 | a field at rest under an idle pointer is never changed by any later frame, wherever its particles stand |
| ImageParticles.FrozenOffHome | app/components/PixelatedImage.tsx:188-200 | a particle at rest one unit from home under an idle pointer stays there for every frame, though one update step would move it to 0.92 units from home |
| ImageParticles.FrameKeepsPicture | app/components/PixelatedImage.tsx:185-197 | a frame never changes a colour or a home cell |

## Left out

- Rendering, hooks and presentation are not modelled: React, JSX, `memo`, `useState` and `useCallback`, the presentational components and the icons. Each frame's input and output are explicit values instead.
- Scheduling is not modelled: `requestAnimationFrame`/`cancelAnimationFrame`, and the 100 ms `debounce` of the resize handler (app/components/ParticlesContainer.tsx:36-44). One call of `Animate`, `UpdateParticles` or `HandleResize` is one frame or one resize.
- The `if (!containerRef.current) return` guards are not modelled. The container's size is a parameter (`Rect`, `Bounds`).
- Event-listener registration and removal on `window` and the container are not modelled. The text field's mouse and touch-move handlers, which only store the pointer position, are not modelled either; the pointer is a parameter of `Frame`.
- Pull-to-refresh touch handling and `window.location.reload` are not modelled (app/components/ParticlesContainer.tsx:117-159). They are page side effects.
- `Math.random` is a parameter: a pair of numbers in `[0, 1)` per letter.
- The repulsion and spring forces are opaque velocity increments, represented by the `repulsion`, `spring` and `push` function parameters. They use `Math.sqrt`, `Math.atan2`, `Math.cos` and `Math.sin` (app/components/ParticlesContainer.tsx:198-218, app/components/PixelatedImage.tsx:158-168). Nothing is proved about their size or direction, so "a particle inside the radius is pushed away" is not stated.
- Because the text field's spring is opaque, neither convergence nor a lack of overshoot is proved for the text field.
- Worker loading, `postMessage`, `Image` decoding and the canvas centre crop with `getImageData` are not modelled (app/components/PixelatedImage.tsx:52-113). The sampler takes the byte buffer and its dimensions directly.
- app/utils/usePageVisibility.ts is not part of this model. It only negates `document.hidden`.
- Routes, meta tags, static content and configuration are not modelled. They hold no logic.
- Floating point is exact real arithmetic. Rounding of IEEE doubles, for example in `x * (100 / gridSize)` or in any step of the spring, is not modelled.
- `NaN` is not modelled as a number. A cell with `count = 0` gets the colour `NaNColour` instead of the string `rgb(NaN,NaN,NaN)`. The image field's division by a zero distance, when the pointer sits exactly on a particle, is inside the opaque `push`.
- GridSampler.ColourOf: the colour is the triple of rounded means, not the formatted `rgb(…)` string.
- ClassNames.NatToString: numbers are integers only. The JavaScript formatting of fractions, exponents, `NaN` and `Infinity` by `toString` is not modelled.
- ClassNames.ObjectArgument: an object is its own enumerable entries, in enumeration order. `for…in` over inherited properties, which the `hasOwnProperty` check filters out anyway, is not modelled, and neither is JavaScript's integer-key-first ordering.
- ImageParticles.Coord: `Infinity`, `-Infinity` and `NaN` are one value, `NonFinite`. Which of them a move over a zero-size container stores is not modelled; the field uses the coordinate only in the force-radius test, which all three fail.
- ImageParticles.AxisReturnsHome: the return-home bound is stated per axis and joined to a particle through `IdleStepsByAxis`, not as one particle-level lemma.
- ImageParticles.IdleStepsByAxis: it counts update steps, not frames. The frame's short-circuit stops every update once the pointer is idle and all velocity components are at most 0.01, so the bound holds only for as long as the field keeps updating. Under that rule particles can come to rest away from home (`FrozenOffHome`), and nothing is proved about where they settle.
