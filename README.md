# Letter-glitch background, modelled in Dafny

This project models the animated letter-glitch background of the site's hero
section. That is the engine inside `initLetterGlitchBackground` in
`js/main.js`. It fills a canvas with a grid of monospace glyphs. A few random
glyphs change every tick, and a changed glyph fades smoothly from the colour it
showed to a new palette colour. The model covers three parts:

- **The colour codec** (`color.dfy`, `decimal.dfy`):
  - `hexToRgb`: an optional `#`, then 3 or 6 hex digits, in either case.
  - `rgbToString`, which writes `rgb(r, g, b)`.
  - `parseColorToRgb`: hex, or the leftmost unanchored `rgb(...)` match.
  - `interpolateColor`, with JavaScript's `Math.round`.
  - The palette filter and `getRandomColor`.
- **The grid** (`grid.dfy`):
  - `calculateGrid` uses ceiling division with 10×20 pixel cells.
  - The row-major index→position mapping of `drawLetters`.
- **The engine** (`glitch.dfy`):
  - The `state` object is the class `Animator`, which owns an array of letters.
  - `initializeLetters`, `resizeCanvas`, `updateLetters`, `handleSmoothTransitions`, `animate` and the `visibilitychange` handler are methods on it.
  - Each method is proved against a function on sequences of letters: `InitialLetters`, `ApplyGlitches` and `AdvanceAll`.
  - The lemmas state what the source promises about those functions.

Modelling choices:

- **Randomness.** `Math.random()` is an input. A `Fraction` `num/den` with `num < den` stands for one draw, and `Pick(n, u)` is `Math.floor(u * n)`. Every call takes its draws as a sequence, in the order the source makes them. With an empty palette the colour draw is unused: the source makes no such draw.
- **Colour progress.** `colorProgress` is a whole number `k` of steps out of `Steps = 20`, standing for `k * 0.05`. The source only adds `0.05` and clamps at `1`. `interpolateColor(s, e, k/20)` is computed exactly as `round((s*20 + (e-s)*k) / 20)`, with halves rounded up as `Math.round` does.
- **Timestamps and handles.** Timestamps are integers. A frame handle is an `Option<FrameId>`, and `FrameId` is a positive integer like those `requestAnimationFrame` returns.
- **A letter's colour.**
  - The source stores a letter's painted colour as the text `rgbToString(c)`. Every value it ever stores there has that form.
  - The model stores `c` itself and writes `RgbToString(c)` wherever the source reads that text: the glyph's `fillStyle`, and the `parseColorToRgb` that starts a smooth transition.
  - The round-trip lemma `ParseColorToRgbOfRgbToString` is what lets a new transition start from the colour on screen.
- **Shrinking the container.** A smaller container is sometimes described as giving strictly fewer cells. The code only guarantees no more cells: ceiling division maps 291 and 300 pixels to the same 30 columns. The model follows the code, in `Grid.CalculateGridMonotone`.

## Model

| member | source | states |
|---|---|---|
| Color.HexToRgb | js/main.js:202-213 | a colour is returned exactly when the text is an optional `#` followed by 3 or 6 hex digits; every channel is a byte; anything else gives nothing |
| Color.HexShorthandDoubles | js/main.js:204-205 | the shorthand `xyz` denotes the same colour as `xxyyzz`, with or without `#` |
| Color.HexToRgbIgnoresCase | js/main.js:204-206 | upper- and lower-case spellings parse to the same result |
| Color.HexHashOptional | js/main.js:204-206 | the leading `#` is optional: text without one parses the same with one added |
| Color.HexToRgbOfRgbToHex | js/main.js:206-212 | any byte triple written as six lower-case hex digits parses back to itself, so each pair is read as `parseInt(pair, 16)` |
| Color.HexToRgbExample | js/main.js:202-213 | `#61dca3` and `61DCA3` give (97, 220, 163), `#fff` gives white, and five digits or the empty string give nothing |
| Decimal.IntToString | js/main.js:216 | the printed integer is non-empty, and is all digits exactly when the integer is not negative |
| Decimal.DigitsValueOfNatToString | js/main.js:226-229 | `Number()` of a printed natural number gives the number back |
| Decimal.NatToStringInjective | js/main.js:216 | distinct natural numbers print differently |
| Color.RgbToString | js/main.js:215-217 | the text is `rgb(` and `)` around the numerals, at least twelve characters long |
| Color.ParseColorToRgb | js/main.js:219-231 | whatever it returns has non-negative channels |
| Color.Field | js/main.js:224 | one `\s*(\d+)\s*` field fails exactly when no digit follows the leading white space; otherwise it consumes at least one character and what is left does not start with white space |
| Color.MatchRgb | js/main.js:224 | a match reads non-negative channels and needs at least ten characters starting with `rgb(` in either case |
| Color.FindRgb | js/main.js:224-225 | the unanchored search returns only non-negative channels, and only from text at least ten characters long |
| Color.ParseColorToRgbCases | js/main.js:219-225 | empty text gives nothing; text starting with `#` is handed to the hex parser; any other text gives a colour exactly when an `rgb(...)` match starts somewhere in it |
| Color.FindRgbLeftmost | js/main.js:224-225 | the unanchored search succeeds exactly when a match starts at some position, and returns the match at the leftmost such position |
| Color.MatchRgbOfLayout | js/main.js:224 | the pattern matches the `rgb(R, G, B)` layout for any three numerals and reads their values |
| Color.ParseColorToRgbOfRgbToString | js/main.js:215-231 | round trip: parsing `rgbToString(c)` gives `c` back for every colour with non-negative channels |
| Color.RoundDiv | js/main.js:235-237 | `Math.round(num/den)`: the result is the integer nearest `num/den`, with halves going up |
| Color.Lerp | js/main.js:235 | one channel: factor 0 gives the start value, factor 1 the end value, and any factor in [0, 1] a value between them |
| Color.InterpolateColor | js/main.js:233-239 | factor 0 gives the start colour and factor 1 the end colour; for a factor in [0, 1] every channel lies between its ends, so byte colours give a byte colour |
| Color.Palette | js/main.js:193-195 | filtering never adds entries, and every kept entry is a byte colour |
| Color.PaletteMembers | js/main.js:193-195 | a colour is in the palette exactly when some configured string parses to it |
| Color.PaletteOfValid | js/main.js:193-195 | when every configured string is a hex colour, the palette is their parses in order |
| Color.DefaultPalette | js/main.js:193-195 | the configured colours give (43, 69, 57), (97, 220, 163) and (97, 179, 220) |
| Color.PickColor | js/main.js:245-250 | an empty palette gives white; otherwise the colour is a palette entry, and a byte colour when the palette is valid |
| Draws.Pick | js/main.js:242 | `Math.floor(Math.random() * n)` is an index below `n` |
| Draws.PickReachesEvery | js/main.js:249 | every index below `n` is drawn by some random value |
| Grid.CeilDiv | js/main.js:254-255 | `Math.ceil(x / d)` is the least `q` with `x <= q*d` |
| Grid.CalculateGrid | js/main.js:252-257 | `(columns-1)*10 < width <= columns*10` and `(rows-1)*20 < height <= rows*20` |
| Grid.CalculateGridMonotone | js/main.js:252-257 | a container that is no larger gives no more columns, rows or cells |
| Grid.CalculateGridExample | js/main.js:252-257 | 300×200 gives 30×10 cells, 301×201 gives 31×11, and 0×0 gives none |
| Grid.CellPositionInGrid | js/main.js:284-287 | `CellPosition`, the row-major index→position mapping `((i % columns)*10, floor(i / columns)*20)`, puts cell `i` of the grid inside the grid's pixel area, on a cell boundary |
| Grid.CellIndexOfPosition | js/main.js:284-287 | the row-major index is recovered from the drawn position |
| Grid.CellPositionInjective | js/main.js:284-287 | distinct indices are drawn at distinct positions |
| Glitch.RandomChar | js/main.js:241-243 | the glyph drawn is one of the configured characters |
| Glitch.NewLetter | js/main.js:262-271 | a new cell has a configured glyph and is settled at progress 1 on one colour, which it is painted with; that colour is a palette entry, or white for an empty palette; the cell is coherent when the palette has byte colours |
| Glitch.InitialLetters | js/main.js:259-273 | one cell per grid position; nothing is in flight; every cell is coherent when the palette is |
| Glitch.SettledShowsTarget | js/main.js:338-341 | a coherent letter at progress 1 is painted in its target colour |
| Glitch.UpdateCount | js/main.js:297 | at least one update; exactly one below 40 cells; `floor(total/20)` from 20 cells on |
| Glitch.DrawnIndex | js/main.js:301 | the drawn index lies inside the array |
| Glitch.Mutate | js/main.js:305-317 | the drawn letter gets the new glyph and target; in smooth mode progress drops to 0, the painted colour is kept, and the new start is that colour when its channels are non-negative, as every engine colour is; otherwise it is settled on the target; a coherent letter stays coherent for a byte target |
| Glitch.GlitchStep | js/main.js:300-320 | one iteration keeps the array's length and changes no letter but the drawn one |
| Glitch.ApplyGlitches | js/main.js:294-323 | a tick keeps the array's length |
| Glitch.GlitchStepCoherent | js/main.js:300-320 | one iteration keeps every letter coherent |
| Glitch.ApplyGlitchesCoherent | js/main.js:294-323 | a whole tick keeps every letter coherent |
| Glitch.ApplyGlitchesFrame | js/main.js:299-322 | a letter that no draw selects is left exactly as it was |
| Glitch.ApplyGlitchesAppend | js/main.js:299-322 | running the draws in two parts is the same as running them in one |
| Glitch.SmoothGlitchStepKeepsDisplay | js/main.js:307-310 | in smooth mode one iteration never changes the colour a letter is painted with |
| Glitch.SmoothGlitchesKeepDisplay | js/main.js:307-310 | in smooth mode a whole tick never changes the colour any letter is painted with |
| Glitch.ApplyGlitchesAfterLast | js/main.js:299-322 | draws after the last one that selects a letter leave that letter alone |
| Glitch.ApplyGlitchesLastDraw | js/main.js:299-322 | a drawn letter ends with the glyph and target of the last draw that selected it; in smooth mode it starts a transition from the colour shown before the tick, and otherwise it is settled on the new colour |
| Glitch.Advance | js/main.js:329-342 | one frame raises an unsettled letter's progress by exactly one step, leaves a settled letter untouched, keeps the glyph and both end colours, and keeps the letter coherent |
| Glitch.AdvanceAll | js/main.js:325-346 | every letter advances one frame; an array with nothing in flight is left as it is |
| Glitch.AdvanceAllCoherent | js/main.js:325-346 | one frame keeps every letter coherent |
| Glitch.AdvanceTimesProgress | js/main.js:338 | after `n` frames a letter's progress is `min(1, progress + n*0.05)` |
| Glitch.TransitionSettles | js/main.js:338-341 | twenty frames settle any letter on its target colour |
| Glitch.AdvanceAllTimesAt | js/main.js:327-345 | `n` frames of the array are `n` frames of each letter |
| Glitch.TransitionsSettle | js/main.js:325-346 | twenty consecutive calls leave nothing in flight and every letter painted in its target colour |
| Glitch.Paint | js/main.js:284-290 | one glyph per letter, and no two glyphs at the same position |
| Glitch.PaintLayout | js/main.js:284-290 | `drawLetters` paints each letter once, in its glyph and colour, inside the grid |
| Glitch.Animator.constructor | js/main.js:157-167 | the initial state has no letters, an empty grid, no frame handle and `lastGlitchTime` set to now |
| Glitch.Animator.InitializeLetters | js/main.js:259-273 | the grid becomes `(columns, rows)` and the array is a fresh one of `columns*rows` settled letters; nothing else changes |
| Glitch.Animator.ResizeCanvas | js/main.js:348-366 | the size is the container's or the window's, the grid is `calculateGrid` of that size, and the letters are regenerated for it |
| Glitch.Animator.MutateDrawn | js/main.js:300-320 | one loop iteration changes exactly the drawn letter, as `Mutate` says |
| Glitch.Animator.UpdateLetters | js/main.js:294-323 | an empty array gives `false` and nothing changes; otherwise the result is `true` and the array is the tick's draws applied in order; every letter stays coherent |
| Glitch.Animator.AdvanceLetter | js/main.js:329-342 | one iteration changes only its own letter, advancing it one frame, and reports whether it was in flight |
| Glitch.Animator.HandleSmoothTransitions | js/main.js:325-346 | smooth mode off: `false` and nothing changes; otherwise every letter advances one frame, and the result is `true` exactly when some letter was in flight |
| Glitch.Animator.Animate | js/main.js:375-394 | `lastGlitchTime` moves to the timestamp exactly when a tick is due, whether or not a letter changed; a redraw happens exactly when the tick or the transitions changed something; the next frame handle is installed |
| Glitch.Animator.OnVisibilityChange | js/main.js:400-408 | hiding a running loop clears its handle; showing a paused loop resets `lastGlitchTime` to now and installs exactly one handle; otherwise nothing changes |
| Glitch.InitLetterGlitchBackground | js/main.js:144-397 | nothing starts without the container or a 2D context; otherwise the engine holds the options' palette, `smooth` and `glitchSpeed`, is sized to the container or the window, is filled with settled letters for that grid and is running with its first frame handle |

## Left out

- Navigation, the year text, the gallery alerts and the Instagram embed loader (`js/main.js:9-142`): these are DOM wiring and third-party script loading with no state of their own.
- The canvas, scrim and vignette elements (`js/main.js:169-187`) and every drawing call: `clearRect`, `font`, `textBaseline`, `globalAlpha`, `save`/`restore`, `setTransform`, and the `devicePixelRatio` scaling of the canvas. These are host rendering APIs. The model keeps only which glyph is painted where and in which colour (`Glitch.Paint`).
- The 100 ms resize debounce (`js/main.js:368-373`) and the scheduling that `requestAnimationFrame` does. Each tick and each resize is a method call, and a frame handle is a supplied `FrameId`.
- `Math.random()`, `performance.now()`, the container's size and the window's size are parameters.
- `Color.HexToRgb`: takes a string. The `typeof hex !== "string"` guard of the source has no counterpart, because every caller passes a string.
- `Color.InterpolateColor`: computes with the exact factor `k/20`. The source multiplies by the float `colorProgress`, which can sit just off `k*0.05` (for example `0.15000000000000002`), so at an exact `.5` tie the source's `Math.round` may go the other way. Fractional channels, which the engine never produces, are not modelled either.
- `Glitch.UpdateCount`: computes `floor(total/20)`. The source computes `Math.floor(total * 0.05)` in floating point, and the two would differ only if rounding of the product crossed an integer. The model does not cover that case.
- `Color.ParseColorToRgb`: reads digit runs as exact natural numbers. `Number()` of a very long digit run in the source loses precision.
- Sizes and timestamps are whole numbers. The source's fractional CSS pixel sizes and sub-millisecond timestamps are not modelled.
- Two source branches that no input reaches are not modelled:
  - `if (!letter) continue` (`js/main.js:303`): the drawn index is always inside the array.
  - `if (!start || !end)` (`js/main.js:333-336`): every letter always has both colours.
- The character set and the configuration are constants of the source (`js/main.js:148-155`). The model takes the options as a value and uses the fixed character string.
