# Canvas: a verified model of an in-line terminal drawing engine

The Go package `canvas` draws on a fixed-size grid of cells, directly in
the terminal, below the prompt. A `Canvas` keeps a cache of what it has
last told the terminal: the cursor `(x, y)`, the foreground and background
colours and the text style. Every drawing call compares its request with
the cache. If nothing would change, it writes nothing. Otherwise it
appends the smallest set of ECMA-48 control sequences to an internal
buffer and updates the cache. Those sequences are relative cursor motions
(CUF, CUB, CUD, CUU) and SGR renditions, including the xterm 256-colour
forms `38;5;N` and `48;5;N`. `Flush` hands the buffer to the terminal.

The model has five modules:

- `Ansi` (ansi.dfy): the byte-level vocabulary.
  - `Decimal` is `strconv.Itoa` for non-negative numbers; `DecimalValue` reads it back (`DecimalRoundTrip`).
  - `Csi` and `Sgr` build control sequences.
  - `CursorMotion`, `AxisMotion` and `Motion` are what `Move` writes.
- `Colors` (color.dfy): the `Color` record and the named colours.
  - `Resolve` maps a colour to a palette entry or to the terminal's default colour.
  - `ColorCode` is the fragment `setBgFg` writes.
  - `ColorUpdate` is what `SetBackground`/`SetForeground` append for a given cache.
- `Styles` (style.dfy): the style bit flags.
  - `Has` is Go's `style&flag != 0` on two's-complement ints, for the single-bit flags.
  - `StyleCodes` is the fragments `SetStyle` writes, driven by a table.
  - `StyleUpdate` is what `SetStyle` appends for a given cache.
- `Terminal` (terminal.dfy): a small reference terminal. It tokenises characters into the subset of the control sequences of section 5.4 of ECMA-48 that the canvas writes (parameter bytes and a final byte, no intermediate bytes; any other ESC reads as a stray character) and applies CUF/CUB/CUD/CUU, SGR and line feeds to a screen.
  - This is the independent meaning the emitted fragments are proved against: for each fragment, what the terminal does with it.
  - The screen holds the cursor, the two colours and the set of attributes in force.
- `Canvas` (canvas.dfy): the class `Canvas`, with the fields of the Go struct and methods that update them in place.
  - The buffer is a `string` field that the methods append to.
  - `out` is a ghost field that collects everything `Flush` has handed over.
  - The nested loops of `NewCanvas` and of `Clear` are kept as loops with invariants.
  - To keep each proof small, the loops sit in three helper methods: `FillRows` (the rows of `NewCanvas`), `ClearLines` (the outer loop of `Clear`) and `ClearLine` (one pass of that loop).

What is proved:

- Every method of the engine states its whole new state: the cache fields and exactly what it appends to the buffer, as a function of the old state.
- The cursor invariant `Valid()` is established by the constructor and kept by every operation, with `Width`, `Height` and `Background` fixed at construction (see "## Left out"). It says the cursor is inside the canvas, or at the one off-canvas position `(Width, Height-1)` that `NewCanvas` sets on purpose. On a canvas with cells the constructor leaves the cursor at the origin, and a cursor on the canvas stays on it.
- The emitted fragments agree with the terminal.
  - A motion moves the terminal cursor by exactly the displacement the cache records.
  - A colour code paints its channel with the resolved colour.
  - A style's codes give a full reset, colours included, when Normal is set, then add the style's attributes to those already on.
  - `Write` moves the terminal cursor to the column the cache records, for a terminal that gives every character one column (see "## Left out").
  - `Clear` returns the terminal cursor to where the cache puts it.
  - `NewCanvas` leaves the terminal cursor on the canvas's origin.

The Terminal lemmas also show that the colour cache can disagree with the
terminal (see "## Findings"). When the style includes Normal, `SetStyle`
writes `ESC[0m`, which resets the terminal's colours, but the colour cache
keeps its old values, and `SetForeground`/`SetBackground` then write nothing
for a colour the cache already holds. The engine's methods model the code
as written. The corrected `SetStyleSynced` and `WriteAtSynced` sit beside
them. `SyncedColorsReach` shows that they keep the cache in agreement with
the terminal where it already holds; `SyncedPrefillAgrees` shows that the
corrected opening of `NewCanvas` establishes it. As written it does not hold
on a fresh canvas: the foreground cache keeps the zero value `ColorBlack`
while the terminal shows its default foreground, so even `WriteAtSynced`
writes no code for a black foreground there.

A style without Normal writes no reset, so its attributes are added to those
already on: after `SetStyle(StyleBold)` and then `SetStyle(StyleDim)` the
terminal is both bold and dim, while the cache holds `StyleDim`.
`Terminal.RunStyleCodes` states this; a caller that wants the new style
alone includes Normal in it.

The TODO at canvas.go:299 says runes should not be cut in the middle of
their bytes; the code slices bytes. The model follows the code, restricted
to the case where the two agree (see `Canvas.Canvas.Write` below).

## Model

| member | source | states |
|---|---|---|
| `Canvas.Canvas.constructor` | canvas.go:118-140 | the dimensions, the background and fg = black are set, with style = Normal, bg = background, no CursorOnEnd and an empty buffer. The output is the background code from the zero-valued cache, the Normal style, then every row of Width blanks with the background turned off around each line feed. With cells, it ends with the motion from (width, height-1) to the origin and the cursor at (0, 0); without cells, it stays at (width, height-1). Valid holds |
| `Canvas.Canvas.FillRows` | canvas.go:126-135 | the nested loop of NewCanvas appends exactly PrefillRows: Width blanks per row, and after every row but the last the ColorDefault/newline/background separator; bg ends as Background |
| `Canvas.PrefillSync` | canvas.go:118-140 | on a canvas with cells, a terminal reading NewCanvas's whole output from its home position ends at column 0, row 0: the cursor NewCanvas caches |
| `Canvas.RunPrefillRows` | canvas.go:126-135 | reading the first i rows from the start of a row leaves the cursor at the start of row i, or one past the end of the last row once all are read, given a separator that returns to column 0 of the next row |
| `Canvas.SeparatorEffect` | canvas.go:129-133 | the separator between prefill rows is complete and takes the terminal cursor to column 0 of the next row |
| `Canvas.HeadKeepsCursor` | canvas.go:124-125 | the initial background and Normal-style codes do not move the terminal cursor |
| `Canvas.Canvas.Move` | canvas.go:263-287 | returns Ok exactly when the target is the cached cursor or lies on the canvas. On Ok the cursor becomes the target and the buffer gains Motion (nothing when the target is the cached cursor). On OutOfBounds the cursor and buffer are unchanged. Valid is kept, and a cursor on the canvas stays on it |
| `Ansi.MotionEmpty` | canvas.go:272-284 | Move's fragment is empty if and only if the target equals the cursor |
| `Ansi.AxisMotionShape` | canvas.go:272-281 | along one axis nothing is written exactly when the coordinates agree; otherwise the fragment ends in the forward op when the target lies ahead and in the backward op when it lies behind |
| `Ansi.CursorMotionShape` | canvas.go:273-275 | a motion fragment is ESC, '[', the decimal numeral of the count (all digits, reading back as n) and the op byte |
| `Ansi.DecimalRoundTrip` | canvas.go:212 | reading back the numeral strconv.Itoa writes for n gives n |
| `Ansi.DecimalDigits` | canvas.go:274 | the numeral is non-empty, all digits, with no leading zero except for 0 itself |
| `Ansi.DecimalInjective` | canvas.go:274 | different counts give different numerals |
| `Terminal.RunMotion` | canvas.go:283-285 | Move's fragment moves a terminal cursor by exactly (toX - fromX, toY - fromY) and changes nothing else on the screen |
| `Terminal.RunHorizontal` | canvas.go:283 | the horizontal fragment shifts the terminal column by the displacement |
| `Terminal.RunVertical` | canvas.go:284 | the vertical fragment shifts the terminal row by the displacement |
| `Terminal.RunCursorMotion` | canvas.go:273-275 | ESC[nC, ESC[nD, ESC[nB and ESC[nA for n >= 1 move the terminal cursor n columns right, n left, n rows down and n up |
| `Canvas.Canvas.SetBgFg` | canvas.go:190-214 | appends exactly ColorCode: ESC[49m/ESC[39m for the default colour, otherwise ESC[48;5;Nm/ESC[38;5;Nm, where N is the palette index of the RGBA value when present and Term256 when not |
| `Colors.ColorUpdate` | canvas.go:161-167 | the update is empty if and only if the requested colour equals the cached one (the model's equality of Color records) |
| `Canvas.Canvas.SetBackground` | canvas.go:161-167 | bg becomes clr, and the buffer gains nothing when clr equals the cached bg, otherwise the background code; fg, style and the cursor are outside its frame |
| `Canvas.Canvas.SetForeground` | canvas.go:176-182 | fg becomes clr, and the buffer gains nothing when clr equals the cached fg, otherwise the foreground code; bg, style and the cursor are outside its frame |
| `Terminal.RunColorCode` | canvas.go:190-214 | the colour fragment is one complete control sequence that sets the terminal's colour on that channel to the resolved colour and changes nothing else |
| `Canvas.Canvas.SetStyle` | canvas.go:216-243 | style becomes the argument, and the buffer gains nothing when it equals the cached style, otherwise StyleCodes |
| `Canvas.Canvas.AppendStyleCodes` | canvas.go:221-241 | the seven tests append exactly StyleCodes: ESC[0m, 1m, 2m, 4m, 5m, 7m, 8m for Normal, Bold, Dim, Underlined, Blink, Inverted and Hidden, each when its bit is set, in that order |
| `Canvas.StyleCodesUnfold` | canvas.go:221-241 | the table-driven StyleCodes equals the seven optional fragments in source order |
| `Styles.NoChangeWritesNothing` | canvas.go:105 | setting the NoChange bit changes neither the codes written nor the attributes switched on |
| `Styles.NormalIsReset` | canvas.go:125 | Normal alone writes exactly ESC[0m and switches on no attribute |
| `Styles.FlagsIgnoreNoChange` | canvas.go:224-241 | the attribute tests read the same with the NoChange bit added |
| `Styles.HasIgnoresNoChange` | canvas.go:221 | a flag test other than NoChange reads the same with the NoChange bit added |
| `Styles.NoFlagsNoCodes` | canvas.go:224-241 | a style with none of the table's flags writes nothing and switches on nothing |
| `Terminal.RunStyleCodes` | canvas.go:216-243 | the style fragments reset the rendition, both colours included, when Normal is set, then add exactly the style's attribute codes |
| `Terminal.RunFlagCodes` | canvas.go:224-241 | the attribute fragments add exactly the codes of the set flags |
| `Canvas.Canvas.Set` | canvas.go:251-255 | on a failed Move nothing changes; otherwise the motion and then Write of the one character, with y = py. A cursor on the canvas stays on it |
| `Canvas.Canvas.Write` | canvas.go:296-307 | appends the text cut to the room left in the row, plus the step back when the text reaches the edge. The cursor column becomes WriteColumn, y does not change, and Valid is kept |
| `Canvas.Canvas.WriteOnCanvas` | canvas.go:296-307 | from a cell, Write keeps min(n, Width - x) characters and leaves the cursor at min(x + n, Width - 1), appending ESC[1D exactly when the text reaches the row edge; so a cursor on the canvas stays on it |
| `Canvas.Canvas.RunWriteCodes` | canvas.go:302-306 | a terminal reading what Write appends moves its cursor by exactly the distance the cached column moves, and changes nothing else |
| `Canvas.Canvas.WriteAt` | canvas.go:315-323 | on a failed Move no field and no byte changes; otherwise the motion, SetStyle, SetForeground, SetBackground and Write fragments in that order, with the cache updated to the request. A cursor on the canvas stays on it |
| `Canvas.Canvas.SetStyleSynced` | canvas.go:216-243 | SetStyle as evidently intended: the same style and fragments, and the cached fg and bg become ColorDefault exactly when the style changes to one with Normal (ColorAfterStyle) |
| `Canvas.Canvas.WriteAtSynced` | canvas.go:315-323 | WriteAt with SetStyleSynced: on a failed Move nothing changes; otherwise the same fragments, except that the colour updates start from the cache as SetStyleSynced leaves it |
| `Canvas.ResetDropsCachedColors` | canvas.go:216-223 | as written, after a change to a style with Normal and colour updates that find the colours cached, the terminal shows its default colours, which differ from every non-default cached colour |
| `Canvas.PrefillHeadUnpainted` | canvas.go:124-125 | as written, NewCanvas's opening leaves the terminal background at its default, which differs from any non-default background the cache records |
| `Canvas.SyncedColorsReach` | canvas.go:319-321 | with the corrected cache, if the terminal showed the cached colours before WriteAt's style and colour updates, it shows the requested colours after them |
| `Canvas.SyncedHeadPaints` | canvas.go:124-125 | with the style set first and the corrected cache, NewCanvas's opening leaves the terminal in the default foreground and the requested background, at the cursor it had |
| `Canvas.PrefillForegroundUnset` | canvas.go:119-125 | as written, after everything NewCanvas writes the terminal foreground is its default, while the cached foreground is the zero value ColorBlack, palette entry 0; a request for black then writes nothing |
| `Canvas.SyncedPrefillAgrees` | canvas.go:119-138 | the corrected NewCanvas (SetStyleSynced before SetBackground) leaves the terminal, after the move to the origin, in the default foreground and the requested background, which is what its cache then holds |
| `Canvas.RunPrefillColors` | canvas.go:126-135 | the prefill rows keep the foreground, and the background where it is the one the separator restores |
| `Canvas.SeparatorColors` | canvas.go:129-133 | the row separator keeps the foreground and leaves the requested background (no code at all for the default background) |
| `Canvas.ColorUpdateFollows` | canvas.go:161-167 | when the terminal shows the cached colour on a channel, the channel's update leaves it showing the requested colour and the other channel as it was |
| `Canvas.Canvas.Clear` | canvas.go:142-153 | on a canvas with cells, a move to the origin, the blank rows and a move back, ending at (0, 0); on a canvas without cells nothing changes; fg, bg and style are outside its frame |
| `Canvas.Canvas.ClearLines` | canvas.go:144-151 | from the origin, the outer loop appends exactly ClearRows(Height) and ends on the last cell |
| `Canvas.Canvas.ClearLine` | canvas.go:145-150 | one pass: Width writes of a blank with the step back, then, except on the last row, the move to the next row's start |
| `Canvas.Canvas.ClearCellStep` | canvas.go:145-147 | one more blank extends the row's output by one blank (and the step back on the last column) and advances the cursor one column, clamped to the last |
| `Canvas.Canvas.RunClear` | canvas.go:142-153 | a terminal reading what Clear appends ends where its cursor started minus the cached cursor, that is, on the origin the cache records |
| `Canvas.Canvas.RunClearRows` | canvas.go:144-151 | reading the first n cleared rows moves the terminal cursor n rows down, or onto the last cell after all rows |
| `Canvas.Canvas.RunClearRow` | canvas.go:145-150 | one cleared row takes the terminal cursor to the next row's start, or to the row's last cell on the last row |
| `Canvas.Canvas.Flush` | canvas.go:331-337 | the output gains the buffer, and with CursorOnEnd and a last cell on the canvas first the motion to (Width-1, Height-1); the buffer ends empty, Valid is kept and a cursor on the canvas stays on it |
| `Canvas.MotionFollows` | canvas.go:283-285 | appending a motion to a complete output shifts the terminal cursor by the recorded displacement |
| `Canvas.ColorFollows` | canvas.go:190-214 | appending a colour code to a complete output paints that channel with the resolved colour |
| `Canvas.StyleFollows` | canvas.go:216-243 | appending a style's codes to a complete output gives Restyled: a full reset, colours included, when Normal is set, then the style's attributes added to those already on |
| `Canvas.GraphicFollows` | canvas.go:302-303 | appending graphic text to a complete output moves the terminal cursor one column per character |
| `Terminal.RunGraphic` | canvas.go:302-303 | graphic text moves the terminal cursor one column per character |

## Findings

| source | as written | input that shows it | evidently intended | confidence | as-written member | corrected member |
|---|---|---|---|---|---|---|
| canvas.go:216-223, 319-321 | SetStyle writes ESC[0m for a style with Normal, which resets the terminal's colours, but leaves the fg/bg cache as it was; WriteAt's SetForeground/SetBackground then return early for the cached colours | WriteAt(0, 0, ColorRed, bg, StyleBold, "a") then WriteAt(1, 0, ColorRed, bg, StyleNormal + StyleBold, "b"): "b" is drawn in the terminal's default foreground | after the reset the cache holds the default colours, so the colours WriteAt asks for are written again | not executed | `Canvas.ResetDropsCachedColors` | `Canvas.Canvas.SetStyleSynced`, `Canvas.Canvas.WriteAtSynced`, `Canvas.SyncedColorsReach` |
| canvas.go:124-125 | NewCanvas sets the background, then SetStyle(StyleNormal), whose ESC[0m clears it again; the cache still records the background | NewCanvas(3, 2, ColorBlue): the first row's blanks are drawn in the terminal's default background | the first row painted in the background, as the later rows are | not executed | `Canvas.PrefillHeadUnpainted` | `Canvas.SyncedHeadPaints` |
| canvas.go:59, 119-125 | the foreground cache starts at the zero value ColorBlack; NewCanvas never writes a foreground code and its ESC[0m leaves the terminal foreground at the default | NewCanvas(10, 5, ColorBlue, ...) then WriteAt(0, 0, ColorBlack, ColorBlue, StyleNormal, "a"): "a" is drawn in the default foreground, not in black | the cache starts out agreeing with the terminal, so a request for black writes its code | not executed | `Canvas.PrefillForegroundUnset` | `Canvas.SyncedPrefill`, `Canvas.SyncedPrefillAgrees` |

The engine's own methods (`SetStyle`, `WriteAt`, the constructor) model the
code as written, so that their contracts remain statements about
canvas.go. The corrected members sit beside them. The corrected NewCanvas
is given by its output, `SyncedPrefill`, rather than as a second
constructor.

## Left out

- The `*Safe` variants and the mutex (canvas.go:155-159, 169-174, 184-188, 245-249, 257-261, 289-294, 309-313, 325-329, 339-343) are left out. They only add mutual exclusion; run sequentially they are the unguarded methods.
- Flush's `fmt.Printf` is modelled as appending the buffer to the ghost `out`. Printf also interprets `%` in the buffer as a format directive; the model does not.
- Go's package-level palette `Colors` and its `Index` method, the RGBA-to-palette quantiser, are not part of this model (the model's module `Colors` holds only the `Color` record and its codes). It becomes the constructor parameter `index`, an arbitrary function into 0..255 stored as the field `Index`.
- `image/color.Color` is collapsed to its 16-bit RGBA value, so two colours compare equal exactly when their values do. Go's `==` on the interface field compares the dynamic type and value of the colour, not its RGBA value. So Go writes the colour code again where the model writes nothing in three cases: a `color.RGBA` and a `color.NRGBA` with the same value; two values of one type that premultiply to the same RGBA, such as `color.NRGBA{255, 0, 0, 0}` and `color.NRGBA{0, 0, 0, 0}`; and two distinct pointers to equal colours.
- `ColorRandom` (randomness) is left out.
- `Logger`, `errorF` and `debugF` are left out: they are a diagnostic side channel. So are the out-of-bounds and truncation messages they would print.
- `HideCursor`, `ShowCursor`, `DisableEcho`, `EnableEcho` and `toggleEcho` are left out: they change process-wide terminal state and run an external `stty`.
- `main` and the example programs are left out: they are demos with goroutines, sleeps, file I/O and floating point.
- Canvas.Canvas.Write: requires, only when the text is cut, that the characters kept are single-byte. Go slices the string at a byte offset (the TODO at canvas.go:299), and with multi-byte characters it would split one. The model's characters are Unicode scalars, counted as `utf8.RuneCountInString` counts them.
- Canvas.Canvas.WriteAt: inherits that requirement for its text.
- `Width`, `Height` and `Background` are exported fields in Go, and a caller may reassign them. The model fixes them at construction (nothing in canvas.go assigns them after NewCanvas), and `Valid()` relies on that: in Go, setting `Width` below the cached column makes the next Write slice `text[0:r]` with a negative `r` and panic.
- Go's fixed-width `int` is not modelled. Coordinates and counts are unbounded integers, since a canvas never comes near 2^63 cells.
- The reference terminal gives every non-control character one column (`Terminal.IsGraphic`), and Go's Write counts runes as columns (`utf8.RuneCountInString`). Real terminals give East Asian wide characters such as U+4E00 two columns and combining marks such as U+0301 none; for text holding them the cache and a real terminal disagree, and `Canvas.Canvas.RunWriteCodes` and `Canvas.GraphicFollows` speak only of the one-column terminal.
- The reference terminal is relative to the canvas: column 0 is where the canvas starts, and no margin stops a motion. A line feed returns to column 0, as a terminal whose tty driver maps NL to CR-NL does.
- The agreement of cache and terminal is stated fragment by fragment, by the Run lemmas above. There is no single invariant relating `out` to the cache.
