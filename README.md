# PHP ASCII clock: a verified model of the renderer and the clock scene

`index.php` draws an analogue clock as ASCII art. An `AsciiRenderer` holds a
60 x 60 buffer of brightness values and a drawing cursor. A scene graph sits
on top of it: a `World` container holds a `ClockActor`. Rendering the world
processes each actor depth-first. The clock draws its face (a circle of
radius 22 around the centre of the buffer). While drawing it, it appends three
`LineActor` hands (hour, minute, second) as children. The renderer then
processes these hands in turn. Finally `getBuffer` turns every cell into a
doubled glyph from a 94-character palette and joins the rows with line
breaks.

The model keeps that structure:

| module | file | what it holds |
|---|---|---|
| `PhpMath` | `phpmath.dfy` | PHP's `ceil` and `round` (halves away from zero) on exact numbers |
| `Palette` | `palette.dfy` | the palette string and `redrawPixelToAscii` |
| `Cursor` | `cursor.dfy` | the cursor and the effect of a series of `translate` calls |
| `ClockTime` | `clocktime.dfy` | `date('h'/'i'/'s')` in UTC and the three hand angles |
| `Raster` | `raster.dfy` | the buffer as a value: cell writes and the text of `getBuffer` |
| `Renderer` | `renderer.dfy` | `class AsciiRenderer` with its buffer and cursor fields |
| `Scene` | `scene.dfy` | `class Container` (world, clock and line actors), `render` and `processActor` |
| `App` | `app.dfy` | `ClockApp::renderClock` |

The renderer and the scene nodes are classes whose methods update their
fields, as in PHP.

Drawing order is specified by `Replay(g, plots)`: the buffer after writing
each plot, in order, to the cell its cursor position rounds to.
- A draw method promises `buffer == Replay(old(buffer), <its plots>)`.
- `Drawn(tree)` is the pixel sequence `processActor` produces for a snapshot
  of a subtree: the actor's own pixels, then each child's, then those of the
  children the actor appended while drawing.
- `Scene.ProcessActor` and `Scene.RenderContainer` are proved against it.
- `App.RenderClock` proves that the output is the serialised picture: the
  face and then the hour, minute and second hands, written over a black
  60 x 60 buffer.
- `App.ClockText` states the text cell by cell: the glyph of the last pixel
  drawn there.

`sin`, `cos` and `M_PI` are not modelled. A `Trig` value supplies:
- the unit-circle points the face loop visits;
- the (sine, cosine) pair of each hand angle.

`ValidTrig` pins down what the model needs of them. Every pair lies on the
unit circle. 0 degrees points up, 90 right, 180 down and 270 left. A full
turn of 360 degrees changes nothing.

## Model

| member | source | states |
|---|---|---|
| PhpMath.Ceil | index.php:224-225 | `ceil`: the least integer not below its argument |
| PhpMath.Round | index.php:440-441 | `round`: an integer within one half of the argument; a tie goes away from zero |
| PhpMath.RoundMonotone | index.php:440-441 | rounding preserves order |
| PhpMath.RoundBetween | index.php:440-441 | a number between two integers rounds to an integer between them |
| PhpMath.CeilHalf | index.php:224-225 | `ceil(n / 2)` of a non-negative integer is `(n + 1) / 2` in integer division |
| Palette.GlyphIndex | index.php:498-499 | the palette index of a brightness in [0, 1] is within the palette and equals `ceil(93 * p)` |
| Palette.RedrawPixelToAscii | index.php:495-507 | two characters, both the palette character at `ceil(93 * p)` |
| Palette.GlyphIndexMonotone | index.php:498-499 | a brighter pixel never gets a darker glyph |
| Palette.GlyphExtremes | index.php:368 | black is two spaces and full brightness is `QQ` |
| Palette.NoNewlineGlyph | index.php:368 | no glyph is a line break |
| Cursor.Step | index.php:453-464 | an absolute move sets the cursor to the offset; a relative move adds the offset |
| Cursor.FollowSnoc | index.php:453-464 | one more move takes one more step from where the earlier moves left the cursor |
| Cursor.RelativeMovesAdd | index.php:461-462 | relative moves add up: the cursor ends at its start plus the sum of the offsets |
| Cursor.AbsoluteMoveForgets | index.php:455-459 | after an absolute move, the cursor no longer depends on where it started |
| Cursor.RepeatedMove | index.php:343-346 | `k` equal relative moves end `k` times the offset from the start |
| Cursor.OffsetsOfRepeat | index.php:343-346 | `k` equal offsets sum to `k` times the offset |
| ClockTime.SplitTime | index.php:245-247 | hour in 1..12, minute and second in 0..59, and `(hour mod 12) * 3600 + minute * 60 + second` is the timestamp modulo a half day |
| ClockTime.HalfDayDecomposition | index.php:245-247 | the UTC hour on the 12-hour dial, the minute and the second together give the seconds into the half day |
| ClockTime.SecondAngle | index.php:251 | the second hand's angle lies in [0, 354] |
| ClockTime.MinuteAngle | index.php:259 | the minute hand's angle lies in [0, 360) |
| ClockTime.HourAngle | index.php:267 | the hour hand's angle lies in [30, 390); twelve o'clock gives 360 |
| ClockTime.SecondAngleOfTimestamp | index.php:245-251 | the second hand turns 6 degrees per second of the minute |
| ClockTime.MinuteAngleOfTimestamp | index.php:245-259 | the minute hand turns 0.1 degree per second of the hour |
| ClockTime.HourAngleOfTimestamp | index.php:245-267 | the hour hand turns 0.5 degree per whole minute of the half day, ignores the seconds, and reads 360 degrees more in the first hour after twelve |
| Raster.Zeros | index.php:381-384 | a row of `n` black cells |
| Raster.Write | index.php:444 | a pixel write changes exactly the addressed cell and keeps the buffer's shape |
| Raster.LastWriteWins | index.php:444 | a later write to a cell replaces an earlier one |
| Raster.DistinctWritesCommute | index.php:444 | writes to different cells may be done in either order |
| Raster.WriteKeepsBright | index.php:444 | writing a value in [0, 1] keeps every cell in [0, 1] |
| Raster.LineOf | index.php:475-480 | a line is twice as long as its row |
| Raster.LineOfAt | index.php:475-480 | characters `2j` and `2j + 1` of a line are the glyph of cell `j` |
| Raster.LineOfNoNewline | index.php:475-480 | a line holds no line break |
| Raster.Implode | index.php:484 | `implode("\n", ...)`: no lines give empty text; otherwise the text starts with the first line, ends with the last, and is as long as all lines together plus one break between each two neighbours |
| Raster.Explode | index.php:484 | splitting text at line breaks always yields at least one piece |
| Raster.ExplodeSingle | index.php:484 | text without a line break splits into itself alone |
| Raster.ExplodeJoined | index.php:484 | splitting `a + "\n" + b` yields `a` followed by the pieces of `b` |
| Raster.ExplodeImplode | index.php:484 | splitting undoes `implode("\n", ...)` for lines without breaks |
| Raster.LinesOf | index.php:473-481 | one line per buffer entry, twice as long as the entry |
| Raster.Serialize | index.php:470-488 | the text of `getBuffer`: empty for an empty buffer; otherwise it starts with the line of the first entry, ends with the line of the last, and is as long as all lines plus one break between each two neighbours |
| Raster.SerializeLines | index.php:470-488 | the text has exactly one line per buffer entry, each twice as long as the entry; an empty buffer gives empty text |
| Renderer.Replay | index.php:436-445 | replaying pixel writes keeps the buffer's shape |
| Renderer.ReplayCell | index.php:436-445 | after a series of writes, each cell holds the value of the last write that rounds to it, or its old value |
| Renderer.ReplayAppend | index.php:436-445 | replaying two series one after the other is replaying them joined |
| Renderer.ReplayPrefix | index.php:436-445 | replaying one more pixel extends the replay of the shorter series |
| Renderer.ReplayKeepsBright | index.php:436-445 | writing brightness values keeps the buffer printable |
| Renderer.AsciiRenderer.constructor | index.php:362 | a new renderer has an empty buffer and its cursor at the origin |
| Renderer.AsciiRenderer.SetSize | index.php:375-398 | entries `0 .. width - 1` become rows of `height` zeros; entries beyond `width` from earlier calls are kept; when `width` is positive and at least the old number of entries, `getSize()` then returns `(width, height)` (height 0 for a negative `height`) |
| Renderer.AsciiRenderer.GetSize | index.php:393-398 | the number of entries, and the length of the first entry; `(0, 0)` for an empty buffer |
| Renderer.AsciiRenderer.Translate | index.php:453-464 | the cursor takes one `Step` of the given move |
| Renderer.AsciiRenderer.DrawPixel | index.php:436-445 | the cell at the rounded cursor (entry `round(y)`, cell `round(x)`) becomes `a`, and nothing else changes |
| Renderer.AsciiRenderer.GetBuffer | index.php:470-488 | the output is the buffer serialised: doubled glyphs, rows joined by line breaks |
| Scene.Centre | index.php:223-225 | the middle of a buffer of size `(w, h)` lies in `[w / 2, w / 2 + 1)` by `[h / 2, h / 2 + 1)`; for a non-negative size it is `((w + 1) div 2, (h + 1) div 2)` |
| Scene.Steps | index.php:339-345 | a line's steps: `k` relative moves by `(sin, -cos)` |
| Scene.LinePlots | index.php:336-347 | a line draws `length` pixels (none for a negative length), all of its brightness |
| Scene.LinePlotAt | index.php:336-346 | the `k`-th pixel of a line lies `k + 1` steps of `(sin, -cos)` from the anchor |
| Scene.LinePlotDistance | index.php:336-346 | along a unit direction, the `k`-th pixel of a line lies at distance `k + 1` from the anchor |
| Scene.LinePlotFits | index.php:343-346 | every pixel of a line whose reach fits lands on a cell of the buffer |
| Scene.FacePlot | index.php:235-239 | a face pixel has full brightness; for a point of the unit circle it lies on the circle of radius 22 around the centre, and for a point of the unit square within 22 of the centre in each coordinate |
| Scene.FacePlots | index.php:228-242 | the face draws one pixel per circle point, all at full brightness, each on the circle of radius 22 around the centre |
| Scene.FacePlotFits | index.php:233-239 | every face pixel of a face that fits lands on a cell of the buffer |
| Scene.DrawFace | index.php:227-242 | the face loop writes one full-brightness pixel at `centre + 22 * (cos, sin)` per circle point, in order |
| Scene.DrawFacePoint | index.php:235-239 | one pass of the face loop writes a full-brightness pixel at `centre + 22 * (cos, sin)` of the point |
| Scene.NewHand | index.php:249-272 | a new line actor with the given angle, length and brightness, anchored at the centre, with no children |
| Scene.HandPlots | index.php:249-276 | the hands draw 45 pixels: 10 of the hour hand at 0.75, then 15 of the minute hand at 0.5, then 20 of the second hand at 0.25 |
| Scene.HandTrees | index.php:249-276 | a clock appends three childless line actors at its centre, hour, minute and second hand at their angles, each longer and dimmer than the one before, all within the face radius and brightness range |
| Scene.HandFits | index.php:228 | a hand no longer than the face's radius fits wherever the face does |
| Scene.Container.World | index.php:178-181 | a new world has no children |
| Scene.Container.ClockActor | index.php:202-208 | a new clock has time 0, is at the origin and has no children |
| Scene.Container.LineActor | index.php:286-300 | a new line has angle 0, length 0 and brightness 1, is at the origin and has no children |
| Scene.Container.AddChild | index.php:158-161 | the child is appended after the existing children, and the tree stays well formed |
| Scene.Container.SetTime | index.php:212-215 | the clock's time becomes the timestamp |
| Scene.Container.SetAngle | index.php:307-310 | only the line's angle changes |
| Scene.Container.SetLength | index.php:316-319 | only the line's length changes |
| Scene.Container.SetColour | index.php:325-328 | only the line's brightness changes |
| Scene.Container.LineRender | index.php:333-348 | a line writes `length` pixels of its brightness (none for a negative length), the `k`-th at `k + 1` steps along `(sin, -cos)` of its angle from its anchor |
| Scene.Container.ClockRender | index.php:220-277 | the clock draws its face around `ceil(size / 2)` and appends its hour, minute and second hands, keeping its earlier children |
| Scene.Container.AddHands | index.php:249-276 | three hands at the centre are appended: hour (length 10, brightness 0.75), minute (15, 0.5), second (20, 0.25), each at its angle |
| Scene.Container.AddHand | index.php:249-276 | one fresh hand with the given settings is appended and is the only new node |
| Scene.Container.Render | index.php:194 | an actor draws what its class draws; only a clock appends children |
| Scene.AppendedFit | index.php:249-276 | the hands a clock appends fit wherever its face fits |
| Scene.OwnDrawn | index.php:418 | what an actor draws itself: nothing for the world, one full-brightness pixel per circle point for a clock, `length` pixels of its brightness for a line |
| Scene.Drawn | index.php:416-430 | the pixels `processActor` draws for a subtree; when every line in it has a brightness in [0, 1], so does every pixel |
| Scene.DrawnAll | index.php:422-428 | the pixels of a list of subtrees, one after the other: none for no subtrees, and all printable when every line's brightness is |
| Scene.DrawnAllAppend | index.php:404-410 | processing two lists of subtrees one after the other draws what each draws |
| Scene.HandTreesDrawn | index.php:274-276 | the three appended hands draw exactly the hour, minute and second hand pixels |
| Scene.DrawnSplit | index.php:416-430 | a subtree draws its own pixels, then its children's, including those it appended |
| Scene.KidsFit | index.php:416-430 | the children of a subtree that fits, with those it appends, fit |
| Scene.ReplaySplit | index.php:416-430 | replaying an actor's own pixels and then its children's is replaying its subtree |
| Scene.ProcessActor | index.php:416-430 | the buffer ends as its old contents with the pixels of the actor's subtree replayed over it, in drawing order |
| Scene.RenderContainer | index.php:404-410 | the buffer ends as its old contents with the pixels of every child's subtree replayed over it, child by child |
| Scene.ProcessNext | index.php:406-409 | one step of `render`: the next child's subtree is drawn, and the children after it are untouched |
| Scene.ReplayNext | index.php:406-409 | drawing one more child extends the replay of the children before it |
| App.Blank | index.php:124 | `setSize(60, 60)` on a new renderer gives 60 entries of 60 black cells, every cell 0 |
| App.ClockPlots | index.php:233-276 | one rendering pass draws the face's pixels first, all at full brightness, then 45 hand pixels with brightness between 0.25 and 0.75 |
| App.Picture | index.php:120-138 | the clock's picture has 60 rows of 60 printable cells |
| App.FaceFits | index.php:224-228 | the centre of the 60 x 60 buffer is (30, 30), and a face of radius 22 around it fits |
| App.PlotsBright | index.php:239-269 | every pixel the clock draws has a brightness in [0, 1] |
| App.SecondHandAtHalfMinute | index.php:249-255 | at half past any minute the second hand's tip is 20 cells straight below the centre |
| App.MinuteHandAtQuarterPast | index.php:257-263 | at a quarter past any hour the minute hand's `k`-th pixel is `k + 1` cells right of the centre |
| App.HourHandAtTwelve | index.php:265-271 | at twelve o'clock the hour hand, at 360 degrees, points straight up: its `k`-th pixel is `k + 1` cells above the centre |
| App.ClockText | index.php:470-507 | line `r`, characters `2c` and `2c + 1` of the clock's text are the glyph of the last pixel drawn at cell `(r, c)`, or blank |
| App.LoneClockDrawn | index.php:127-135 | a world holding one clock draws the face and then the hour, minute and second hands |
| App.NewWorld | index.php:127-132 | the world holds exactly one clock, set to the given time |
| App.RenderClock | index.php:120-138 | the output is the serialised picture of the clock at the given time, 60 lines of 120 characters |

## Left out

- `ClockApp::dispatch`, `renderPage` and the HTTP request handling are not modelled: they are I/O.
- `renderClock` ends with `exit`, which sends the text. The model returns the text instead.
- `renderClock` stores the renderer and the world in fields of `ClockApp`. The model uses locals.
- `getChildren` is not a separate member. `Scene.RenderContainer` and `Scene.ProcessActor` read the `children` field directly.
- `sin`, `cos` and `M_PI` are a `Trig` parameter. `ValidTrig` requires every (sine, cosine) pair to lie on the unit circle, fixes the pairs at 0, 90, 180 and 270 degrees, and makes them repeat every 360 degrees. The direction at any other angle is not fixed.
- The face loop steps a float angle by 0.01 up to `2 * M_PI`. The model takes the visited circle points as given and does not fix their number.
- Floating-point rounding is not modelled: brightness, positions and angles are exact reals.
- `date()` uses the UTC time zone set at index.php:517. The model computes the hour, minute and second by integer division. PHP's string-to-number conversion of the `date()` results is not modelled.
- The scene classes `World`, `ClockActor` and `LineActor` are one class, `Container`, with a `kind` tag. PHP dispatches `render` on the class; `Scene.Container.Render` switches on the tag.
- `Renderer.AsciiRenderer.DrawPixel` requires the rounded cursor to address an existing cell. PHP would create the missing array entry instead. Every drawing method passes this down as a fit precondition, and `App.RenderClock` proves that the clock fits.
- `Scene.Container.LineRender`, `Scene.DrawFace`, `Scene.ProcessActor` and `Scene.RenderContainer` require the drawing to fit in the buffer, for the same reason as `DrawPixel`.
- `Palette.GlyphIndex` and `Palette.RedrawPixelToAscii` require a brightness in [0, 1]. Above 1, PHP reads past the end of the palette string. Between -1/93 and 0, `ceil` gives index 0, a blank. Below that, PHP 7.1 and later read a negative offset, counted from the end of the string. The clock only uses 0, 0.25, 0.5, 0.75 and 1.
- `Renderer.AsciiRenderer.GetBuffer` requires every cell to be in [0, 1], for the same reason as `RedrawPixelToAscii`.
- `Renderer.AsciiRenderer.GetBuffer` leaves the buffer unchanged. PHP overwrites each cell with its glyph as a side effect; `renderClock` exits right after.
- `Renderer.AsciiRenderer.GetBuffer` returns empty text for an empty buffer. PHP passes an undefined array to `implode`.
- `Scene.Container.AddHands` builds each hand just before appending it. PHP builds the second, minute and hour hands first and then appends them hour first. Building a hand touches no other object, so the appended children are the same.
- `Scene.ProcessActor` states only the buffer after the pass, not the tree or the cursor. The tree then holds each clock's three new hands, which a second pass would draw again; `renderClock` discards the scene after one pass, so the model does not specify it.
- `Scene.RenderContainer` states only the buffer after the pass, not the tree or the cursor, for the same reason as `Scene.ProcessActor`.
- `Scene.Container.LineRender` does not state where the cursor ends. A line starts with an absolute move to its anchor and the face loop makes one before each pixel, so the cursor one actor leaves never affects what the next draws.
- `Scene.DrawFace` does not state where the cursor ends, for the same reason as `Scene.Container.LineRender`.
- `Scene.Container.AddChild` requires the child to be a well-formed tree outside the parent's. PHP also accepts a child already in the tree, which would then be drawn twice. `index.php` only ever adds a new actor.
- `Scene.ProcessActor` requires the actor not to be a world. PHP's type hint requires an `Actor`, and a `World` is not one.

Three behaviours of `index.php` that the model keeps:

- At twelve o'clock the hour angle is 360 degrees, not 0. Both point straight up.
- Brightness values and pixel positions are not clamped.
- `setSize` does not fail on a non-positive size. A non-positive width changes nothing. A positive width with a non-positive height turns entries `0 .. width - 1` into empty rows.
