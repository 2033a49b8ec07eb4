# Board snapshot and centred glyph layout of the Null Discord bot

This project models two pure pieces of the bot's game renderer in Dafny and
proves properties about them:

- **Board construction** (`Game::new`). The game field is a 7×7 grid of cells.
  Each cell is either empty or holds a player's data: parsed user id, display
  name and health. The first three players go to (1,1), (1,5) and (5,1) in
  input order. A fourth player, if present, goes to (5,5). More than four
  players is a `PlayerCountError`. An unparsable discord id fails the whole
  construction before any cell is filled.
- **Board drawing decisions** (`Game::draw`). Each cell is filled with a
  colour: blue when occupied, otherwise a white/gray checkerboard on the
  parity of row+column. The cell at row `i`, column `j` covers the 200×200
  rectangle at `(j*200, i*200)` of the 1400×1400 canvas. Cells are painted row
  by row.
- **Centred single-line text layout** (`draw_text_fix`). A cursor starts at
  the anchor's x. Each character records the cursor as its glyph's position,
  then advances the cursor by `advance * point_size / 24 / 96 * 2.2`. Finally
  every position moves left by half the distance the cursor travelled.

Modules:

- `Wrappers` (wrappers.dfy): `Option` and `Result`.
- `Board` (board.dfy): the `Cell`, `PlayerData`, `Game` and `GameError` types.
  It also holds `New`, the board invariant `WellFormed`, and the inverse
  `Roster`, which reads the players back out of their slots.
- `Render` (render.dfy): cell colour, cell rectangle, the tiling of the canvas
  and the painting loop.
- `TextLayout` (text_layout.dfy): the cursor loop `DrawTextFix` and its
  closed-form reference `Layout`, which uses prefix sums of the scaled
  advances. It also holds the lemmas about centring, gaps, span and ordering.

Modelling choices:

- Parsing a discord id into a user id is a function parameter
  `string -> Result<UserId, IdError>`. The integer parser belongs to the
  platform library. `IdError` stands for the parser's own error value, which
  `Game::new` passes on unchanged through `?`.
- The font is reduced to a map from characters to glyph ids and a map from
  glyph ids to advances in font units.
- `draw_text_fix` unwraps both font lookups. `DrawTextFix` therefore requires
  that every character has a glyph and every glyph has an advance
  (`CanRender`).
- Layout arithmetic and health are `real`s, not `f32`.
- The cell rectangle arithmetic is `int`. With row and column below 7 the
  `i32` products in `Game::draw` stay far from overflow.
- `Game::new` converts every player before it looks at the count. Only then
  does it index players 0, 1 and 2. So:
  - with every id parsing and fewer than three players, it aborts on an
    out-of-bounds index;
  - with an unparsable id, it returns the parse error whatever the count is.
  
  The precondition of `New` therefore excludes only the first case:
  `|players| >= 3 || !AllIdsParse(players, parse)`.
- The message of `GameError::PlayerCountError` (src/game.rs:17) says the
  count must be in range 3..=4. With fewer than three parseable players,
  though, the code panics at the indexing of players 0, 1 and 2
  (src/game.rs:48-50), before it reaches the count match at
  src/game.rs:51-55. The model follows the code.
- The bot's `Cell::Player` / `Cell::None` are named `Occupied` / `Empty`
  here.
- The `anyhow` error is the datatype `GameError`:
  - `IdParseError(cause)` carries the parser's error for the first discord id
    that failed to parse;
  - `PlayerCountError` is the count error.

## Model

| member | source | states |
|---|---|---|
| Board.New | src/game.rs:36-57 | A failing id parse gives the parser's error for the first unparsable id, whatever the player count. When all ids parse, the result is `Ok` exactly when there are at most four players. Five or more gives `PlayerCountError`. An `Ok` board is well formed: 7×7, players 0, 1 and 2 at (1,1), (1,5) and (5,1), (5,5) empty with three players and holding player 3 with four, every other cell empty. The stored players keep input order and length, copy the display names and get health 123.5764846945. |
| Board.CollectPlayerData | src/game.rs:38-47 | Succeeds exactly when every discord id parses. On success it yields one `PlayerData` per player in input order, with the parsed id, the unchanged display name and the fixed health. On failure it returns the parser's error for the first player whose id does not parse. |
| Board.RosterOfWellFormed | src/game.rs:48-53 | On a well-formed board, reading the slots (1,1), (1,5), (5,1) and then (5,5) if it is occupied gives back the player list exactly, in input order. |
| Board.WellFormedUnique | src/game.rs:37-56 | Two well-formed boards with the same player list are equal. Placement depends only on the players' positions in the list. |
| Board.NewRoster | src/game.rs:38-56 | For a board built by `New`, reading the slots gives one entry per input player, in input order. Each entry holds that player's parsed id, unchanged display name and starting health. |
| Board.OccupiedIffSlot | src/game.rs:37-55 | On a well-formed board, a cell is occupied exactly when it is the slot of a player who is present. All other cells stay empty. |
| Render.BlueIffOccupied | src/game.rs:68-72 | A cell is painted blue exactly when it is occupied. |
| Render.EmptyColorIsParity | src/game.rs:68-72 | Two empty cells get the same colour exactly when their row+column parities agree. The colour does not depend on anything else on the board. |
| Render.AdjacentEmptyCellsDiffer | src/game.rs:70-71 | Empty cells that are horizontal or vertical neighbours get different colours, forming a checkerboard. |
| Render.CellRectInCanvas | src/game.rs:73-80 | The rectangle of every cell of the 7×7 grid lies inside the 1400×1400 canvas. |
| Render.TilingCovers | src/game.rs:60-80 | Every canvas pixel `(x, y)` lies in the rectangle of the cell at row `y/200`, column `x/200`, and that cell is inside the grid. |
| Render.TilingDisjoint | src/game.rs:73-80 | No pixel lies in the rectangles of two different cells. |
| Render.PaintCells | src/game.rs:66-80 | Painting a 7×7 field makes 49 fills in row-major order. Fill `7*i+j` covers cell (i,j)'s rectangle with that cell's colour. |
| Render.BlueCellsAreSlots | src/game.rs:48-72 | On a well-formed board, the blue cells are exactly the slots of the players present. |
| TextLayout.DrawTextFix | src/draw_ext.rs:21-47 | Produces one glyph id and one position per character, in text order. Each glyph id is the font's glyph for that character, and every y equals the anchor's y. Empty text gives no glyphs. The positions equal the closed form `Layout`: glyph k sits at the anchor's x plus the scaled advances of glyphs 0..k-1, minus half the total width. |
| TextLayout.PlaceGlyphs | src/draw_ext.rs:30-41 | The cursor loop yields the font's glyph id for each character, in text order. Glyph k's unshifted position is the anchor plus the scaled advances of glyphs 0..k-1, at the anchor's y. The final cursor is the anchor plus the total width. |
| TextLayout.SumPrefixStep | src/draw_ext.rs:39-40 | The cursor after glyph k is the cursor before it plus glyph k's scaled advance. |
| TextLayout.SumScale | src/draw_ext.rs:40 | The total width equals the scaled sum of the raw font advances. Scaling commutes with accumulation. |
| TextLayout.LayoutFirst | src/draw_ext.rs:42-45 | For non-empty text, the first glyph sits at the anchor's x minus half the total width. |
| TextLayout.LayoutGap | src/draw_ext.rs:39-44 | Consecutive glyph positions differ by exactly the scaled advance of the earlier glyph. |
| TextLayout.LayoutCentred | src/draw_ext.rs:36-45 | The first glyph's x and the right edge of the run are the same distance from the anchor's x, on either side of it. The right edge is the last glyph's x plus its advance. |
| TextLayout.LayoutSpan | src/draw_ext.rs:40-44 | After the shift, the run spans exactly the unshifted total width. |
| TextLayout.LayoutSingle | src/draw_ext.rs:36-45 | A single glyph sits half of its own advance left of the anchor. |
| TextLayout.SumPrefixMonotone | src/draw_ext.rs:39-40 | With non-negative steps, the cursor never moves left. |
| TextLayout.LayoutMonotone | src/draw_ext.rs:39-44 | With non-negative steps, glyph positions are non-decreasing left to right. |
| TextLayout.LayoutPrefixStable | src/draw_ext.rs:36-41 | Before the shift, a glyph's offset depends only on the glyphs before it. Laying out a prefix places those glyphs at the same unshifted offsets. |
| TextLayout.ScaledAdvanceNonNegative | src/draw_ext.rs:40 | A non-negative advance at a non-negative point size scales to a non-negative step. |
| TextLayout.DrawTextFixMonotone | src/draw_ext.rs:36-45 | Take a font whose advances are non-negative and a non-negative point size. Any text it can render is then laid out left to right. |

## Left out

- `f32` rounding: layout arithmetic and health are exact reals. The bot's
  float sums and the `* 0.5` shift may differ from them by rounding.
- Parsing discord ids into user ids: the parser is a parameter.
- Font loading, glyph rasterising (`draw_glyphs`), pixel writes (`fill_rect`)
  and PNG output (`write_png`). These are foreign-library I/O. The model stops
  at the glyph ids, positions, rectangles and colours passed to those calls.
- The text drawn into occupied cells: anchors at `(j+0.5)*200, (i+0.4)*200`
  and `(i+0.8)*200`, the text colours, the point size 50, and the `{:.1}`
  formatting of health (src/game.rs:81-103). These are fractional float
  anchors and string formatting, outside this model.
- Font lookups that fail: both lookups are unwrapped, so a character without
  a glyph aborts the render. `CanRender` excludes it as a precondition rather
  than modelling the abort.
- Commands, the database, the secret loading and the bot framework
  (src/commands.rs, src/lib.rs `PlayerDB`, src/main.rs). The 32-byte limit on
  display names is checked by the registration command, not by board
  construction, so `New` accepts any name.
- The process-wide `Mutex<Option<Game>>` slot for the current game: it is
  concurrency state with no logic.
- Render.PaintCells: it requires a 7×7 field. `Game::draw` iterates whatever
  rows the field has, but every `Game` comes from `New`, which always builds a
  7×7 field.
