# Map: a verified model of the game map of Survival-Inc.

The `Map` class of `src/backEnd/Map.java` is the environment entities of the
game live in. It holds:

- a fixed-size grid of terrain tiles (`STONE`, `GRASS`, `WATER`), indexed `[y][x]`;
- a default spawn point;
- an ordered, duplicate-free list of the entities bound to it.

It can print itself as ASCII art. Each row reads `"| "`, then one `"[" glyph "]"`
per cell, then `" |"` and a line break. A cell shows the print symbol of the last
visible entity standing on it, in list order. With no such entity it shows the
print symbol of its tile.

The model is imperative, as the Java class is:

- `BackEnd.Map` is a Dafny `class`. The grid is an `array2<Tile>` updated in
  place. The spawn point is two `int` fields. The entity list is a
  `seq<Entity>` field that the methods reassign.
- `BackEnd.Entity` is a class, so list membership is by object identity. This
  matches `ArrayList.contains` and `ArrayList.remove(Object)` on a class that
  does not override `equals`.
- `toString` keeps its two phases:
  - `Overlay` fills a fresh `array2<Option<string>>` by walking the entity list;
  - `ToString` builds the text row by row and cell by cell. `AppendRow` is the
    body of its outer loop.
- Java's `null` results become `Option.None`.

The meaning of the picture is defined once, as pure functions in module
`Rendering`:

- `Overlaid` and `Top` give the overlay;
- `CellGlyph`, `Cells`, `Line`, `Lines` and `Render` give the text.

The imperative methods are proved equal to these functions. The properties of
the picture are proved as lemmas about them:

- precedence: the last visible entity wins, and invisible entities never show;
- layout: length, frame characters and cell positions.

Module `Sequences` holds the list semantics the entity collection relies on.
Module `Demo` holds worked pictures. It proves the exact text of a 3 x 3
grass field with one marker and of the example terrain in the comment of
`toString`. It also builds a map, binds two entities and proves the exact text
that `ToString` returns.

Width and height never change after construction: `tilegrid` is a `const`
field, set once by each constructor, and the methods change only the cells of
the array it refers to.

Three behaviours of the code are kept as written:

- **A map may have zero rows.** `new Tile[0][w]` is a legal Java array, and
  `tileFill` never reads the width when there are no rows. So every
  constructor accepts any non-negative width and height.
- **The width comes from the first row.** `getWidth` reads `tilegrid[0]`, so
  the members that reach it require a row: `HasRows()`. `isValidPosition`
  reads the width only after it sees `x >= 0`. So it, `getTile`, `setTile` and
  `setDefaultSpawn` need a row only when `x >= 0`: `Checkable(x)`.
- **Out-of-bounds entities make `toString` fail.** `toString` writes the
  overlay cell of every visible entity without a bounds check, so a visible
  entity off the grid makes the Java method throw. The model requires
  `VisibleInBounds()` of its callers.

## Model

| member | source | states |
|---|---|---|
| Tiles.Glyph | src/backEnd/Map.java:27-37 | every tile's print symbol is a single character (the symbols are S, G and W) |
| Tiles.GlyphInjective | src/backEnd/Map.java:27-37 | the three tiles have pairwise different print symbols |
| Sequences.IndexOf | src/backEnd/Map.java:224-227 | the position found is an occurrence of the element and no earlier position holds it |
| Sequences.RemoveFirst | src/backEnd/Map.java:226 | `remove(Object)` leaves the list as it is when the element is absent and shortens it by one otherwise |
| Sequences.RemoveFirstSplice | src/backEnd/Map.java:226 | removal cuts out exactly the first occurrence and keeps the elements before and after it in order |
| Sequences.AppendDistinct | src/backEnd/Map.java:211-212 | appending an absent element keeps the list duplicate-free |
| Sequences.RemoveFirstDistinct | src/backEnd/Map.java:224-226 | on a duplicate-free list, removal keeps it duplicate-free, removes the element entirely and keeps every other element |
| Sequences.ConsDistinct | src/backEnd/Map.java:226 | putting an absent element in front keeps a list duplicate-free |
| Sequences.DistinctOccursOnce | src/backEnd/Map.java:210-217 | in a duplicate-free list a member occurs exactly once |
| Rendering.OverlaidIsLastShown | src/backEnd/Map.java:247-253 | after writing the first n entities the overlay cell is empty if and only if none of them is visible there, and otherwise holds the glyph of one visible there after which none is |
| Rendering.TextBeforeNextCell | src/backEnd/Map.java:257-266 | producing a cell appends "[", the cell's glyph and "]" to the text so far |
| Rendering.TextBeforeRowEnds | src/backEnd/Map.java:255-268 | a row starts with a bar and a space after the rows above it and is closed by a space, a bar and a line break |
| Rendering.CellShowsLastVisible | src/backEnd/Map.java:249-264 | when a visible entity stands on a cell and no later one does, the cell shows its glyph |
| Rendering.CellShowsTile | src/backEnd/Map.java:260-264 | when no visible entity stands on a cell, the cell shows its tile's print symbol |
| Rendering.CellIdentifiesTile | src/backEnd/Map.java:260-264 | where no visible entity stands, the printed cell shows a tile's symbol exactly when that tile lies there |
| Rendering.OverlaidPrefix | src/backEnd/Map.java:249-253 | the overlay after n entities depends on those n only |
| Rendering.OverlaidShift | src/backEnd/Map.java:249-253 | writing a second list after a first gives the second list's entry where it has one and the first list's entry elsewhere |
| Rendering.TopAppend | src/backEnd/Map.java:249-253 | entities later in the list cover earlier ones wherever they are visible |
| Rendering.CellsCongruent | src/backEnd/Map.java:257-266 | a row's cells depend on the entities only through the overlay they produce |
| Rendering.LinesCongruent | src/backEnd/Map.java:255-268 | the picture depends on the entities only through the overlay they produce |
| Rendering.InvisibleIgnored | src/backEnd/Map.java:250 | an invisible entity never shows: taking it out of the list leaves the picture unchanged |
| Rendering.LineStartIsProduct | src/backEnd/Map.java:255-268 | the recursive row offset LineStart(w, y), the sum of y rows of 3 * w + 5 characters each, equals y * (3 * w + 5) |
| Rendering.CellGlyphSingle | src/backEnd/Map.java:260-264 | when every visible glyph is one character, so is every cell's glyph |
| Rendering.CellsLayout | src/backEnd/Map.java:257-266 | when every visible glyph is one character, the first n cells of a row are 3 * n characters, cell x being "[" at 3x, its glyph at 3x + 1 and "]" at 3x + 2 |
| Rendering.LineLayout | src/backEnd/Map.java:256-267 | when every visible glyph is one character, a row of w cells is 3 * w + 5 characters: a bar and a space, the cells in order, a space, a bar and a line break |
| Rendering.CellsLength | src/backEnd/Map.java:257-266 | when every visible glyph is one character, the first n cells of a row take 3 * n characters |
| Rendering.LineLength | src/backEnd/Map.java:256-267 | when every visible glyph is one character, a row of w cells takes 3 * w + 5 characters |
| Rendering.LinesLength | src/backEnd/Map.java:255-268 | when every visible glyph is one character, the first n rows of a w-wide picture take LineStart(w, n) characters, which is n * (3 * w + 5) |
| Rendering.LinesExtend | src/backEnd/Map.java:255-268 | rows appended below leave every character of the rows above in place |
| Rendering.LinesAt | src/backEnd/Map.java:255-268 | character j of row y sits right after the rows above it |
| Rendering.FieldLines | src/backEnd/Map.java:255-268 | the picture of a three-row grid is its three rows in order |
| Rendering.ConcatAt | src/backEnd/Map.java:256-267 | appending text leaves the appended characters at their offsets past the old end |
| Rendering.RenderLength | src/backEnd/Map.java:243-271 | when every visible glyph is one character, the picture of a grid of height rows and width columns has height * (3 * width + 5) characters |
| Rendering.RenderAt | src/backEnd/Map.java:255-268 | when every visible glyph is one character, character j of row y is character y * (3 * w + 5) + j of the picture |
| Rendering.CellInLine | src/backEnd/Map.java:258-265 | when every visible glyph is one character, cell x of a row occupies offsets 3x + 2 to 3x + 4 of that row, as "[", glyph, "]" |
| Rendering.RowFrameAt | src/backEnd/Map.java:256-267 | when every visible glyph is one character, row y of the picture starts at offset y * (3 * w + 5) with a bar and a space and ends with a space, a bar and a line break |
| Rendering.CellAt | src/backEnd/Map.java:258-265 | when every visible glyph is one character, cell (x, y) of the picture reads "[", its glyph, "]" from offset y * (3 * w + 5) + 3x + 2 on |
| Rendering.Overlaid | src/backEnd/Map.java:249-253 | the overlay cell after the first n entities have been written, each visible one overwriting its cell |
| Rendering.Top | src/backEnd/Map.java:247-253 | the overlay cell once every entity has been written |
| Rendering.CellGlyph | src/backEnd/Map.java:260-264 | a cell shows its overlay glyph if it has one and its tile's print symbol otherwise |
| Rendering.Cells | src/backEnd/Map.java:257-266 | the first n cells of a row, each "[" then its glyph then "]", left to right |
| Rendering.Line | src/backEnd/Map.java:256-267 | one row: a bar and a space, then its cells, then a space, a bar and a line break |
| Rendering.Lines | src/backEnd/Map.java:255-268 | the first n rows, top to bottom |
| Rendering.Render | src/backEnd/Map.java:243-271 | the whole text: every row, top to bottom |
| BackEnd.Entity.constructor | src/backEnd/Map.java:249-251 | an entity carries the position, visibility and print symbol that toString reads |
| BackEnd.View | src/backEnd/Map.java:250-251 | the renderer reads an entity's position, visibility and print symbol and nothing else |
| BackEnd.Views | src/backEnd/Map.java:249-251 | the renderer's view of the entity list has one sprite per entity, in list order |
| BackEnd.Map.Grid | src/backEnd/Map.java:39 | the abstract grid has the array's height and width and its tiles cell by cell |
| BackEnd.Map.constructor | src/backEnd/Map.java:51-58 | a width x height map has every cell equal to the fill, the given spawn taken unchecked, and no entities |
| BackEnd.Map.Centered | src/backEnd/Map.java:68-70 | as above, with spawn at (width / 2, height / 2) |
| BackEnd.Map.Square | src/backEnd/Map.java:79-81 | a size x size map of the fill with spawn at (size / 2, size / 2) |
| BackEnd.Map.OfTile | src/backEnd/Map.java:89-91 | a 24 x 24 map of the fill with spawn at (12, 12) |
| BackEnd.Map.Default | src/backEnd/Map.java:97-99 | a DEFAULT_SIZE x DEFAULT_SIZE (24 x 24) map filled with DEFAULT_TILE (grass), with spawn at (12, 12) |
| BackEnd.Map.GetWidth | src/backEnd/Map.java:146-148 | the width is the number of columns of the grid, the length of its first row |
| BackEnd.Map.GetHeight | src/backEnd/Map.java:155-157 | the height is the number of rows of the grid |
| BackEnd.Map.GetDefaultSpawnX | src/backEnd/Map.java:175-177 | the stored spawn x coordinate |
| BackEnd.Map.GetDefaultSpawnY | src/backEnd/Map.java:184-186 | the stored spawn y coordinate |
| BackEnd.Map.VisibleInBounds | src/backEnd/Map.java:249-253 | every visible entity of the list stands on the grid, which is what the overlay write needs to succeed |
| BackEnd.Map.IsValidPosition | src/backEnd/Map.java:166-168 | a position is valid exactly when 0 <= x < width and 0 <= y < height |
| BackEnd.Map.GetTile | src/backEnd/Map.java:120-126 | there is a tile exactly at the valid positions (null elsewhere), and it is the stored one |
| BackEnd.Map.SetTile | src/backEnd/Map.java:107-111 | off the grid nothing changes; on it exactly cell (x, y) becomes the tile, every other cell keeps its value, and reading it back yields the tile |
| BackEnd.Map.TileFill | src/backEnd/Map.java:133-139 | afterwards every cell equals the fill; the nested loops keep "every cell before (x, y) in row-major order equals the fill" |
| BackEnd.Map.SetDefaultSpawn | src/backEnd/Map.java:195-200 | both spawn coordinates move to (x, y) when it is valid, otherwise both keep their values |
| BackEnd.Map.AddEntity | src/backEnd/Map.java:210-217 | an absent entity is appended at the end and returned; a present one gives null and no change; the list stays duplicate-free and holds the entity exactly once |
| BackEnd.Map.RemoveEntity | src/backEnd/Map.java:224-232 | a present entity is cut out of the list, the others keeping their order, and returned; an absent one gives null and no change; afterwards the entity is absent and everything else is still there |
| BackEnd.Map.Overlay | src/backEnd/Map.java:247-253 | the overlay array has the grid's shape and each cell holds the glyph of the last visible entity on it in list order, or nothing |
| BackEnd.Map.ToString | src/backEnd/Map.java:243-271 | the text built is the picture of the grid with the entities laid over it |
| BackEnd.Map.AppendRow | src/backEnd/Map.java:256-267 | one pass of the row loop appends exactly row y of the picture |
| Demo.GrassLine | src/backEnd/Map.java:255-268 | an outer row of a 3 x 3 grass field with a visible "X" at (1, 1) prints as three grass cells |
| Demo.CrossLine | src/backEnd/Map.java:255-268 | the middle row of that field shows the "X" in its middle cell between two grass cells |
| Demo.MiddleOfGrassField | src/backEnd/Map.java:243-271 | the whole picture of that field is three framed rows with the "X" in the centre cell and grass everywhere else |
| Demo.DocOuterLine | src/backEnd/Map.java:237-239 | rows 0 and 2 of the example terrain in the comment print as `[G][G][S]` framed |
| Demo.DocMiddleLine | src/backEnd/Map.java:238 | row 1 of the example terrain prints as `[G][S][S]` framed |
| Demo.DocPicture | src/backEnd/Map.java:233-241 | the example picture in the comment of `toString` is exactly the text rendered for its grass-and-stone terrain with no entities |
| Demo.GrassField | src/backEnd/Map.java:79-81 | a 3 x 3 grid of grass is the example field |
| Demo.MarkedPicture | src/backEnd/Map.java:243-271 | a 3 x 3 grass grid under a visible "X" at (1, 1) and an invisible entity prints with the "X" in the middle cell only |
| Demo.MarkedField | src/backEnd/Map.java:243-271 | building a 3 x 3 grass map, adding a visible "X" at (1, 1) and an invisible entity, and calling ToString yields that text |

## Left out

- Java's 32-bit `int`: coordinates and dimensions are unbounded integers. A dimension is a `nat`, so the `NegativeArraySizeException` of a negative width or height is outside the model.
- BackEnd.Map.ToString requires every visible entity to stand on the grid (`VisibleInBounds`). The Java method throws an index exception in that case, and exceptions are not modelled.
- BackEnd.Map.GetWidth requires a row (`HasRows`). With no rows Java's `getWidth` throws, and so do `toString` and `isValidPosition` at `x >= 0`.
- A `null` print symbol of a visible entity: Java writes `null` into its overlay cell, which clears any glyph an earlier entity left there, so the tile shows. The model's glyph is always a string.
- BackEnd.Map.GetTile and BackEnd.Map.ToString do not cover a `null` tile. Java's `Tile` is a reference type, so a constructor, `tileFill` or `setTile` given `null` stores it; `getTile` then returns `null` at a valid position and `toString` throws at that cell unless a visible entity's symbol covers it. The model's tiles are always one of STONE, GRASS and WATER.
- `null` passed as an entity is not modelled: an entity is always an object.
- Entity subclasses (`Player`, `Stick`), their movement and spawn logic, and their self-registration on a map: that code is not part of this model. An entity is reduced to the position, visibility flag and print symbol that `toString` reads.
- `getEntitiesAtPos`, `getEntitiesInBounds`, `getAllEntities`, `setName` and `getName` are called from `src/backEnd/Test.java`, but `src/backEnd/Map.java` does not define them.
- `src/backEnd/Test.java`: a console demo made of printing and `Thread.sleep`. `Demo.MarkedField` plays the same role over the model.
- `StringBuilder`: the text is built as a Dafny `string` by concatenation. `ToString`'s outer loop body is the separate method `AppendRow`.
- Entity equality: a subclass overriding `equals` would change what `contains`/`remove` match. The model compares by identity.
