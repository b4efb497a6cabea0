/** Worked pictures: a 3 x 3 grass field with one marker in its middle, the example terrain, and a session against the map. */
module Demo {
  import opened Wrappers
  import opened Tiles
  import BackEnd
  import opened Rendering

  /** A 3 x 3 grass field, and one visible "X" standing in its middle. */
  const Field: seq<seq<Tile>> := [[Grass, Grass, Grass], [Grass, Grass, Grass], [Grass, Grass, Grass]]
  const OneX: seq<Sprite> := [Sprite(1, 1, true, "X")]
  const GrassRow: string := "| [G][G][G] |\n"
  const CrossRow: string := "| [G][X][G] |\n"

  /** Rows 0 and 2 of the field hold grass only. */
  lemma {:induction false} GrassLine(y: nat)
    requires y == 0 || y == 2
    ensures Line(Field, OneX, y) == GrassRow
  {
    assert Top(OneX, 0, y) == None;
    assert CellGlyph(Field, OneX, 0, y) == "G";
    assert Cells(Field, OneX, y, 1) == "[G]";
    assert Top(OneX, 1, y) == None;
    assert CellGlyph(Field, OneX, 1, y) == "G";
    assert Cells(Field, OneX, y, 2) == "[G][G]";
    assert Top(OneX, 2, y) == None;
    assert CellGlyph(Field, OneX, 2, y) == "G";
    assert Cells(Field, OneX, y, 3) == "[G][G][G]";
  }

  /** Row 1 of the field shows the sprite in its middle cell. */
  lemma {:induction false} CrossLine()
    ensures Line(Field, OneX, 1) == CrossRow
  {
    assert Top(OneX, 0, 1) == None;
    assert CellGlyph(Field, OneX, 0, 1) == "G";
    assert Cells(Field, OneX, 1, 1) == "[G]";
    assert CellGlyph(Field, OneX, 1, 1) == "X";
    assert Cells(Field, OneX, 1, 2) == "[G][X]";
    assert Top(OneX, 2, 1) == None;
    assert CellGlyph(Field, OneX, 2, 1) == "G";
    assert Cells(Field, OneX, 1, 3) == "[G][X][G]";
  }

  /** The field renders with the "X" in the middle cell and grass everywhere else. */
  lemma {:induction false} MiddleOfGrassField()
    ensures Render(Field, OneX) == GrassRow + CrossRow + GrassRow
  {
    FieldLines(Field, OneX);
    GrassLine(0);
    CrossLine();
    GrassLine(2);
  }

  /** The terrain of the example picture: grass on the left, stone on the right, no entities. */
  const DocGrid: seq<seq<Tile>> := [[Grass, Grass, Stone], [Grass, Stone, Stone], [Grass, Grass, Stone]]
  const DocOuterRow: string := "| [G][G][S] |\n"
  const DocMiddleRow: string := "| [G][S][S] |\n"

  /** Rows 0 and 2 of the example terrain. */
  lemma {:induction false} DocOuterLine(y: nat)
    requires y == 0 || y == 2
    ensures Line(DocGrid, [], y) == DocOuterRow
  {
    assert CellGlyph(DocGrid, [], 0, y) == "G";
    assert Cells(DocGrid, [], y, 1) == "[G]";
    assert CellGlyph(DocGrid, [], 1, y) == "G";
    assert Cells(DocGrid, [], y, 2) == "[G][G]";
    assert CellGlyph(DocGrid, [], 2, y) == "S";
    assert Cells(DocGrid, [], y, 3) == "[G][G][S]";
  }

  /** Row 1 of the example terrain. */
  lemma {:induction false} DocMiddleLine()
    ensures Line(DocGrid, [], 1) == DocMiddleRow
  {
    assert CellGlyph(DocGrid, [], 0, 1) == "G";
    assert Cells(DocGrid, [], 1, 1) == "[G]";
    assert CellGlyph(DocGrid, [], 1, 1) == "S";
    assert Cells(DocGrid, [], 1, 2) == "[G][S]";
    assert CellGlyph(DocGrid, [], 2, 1) == "S";
    assert Cells(DocGrid, [], 1, 3) == "[G][S][S]";
  }

  /** The example picture of the map's text form: three framed rows of grass and stone. */
  lemma {:induction false} DocPicture()
    ensures Render(DocGrid, []) == DocOuterRow + DocMiddleRow + DocOuterRow
  {
    FieldLines(DocGrid, []);
    DocOuterLine(0);
    DocMiddleLine();
    DocOuterLine(2);
  }
  /** Any 3 x 3 grid of grass is the example field. */
  lemma {:induction false} GrassField(g: seq<seq<Tile>>)
    requires |g| == 3 && forall y :: 0 <= y < 3 ==> |g[y]| == 3
    requires forall y, x :: 0 <= y < 3 && 0 <= x < 3 ==> g[y][x] == Grass
    ensures g == Field
  {
    assert g[0] == [g[0][0], g[0][1], g[0][2]];
    assert g[1] == [g[1][0], g[1][1], g[1][2]];
    assert g[2] == [g[2][0], g[2][1], g[2][2]];
    assert g == [g[0], g[1], g[2]];
  }

  /**
   * A 3 x 3 grass grid under a visible "X" at (1, 1) followed by an invisible
   * sprite renders with the "X" in its middle cell only.
   */
  lemma {:induction false} MarkedPicture(g: seq<seq<Tile>>, sprites: seq<Sprite>)
    requires |g| == 3 && forall y :: 0 <= y < 3 ==> |g[y]| == 3
    requires forall y, x :: 0 <= y < 3 && 0 <= x < 3 ==> g[y][x] == Grass
    requires |sprites| == 2 && sprites[0] == Sprite(1, 1, true, "X") && !sprites[1].visible
    ensures Render(g, sprites) == GrassRow + CrossRow + GrassRow
  {
    GrassField(g);
    var hidden := sprites[1];
    InvisibleIgnored(Field, OneX, hidden, []);
    assert OneX + [hidden] + [] == sprites;
    assert OneX + [] == OneX;
    MiddleOfGrassField();
  }

  /**
   * Builds a 3 x 3 map of grass, binds a visible "X" at (1, 1) and an
   * invisible "Y" at (0, 0), and renders it.
   */
  method MarkedField() returns (s: string)
    ensures s == GrassRow + CrossRow + GrassRow
  {
    var m := new BackEnd.Map.Square(3, Grass);
    var x := new BackEnd.Entity(1, 1, true, "X");
    var y := new BackEnd.Entity(0, 0, false, "Y");
    var added := m.AddEntity(x);
    added := m.AddEntity(y);
    assert m.entities == [x, y];
    assert m.IsValidPosition(x.posX, x.posY);
    s := m.ToString();
    ghost var sprites := BackEnd.Views(m.entities);
    assert sprites[0] == BackEnd.View(x) && sprites[1] == BackEnd.View(y);
    MarkedPicture(m.Grid(), sprites);
  }
}
