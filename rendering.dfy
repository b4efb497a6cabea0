/**
 * The text picture of a map: the tile grid with the glyphs of the visible
 * entities laid over it.  Each row reads "| " then one "[" glyph "]" per cell
 * then " |" and a line break.  A cell shows the glyph of the last visible
 * entity, in list order, standing on it, and otherwise the print symbol of its
 * tile.
 */
module Rendering {
  import opened Wrappers
  import opened Tiles

  /** What the renderer reads of one entity: its position, visibility flag and print symbol. */
  datatype Sprite = Sprite(x: int, y: int, visible: bool, glyph: string)

  /** The sprite takes part in rendering and stands on (x, y). */
  predicate ShownAt(s: Sprite, x: int, y: int) {
    s.visible && s.x == x && s.y == y
  }

  /**
   * The overlay entry for (x, y) once the first n sprites have been written in
   * list order, each visible one overwriting the entry at its own position.
   */
  function Overlaid(sprites: seq<Sprite>, n: nat, x: int, y: int): Option<string>
    requires n <= |sprites|
  {
    if n == 0 then None
    else if ShownAt(sprites[n - 1], x, y) then Some(sprites[n - 1].glyph)
    else Overlaid(sprites, n - 1, x, y)
  }

  /** The overlay entry for (x, y) once every sprite has been written. */
  function Top(sprites: seq<Sprite>, x: int, y: int): Option<string> {
    Overlaid(sprites, |sprites|, x, y)
  }

  /**
   * The overlay after n sprites is exactly "the last visible sprite on (x, y)
   * among the first n": empty precisely when none of them is shown there, and
   * otherwise the glyph of one shown there after which none is.
   */
  lemma {:induction false} OverlaidIsLastShown(sprites: seq<Sprite>, n: nat, x: int, y: int)
    requires n <= |sprites|
    ensures Overlaid(sprites, n, x, y).None? <==> forall i :: 0 <= i < n ==> !ShownAt(sprites[i], x, y)
    ensures Overlaid(sprites, n, x, y).Some? ==>
      exists i :: 0 <= i < n && ShownAt(sprites[i], x, y) && sprites[i].glyph == Overlaid(sprites, n, x, y).value &&
        forall j :: i < j < n ==> !ShownAt(sprites[j], x, y)
  {
    if n > 0 && !ShownAt(sprites[n - 1], x, y) {
      OverlaidIsLastShown(sprites, n - 1, x, y);
    }
  }

  /** What cell (x, y) shows: the topmost visible glyph, else the tile's print symbol. */
  function CellGlyph(tiles: seq<seq<Tile>>, sprites: seq<Sprite>, x: nat, y: nat): string
    requires y < |tiles| && x < |tiles[y]|
  {
    match Top(sprites, x, y)
    case Some(g) => g
    case None => Glyph(tiles[y][x])
  }

  /** The first n cells of row y, each as "[" glyph "]". */
  function Cells(tiles: seq<seq<Tile>>, sprites: seq<Sprite>, y: nat, n: nat): string
    requires y < |tiles| && n <= |tiles[y]|
  {
    if n == 0 then "" else Cells(tiles, sprites, y, n - 1) + "[" + CellGlyph(tiles, sprites, n - 1, y) + "]"
  }

  /** Row y framed by its border markers and ended by a line break. */
  function Line(tiles: seq<seq<Tile>>, sprites: seq<Sprite>, y: nat): string
    requires y < |tiles|
  {
    "| " + Cells(tiles, sprites, y, |tiles[y]|) + " |\n"
  }

  /** The first n rows, top to bottom. */
  function Lines(tiles: seq<seq<Tile>>, sprites: seq<Sprite>, n: nat): string
    requires n <= |tiles|
  {
    if n == 0 then "" else Lines(tiles, sprites, n - 1) + Line(tiles, sprites, n - 1)
  }

  /** The whole picture: every row of `tiles` (indexed [y][x]) with `sprites` laid over it. */
  function Render(tiles: seq<seq<Tile>>, sprites: seq<Sprite>): string {
    Lines(tiles, sprites, |tiles|)
  }

  /** The text written before cell x of row y, when the picture is produced left to right. */
  function TextBefore(tiles: seq<seq<Tile>>, sprites: seq<Sprite>, y: nat, x: nat): string
    requires y < |tiles| && x <= |tiles[y]|
  {
    Lines(tiles, sprites, y) + "| " + Cells(tiles, sprites, y, x)
  }

  /** Producing cell x of row y appends "[", its glyph and "]". */
  lemma TextBeforeNextCell(tiles: seq<seq<Tile>>, sprites: seq<Sprite>, y: nat, x: nat)
    requires y < |tiles| && x < |tiles[y]|
    ensures TextBefore(tiles, sprites, y, x + 1) ==
      TextBefore(tiles, sprites, y, x) + "[" + CellGlyph(tiles, sprites, x, y) + "]"
  {
  }

  /** A row starts after the rows above it and ends with " |" and a line break. */
  lemma TextBeforeRowEnds(tiles: seq<seq<Tile>>, sprites: seq<Sprite>, y: nat)
    requires y < |tiles|
    ensures TextBefore(tiles, sprites, y, 0) == Lines(tiles, sprites, y) + "| "
    ensures TextBefore(tiles, sprites, y, |tiles[y]|) + " |\n" == Lines(tiles, sprites, y + 1)
  {
  }

  // ---------------------------------------------------------------------------
  // Precedence of the overlay

  /** When a visible sprite stands on (x, y) and no later one does, the cell shows its glyph. */
  lemma {:induction false} CellShowsLastVisible(tiles: seq<seq<Tile>>, sprites: seq<Sprite>, x: nat, y: nat, i: nat)
    requires y < |tiles| && x < |tiles[y]|
    requires i < |sprites| && ShownAt(sprites[i], x, y)
    requires forall j :: i < j < |sprites| ==> !ShownAt(sprites[j], x, y)
    ensures CellGlyph(tiles, sprites, x, y) == sprites[i].glyph
  {
    OverlaidIsLastShown(sprites, |sprites|, x, y);
  }

  /** When no visible sprite stands on (x, y), the cell shows the tile's print symbol. */
  lemma {:induction false} CellShowsTile(tiles: seq<seq<Tile>>, sprites: seq<Sprite>, x: nat, y: nat)
    requires y < |tiles| && x < |tiles[y]|
    requires forall i :: 0 <= i < |sprites| ==> !ShownAt(sprites[i], x, y)
    ensures CellGlyph(tiles, sprites, x, y) == Glyph(tiles[y][x])
  {
    OverlaidIsLastShown(sprites, |sprites|, x, y);
  }

  /** Where no visible sprite stands, the printed cell tells which tile lies there. */
  lemma {:induction false} CellIdentifiesTile(tiles: seq<seq<Tile>>, sprites: seq<Sprite>, x: nat, y: nat, t: Tile)
    requires y < |tiles| && x < |tiles[y]|
    requires forall i :: 0 <= i < |sprites| ==> !ShownAt(sprites[i], x, y)
    ensures CellGlyph(tiles, sprites, x, y) == Glyph(t) <==> tiles[y][x] == t
  {
    CellShowsTile(tiles, sprites, x, y);
    GlyphInjective(tiles[y][x], t);
  }

  /** The overlay after n sprites depends on those n only. */
  lemma {:induction false} OverlaidPrefix(s: seq<Sprite>, t: seq<Sprite>, n: nat, x: int, y: int)
    requires n <= |s|
    ensures Overlaid(s + t, n, x, y) == Overlaid(s, n, x, y)
  {
    if n > 0 {
      assert (s + t)[n - 1] == s[n - 1];
      OverlaidPrefix(s, t, n - 1, x, y);
    }
  }

  lemma {:induction false} OverlaidShift(s: seq<Sprite>, t: seq<Sprite>, k: nat, x: int, y: int)
    requires k <= |t|
    ensures Overlaid(s + t, |s| + k, x, y) ==
      if Overlaid(t, k, x, y).Some? then Overlaid(t, k, x, y) else Overlaid(s, |s|, x, y)
  {
    if k == 0 {
      OverlaidPrefix(s, t, |s|, x, y);
    } else {
      assert (s + t)[|s| + k - 1] == t[k - 1];
      OverlaidShift(s, t, k - 1, x, y);
    }
  }

  /** Sprites added later cover those before them wherever they are shown. */
  lemma {:induction false} TopAppend(s: seq<Sprite>, t: seq<Sprite>, x: int, y: int)
    ensures Top(s + t, x, y) == if Top(t, x, y).Some? then Top(t, x, y) else Top(s, x, y)
  {
    OverlaidShift(s, t, |t|, x, y);
  }

  /** The picture depends on the sprites only through the overlay they produce. */
  lemma {:induction false} CellsCongruent(tiles: seq<seq<Tile>>, s: seq<Sprite>, t: seq<Sprite>, y: nat, n: nat)
    requires y < |tiles| && n <= |tiles[y]|
    requires forall x: nat, y: nat :: Top(s, x, y) == Top(t, x, y)
    ensures Cells(tiles, s, y, n) == Cells(tiles, t, y, n)
  {
    if n > 0 {
      CellsCongruent(tiles, s, t, y, n - 1);
      assert Top(s, n - 1, y) == Top(t, n - 1, y);
    }
  }

  lemma {:induction false} LinesCongruent(tiles: seq<seq<Tile>>, s: seq<Sprite>, t: seq<Sprite>, n: nat)
    requires n <= |tiles|
    requires forall x: nat, y: nat :: Top(s, x, y) == Top(t, x, y)
    ensures Lines(tiles, s, n) == Lines(tiles, t, n)
  {
    if n > 0 {
      LinesCongruent(tiles, s, t, n - 1);
      CellsCongruent(tiles, s, t, n - 1, |tiles[n - 1]|);
    }
  }

  /** An invisible entity never shows: taking it out of the list leaves the picture unchanged. */
  lemma {:induction false} InvisibleIgnored(tiles: seq<seq<Tile>>, before: seq<Sprite>, hidden: Sprite, after: seq<Sprite>)
    requires !hidden.visible
    ensures Render(tiles, before + [hidden] + after) == Render(tiles, before + after)
  {
    forall x: nat, y: nat
      ensures Top(before + [hidden] + after, x, y) == Top(before + after, x, y)
    {
      TopAppend(before + [hidden], after, x, y);
      TopAppend(before, [hidden], x, y);
      assert Overlaid([hidden], 1, x, y) == Overlaid([hidden], 0, x, y);
      TopAppend(before, after, x, y);
    }
    LinesCongruent(tiles, before + [hidden] + after, before + after, |tiles|);
  }

  // ---------------------------------------------------------------------------
  // Layout of the text

  /** Every row of the grid has `w` cells. */
  predicate Rectangular(tiles: seq<seq<Tile>>, w: nat) {
    forall y :: 0 <= y < |tiles| ==> |tiles[y]| == w
  }

  /** Every visible sprite prints as a single character, as every tile does. */
  predicate SingleCharGlyphs(sprites: seq<Sprite>) {
    forall i :: 0 <= i < |sprites| && sprites[i].visible ==> |sprites[i].glyph| == 1
  }

  /** The offset at which row y of a w-wide picture starts, each row being 3 * w + 5 characters. */
  function LineStart(w: nat, y: nat): nat {
    if y == 0 then 0 else LineStart(w, y - 1) + (3 * w + 5)
  }

  lemma {:induction false} LineStartIsProduct(w: nat, y: nat)
    ensures LineStart(w, y) == y * (3 * w + 5)
  {
    if y > 0 {
      LineStartIsProduct(w, y - 1);
    }
  }

  lemma {:induction false} CellGlyphSingle(tiles: seq<seq<Tile>>, sprites: seq<Sprite>, x: nat, y: nat)
    requires y < |tiles| && x < |tiles[y]| && SingleCharGlyphs(sprites)
    ensures |CellGlyph(tiles, sprites, x, y)| == 1
  {
    OverlaidIsLastShown(sprites, |sprites|, x, y);
  }

  lemma {:induction false} CellsLayout(tiles: seq<seq<Tile>>, sprites: seq<Sprite>, y: nat, n: nat)
    requires y < |tiles| && n <= |tiles[y]| && SingleCharGlyphs(sprites)
    ensures |Cells(tiles, sprites, y, n)| == 3 * n
    ensures forall x :: 0 <= x < n ==>
      Cells(tiles, sprites, y, n)[3 * x] == '[' &&
      [Cells(tiles, sprites, y, n)[3 * x + 1]] == CellGlyph(tiles, sprites, x, y) &&
      Cells(tiles, sprites, y, n)[3 * x + 2] == ']'
  {
    if n > 0 {
      CellsLayout(tiles, sprites, y, n - 1);
      CellGlyphSingle(tiles, sprites, n - 1, y);
      var prev := Cells(tiles, sprites, y, n - 1);
      var cell := "[" + CellGlyph(tiles, sprites, n - 1, y) + "]";
      assert Cells(tiles, sprites, y, n) == prev + cell;
      forall x | 0 <= x < n
        ensures Cells(tiles, sprites, y, n)[3 * x] == '['
        ensures [Cells(tiles, sprites, y, n)[3 * x + 1]] == CellGlyph(tiles, sprites, x, y)
        ensures Cells(tiles, sprites, y, n)[3 * x + 2] == ']'
      {
        if x < n - 1 {
          assert (prev + cell)[3 * x] == prev[3 * x];
          assert (prev + cell)[3 * x + 1] == prev[3 * x + 1];
          assert (prev + cell)[3 * x + 2] == prev[3 * x + 2];
        }
      }
    }
  }

  lemma {:induction false} LineLayout(tiles: seq<seq<Tile>>, sprites: seq<Sprite>, w: nat, y: nat)
    requires y < |tiles| && |tiles[y]| == w && SingleCharGlyphs(sprites)
    ensures |Line(tiles, sprites, y)| == 3 * w + 5
    ensures Line(tiles, sprites, y)[0] == '|' && Line(tiles, sprites, y)[1] == ' '
    ensures Line(tiles, sprites, y)[3 * w + 2] == ' ' && Line(tiles, sprites, y)[3 * w + 3] == '|'
    ensures Line(tiles, sprites, y)[3 * w + 4] == '\n'
    ensures forall x :: 0 <= x < w ==>
      Line(tiles, sprites, y)[3 * x + 2] == '[' &&
      [Line(tiles, sprites, y)[3 * x + 3]] == CellGlyph(tiles, sprites, x, y) &&
      Line(tiles, sprites, y)[3 * x + 4] == ']'
  {
    CellsLayout(tiles, sprites, y, w);
    var c := Cells(tiles, sprites, y, w);
    assert Line(tiles, sprites, y) == "| " + c + " |\n";
    forall x | 0 <= x < w
      ensures Line(tiles, sprites, y)[3 * x + 2] == c[3 * x]
      ensures Line(tiles, sprites, y)[3 * x + 3] == c[3 * x + 1]
      ensures Line(tiles, sprites, y)[3 * x + 4] == c[3 * x + 2]
    {
    }
  }

  lemma {:induction false} CellsLength(tiles: seq<seq<Tile>>, sprites: seq<Sprite>, y: nat, n: nat)
    requires y < |tiles| && n <= |tiles[y]| && SingleCharGlyphs(sprites)
    ensures |Cells(tiles, sprites, y, n)| == 3 * n
  {
    if n > 0 {
      CellsLength(tiles, sprites, y, n - 1);
      CellGlyphSingle(tiles, sprites, n - 1, y);
    }
  }

  lemma {:induction false} LineLength(tiles: seq<seq<Tile>>, sprites: seq<Sprite>, w: nat, y: nat)
    requires y < |tiles| && |tiles[y]| == w && SingleCharGlyphs(sprites)
    ensures |Line(tiles, sprites, y)| == 3 * w + 5
  {
    CellsLength(tiles, sprites, y, w);
  }

  lemma {:induction false} LinesLength(tiles: seq<seq<Tile>>, sprites: seq<Sprite>, w: nat, n: nat)
    requires n <= |tiles| && Rectangular(tiles, w) && SingleCharGlyphs(sprites)
    ensures |Lines(tiles, sprites, n)| == LineStart(w, n)
    ensures LineStart(w, n) == n * (3 * w + 5)
  {
    if n > 0 {
      LinesLength(tiles, sprites, w, n - 1);
      LineLength(tiles, sprites, w, n - 1);
    }
    LineStartIsProduct(w, n);
  }

  /** Rows added below leave every character of the rows above in place. */
  lemma {:induction false} LinesExtend(tiles: seq<seq<Tile>>, sprites: seq<Sprite>, m: nat, n: nat, k: nat)
    requires m <= n <= |tiles| && k < |Lines(tiles, sprites, m)|
    ensures k < |Lines(tiles, sprites, n)| && Lines(tiles, sprites, n)[k] == Lines(tiles, sprites, m)[k]
  {
    if m < n {
      LinesExtend(tiles, sprites, m, n - 1, k);
      var prev := Lines(tiles, sprites, n - 1);
      assert Lines(tiles, sprites, n) == prev + Line(tiles, sprites, n - 1);
      assert (prev + Line(tiles, sprites, n - 1))[k] == prev[k];
    }
  }

  /** Character j of row y sits at offset |Lines(y)| + j of the first n rows. */
  lemma {:induction false} LinesAt(tiles: seq<seq<Tile>>, sprites: seq<Sprite>, n: nat, y: nat, j: nat)
    requires y < n <= |tiles| && j < |Line(tiles, sprites, y)|
    ensures |Lines(tiles, sprites, y)| + j < |Lines(tiles, sprites, n)|
    ensures Lines(tiles, sprites, n)[|Lines(tiles, sprites, y)| + j] == Line(tiles, sprites, y)[j]
  {
    ConcatAt(Lines(tiles, sprites, y), Line(tiles, sprites, y), j);
    LinesExtend(tiles, sprites, y + 1, n, |Lines(tiles, sprites, y)| + j);
  }

  lemma ConcatAt<T>(a: seq<T>, b: seq<T>, j: nat)
    requires j < |b|
    ensures |a| + j < |a + b| && (a + b)[|a| + j] == b[j]
  {
  }

  /**
   * When every glyph is one character, the picture of a w-wide grid is |tiles|
   * rows of 3 * w + 5 characters each.
   */
  lemma {:induction false} RenderLength(tiles: seq<seq<Tile>>, sprites: seq<Sprite>, w: nat)
    requires Rectangular(tiles, w) && SingleCharGlyphs(sprites)
    ensures |Render(tiles, sprites)| == |tiles| * (3 * w + 5)
  {
    LinesLength(tiles, sprites, w, |tiles|);
    LineStartIsProduct(w, |tiles|);
  }

  /** Character j of row y is character LineStart(w, y) + j of the picture. */
  lemma {:induction false} RenderAt(tiles: seq<seq<Tile>>, sprites: seq<Sprite>, w: nat, y: nat, j: nat)
    requires Rectangular(tiles, w) && SingleCharGlyphs(sprites) && y < |tiles| && j < 3 * w + 5
    ensures LineStart(w, y) == y * (3 * w + 5)
    ensures |Line(tiles, sprites, y)| == 3 * w + 5 && LineStart(w, y) + j < |Render(tiles, sprites)|
    ensures Render(tiles, sprites)[LineStart(w, y) + j] == Line(tiles, sprites, y)[j]
  {
    LineStartIsProduct(w, y);
    LineLength(tiles, sprites, w, y);
    LinesLength(tiles, sprites, w, y);
    LinesAt(tiles, sprites, |tiles|, y, j);
  }

  /** Cell x of row y sits at offsets 3 * x + 2 to 3 * x + 4 of that row. */
  lemma {:induction false} CellInLine(tiles: seq<seq<Tile>>, sprites: seq<Sprite>, w: nat, y: nat, x: nat)
    requires y < |tiles| && |tiles[y]| == w && SingleCharGlyphs(sprites) && x < w
    ensures |Line(tiles, sprites, y)| == 3 * w + 5
    ensures Line(tiles, sprites, y)[3 * x + 2] == '['
    ensures [Line(tiles, sprites, y)[3 * x + 3]] == CellGlyph(tiles, sprites, x, y)
    ensures Line(tiles, sprites, y)[3 * x + 4] == ']'
  {
    LineLayout(tiles, sprites, w, y);
  }

  /** Row y of the picture starts at LineStart(w, y) with "| " and ends with " |" and a line break. */
  lemma {:induction false} RowFrameAt(tiles: seq<seq<Tile>>, sprites: seq<Sprite>, w: nat, y: nat)
    requires Rectangular(tiles, w) && SingleCharGlyphs(sprites) && y < |tiles|
    ensures LineStart(w, y) == y * (3 * w + 5)
    ensures LineStart(w, y) + 3 * w + 5 <= |Render(tiles, sprites)|
    ensures Render(tiles, sprites)[LineStart(w, y)] == '|'
    ensures Render(tiles, sprites)[LineStart(w, y) + 1] == ' '
    ensures Render(tiles, sprites)[LineStart(w, y) + 3 * w + 2] == ' '
    ensures Render(tiles, sprites)[LineStart(w, y) + 3 * w + 3] == '|'
    ensures Render(tiles, sprites)[LineStart(w, y) + 3 * w + 4] == '\n'
  {
    LineLayout(tiles, sprites, w, y);
    RenderAt(tiles, sprites, w, y, 0);
    RenderAt(tiles, sprites, w, y, 1);
    RenderAt(tiles, sprites, w, y, 3 * w + 2);
    RenderAt(tiles, sprites, w, y, 3 * w + 3);
    RenderAt(tiles, sprites, w, y, 3 * w + 4);
  }

  /** Cell x of row y is "[", its glyph, "]", from offset LineStart(w, y) + 3 * x + 2 on. */
  lemma {:induction false} CellAt(tiles: seq<seq<Tile>>, sprites: seq<Sprite>, w: nat, y: nat, x: nat)
    requires Rectangular(tiles, w) && SingleCharGlyphs(sprites) && y < |tiles| && x < w
    ensures LineStart(w, y) == y * (3 * w + 5)
    ensures LineStart(w, y) + 3 * x + 4 < |Render(tiles, sprites)|
    ensures Render(tiles, sprites)[LineStart(w, y) + 3 * x + 2] == '['
    ensures [Render(tiles, sprites)[LineStart(w, y) + 3 * x + 3]] == CellGlyph(tiles, sprites, x, y)
    ensures Render(tiles, sprites)[LineStart(w, y) + 3 * x + 4] == ']'
  {
    CellInLine(tiles, sprites, w, y, x);
    RenderAt(tiles, sprites, w, y, 3 * x + 2);
    RenderAt(tiles, sprites, w, y, 3 * x + 3);
    RenderAt(tiles, sprites, w, y, 3 * x + 4);
  }

  /** A three-row picture is its three rows in order. */
  lemma {:induction false} FieldLines(tiles: seq<seq<Tile>>, sprites: seq<Sprite>)
    requires |tiles| == 3
    ensures Render(tiles, sprites) == Line(tiles, sprites, 0) + Line(tiles, sprites, 1) + Line(tiles, sprites, 2)
  {
    assert Lines(tiles, sprites, 1) == Line(tiles, sprites, 0);
    assert Lines(tiles, sprites, 2) == Line(tiles, sprites, 0) + Line(tiles, sprites, 1);
  }
}
