/**
 * A game environment for entities: a fixed-size grid of tiles, a default
 * spawn point, and an ordered, duplicate-free list of the entities bound to
 * the map, with an ASCII picture of the whole.
 */
module BackEnd {
  import opened Wrappers
  import opened Tiles
  import opened Sequences
  import Rendering

  /** Width and height of a map built without explicit dimensions. */
  const DefaultSize: nat := 24
  /** The fill of a map built without an explicit tile. */
  const DefaultTile: Tile := Grass

  /**
   * Something placed on a map.  Only what the map reads of it is modelled:
   * its position (possibly off the grid), whether it is drawn, and its print
   * symbol.  The map refers to it by identity.
   */
  class Entity {
    var posX: int
    var posY: int
    var visible: bool
    var glyph: string

    constructor (x: int, y: int, visible: bool, glyph: string)
      ensures posX == x && posY == y && this.visible == visible && this.glyph == glyph
    {
      posX, posY, this.visible, this.glyph := x, y, visible, glyph;
    }
  }

  /** What the renderer reads of an entity. */
  function View(e: Entity): (s: Rendering.Sprite)
    reads e
    ensures s.x == e.posX && s.y == e.posY && s.visible == e.visible && s.glyph == e.glyph
  {
    Rendering.Sprite(e.posX, e.posY, e.visible, e.glyph)
  }

  /** What the renderer reads of each entity of a list, in list order. */
  function Views(es: seq<Entity>): (r: seq<Rendering.Sprite>)
    reads es
    ensures |r| == |es|
    ensures forall i :: 0 <= i < |es| ==> r[i] == View(es[i])
  {
    if es == [] then [] else Views(es[..|es| - 1]) + [View(es[|es| - 1])]
  }

  class Map {
    var spawnX: int
    var spawnY: int
    /** The terrain, indexed [y, x]: Length0 rows of Length1 cells each; the array is fixed at construction. */
    const tilegrid: array2<Tile>
    var entities: seq<Entity>

    /** No entity is listed twice. */
    ghost predicate Valid()
      reads this
    {
      Distinct(entities)
    }

    /** The width is read off the first row, so it exists only when there is a row. */
    predicate HasRows()
      reads this
    {
      tilegrid.Length0 >= 1
    }

    /**
     * IsValidPosition(x, _) can be evaluated: it reads the width only once x >= 0
     * has been established.
     */
    predicate Checkable(x: int)
      reads this
    {
      x < 0 || HasRows()
    }

    /** The terrain as rows of tiles, top to bottom. */
    ghost function Grid(): (g: seq<seq<Tile>>)
      reads tilegrid
      ensures |g| == tilegrid.Length0
      ensures forall y :: 0 <= y < |g| ==> |g[y]| == tilegrid.Length1
      ensures forall y, x :: 0 <= y < tilegrid.Length0 && 0 <= x < tilegrid.Length1 ==> g[y][x] == tilegrid[y, x]
    {
      var a := tilegrid;
      seq(a.Length0, y requires 0 <= y < a.Length0 reads a =>
        seq(a.Length1, x requires 0 <= x < a.Length1 reads a => a[y, x]))
    }

    /** A width x height map filled with `fill`, spawn at (spawnX, spawnY) taken as given. */
    constructor (width: nat, height: nat, spawnX: int, spawnY: int, fill: Tile)
      ensures Valid() && fresh(tilegrid)
      ensures tilegrid.Length0 == height && tilegrid.Length1 == width
      ensures GetDefaultSpawnX() == spawnX && GetDefaultSpawnY() == spawnY
      ensures entities == []
      ensures forall y, x :: 0 <= y < height && 0 <= x < width ==> tilegrid[y, x] == fill
    {
      entities := [];
      this.spawnX := spawnX;
      this.spawnY := spawnY;
      tilegrid := new Tile[height, width];
      new;
      TileFill(fill);
    }

    /** A width x height map filled with `fill`, spawn at (width / 2, height / 2). */
    constructor Centered(width: nat, height: nat, fill: Tile)
      ensures Valid() && fresh(tilegrid)
      ensures tilegrid.Length0 == height && tilegrid.Length1 == width
      ensures GetDefaultSpawnX() == width / 2 && GetDefaultSpawnY() == height / 2
      ensures entities == []
      ensures forall y, x :: 0 <= y < height && 0 <= x < width ==> tilegrid[y, x] == fill
    {
      entities := [];
      spawnX := width / 2;
      spawnY := height / 2;
      tilegrid := new Tile[height, width];
      new;
      TileFill(fill);
    }

    /** A size x size map filled with `fill`, spawn at its centre. */
    constructor Square(size: nat, fill: Tile)
      ensures Valid() && fresh(tilegrid)
      ensures tilegrid.Length0 == size && tilegrid.Length1 == size
      ensures GetDefaultSpawnX() == size / 2 && GetDefaultSpawnY() == size / 2
      ensures entities == []
      ensures forall y, x :: 0 <= y < size && 0 <= x < size ==> tilegrid[y, x] == fill
    {
      entities := [];
      spawnX := size / 2;
      spawnY := size / 2;
      tilegrid := new Tile[size, size];
      new;
      TileFill(fill);
    }

    /** A DefaultSize x DefaultSize map filled with `fill`, spawn at (12, 12). */
    constructor OfTile(fill: Tile)
      ensures Valid() && fresh(tilegrid)
      ensures HasRows() && GetWidth() == DefaultSize && GetHeight() == DefaultSize
      ensures GetDefaultSpawnX() == 12 && GetDefaultSpawnY() == 12
      ensures entities == []
      ensures forall y, x :: 0 <= y < DefaultSize && 0 <= x < DefaultSize ==> tilegrid[y, x] == fill
    {
      entities := [];
      spawnX := DefaultSize / 2;
      spawnY := DefaultSize / 2;
      tilegrid := new Tile[DefaultSize, DefaultSize];
      new;
      TileFill(fill);
    }

    /** A DefaultSize x DefaultSize map of DefaultTile (grass), spawn at (12, 12). */
    constructor Default()
      ensures Valid() && fresh(tilegrid)
      ensures HasRows() && GetWidth() == DefaultSize && GetHeight() == DefaultSize
      ensures GetDefaultSpawnX() == 12 && GetDefaultSpawnY() == 12
      ensures entities == []
      ensures forall y, x :: 0 <= y < DefaultSize && 0 <= x < DefaultSize ==> tilegrid[y, x] == Grass
    {
      entities := [];
      spawnX := DefaultSize / 2;
      spawnY := DefaultSize / 2;
      tilegrid := new Tile[DefaultSize, DefaultSize];
      new;
      TileFill(DefaultTile);
    }

    /** Number of tiles across; read off the first row, so the grid needs one. */
    function GetWidth(): (w: nat)
      reads this
      requires HasRows()
      ensures w == tilegrid.Length1
    {
      tilegrid.Length1
    }

    /** Number of tiles down. */
    function GetHeight(): (h: nat)
      reads this
      ensures h == tilegrid.Length0
    {
      tilegrid.Length0
    }

    /** (x, y) names a cell of the grid. */
    predicate IsValidPosition(x: int, y: int)
      reads this
      requires Checkable(x)
      ensures IsValidPosition(x, y) <==> 0 <= y < tilegrid.Length0 && 0 <= x < tilegrid.Length1
    {
      x >= 0 && x < GetWidth() && y >= 0 && y < GetHeight()
    }

    /** The tile at (x, y), or None off the grid. */
    function GetTile(x: int, y: int): (r: Option<Tile>)
      reads this, tilegrid
      requires Checkable(x)
      ensures r.Some? <==> IsValidPosition(x, y)
      ensures r.Some? ==> r.value == Grid()[y][x]
    {
      if IsValidPosition(x, y) then Some(tilegrid[y, x]) else None
    }

    /** The x coordinate of the default spawn, as last stored. */
    function GetDefaultSpawnX(): (x: int)
      reads this
      ensures x == spawnX
    {
      spawnX
    }

    /** The y coordinate of the default spawn, as last stored. */
    function GetDefaultSpawnY(): (y: int)
      reads this
      ensures y == spawnY
    {
      spawnY
    }

    /** Overwrites the tile at (x, y); off the grid, nothing happens. */
    method SetTile(x: int, y: int, tile: Tile)
      requires Checkable(x)
      modifies tilegrid
      ensures !IsValidPosition(x, y) ==> unchanged(tilegrid)
      ensures forall j, i :: 0 <= j < tilegrid.Length0 && 0 <= i < tilegrid.Length1 ==>
        tilegrid[j, i] == if i == x && j == y then tile else old(tilegrid[j, i])
      ensures IsValidPosition(x, y) ==> GetTile(x, y) == Some(tile)
    {
      if IsValidPosition(x, y) {
        tilegrid[y, x] := tile;
      }
    }

    /** Sets every tile of the grid to `fill`, row by row. */
    method TileFill(fill: Tile)
      modifies tilegrid
      ensures forall y, x :: 0 <= y < tilegrid.Length0 && 0 <= x < tilegrid.Length1 ==> tilegrid[y, x] == fill
    {
      var y := 0;
      while y < GetHeight()
        invariant 0 <= y <= GetHeight()
        invariant forall j, i :: 0 <= j < y && 0 <= i < tilegrid.Length1 ==> tilegrid[j, i] == fill
      {
        var x := 0;
        while x < GetWidth()
          invariant 0 <= x <= GetWidth()
          invariant forall j, i :: 0 <= j < y && 0 <= i < tilegrid.Length1 ==> tilegrid[j, i] == fill
          invariant forall i :: 0 <= i < x ==> tilegrid[y, i] == fill
        {
          SetTile(x, y, fill);
          x := x + 1;
        }
        y := y + 1;
      }
    }

    /** Moves the default spawn to (x, y) when it is on the grid; otherwise keeps the old one. */
    method SetDefaultSpawn(x: int, y: int)
      requires Checkable(x)
      modifies this`spawnX, this`spawnY
      ensures IsValidPosition(x, y) ==> GetDefaultSpawnX() == x && GetDefaultSpawnY() == y
      ensures !IsValidPosition(x, y) ==>
        GetDefaultSpawnX() == old(GetDefaultSpawnX()) && GetDefaultSpawnY() == old(GetDefaultSpawnY())
    {
      if IsValidPosition(x, y) {
        spawnX := x;
        spawnY := y;
      }
    }

    /** Appends `e` unless it is already listed; returns it when added, None when rejected. */
    method AddEntity(e: Entity) returns (r: Option<Entity>)
      requires Valid()
      modifies this`entities
      ensures Valid()
      ensures old(e !in entities) ==> r == Some(e) && entities == old(entities) + [e]
      ensures old(e in entities) ==> r == None && entities == old(entities)
      ensures multiset(entities)[e] == 1
    {
      if e !in entities {
        AppendDistinct(entities, e);
        entities := entities + [e];
        r := Some(e);
      } else {
        r := None;
      }
      DistinctOccursOnce(entities, e);
    }

    /** Takes `e` out of the list; returns it when it was listed, None when not. */
    method RemoveEntity(e: Entity) returns (r: Option<Entity>)
      requires Valid()
      modifies this`entities
      ensures Valid()
      ensures old(e in entities) ==> r == Some(e) && entities == RemoveFirst(old(entities), e)
      ensures old(e !in entities) ==> r == None && entities == old(entities)
      ensures e !in entities
      ensures forall o :: o in entities <==> o in old(entities) && o != e
    {
      RemoveFirstDistinct(entities, e);
      if e in entities {
        entities := RemoveFirst(entities, e);
        r := Some(e);
      } else {
        r := None;
      }
    }

    /** Every visible entity stands on the grid, as the renderer needs. */
    predicate VisibleInBounds()
      reads this, entities
      requires HasRows()
      ensures VisibleInBounds() <==> forall i :: 0 <= i < |entities| && entities[i].visible ==>
        0 <= entities[i].posX < tilegrid.Length1 && 0 <= entities[i].posY < tilegrid.Length0
    {
      forall e :: e in entities && e.visible ==> IsValidPosition(e.posX, e.posY)
    }

    /**
     * The overlay of the picture: for each cell, the glyph of the last visible
     * entity standing there in list order, or None.
     */
    method Overlay() returns (overlay: array2<Option<string>>)
      requires HasRows() && VisibleInBounds()
      ensures fresh(overlay)
      ensures overlay.Length0 == tilegrid.Length0 && overlay.Length1 == tilegrid.Length1
      ensures forall y, x :: 0 <= y < overlay.Length0 && 0 <= x < overlay.Length1 ==>
        overlay[y, x] == Rendering.Top(Views(entities), x, y)
    {
      ghost var sprites := Views(entities);
      overlay := new Option<string>[GetHeight(), GetWidth()]((_, _) => None);
      var i := 0;
      while i < |entities|
        invariant 0 <= i <= |entities|
        invariant forall y, x :: 0 <= y < overlay.Length0 && 0 <= x < overlay.Length1 ==>
          overlay[y, x] == Rendering.Overlaid(sprites, i, x, y)
      {
        var e := entities[i];
        assert sprites[i] == View(e);
        if e.visible {
          assert e in entities;
          overlay[e.posY, e.posX] := Some(e.glyph);
        }
        i := i + 1;
      }
    }

    /**
     * The ASCII picture of the map: each row is "| ", then "[" glyph "]" per
     * cell, then " |" and a line break; a cell shows its overlay glyph if it
     * has one and its tile's print symbol otherwise.
     */
    method ToString() returns (s: string)
      requires HasRows() && VisibleInBounds()
      ensures s == Rendering.Render(Grid(), Views(entities))
    {
      var overlay := Overlay();
      ghost var grid, sprites := Grid(), Views(entities);
      s := "";
      var y := 0;
      while y < GetHeight()
        invariant 0 <= y <= GetHeight()
        invariant s == Rendering.Lines(grid, sprites, y)
        invariant forall y, x :: 0 <= y < overlay.Length0 && 0 <= x < overlay.Length1 ==>
          overlay[y, x] == Rendering.Top(sprites, x, y)
      {
        s := AppendRow(s, overlay, y, grid, sprites);
        y := y + 1;
      }
    }

    /** The body of the row loop of ToString: appends row y of the picture to s. */
    method AppendRow(s: string, overlay: array2<Option<string>>, y: nat,
                     ghost grid: seq<seq<Tile>>, ghost sprites: seq<Rendering.Sprite>) returns (t: string)
      requires HasRows() && y < GetHeight() && grid == Grid()
      requires overlay.Length0 == tilegrid.Length0 && overlay.Length1 == tilegrid.Length1
      requires forall y, x :: 0 <= y < overlay.Length0 && 0 <= x < overlay.Length1 ==>
        overlay[y, x] == Rendering.Top(sprites, x, y)
      requires s == Rendering.Lines(grid, sprites, y)
      ensures t == Rendering.Lines(grid, sprites, y + 1)
    {
      Rendering.TextBeforeRowEnds(grid, sprites, y);
      t := s + "| ";
      var x := 0;
      while x < GetWidth()
        invariant 0 <= x <= GetWidth()
        invariant t == Rendering.TextBefore(grid, sprites, y, x)
      {
        Rendering.TextBeforeNextCell(grid, sprites, y, x);
        t := t + "[";
        if overlay[y, x].Some? {
          t := t + overlay[y, x].value;
        } else {
          t := t + Glyph(GetTile(x, y).value);
        }
        t := t + "]";
        x := x + 1;
      }
      t := t + " |\n";
    }
  }
}
