/** The terrain kinds a map cell can hold, each with its one-character print symbol. */
module Tiles {
  datatype Tile = Stone | Grass | Water

  /** The print symbol of a tile: STONE is "S", GRASS is "G", WATER is "W". */
  function Glyph(t: Tile): (g: string)
    ensures |g| == 1
  {
    match t
    case Stone => "S"
    case Grass => "G"
    case Water => "W"
  }

  /** Different tiles print differently, so a rendered cell tells which tile lies there. */
  lemma GlyphInjective(a: Tile, b: Tile)
    ensures Glyph(a) == Glyph(b) ==> a == b
  {
  }
}
