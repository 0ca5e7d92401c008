/** The tile kinds of the level generator: a flat-colour tile and a textured
    tile (atlas cell or single texture), and the `Tile` trait that both
    implement, as one sum type. */
module TileKinds {
  import opened Rust

  const TILE_HEIGHT: real := 32.0
  const TILE_WIDTH: real := 32.0

  /** A tile of one colour. Its derived equality compares position, colour
      and layer; Dafny's datatype equality is exactly that. */
  datatype ColorTile = ColorTile(pos: Pos, color: string, z_index: int32)

  /** A tile drawn from a texture: one cell of an atlas, or a whole texture. */
  datatype TexturedTile =
    | Atlas(pos: Pos, texture_path: string, tex_index: uint32, z_index: int32)
    | Single(pos: Pos, texture_path: string, z_index: int32)

  /** A value of some type implementing the `Tile` trait (`Box<dyn Tile>`). */
  datatype Tile = Colored(color_tile: ColorTile) | Textured(textured_tile: TexturedTile)
  {
    /** `Tile::pos`, dispatched to the implementation of the variant. */
    function Pos(): (r: Result<Pos>)
      ensures Colored? ==> r == Ok(color_tile.pos)
      ensures Textured? ==> r.Panic?
    {
      match this
      case Colored(t) => Ok(ColorTilePos(t))
      case Textured(t) => TexturedTilePos(t)
    }
  }

  /** `ColorTile::new`: stores its three arguments as they are. */
  function NewColorTile(pos: Pos, color: string, z_index: int32): (t: ColorTile)
    ensures t.pos == pos && t.color == color && t.z_index == z_index
  {
    ColorTile(pos, color, z_index)
  }

  /** `<ColorTile as Tile>::pos`. */
  function ColorTilePos(t: ColorTile): (p: Pos)
    ensures NewColorTile(p, t.color, t.z_index) == t
  {
    t.pos
  }

  /** `<TexturedTile as Tile>::pos` is `todo!()`: every call panics. */
  function TexturedTilePos(t: TexturedTile): (r: Result<Pos>)
    ensures r.Panic?
  {
    Panic("not yet implemented")
  }

  /** `TexturedTile::atlas`. */
  function NewAtlasTile(pos: Pos, texture_path: string, tex_index: uint32, z_index: int32): (t: TexturedTile)
    ensures t.Atlas?
    ensures t.pos == pos && t.texture_path == texture_path && t.tex_index == tex_index && t.z_index == z_index
  {
    Atlas(pos, texture_path, tex_index, z_index)
  }

  /** `TexturedTile::single`. */
  function NewSingleTile(pos: Pos, texture_path: string, z_index: int32): (t: TexturedTile)
    ensures t.Single?
    ensures t.pos == pos && t.texture_path == texture_path && t.z_index == z_index
  {
    Single(pos, texture_path, z_index)
  }

  /** The position given to `ColorTile::new` is the one `pos()` returns, and the
      colour and layer are kept beside it. */
  lemma ColorTileRoundTrip(pos: Pos, color: string, z_index: int32)
    ensures ColorTilePos(NewColorTile(pos, color, z_index)) == pos
    ensures Colored(NewColorTile(pos, color, z_index)).Pos() == Ok(pos)
    ensures NewColorTile(pos, color, z_index).color == color
    ensures NewColorTile(pos, color, z_index).z_index == z_index
  {
  }

  /** Derived `PartialEq`: two colour tiles are equal exactly when their
      position, colour and layer are. */
  lemma ColorTileEquality(a: ColorTile, b: ColorTile)
    ensures a == b <==> a.pos == b.pos && a.color == b.color && a.z_index == b.z_index
  {
  }

  /** Distinct arguments build distinct tile values: `atlas` and `single`
      never build the same value, and each keeps every argument apart (the
      enum derives no equality; this is about the values the constructors
      build). */
  lemma TexturedConstructorsInjective(p: Pos, q: Pos, path: string, path': string, i: uint32, i': uint32, z: int32, z': int32)
    ensures NewAtlasTile(p, path, i, z) != NewSingleTile(q, path', z')
    ensures NewAtlasTile(p, path, i, z) == NewAtlasTile(q, path', i', z') <==> p == q && path == path' && i == i' && z == z'
    ensures NewSingleTile(p, path, z) == NewSingleTile(q, path', z') <==> p == q && path == path' && z == z'
  {
  }
}
