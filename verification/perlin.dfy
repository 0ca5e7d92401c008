/** The single-threshold generator: every cell of a `width` x `height` grid
    whose noise value exceeds 0.2 gets one tile of a fixed colour. */
module Perlin {
  import opened Rust
  import opened PerlinNoise
  import opened LevelGenerator

  const PERLIN_NOISE_SCALE: real := 12.5
  const TILE_COLOR: string := "#FF5733"
  const THRESHOLD: real := 0.2

  /** The value the generator samples at `(x, y)`. */
  function Value(field: NoiseField, seed: uint32, x: int, y: int): real
  {
    Sample(field, seed, PERLIN_NOISE_SCALE, x, y)
  }

  /** True when `t` is the tile the generator emits for its cell: the fixed
      colour, layer 0, and a noise value strictly above the threshold. */
  predicate IsCellTile(field: NoiseField, seed: uint32, t: Tile)
  {
    t.color == TILE_COLOR && t.z_index == 0 && Value(field, seed, t.pos.0, t.pos.1) > THRESHOLD
  }

  /** The tile set for the grid `[0, w) x [0, h)`, where `w` and `h` are the
      dimensions after Rust's `as i32` cast. */
  function GeneratedTiles(field: NoiseField, seed: uint32, width: uint32, height: uint32): set<Tile>
  {
    var w, h := WrapToInt32(width), WrapToInt32(height);
    set x: int32, y: int32 | 0 <= x < w && 0 <= y < h && Value(field, seed, x, y) > THRESHOLD
      :: NewTile((x, y), TILE_COLOR, 0)
  }

  /** `PerlinLevelGenerator::generate`: fills a set with one tile per cell of
      the grid whose noise value exceeds the threshold. The loop bounds are
      `width as i32` and `height as i32`, so a dimension of 2^31 or more makes
      its loop empty. */
  method Generate(field: NoiseField, seed: uint32, width: uint32, height: uint32) returns (chunk: Chunk)
    ensures chunk.width == width && chunk.height == height
    ensures chunk.data == GeneratedTiles(field, seed, width, height)
    ensures |chunk.data| <= width * height
  {
    var data: set<Tile> := {};
    var w, h := WrapToInt32(width), WrapToInt32(height);
    // the number of iterations of each loop
    ghost var ww, hh := if w < 0 then 0 else w, if h < 0 then 0 else h;
    var x: int32 := 0;
    while x < w
      invariant 0 <= x <= ww
      invariant forall t :: t in data <==>
        IsCellTile(field, seed, t) && 0 <= t.pos.0 < x && 0 <= t.pos.1 < h
      invariant |data| <= x * hh
    {
      data := GenerateColumn(field, seed, data, x, h);
      assert (x + 1) * hh == x * hh + hh;
      x := x + 1;
    }
    forall t
      ensures t in data <==> t in GeneratedTiles(field, seed, width, height)
    {
      GeneratedTilesMember(field, seed, width, height, t);
    }
    ProductBound(ww, hh, width, height);
    chunk := Chunk(width, height, data);
  }

  /** The inner loop of `generate`: the cells `(x, 0) .. (x, h - 1)`. */
  method GenerateColumn(field: NoiseField, seed: uint32, data: set<Tile>, x: int32, h: int32) returns (data': set<Tile>)
    ensures forall t :: t in data' <==>
      t in data || (IsCellTile(field, seed, t) && t.pos.0 == x && 0 <= t.pos.1 < h)
    ensures |data'| <= |data| + (if h < 0 then 0 else h)
  {
    data' := data;
    ghost var hh := if h < 0 then 0 else h;
    var y: int32 := 0;
    while y < h
      invariant 0 <= y <= hh
      invariant forall t :: t in data' <==>
        t in data || (IsCellTile(field, seed, t) && t.pos.0 == x && 0 <= t.pos.1 < y)
      invariant |data'| <= |data| + y
    {
      var value := Sample(field, seed, PERLIN_NOISE_SCALE, x, y);
      if value > THRESHOLD {
        data' := data' + {NewTile((x, y), TILE_COLOR, 0)};
      }
      y := y + 1;
    }
  }

  /** `a * b <= c * d` for `0 <= a <= c` and `0 <= b <= d`. */
  lemma ProductBound(a: int, b: int, c: int, d: int)
    requires 0 <= a <= c && 0 <= b <= d
    ensures a * b <= c * d
  {
    assert a * b <= c * b;
    assert c * b <= c * d;
  }

  /** Membership in the generated set, in terms of the cast dimensions. */
  lemma GeneratedTilesMember(field: NoiseField, seed: uint32, width: uint32, height: uint32, t: Tile)
    ensures t in GeneratedTiles(field, seed, width, height) <==>
      IsCellTile(field, seed, t) && 0 <= t.pos.0 < WrapToInt32(width) && 0 <= t.pos.1 < WrapToInt32(height)
  {
    if IsCellTile(field, seed, t) && 0 <= t.pos.0 < WrapToInt32(width) && 0 <= t.pos.1 < WrapToInt32(height) {
      assert t == NewTile((t.pos.0, t.pos.1), TILE_COLOR, 0);
    }
  }

  /** A tile is generated exactly when its cell is inside the grid, its noise
      value is strictly above 0.2, and it has the fixed colour and layer 0 --
      for dimensions below 2^31. From 2^31 on, `as i32` makes the grid empty. */
  lemma GeneratedTileIff(field: NoiseField, seed: uint32, width: uint32, height: uint32, t: Tile)
    ensures t in GeneratedTiles(field, seed, width, height) <==>
      && width <= INT32_MAX && height <= INT32_MAX
      && 0 <= t.pos.0 < width && 0 <= t.pos.1 < height
      && Value(field, seed, t.pos.0, t.pos.1) > 0.2
      && t.color == "#FF5733" && t.z_index == 0
  {
    GeneratedTilesMember(field, seed, width, height, t);
  }

  /** All generated tiles share colour and layer, so the set holds at most one
      tile per cell, and every tile lies in `[0, width) x [0, height)`. */
  lemma OneTilePerCell(field: NoiseField, seed: uint32, width: uint32, height: uint32, a: Tile, b: Tile)
    requires a in GeneratedTiles(field, seed, width, height)
    requires b in GeneratedTiles(field, seed, width, height)
    ensures a.pos == b.pos ==> a == b
    ensures 0 <= a.pos.0 < width && 0 <= a.pos.1 < height
  {
    GeneratedTileIff(field, seed, width, height, a);
    GeneratedTileIff(field, seed, width, height, b);
  }

  /** A grid with no columns or no rows (or a dimension that the cast turns
      negative) yields no tiles. */
  lemma EmptyGrid(field: NoiseField, seed: uint32, width: uint32, height: uint32)
    requires width == 0 || height == 0 || width > INT32_MAX || height > INT32_MAX
    ensures GeneratedTiles(field, seed, width, height) == {}
  {
    forall t | t in GeneratedTiles(field, seed, width, height)
      ensures false
    {
      GeneratedTilesMember(field, seed, width, height, t);
    }
  }
}
