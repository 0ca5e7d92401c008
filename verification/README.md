# infinijump level generator, modelled in Dafny

This project models the level generator of infinijump, a Bevy game with
endless procedurally generated levels. The model covers these parts:

- **The layered-threshold generator** (`SimplePerlinLevelGenerator::generate_chunk`).
  It walks a 16 x 16 chunk plus a one-cell border. At each cell it pushes one
  tile per threshold (0.2, 0.4, 0.6, 0.8) that the noise value strictly
  exceeds, with the threshold's rank as the tile's layer. It tags the chunk
  with `start / 16`, using Rust's truncating `i32` division.
- **The single-threshold generator** (`PerlinLevelGenerator::generate`). It
  fills a `HashSet` with one `#FF5733` tile for every cell of
  `[0, width) x [0, height)` whose noise value exceeds 0.2.
- **The startup system.** It generates a 500 x 500 chunk from the seed
  resource.
- **Chunks.** This covers colliders derived from a chunk's tiles, the
  world-to-chunk coordinate mapping, and the chunk marker.
- **Tile kinds and plugin values.** This covers colour tiles, textured tiles,
  the `Tile::pos` accessor, the `Seed` resource and the plugin's seeded and
  default constructors.

## How the model is organised

| module | file | models |
|---|---|---|
| `Rust` | `rust.dfy` | `i32`/`u32` ranges; the `as i32` casts (wrapping from `u32`, saturating from a float); truncating division; a `Result` whose error case is a panic |
| `TileKinds` | `tile.dfy` | `src/level_generator/tile.rs` |
| `ChunkSpace` | `chunk.dfy` | `src/level_generator/chunk.rs` |
| `LevelGenerator` | `level_generator.dfy` | the seed, plugin, `Tile` and `Chunk` of `src/level_generator.rs` |
| `PerlinNoise` | `noise.dfy` | the noise source: a function parameter of (seed, x, y) |
| `Perlin` | `perlin.dfy` | `src/level_generator/perlin.rs` |
| `PerlinGenerator` | `perlin_generator.dfy` | `src/level_generator/perlin_generator.rs` |
| `GeneratorSystem` | `level_generator_system.dfy` | `level_generator_system` of `src/level_generator.rs` |

### Shared techniques

- **Noise.** The Perlin noise crate is a value of type
  `NoiseField = (uint32, real, real) -> real`. It is sampled at
  `(seed, x / 12.5, y / 12.5)`. Every generator property therefore holds for
  every noise function.
- **Generators.** Each generator is an imperative method with loops. It is
  proved against a specification function of its inputs:
  - `Perlin.GeneratedTiles` for the single-threshold generator;
  - `PerlinGenerator.ChunkTiles` for the layered generator.
- **Properties.** The source's promises are lemmas about those functions.
- **Colliders.** `generate_colliders` is a method with a loop over the
  chunk's tiles.
- **Values.** Constructors and accessors are functions over datatypes.

### The source files do not compile together

The source files come from different rewrites and do not compile together.
`perlin_generator.rs` uses `Tile::Generic`, a `layer_info` map and a
`generate_chunk` trait method, and `chunk.rs` does not define these. Each file
is therefore modelled from its own text:

- `PerlinGenerator` has its own `Tile` and `Chunk` datatypes.
- `Perlin` uses the `Tile` and `Chunk` of `src/level_generator.rs`.
- `ChunkSpace` uses the `Tile` trait of `tile.rs`. Pairing these two files is a
  modelling choice. As written, the trait's `Self: Sized` bound forbids
  `dyn Tile`, so `Vec<Box<dyn Tile>>` could not hold a `TexturedTile` at all.
  The `Panic` outcome of `ChunkSpace.GenerateColliders` exists only because
  of this pairing.

### Two details of the code that the model keeps

- **`width as i32` wraps.** In `PerlinLevelGenerator::generate` the loop
  bound is `width as i32`. A dimension of 2^31 or more therefore becomes
  negative, and that loop runs zero times, while the returned chunk still
  reports the requested dimensions. `Perlin.GeneratedTileIff` and
  `Perlin.EmptyGrid` state this.
- **`ch_pos` truncates.** `ch_pos` is `start / 16`, which rounds toward zero.
  `to_chunk_space` uses `floor`, so a negative coordinate maps to the chunk
  below or left of the origin. `PerlinGenerator.ChunkCoordinate` shows where the two agree:
  on non-negative starts and on starts that are multiples of 16. It also
  shows where they differ: for a negative start off the 16-cell grid,
  `ch_pos` is one chunk above `to_chunk_space`. For example, start -1 gives
  `ch_pos` 0 but chunk -1.

## Model

| member | source | states |
|---|---|---|
| Rust.WrapToInt32 | src/level_generator/perlin.rs:13-14 | `u32 as i32` keeps values up to 2^31 - 1; a larger value becomes the negative number 2^32 below it |
| Rust.SaturateToInt32 | src/level_generator/chunk.rs:30-31 | a float-to-`i32` cast keeps in-range integers and clamps the rest to `i32::MIN` / `i32::MAX` |
| Rust.TruncDiv | src/level_generator/perlin_generator.rs:48 | Rust's `i32 /` by a positive divisor truncates toward zero: for `a >= 0` the quotient times the divisor is the largest multiple not above `a`; for `a < 0`, the smallest multiple not below `a`, never positive |
| Rust.TruncDivVersusFloor | src/level_generator/perlin_generator.rs:48 | truncating `/ 16` equals floor division for non-negative numbers and multiples of 16, and is floor + 1 for negative non-multiples |
| TileKinds.Tile.Pos | src/level_generator/tile.rs:38-75 | `pos()` on a colour tile returns its stored position; on a textured tile it always panics (`todo!()`) |
| TileKinds.NewColorTile | src/level_generator/tile.rs:43-50 | `ColorTile::new` stores position, colour and layer unchanged |
| TileKinds.ColorTilePos | src/level_generator/tile.rs:38-40 | the position returned, with the tile's colour and layer, rebuilds exactly the tile it came from |
| TileKinds.TexturedTilePos | src/level_generator/tile.rs:73-75 | `TexturedTile::pos` panics on every input |
| TileKinds.NewAtlasTile | src/level_generator/tile.rs:79-91 | `TexturedTile::atlas` builds the `Atlas` variant with exactly the given position, path, index and layer |
| TileKinds.NewSingleTile | src/level_generator/tile.rs:93-99 | `TexturedTile::single` builds the `Single` variant with exactly the given position, path and layer |
| TileKinds.ColorTileRoundTrip | src/level_generator/tile.rs:38-50 | `pos()` of `ColorTile::new(p, c, z)` is `p`, through the trait as well; colour and layer are kept |
| TileKinds.ColorTileEquality | src/level_generator/tile.rs:15-20 | derived equality: two colour tiles are equal exactly when position, colour and layer are all equal |
| TileKinds.TexturedConstructorsInjective | src/level_generator/tile.rs:78-99 | distinct arguments build distinct values: `atlas` and `single` never build the same value, and each builds distinct values from distinct arguments |
| ChunkSpace.DefaultChunk | src/level_generator/chunk.rs:9-15 | the derived default chunk is at `(0, 0)`, has zero dimensions and no tiles |
| ChunkSpace.GenerateColliders | src/level_generator/chunk.rs:19-25 | succeeds exactly when every tile's `pos()` returns; then its keys are exactly the tiles' positions, every value is the one tile-sized box, stacked tiles give one entry (at most one entry per tile), and an empty chunk gives an empty map; the chunk is only read |
| ChunkSpace.ChunkAxisIsFloor | src/level_generator/chunk.rs:6-7 | a chunk spans 16 x 32 = 512 world units per axis, and dividing by 16 then by 32 is one division by 512 |
| ChunkSpace.ToChunkSpace | src/level_generator/chunk.rs:28-33 | each chunk coordinate is the chunk whose 512-unit interval holds the world coordinate, negatives included, when that chunk index fits in `i32`; below or above that range the `as i32` cast clamps it to `i32::MIN` or `i32::MAX` |
| ChunkSpace.ToChunkSpaceIff | src/level_generator/chunk.rs:28-33 | away from the saturated ends, the chunk coordinate is `k` exactly when the world coordinate is in `[512k, 512(k+1))`, negatives included |
| ChunkSpace.ExactlyOneChunk | src/level_generator/chunk.rs:28-33 | each world coordinate lies in a chunk interval (the one of index `floor(x / 512)`), it lies in no other, and `to_chunk_space` returns that interval's index unless the coordinate saturates |
| ChunkSpace.ToChunkSpaceMonotone | src/level_generator/chunk.rs:28-33 | `to_chunk_space` is non-decreasing in each coordinate |
| ChunkSpace.NewChunkMarker | src/level_generator/chunk.rs:40-44 | `ChunkMarker::new(p).ch_pos == p` |
| ChunkSpace.ChunkMarkerInjective | src/level_generator/chunk.rs:35-44 | distinct coordinates build distinct marker values |
| LevelGenerator.DefaultSeed | src/level_generator.rs:12-13 | the derived default seed holds 0 |
| LevelGenerator.DefaultPlugin | src/level_generator.rs:20-27 | the default plugin carries seed 0 |
| LevelGenerator.Seeded | src/level_generator.rs:30-35 | `seeded(s)` carries seed `s` |
| LevelGenerator.InstalledSeed | src/level_generator.rs:66-69 | `build` inserts the seed resource holding the plugin's own seed |
| LevelGenerator.PluginSeeds | src/level_generator.rs:12-35 | the default plugin is `seeded(0)` and installs the default seed; `seeded(s)` installs `Seed(s)`; `seeded(s)` builds the default plugin's value only for `s == 0` |
| LevelGenerator.NewTile | src/level_generator.rs:82-88 | `Tile::new` stores position, colour and layer unchanged |
| LevelGenerator.TileSetInsert | src/level_generator.rs:74-79 | derived `Eq`/`Hash` over all three fields: inserting a tile equal in all three changes nothing, and inserting an absent one grows the set by one |
| Perlin.Generate | src/level_generator/perlin.rs:10-27 | the chunk keeps the requested dimensions, its tiles are exactly `GeneratedTiles` of (noise, seed, dimensions) (so equal inputs give equal chunks), and there are at most `width * height` of them |
| Perlin.GenerateColumn | src/level_generator/perlin.rs:14-20 | one pass of the inner loop adds exactly the tiles of column `x` whose value exceeds 0.2, and at most one per row |
| Perlin.GeneratedTilesMember | src/level_generator/perlin.rs:13-19 | a tile is generated exactly when it has the fixed colour, layer 0, a value above 0.2, and a cell inside the grid after the `as i32` casts |
| Perlin.GeneratedTileIff | src/level_generator/perlin.rs:13-19 | a tile is generated exactly when both dimensions are below 2^31, its cell is in `[0, width) x [0, height)`, its value is strictly above 0.2, its colour is `#FF5733` and its layer is 0 |
| Perlin.OneTilePerCell | src/level_generator/perlin.rs:11-18 | two generated tiles at one cell are the same tile, and every tile lies in `[0, width) x [0, height)` |
| Perlin.EmptyGrid | src/level_generator/perlin.rs:13-14 | a zero dimension (or one that `as i32` makes negative) gives no tiles |
| GeneratorSystem.LevelGeneratorSystem | src/level_generator.rs:38-39 | the startup system generates from the seed resource's value with dimensions (500, 500): every tile is `#FF5733`, layer 0, inside `[0, 500)^2`, and there are at most 250000 |
| PerlinGenerator.ChunkCellsAreChunkSize | src/level_generator/perlin_generator.rs:17 | the loop extents are `CHUNK_WIDTH as i32` and `CHUNK_HEIGHT as i32`, that is 16 |
| PerlinGenerator.GenerateChunk | src/level_generator/perlin_generator.rs:10-54 | the tiles are exactly `ChunkTiles` of (noise, seed, start), in order; `ch_pos` is `start / 16` truncated; `layer_info` is the input map; width and height are 16 |
| PerlinGenerator.PushColumnTiles | src/level_generator/perlin_generator.rs:19-45 | the inner `for y` loop appends the cell stacks of column `x` for `y` from `start_y - 1` to `start_y + 16`, in ascending `y` |
| PerlinGenerator.PushCellTiles | src/level_generator/perlin_generator.rs:20-44 | the four threshold checks append layers `0 .. k - 1` at the cell, where `k` is the number of thresholds the value strictly exceeds |
| PerlinGenerator.ExceededCases | src/level_generator/perlin_generator.rs:21-44 | the number of thresholds exceeded is 4, 3, 2, 1 or 0 as the value is above 0.8, 0.6, 0.4, 0.2 or none; exactly 0.2 exceeds none |
| PerlinGenerator.ExceededIff | src/level_generator/perlin_generator.rs:21-44 | layer `k` is below that count exactly when `k` is in `0..3` and the value strictly exceeds threshold `k` |
| PerlinGenerator.CellStack | src/level_generator/perlin_generator.rs:18-45 | the tiles a chunk holds at a cell are, in order, layers `0 .. k - 1` with `k` the number of thresholds exceeded, inside the bordered window, and none outside it |
| PerlinGenerator.ChunkTileIff | src/level_generator/perlin_generator.rs:18-45 | a tile is emitted exactly when its cell is in the 18 x 18 window, its layer is in `0..3` and the value strictly exceeds that layer's threshold; layers are nested |
| PerlinGenerator.OverlappingChunksAgree | src/level_generator/perlin_generator.rs:17-20 | two chunks whose windows share a cell hold the same tiles at that cell |
| PerlinGenerator.ChunkInEmissionOrder | src/level_generator/perlin_generator.rs:18-45 | tiles come ordered by x, then y, then layer; every tile lies in the bordered window; no tile occurs twice |
| PerlinGenerator.ChunkSize | src/level_generator/perlin_generator.rs:18-45 | a chunk holds at most 4 x 18 x 18 = 1296 tiles |
| PerlinGenerator.ChunkDependsOnWindowOnly | src/level_generator/perlin_generator.rs:15-20 | two noise fields or seeds that agree on the 18 x 18 window give identical tiles |
| PerlinGenerator.CellChunk | src/level_generator/perlin_generator.rs:48 | `to_chunk_space` puts the world position of cell `(c, d)` in chunk `(floor(c / 16), floor(d / 16))` |
| PerlinGenerator.ChunkCoordinate | src/level_generator/perlin_generator.rs:48 | `ch_pos` equals the chunk `to_chunk_space` gives for the start cell when the start is non-negative or a multiple of 16, and is one more for a negative start off the 16-cell grid |

## Left out

- Perlin noise internals (`Perlin::new`, `perlin.get`) are a foreign crate. They are the parameter `field`. Its `f64` arithmetic, including `x / 12.5`, is exact real arithmetic here.
- `f32` rounding in `to_chunk_space` is not modelled, and NaN or infinite world coordinates are not modelled either. The model divides exact reals.
- `make_sprite_bundle` is not modelled, for both tile kinds (rendering). Neither are `Color::hex` parsing, its `expect` panic, or the loop in `level_generator_system` that spawns one sprite per tile.
- `Collider::cuboid` belongs to the physics engine. It is kept as the constant token `TILE_COLLIDER`.
- Registering the startup system with Bevy (`add_systems`), `PhantomData` and the generic `LevelGenerator` trait are plumbing. `GeneratorSystem.LevelGeneratorSystem` instantiates the trait with the single-threshold generator.
- `HashSet` and `HashMap` are sets and maps, so their iteration order is not modelled.
- macros/src/lib.rs and src/lib.rs are not part of this model. That includes the random seed drawn from `thread_rng`; the seed is a parameter here.
- No chunk streaming or eviction exists in the code (only a TODO), so none is modelled.
- PerlinGenerator.GenerateChunk: it requires that `start - 1` and `start + 17` fit in `i32`. The `i32` overflow of `start_x + 16` or `end_x + 1` within 17 of the `i32` limits is not modelled: it panics in debug builds and wraps in release builds.
- PerlinGenerator.GenerateChunk: the inner `for y` loop is the method `PushColumnTiles`, and its four `if` checks are `PushCellTiles`. The nesting is the same as in the source, split into calls.
- Perlin.Generate: the inner `for y` loop is the method `GenerateColumn`.
- TileKinds.TexturedTilePos: `todo!()` is modelled as a `Panic` result, not as a precondition no caller can meet. This is why `generate_colliders` can return a panic.
