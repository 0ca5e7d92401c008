/** Chunks as the streaming code sees them: a record of tiles with a chunk
    coordinate, the colliders derived from its tiles, the mapping from world
    space to chunk space, and the marker that tags a chunk's entity. */
module ChunkSpace {
  import opened Rust
  import opened TileKinds

  const CHUNK_WIDTH: real := 16.0
  const CHUNK_HEIGHT: real := 16.0

  /** Side of a chunk in world units along x and y: 16 cells of 32 units. */
  const CHUNK_WORLD_WIDTH: real := CHUNK_WIDTH * TILE_WIDTH
  const CHUNK_WORLD_HEIGHT: real := CHUNK_HEIGHT * TILE_HEIGHT

  /** A generated chunk; `data` holds trait objects, so either tile kind. */
  datatype Chunk = Chunk(ch_pos: Pos, width: uint32, height: uint32, data: seq<Tile>)

  /** `Chunk::default()`. */
  function DefaultChunk(): (c: Chunk)
    ensures c.ch_pos == (0, 0) && c.width == 0 && c.height == 0 && c.data == []
  {
    Chunk((0, 0), 0, 0, [])
  }

  /** The physics engine's shape, kept as the arguments it was built from. */
  datatype Collider = Cuboid(x_length: real, y_length: real)

  /** The one shape every tile gets: `Collider::cuboid(TILE_WIDTH, TILE_HEIGHT)`. */
  const TILE_COLLIDER: Collider := Cuboid(TILE_WIDTH, TILE_HEIGHT)

  /** The positions of the colour tiles among `tiles`. */
  function Positions(tiles: seq<Tile>): set<Pos>
  {
    set t | t in tiles && t.Colored? :: t.color_tile.pos
  }

  /** True when every tile's `pos()` returns rather than panics. */
  predicate AllPositioned(tiles: seq<Tile>)
  {
    forall i :: 0 <= i < |tiles| ==> tiles[i].Colored?
  }

  /** `Chunk::generate_colliders`: one collider per occupied position, so that
      stacked tiles at one position give a single entry. The chunk is read,
      never changed. Asking a textured tile for its position panics. */
  method GenerateColliders(chunk: Chunk) returns (r: Result<map<Pos, Collider>>)
    ensures r.Ok? <==> AllPositioned(chunk.data)
    ensures r.Ok? ==> r.value.Keys == Positions(chunk.data)
    ensures r.Ok? ==> forall p :: p in r.value ==> r.value[p] == TILE_COLLIDER
    ensures r.Ok? ==> |r.value| <= |chunk.data|
    ensures chunk.data == [] ==> r == Ok(map[])
  {
    var colliders: map<Pos, Collider> := map[];
    for i := 0 to |chunk.data|
      invariant AllPositioned(chunk.data[..i])
      invariant colliders.Keys == Positions(chunk.data[..i])
      invariant forall p :: p in colliders ==> colliders[p] == TILE_COLLIDER
      invariant |colliders| <= i
    {
      var tile := chunk.data[i];
      var pos := tile.Pos();
      if pos.Panic? {
        assert !AllPositioned(chunk.data) by {
          assert !chunk.data[i].Colored?;
        }
        return Panic(pos.message);
      }
      assert chunk.data[..i + 1] == chunk.data[..i] + [tile];
      colliders := colliders[pos.value := TILE_COLLIDER];
    }
    assert chunk.data[..|chunk.data|] == chunk.data;
    return Ok(colliders);
  }

  /** `to_chunk_space`: world position to chunk coordinate. Each coordinate is
      the chunk whose 512-unit interval holds it, clamped to the `i32` range
      by the saturating `as i32`. */
  function ToChunkSpace(world: (real, real)): (c: Pos)
    ensures INT32_MIN <= (world.0 / 512.0).Floor <= INT32_MAX ==> InChunkX(world.0, c.0)
    ensures INT32_MIN <= (world.1 / 512.0).Floor <= INT32_MAX ==> InChunkY(world.1, c.1)
    ensures (world.0 / 512.0).Floor < INT32_MIN ==> c.0 == INT32_MIN
    ensures (world.1 / 512.0).Floor < INT32_MIN ==> c.1 == INT32_MIN
    ensures (world.0 / 512.0).Floor > INT32_MAX ==> c.0 == INT32_MAX
    ensures (world.1 / 512.0).Floor > INT32_MAX ==> c.1 == INT32_MAX
  {
    ChunkAxisIsFloor(world.0);
    ChunkAxisIsFloor(world.1);
    FloorIsChunk(world.0, (world.0 / 512.0).Floor);
    FloorIsChunk(world.1, (world.1 / 512.0).Floor);
    (SaturateToInt32((world.0 / CHUNK_WIDTH / TILE_WIDTH).Floor),
     SaturateToInt32((world.1 / CHUNK_HEIGHT / TILE_HEIGHT).Floor))
  }

  /** The world-space interval `[512k, 512(k+1))` covered by chunk `k`. */
  predicate InChunkX(x: real, k: int)
  {
    k as real * CHUNK_WORLD_WIDTH <= x < (k + 1) as real * CHUNK_WORLD_WIDTH
  }

  predicate InChunkY(y: real, k: int)
  {
    k as real * CHUNK_WORLD_HEIGHT <= y < (k + 1) as real * CHUNK_WORLD_HEIGHT
  }

  /** Floor of `w / 512` is `k` exactly when `w` lies in chunk `k`'s interval. */
  lemma FloorIsChunk(w: real, k: int)
    ensures (w / 512.0).Floor == k <==> k as real * 512.0 <= w < (k + 1) as real * 512.0
  {
    var f := (w / 512.0).Floor;
    assert f as real <= w / 512.0 < f as real + 1.0;
    if k as real * 512.0 <= w < (k + 1) as real * 512.0 {
      assert k as real <= w / 512.0 < k as real + 1.0;
    }
  }

  /** Away from the saturated ends of `i32`, the x chunk coordinate is `k`
      exactly when x lies in `[512k, 512(k+1))`, negatives included; the same
      holds for y. */
  lemma ToChunkSpaceIff(world: (real, real), k: int)
    requires INT32_MIN < k < INT32_MAX
    ensures ToChunkSpace(world).0 == k <==> InChunkX(world.0, k)
    ensures ToChunkSpace(world).1 == k <==> InChunkY(world.1, k)
  {
    ChunkAxisIsFloor(world.0);
    ChunkAxisIsFloor(world.1);
    FloorIsChunk(world.0, k);
    FloorIsChunk(world.1, k);
  }

  /** Dividing by the chunk size in cells and then by the cell size is one
      division by 512. */
  lemma ChunkAxisIsFloor(w: real)
    ensures CHUNK_WORLD_WIDTH == 512.0 && CHUNK_WORLD_HEIGHT == 512.0
    ensures (w / CHUNK_WIDTH / TILE_WIDTH).Floor == (w / 512.0).Floor
    ensures (w / CHUNK_HEIGHT / TILE_HEIGHT).Floor == (w / 512.0).Floor
  {
    assert w / CHUNK_WIDTH / TILE_WIDTH == w / 512.0;
  }

  /** Every x lies in exactly one chunk's interval, the one `to_chunk_space`
      returns (unless the coordinate saturates). */
  lemma ExactlyOneChunk(x: real, k1: int, k2: int)
    requires InChunkX(x, k1) && InChunkX(x, k2)
    ensures k1 == k2
    ensures INT32_MIN < k1 < INT32_MAX ==> ToChunkSpace((x, 0.0)).0 == k1
    ensures InChunkX(x, (x / 512.0).Floor)
  {
    FloorIsChunk(x, (x / 512.0).Floor);
    FloorIsChunk(x, k1);
    FloorIsChunk(x, k2);
    if INT32_MIN < k1 < INT32_MAX {
      ToChunkSpaceIff((x, 0.0), k1);
    }
  }

  /** `to_chunk_space` never moves backwards as a coordinate grows. */
  lemma ToChunkSpaceMonotone(a: (real, real), b: (real, real))
    requires a.0 <= b.0 && a.1 <= b.1
    ensures ToChunkSpace(a).0 <= ToChunkSpace(b).0
    ensures ToChunkSpace(a).1 <= ToChunkSpace(b).1
  {
    assert a.0 / CHUNK_WIDTH / TILE_WIDTH <= b.0 / CHUNK_WIDTH / TILE_WIDTH;
    assert a.1 / CHUNK_HEIGHT / TILE_HEIGHT <= b.1 / CHUNK_HEIGHT / TILE_HEIGHT;
  }

  /** The marker component that tags a chunk's entity with its coordinate. */
  datatype ChunkMarker = ChunkMarker(ch_pos: Pos)

  /** `ChunkMarker::new`. */
  function NewChunkMarker(ch_pos: Pos): (m: ChunkMarker)
    ensures m.ch_pos == ch_pos
  {
    ChunkMarker(ch_pos)
  }

  /** Distinct coordinates build distinct marker values (the component
      itself has no equality; this is about the values `new` builds). */
  lemma ChunkMarkerInjective(p: Pos, q: Pos)
    ensures NewChunkMarker(p) == NewChunkMarker(q) <==> p == q
  {
  }
}
