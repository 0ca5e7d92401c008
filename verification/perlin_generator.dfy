/** The layered-threshold chunk generator. It samples the noise field over a
    16 x 16 chunk plus a one-cell border. At each cell it stacks one tile per
    threshold (0.2, 0.4, 0.6, 0.8) that the value strictly exceeds, with the
    threshold's rank as layer index. */
module PerlinGenerator {
  import opened Rust
  import opened PerlinNoise
  import ChunkSpace
  import TileKinds

  const NOISE_SCALE: real := 12.5

  /** The ascending layer thresholds; the rank of a threshold is its layer. */
  const THRESHOLDS: seq<real> := [0.2, 0.4, 0.6, 0.8]

  /** `CHUNK_WIDTH as i32` and `CHUNK_HEIGHT as i32` (see ChunkCellsAreChunkSize). */
  const CHUNK_CELLS_X: int32 := 16
  const CHUNK_CELLS_Y: int32 := 16

  lemma ChunkCellsAreChunkSize()
    ensures CHUNK_CELLS_X == ChunkSpace.CHUNK_WIDTH.Floor
    ensures CHUNK_CELLS_Y == ChunkSpace.CHUNK_HEIGHT.Floor
  {
  }

  /** The tile this generator emits: a position and a layer. */
  datatype Tile = Generic(pos: Pos, z_index: int32)

  /** The chunk this generator returns; `layer_info` maps layers to names. */
  datatype Chunk = Chunk(ch_pos: Pos, layer_info: map<uint32, string>, width: uint32, height: uint32, data: seq<Tile>)

  /** The value the generator samples at `(x, y)`. */
  function Value(field: NoiseField, seed: uint32, x: int, y: int): real
  {
    Sample(field, seed, NOISE_SCALE, x, y)
  }

  /** The bordered window of a chunk whose first cell is `start`:
      `[start.0 - 1, start.0 + 16] x [start.1 - 1, start.1 + 16]`. */
  predicate InWindow(start: Pos, p: Pos)
  {
    start.0 - 1 <= p.0 <= start.0 + CHUNK_CELLS_X && start.1 - 1 <= p.1 <= start.1 + CHUNK_CELLS_Y
  }

  /** The loop bounds `start - 1` and `start + 16 + 1` stay inside `i32`. */
  predicate WindowFits(start: Pos)
  {
    INT32_MIN <= start.0 - 1 && start.0 + CHUNK_CELLS_X + 1 <= INT32_MAX
    && INT32_MIN <= start.1 - 1 && start.1 + CHUNK_CELLS_Y + 1 <= INT32_MAX
  }

  // ----- the tiles, as functions of the noise -----

  /** The number of thresholds in `ts` that `v` strictly exceeds. */
  function CountExceeded(v: real, ts: seq<real>): (n: nat)
    ensures n <= |ts|
  {
    if ts == [] then 0 else (if v > ts[0] then 1 else 0) + CountExceeded(v, ts[1..])
  }

  /** The stack of `n` tiles at `p`, with layers `0, 1, ..., n - 1`. */
  function Layers(p: Pos, n: nat): (r: seq<Tile>)
    requires n <= |THRESHOLDS|
    ensures |r| == n && forall k :: 0 <= k < n ==> r[k] == Generic(p, k)
  {
    seq(n, k requires 0 <= k < n => Generic(p, k))
  }

  /** The tiles at cell `p`: one per threshold its value exceeds. */
  function CellTiles(field: NoiseField, seed: uint32, p: Pos): seq<Tile>
  {
    Layers(p, CountExceeded(Value(field, seed, p.0, p.1), THRESHOLDS))
  }

  /** The tiles of column `x` for `y` in `[y0, y1)`, in ascending `y`. */
  function ColumnTiles(field: NoiseField, seed: uint32, x: int32, y0: int, y1: int): seq<Tile>
    requires INT32_MIN <= y0 && y1 <= INT32_MAX + 1
    decreases y1 - y0
  {
    if y1 <= y0 then []
    else ColumnTiles(field, seed, x, y0, y1 - 1) + CellTiles(field, seed, (x, y1 - 1))
  }

  /** The tiles of the columns `x` in `[x0, x1)`, in ascending `x`. */
  function WindowTiles(field: NoiseField, seed: uint32, x0: int, x1: int, y0: int, y1: int): seq<Tile>
    requires INT32_MIN <= x0 && x1 <= INT32_MAX + 1
    requires INT32_MIN <= y0 && y1 <= INT32_MAX + 1
    decreases x1 - x0
  {
    if x1 <= x0 then []
    else WindowTiles(field, seed, x0, x1 - 1, y0, y1) + ColumnTiles(field, seed, x1 - 1, y0, y1)
  }

  /** The tiles of the whole bordered window of the chunk at `start`. */
  function ChunkTiles(field: NoiseField, seed: uint32, start: Pos): seq<Tile>
    requires WindowFits(start)
  {
    WindowTiles(field, seed, start.0 - 1, start.0 + CHUNK_CELLS_X + 1,
                start.1 - 1, start.1 + CHUNK_CELLS_Y + 1)
  }

  // ----- the generator -----

  /** `SimplePerlinLevelGenerator::generate_chunk`. The inner `for y` loop
      is PushColumnTiles and its body PushCellTiles. */
  method GenerateChunk(field: NoiseField, seed: uint32, start: Pos, chunk_layer_info: map<uint32, string>)
    returns (chunk: Chunk)
    requires WindowFits(start)
    ensures chunk.data == ChunkTiles(field, seed, start)
    ensures chunk.ch_pos == (TruncDiv(start.0, CHUNK_CELLS_X), TruncDiv(start.1, CHUNK_CELLS_Y))
    ensures chunk.layer_info == chunk_layer_info
    ensures chunk.width == 16 && chunk.height == 16
  {
    var data: seq<Tile> := [];
    var (start_x, start_y) := start;
    var (end_x, end_y) := (start_x + CHUNK_CELLS_X, start_y + CHUNK_CELLS_Y);
    for x := start_x - 1 to end_x + 1
      invariant data == WindowTiles(field, seed, start_x - 1, x, start_y - 1, end_y + 1)
    {
      data := PushColumnTiles(field, seed, data, x, start_y - 1, end_y + 1);
    }
    chunk := Chunk((TruncDiv(start_x, CHUNK_CELLS_X), TruncDiv(start_y, CHUNK_CELLS_Y)),
                   chunk_layer_info, CHUNK_CELLS_X, CHUNK_CELLS_Y, data);
  }

  /** The inner loop of `generate_chunk`: column `x`, rows `y0 .. y1 - 1`. */
  method PushColumnTiles(field: NoiseField, seed: uint32, data: seq<Tile>, x: int32, y0: int, y1: int)
    returns (data': seq<Tile>)
    requires INT32_MIN <= y0 <= y1 <= INT32_MAX + 1
    ensures data' == data + ColumnTiles(field, seed, x, y0, y1)
  {
    data' := data;
    for y := y0 to y1
      invariant data' == data + ColumnTiles(field, seed, x, y0, y)
    {
      var value := Value(field, seed, x, y);
      data' := PushCellTiles(data', value, x, y);
      ConcatAssociative(data, ColumnTiles(field, seed, x, y0, y), CellTiles(field, seed, (x, y)));
    }
  }

  /** The four threshold checks of one cell. Each crossed threshold pushes a
      tile whose layer is the threshold's rank; together they push the stack
      of layers below the number of thresholds `value` exceeds. */
  method PushCellTiles(data: seq<Tile>, value: real, x: int32, y: int32) returns (data': seq<Tile>)
    ensures data' == data + Layers((x, y), CountExceeded(value, THRESHOLDS))
  {
    data' := data;
    if value > 0.2 {
      data' := data' + [Generic((x, y), 0)];
    }
    if value > 0.4 {
      data' := data' + [Generic((x, y), 1)];
    }
    if value > 0.6 {
      data' := data' + [Generic((x, y), 2)];
    }
    if value > 0.8 {
      data' := data' + [Generic((x, y), 3)];
    }
    ExceededCases(value);
    LayerStacks((x, y));
  }

  lemma ConcatAssociative(a: seq<Tile>, b: seq<Tile>, c: seq<Tile>)
    ensures (a + b) + c == a + (b + c)
  {
  }

  /** The five possible stacks, written out. */
  lemma LayerStacks(p: Pos)
    ensures Layers(p, 0) == []
    ensures Layers(p, 1) == [Generic(p, 0)]
    ensures Layers(p, 2) == [Generic(p, 0), Generic(p, 1)]
    ensures Layers(p, 3) == [Generic(p, 0), Generic(p, 1), Generic(p, 2)]
    ensures Layers(p, 4) == [Generic(p, 0), Generic(p, 1), Generic(p, 2), Generic(p, 3)]
  {
  }

  // ----- thresholds -----

  /** How many thresholds each value exceeds; thresholds ascend, so the
      exceeded ones are always the lowest ranks. A value of exactly 0.2
      exceeds none. */
  lemma ExceededCases(v: real)
    ensures CountExceeded(v, THRESHOLDS) ==
      if v > 0.8 then 4 else if v > 0.6 then 3 else if v > 0.4 then 2 else if v > 0.2 then 1 else 0
  {
    var t1, t2, t3 := [0.4, 0.6, 0.8], [0.6, 0.8], [0.8];
    assert THRESHOLDS[1..] == t1 && t1[1..] == t2 && t2[1..] == t3 && t3[1..] == [];
    assert CountExceeded(v, t3) == if v > 0.8 then 1 else 0;
    assert CountExceeded(v, t2) == (if v > 0.6 then 1 else 0) + CountExceeded(v, t3);
    assert CountExceeded(v, t1) == (if v > 0.4 then 1 else 0) + CountExceeded(v, t2);
  }

  /** Layer `k` is below the count of exceeded thresholds exactly when the
      value strictly exceeds threshold `k`. */
  lemma ExceededIff(v: real, k: int)
    ensures 0 <= k < CountExceeded(v, THRESHOLDS) <==> 0 <= k < |THRESHOLDS| && v > THRESHOLDS[k]
  {
    ExceededCases(v);
  }

  // ----- the tiles at one position -----

  /** The tiles of `s` at position `p`, in their order in `s`. */
  function At(s: seq<Tile>, p: Pos): seq<Tile>
  {
    if s == [] then [] else (if s[0].pos == p then [s[0]] else []) + At(s[1..], p)
  }

  lemma {:induction false} AtConcat(a: seq<Tile>, b: seq<Tile>, p: Pos)
    ensures At(a + b, p) == At(a, p) + At(b, p)
  {
    if a == [] {
      assert a + b == b;
    } else {
      assert (a + b)[0] == a[0];
      assert (a + b)[1..] == a[1..] + b;
      AtConcat(a[1..], b, p);
    }
  }

  /** A tile occurs in `s` exactly when it occurs among the tiles at its own
      position. */
  lemma {:induction false} MemberAt(s: seq<Tile>, t: Tile)
    ensures t in s <==> t in At(s, t.pos)
  {
    if s != [] {
      MemberAt(s[1..], t);
      assert s == [s[0]] + s[1..];
    }
  }

  lemma {:induction false} AtLayers(q: Pos, n: nat, p: Pos)
    requires n <= |THRESHOLDS|
    ensures At(Layers(q, n), p) == if p == q then Layers(q, n) else []
  {
    if n > 0 {
      assert Layers(q, n) == Layers(q, n - 1) + [Generic(q, n - 1)];
      AtConcat(Layers(q, n - 1), [Generic(q, n - 1)], p);
      AtLayers(q, n - 1, p);
    }
  }

  lemma {:induction false} AtColumn(field: NoiseField, seed: uint32, x: int32, y0: int, y1: int, p: Pos)
    requires INT32_MIN <= y0 && y1 <= INT32_MAX + 1
    ensures At(ColumnTiles(field, seed, x, y0, y1), p) ==
      if p.0 == x && y0 <= p.1 < y1 then CellTiles(field, seed, p) else []
    decreases y1 - y0
  {
    if y0 < y1 {
      var column := ColumnTiles(field, seed, x, y0, y1 - 1);
      var q: Pos := (x, y1 - 1);
      var cell := CellTiles(field, seed, q);
      assert ColumnTiles(field, seed, x, y0, y1) == column + cell;
      AtConcat(column, cell, p);
      AtColumn(field, seed, x, y0, y1 - 1, p);
      AtLayers(q, CountExceeded(Value(field, seed, q.0, q.1), THRESHOLDS), p);
    }
  }

  lemma {:induction false} AtWindow(field: NoiseField, seed: uint32, x0: int, x1: int, y0: int, y1: int, p: Pos)
    requires INT32_MIN <= x0 && x1 <= INT32_MAX + 1
    requires INT32_MIN <= y0 && y1 <= INT32_MAX + 1
    ensures At(WindowTiles(field, seed, x0, x1, y0, y1), p) ==
      if x0 <= p.0 < x1 && y0 <= p.1 < y1 then CellTiles(field, seed, p) else []
    decreases x1 - x0
  {
    if x0 < x1 {
      var window := WindowTiles(field, seed, x0, x1 - 1, y0, y1);
      var column := ColumnTiles(field, seed, x1 - 1, y0, y1);
      assert WindowTiles(field, seed, x0, x1, y0, y1) == window + column;
      AtConcat(window, column, p);
      AtWindow(field, seed, x0, x1 - 1, y0, y1, p);
      AtColumn(field, seed, x1 - 1, y0, y1, p);
    }
  }

  /** The cell stack: the tiles a chunk holds at `p` are, in order, layers
      `0 .. k - 1`, where `k` is the number of thresholds the noise value at
      `p` strictly exceeds -- inside the bordered window; outside it, none. */
  lemma CellStack(field: NoiseField, seed: uint32, start: Pos, p: Pos)
    requires WindowFits(start)
    ensures At(ChunkTiles(field, seed, start), p) ==
      if InWindow(start, p) then Layers(p, CountExceeded(Value(field, seed, p.0, p.1), THRESHOLDS)) else []
    ensures |At(ChunkTiles(field, seed, start), p)| ==
      if InWindow(start, p) then CountExceeded(Value(field, seed, p.0, p.1), THRESHOLDS) else 0
  {
    var x0, x1 := start.0 - 1, start.0 + CHUNK_CELLS_X + 1;
    var y0, y1 := start.1 - 1, start.1 + CHUNK_CELLS_Y + 1;
    var data := WindowTiles(field, seed, x0, x1, y0, y1);
    assert ChunkTiles(field, seed, start) == data;
    assert InWindow(start, p) <==> x0 <= p.0 < x1 && y0 <= p.1 < y1;
    assert At(data, p) == if InWindow(start, p) then CellTiles(field, seed, p) else [] by {
      AtWindow(field, seed, x0, x1, y0, y1, p);
    }
  }

  /** A tile is emitted exactly when its cell is in the bordered window, its
      layer is in `0..3`, and the noise value at its cell strictly exceeds
      that layer's threshold. Layers are nested: layer `k` at a cell implies
      every layer below `k` there. */
  lemma ChunkTileIff(field: NoiseField, seed: uint32, start: Pos, t: Tile)
    requires WindowFits(start)
    ensures t in ChunkTiles(field, seed, start) <==>
      InWindow(start, t.pos) && 0 <= t.z_index < 4 && Value(field, seed, t.pos.0, t.pos.1) > THRESHOLDS[t.z_index]
    ensures t in ChunkTiles(field, seed, start) ==>
      forall k: int32 :: 0 <= k <= t.z_index ==> Generic(t.pos, k) in ChunkTiles(field, seed, start)
  {
    var data := ChunkTiles(field, seed, start);
    var v := Value(field, seed, t.pos.0, t.pos.1);
    MemberAt(data, t);
    CellStack(field, seed, start, t.pos);
    ExceededIff(v, t.z_index);
    if t in data {
      forall k: int32 | 0 <= k <= t.z_index
        ensures Generic(t.pos, k) in data
      {
        MemberAt(data, Generic(t.pos, k));
        assert Layers(t.pos, CountExceeded(v, THRESHOLDS))[k] == Generic(t.pos, k);
      }
    }
  }

  /** Chunks that share a cell -- a border cell of one is an interior or
      border cell of the other -- hold the same tiles there, because the
      sample depends on the absolute cell, not on the chunk. */
  lemma OverlappingChunksAgree(field: NoiseField, seed: uint32, a: Pos, b: Pos, p: Pos)
    requires WindowFits(a) && WindowFits(b)
    requires InWindow(a, p) && InWindow(b, p)
    ensures At(ChunkTiles(field, seed, a), p) == At(ChunkTiles(field, seed, b), p)
  {
    CellStack(field, seed, a, p);
    CellStack(field, seed, b, p);
  }

  // ----- where tiles lie, and in which order they come -----

  /** A tile of a column lies in that column, between its bounds. */
  lemma ColumnBounds(field: NoiseField, seed: uint32, x: int32, y0: int, y1: int, t: Tile)
    requires INT32_MIN <= y0 && y1 <= INT32_MAX + 1
    requires t in ColumnTiles(field, seed, x, y0, y1)
    ensures t.pos.0 == x && y0 <= t.pos.1 < y1
  {
    MemberAt(ColumnTiles(field, seed, x, y0, y1), t);
    AtColumn(field, seed, x, y0, y1, t.pos);
  }

  /** A tile of a window lies between the window's bounds. */
  lemma WindowBounds(field: NoiseField, seed: uint32, x0: int, x1: int, y0: int, y1: int, t: Tile)
    requires INT32_MIN <= x0 && x1 <= INT32_MAX + 1
    requires INT32_MIN <= y0 && y1 <= INT32_MAX + 1
    requires t in WindowTiles(field, seed, x0, x1, y0, y1)
    ensures x0 <= t.pos.0 < x1 && y0 <= t.pos.1 < y1
  {
    MemberAt(WindowTiles(field, seed, x0, x1, y0, y1), t);
    AtWindow(field, seed, x0, x1, y0, y1, t.pos);
  }

  /** The loops' order: by x, then by y, then by layer. */
  predicate Precedes(a: Tile, b: Tile)
  {
    a.pos.0 < b.pos.0
    || (a.pos.0 == b.pos.0 && a.pos.1 < b.pos.1)
    || (a.pos == b.pos && a.z_index < b.z_index)
  }

  /** Every tile precedes every later one. */
  predicate InEmissionOrder(s: seq<Tile>)
  {
    forall i, j :: 0 <= i < j < |s| ==> Precedes(s[i], s[j])
  }

  lemma ConcatInOrder(a: seq<Tile>, b: seq<Tile>)
    requires InEmissionOrder(a) && InEmissionOrder(b)
    requires forall s, t :: s in a && t in b ==> Precedes(s, t)
    ensures InEmissionOrder(a + b)
  {
    forall i, j | 0 <= i < j < |a + b|
      ensures Precedes((a + b)[i], (a + b)[j])
    {
      if j < |a| {
        assert (a + b)[i] == a[i] && (a + b)[j] == a[j];
      } else if i < |a| {
        assert (a + b)[i] == a[i] && (a + b)[j] == b[j - |a|];
      } else {
        assert (a + b)[i] == b[i - |a|] && (a + b)[j] == b[j - |a|];
      }
    }
  }

  lemma {:induction false} ColumnInOrder(field: NoiseField, seed: uint32, x: int32, y0: int, y1: int)
    requires INT32_MIN <= y0 && y1 <= INT32_MAX + 1
    ensures InEmissionOrder(ColumnTiles(field, seed, x, y0, y1))
    decreases y1 - y0
  {
    if y0 < y1 {
      var column := ColumnTiles(field, seed, x, y0, y1 - 1);
      var cell := CellTiles(field, seed, (x, y1 - 1));
      ColumnInOrder(field, seed, x, y0, y1 - 1);
      forall s, t | s in column && t in cell
        ensures Precedes(s, t)
      {
        ColumnBounds(field, seed, x, y0, y1 - 1, s);
        var k :| 0 <= k < |cell| && cell[k] == t;
      }
      ConcatInOrder(column, cell);
    }
  }

  lemma {:induction false} WindowInOrder(field: NoiseField, seed: uint32, x0: int, x1: int, y0: int, y1: int)
    requires INT32_MIN <= x0 && x1 <= INT32_MAX + 1
    requires INT32_MIN <= y0 && y1 <= INT32_MAX + 1
    ensures InEmissionOrder(WindowTiles(field, seed, x0, x1, y0, y1))
    decreases x1 - x0
  {
    if x0 < x1 {
      var window := WindowTiles(field, seed, x0, x1 - 1, y0, y1);
      var column := ColumnTiles(field, seed, x1 - 1, y0, y1);
      WindowInOrder(field, seed, x0, x1 - 1, y0, y1);
      ColumnInOrder(field, seed, x1 - 1, y0, y1);
      forall s, t | s in window && t in column
        ensures Precedes(s, t)
      {
        WindowBounds(field, seed, x0, x1 - 1, y0, y1, s);
        ColumnBounds(field, seed, x1 - 1, y0, y1, t);
      }
      ConcatInOrder(window, column);
    }
  }

  /** A chunk's tiles lie in its bordered window and come in the loops'
      order (x, then y, then layer), so no tile is emitted twice. */
  lemma ChunkInEmissionOrder(field: NoiseField, seed: uint32, start: Pos)
    requires WindowFits(start)
    ensures InEmissionOrder(ChunkTiles(field, seed, start))
    ensures forall t :: t in ChunkTiles(field, seed, start) ==> InWindow(start, t.pos)
    ensures forall i, j :: 0 <= i < j < |ChunkTiles(field, seed, start)| ==>
      ChunkTiles(field, seed, start)[i] != ChunkTiles(field, seed, start)[j]
  {
    var x0, x1 := start.0 - 1, start.0 + CHUNK_CELLS_X + 1;
    var y0, y1 := start.1 - 1, start.1 + CHUNK_CELLS_Y + 1;
    assert ChunkTiles(field, seed, start) == WindowTiles(field, seed, x0, x1, y0, y1);
    WindowInOrder(field, seed, x0, x1, y0, y1);
    forall t | t in ChunkTiles(field, seed, start)
      ensures InWindow(start, t.pos)
    {
      WindowBounds(field, seed, x0, x1, y0, y1, t);
    }
  }

  // ----- how many tiles -----

  lemma {:induction false} ColumnSize(field: NoiseField, seed: uint32, x: int32, y0: int, y1: int)
    requires INT32_MIN <= y0 <= y1 <= INT32_MAX + 1
    ensures |ColumnTiles(field, seed, x, y0, y1)| <= 4 * (y1 - y0)
    decreases y1 - y0
  {
    if y0 < y1 {
      ColumnSize(field, seed, x, y0, y1 - 1);
    }
  }

  lemma {:induction false} WindowSize(field: NoiseField, seed: uint32, x0: int, x1: int, y0: int, y1: int)
    requires INT32_MIN <= x0 <= x1 <= INT32_MAX + 1
    requires INT32_MIN <= y0 <= y1 <= INT32_MAX + 1
    ensures |WindowTiles(field, seed, x0, x1, y0, y1)| <= 4 * (y1 - y0) * (x1 - x0)
    decreases x1 - x0
  {
    if x0 < x1 {
      var n := 4 * (y1 - y0);
      WindowSize(field, seed, x0, x1 - 1, y0, y1);
      ColumnSize(field, seed, x1 - 1, y0, y1);
      assert n * (x1 - x0) == n * (x1 - 1 - x0) + n;
    }
  }

  /** A chunk holds at most four tiles for each of its 18 x 18 window cells. */
  lemma ChunkSize(field: NoiseField, seed: uint32, start: Pos)
    requires WindowFits(start)
    ensures |ChunkTiles(field, seed, start)| <= 1296
  {
    WindowSize(field, seed, start.0 - 1, start.0 + CHUNK_CELLS_X + 1,
               start.1 - 1, start.1 + CHUNK_CELLS_Y + 1);
  }

  // ----- what the tiles depend on -----

  lemma {:induction false} ColumnLocal(f: NoiseField, s: uint32, g: NoiseField, r: uint32, x: int32, y0: int, y1: int)
    requires INT32_MIN <= y0 && y1 <= INT32_MAX + 1
    requires forall y :: y0 <= y < y1 ==> Value(f, s, x, y) == Value(g, r, x, y)
    ensures ColumnTiles(f, s, x, y0, y1) == ColumnTiles(g, r, x, y0, y1)
    decreases y1 - y0
  {
    if y0 < y1 {
      ColumnLocal(f, s, g, r, x, y0, y1 - 1);
      assert Value(f, s, x, y1 - 1) == Value(g, r, x, y1 - 1);
    }
  }

  lemma {:induction false} WindowLocal(f: NoiseField, s: uint32, g: NoiseField, r: uint32, x0: int, x1: int, y0: int, y1: int)
    requires INT32_MIN <= x0 && x1 <= INT32_MAX + 1
    requires INT32_MIN <= y0 && y1 <= INT32_MAX + 1
    requires forall x, y :: x0 <= x < x1 && y0 <= y < y1 ==> Value(f, s, x, y) == Value(g, r, x, y)
    ensures WindowTiles(f, s, x0, x1, y0, y1) == WindowTiles(g, r, x0, x1, y0, y1)
    decreases x1 - x0
  {
    if x0 < x1 {
      WindowLocal(f, s, g, r, x0, x1 - 1, y0, y1);
      ColumnLocal(f, s, g, r, x1 - 1, y0, y1);
    }
  }

  /** A chunk is a function of the 18 x 18 noise samples of its bordered
      window alone: two fields (or seeds) that agree there give the same
      tiles in the same order. */
  lemma ChunkDependsOnWindowOnly(f: NoiseField, s: uint32, g: NoiseField, r: uint32, start: Pos)
    requires WindowFits(start)
    requires forall x: int32, y: int32 :: InWindow(start, (x, y)) ==> Value(f, s, x, y) == Value(g, r, x, y)
    ensures ChunkTiles(f, s, start) == ChunkTiles(g, r, start)
  {
    var x0, x1 := start.0 - 1, start.0 + CHUNK_CELLS_X + 1;
    var y0, y1 := start.1 - 1, start.1 + CHUNK_CELLS_Y + 1;
    forall x, y | x0 <= x < x1 && y0 <= y < y1
      ensures Value(f, s, x, y) == Value(g, r, x, y)
    {
      assert InWindow(start, (x, y));
    }
    WindowLocal(f, s, g, r, x0, x1, y0, y1);
  }

  // ----- the chunk coordinate -----

  /** The world coordinate of cell `c` lies in chunk `floor(c / 16)`. */
  lemma CellInChunk(c: int32)
    ensures ChunkSpace.InChunkX(c as real * TileKinds.TILE_WIDTH, c / 16)
    ensures ChunkSpace.InChunkY(c as real * TileKinds.TILE_HEIGHT, c / 16)
  {
    var k := c / 16;
    assert 16 * k <= c < 16 * k + 16;
    assert (16 * k) as real <= c as real < (16 * k + 16) as real;
  }

  /** The chunk `to_chunk_space` assigns to the world position of cell `(c, d)`
      is `(floor(c / 16), floor(d / 16))`. */
  lemma CellChunk(c: int32, d: int32)
    ensures ChunkSpace.ToChunkSpace((c as real * TileKinds.TILE_WIDTH, d as real * TileKinds.TILE_HEIGHT)) == (c / 16, d / 16)
  {
    var w: (real, real) := (c as real * TileKinds.TILE_WIDTH, d as real * TileKinds.TILE_HEIGHT);
    CellInChunk(c);
    CellInChunk(d);
    ChunkSpace.ToChunkSpaceIff(w, c / 16);
    ChunkSpace.ToChunkSpaceIff(w, d / 16);
  }

  /** `ch_pos` is `start / 16` with Rust's truncating division. For a start
      on the 16-cell grid, or a non-negative one, it is the chunk that
      `to_chunk_space` gives for the start cell; for a negative start off the
      grid it is one chunk further right (or up). */
  lemma ChunkCoordinate(start: Pos)
    ensures var world := (start.0 as real * TileKinds.TILE_WIDTH, start.1 as real * TileKinds.TILE_HEIGHT);
      && (start.0 >= 0 || start.0 % 16 == 0 ==> TruncDiv(start.0, CHUNK_CELLS_X) == ChunkSpace.ToChunkSpace(world).0)
      && (start.1 >= 0 || start.1 % 16 == 0 ==> TruncDiv(start.1, CHUNK_CELLS_Y) == ChunkSpace.ToChunkSpace(world).1)
      && (start.0 < 0 && start.0 % 16 != 0 ==> TruncDiv(start.0, CHUNK_CELLS_X) == ChunkSpace.ToChunkSpace(world).0 + 1)
      && (start.1 < 0 && start.1 % 16 != 0 ==> TruncDiv(start.1, CHUNK_CELLS_Y) == ChunkSpace.ToChunkSpace(world).1 + 1)
  {
    CellChunk(start.0, start.1);
    TruncDivVersusFloor(start.0);
    TruncDivVersusFloor(start.1);
  }
}
