/** The level generator's shared types: the process-wide seed, the plugin that
    installs it, the colour tile the generators emit and the chunk they
    return. */
module LevelGenerator {
  import opened Rust

  /** The seed resource, `Seed(u32)`. */
  datatype Seed = Seed(value: uint32)

  /** `Seed::default()` (derived). */
  function DefaultSeed(): (s: Seed)
    ensures s.value == 0
  {
    Seed(0)
  }

  /** The plugin; it only carries the seed it will install. */
  datatype LevelGeneratorPlugin = LevelGeneratorPlugin(seed: uint32)

  /** `LevelGeneratorPlugin::default()`. */
  function DefaultPlugin(): (p: LevelGeneratorPlugin)
    ensures p.seed == 0
  {
    LevelGeneratorPlugin(0)
  }

  /** `LevelGeneratorPlugin::seeded`. */
  function Seeded(seed: uint32): (p: LevelGeneratorPlugin)
    ensures p.seed == seed
  {
    LevelGeneratorPlugin(seed)
  }

  /** The seed resource `Plugin::build` inserts into the world. */
  function InstalledSeed(plugin: LevelGeneratorPlugin): (s: Seed)
    ensures s.value == plugin.seed
  {
    Seed(plugin.seed)
  }

  /** A default plugin carries the same fields as a plugin seeded with 0, and
      both install the default seed; `seeded` installs exactly the seed it
      was given, and builds the default plugin's value only for seed 0 (the
      plugin derives no equality; this compares the values built). */
  lemma PluginSeeds(seed: uint32)
    ensures DefaultPlugin() == Seeded(0)
    ensures InstalledSeed(DefaultPlugin()) == DefaultSeed()
    ensures InstalledSeed(Seeded(seed)) == Seed(seed)
    ensures Seeded(seed) == DefaultPlugin() <==> seed == 0
  {
  }

  /** A colour tile; derived `Eq` and `Hash` cover all three fields. */
  datatype Tile = Tile(pos: Pos, color: string, z_index: int32)

  /** `Tile::new`: stores its three arguments as they are. */
  function NewTile(pos: Pos, color: string, z_index: int32): (t: Tile)
    ensures t.pos == pos && t.color == color && t.z_index == z_index
  {
    Tile(pos, color, z_index)
  }

  /** The chunk `LevelGenerator::generate` returns: its requested
      dimensions and a `HashSet` of tiles. */
  datatype Chunk = Chunk(width: uint32, height: uint32, data: set<Tile>)

  /** A `HashSet<Tile>` keeps one copy per distinct (position, colour, layer)
      triple: inserting a tile equal in all three fields to one already present changes nothing, and
      inserting one that differs in any field adds an element. */
  lemma TileSetInsert(data: set<Tile>, a: Tile, pos: Pos, color: string, z_index: int32)
    ensures (a in data && a.pos == pos && a.color == color && a.z_index == z_index) ==>
      data + {NewTile(pos, color, z_index)} == data
    ensures NewTile(pos, color, z_index) !in data ==> |data + {NewTile(pos, color, z_index)}| == |data| + 1
  {
  }
}
