/** The startup system `LevelGeneratorPlugin::level_generator_system`: on
    entering the playing state it generates one 500 x 500 chunk from the seed
    resource. Spawning a sprite per tile is rendering and is not modelled. */
module GeneratorSystem {
  import opened Rust
  import opened PerlinNoise
  import opened LevelGenerator
  import Perlin

  const STARTUP_DIMENSIONS: (uint32, uint32) := (500, 500)

  /** The chunk the startup system generates, with the single-threshold
      generator as the plugin's generator type. */
  method LevelGeneratorSystem(field: NoiseField, seed: Seed) returns (chunk: Chunk)
    ensures chunk.width == 500 && chunk.height == 500
    ensures chunk.data == Perlin.GeneratedTiles(field, seed.value, 500, 500)
    ensures forall t :: t in chunk.data ==>
      0 <= t.pos.0 < 500 && 0 <= t.pos.1 < 500 && t.color == "#FF5733" && t.z_index == 0
    ensures |chunk.data| <= 250000
  {
    chunk := Perlin.Generate(field, seed.value, STARTUP_DIMENSIONS.0, STARTUP_DIMENSIONS.1);
    forall t | t in chunk.data
      ensures 0 <= t.pos.0 < 500 && 0 <= t.pos.1 < 500 && t.color == "#FF5733" && t.z_index == 0
    {
      Perlin.GeneratedTileIff(field, seed.value, 500, 500, t);
    }
  }
}
