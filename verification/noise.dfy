/** The coherent-noise field both generators sample. Its implementation lives
    in a foreign crate, so it is a parameter here: `field(seed, u, v)` is the
    value of `Perlin::new(seed).get([u, v])`. Nothing about its values is
    assumed. */
module PerlinNoise {
  import opened Rust

  type NoiseField = (uint32, real, real) -> real

  /** The value sampled for grid cell `(x, y)`: the noise at the cell's
      coordinates divided by the feature-size constant `scale`. */
  function Sample(field: NoiseField, seed: uint32, scale: real, x: int, y: int): real
    requires scale > 0.0
  {
    field(seed, x as real / scale, y as real / scale)
  }
}
