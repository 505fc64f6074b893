/** Block types, chunk dimensions and the world-to-chunk coordinate mapping
    shared by the voxel world, the mesher, the player physics and the ray caster. */
module Blocks {

  /** The closed block enumeration, in the order of its numeric values 0..5. */
  datatype BlockType = Air | Grass | Dirt | Stone | Water | Sand

  const CHUNK_W: int := 32
  const CHUNK_H: int := 64
  const WATER_LEVEL: int := 20

  /** Everything except air and water blocks movement and rays. */
  predicate IsSolid(b: BlockType) {
    b != Air && b != Water
  }

  /** The one liquid. */
  predicate IsLiquid(b: BlockType) {
    b == Water
  }

  /** The block grid as the player and the ray caster see it: the world's
      block lookup, which reads the same as a map-only lookup. */
  type BlockQuery = (int, int, int) -> BlockType

  /** C and C++ integer division: the quotient is truncated toward zero. */
  function TruncDiv(a: int, d: int): (q: int)
    requires d > 0
    ensures a >= 0 ==> q * d <= a < q * d + d
    ensures a < 0 ==> q * d - d < a <= q * d
  {
    if a >= 0 then a / d else -((-a) / d)
  }

  /** The chunk coordinate of a world coordinate, computed as the engine does:
      division for non-negative values, and `(x + 1) / W - 1` for negative ones.
      The result is the floor of x / W, so the chunk's cells start at c * W. */
  function ChunkOf(x: int): (c: int)
    ensures c * CHUNK_W <= x < c * CHUNK_W + CHUNK_W
  {
    if x >= 0 then TruncDiv(x, CHUNK_W) else TruncDiv(x + 1, CHUNK_W) - 1
  }

  /** The local cell index of a world coordinate inside its chunk. */
  function LocalOf(x: int): (l: int)
    ensures 0 <= l < CHUNK_W
    ensures x == ChunkOf(x) * CHUNK_W + l
  {
    x - ChunkOf(x) * CHUNK_W
  }

  /** The mapping is floor division, so it agrees with Dafny's Euclidean
      operators for the positive chunk width, on negative inputs too. */
  lemma ChunkOfIsFloorDivision(x: int)
    ensures ChunkOf(x) == x / CHUNK_W
    ensures LocalOf(x) == x % CHUNK_W
  {
    var c := ChunkOf(x);
    assert c * CHUNK_W <= x < c * CHUNK_W + CHUNK_W;
  }

  /** Two world coordinates share a chunk exactly when their floors agree, and
      then their local indices differ by their difference: the mapping is a
      bijection between world coordinates and (chunk, local) pairs. */
  lemma ChunkLocalIsBijective(x1: int, x2: int)
    ensures (ChunkOf(x1) == ChunkOf(x2) && LocalOf(x1) == LocalOf(x2)) <==> x1 == x2
  {
  }

  /** The example pinned by the design: world x = -1 is local cell 31 of chunk -1. */
  lemma MinusOneMapsToLastCellOfChunkMinusOne()
    ensures ChunkOf(-1) == -1 && LocalOf(-1) == 31
  {
  }
}
