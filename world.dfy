/** The voxel world: a map from chunk coordinates to chunks, the one-entry
    cache of the last chunk looked up, block queries and edits, and the mesh
    rebuild requests an edit triggers. */
module Worlds {
  import opened Blocks
  import opened ChunkMesh

  /** A chunk coordinate pair (x, z). */
  type Coord = (int, int)

  /** The chunk coordinate of world column (x, z). */
  function ChunkCoordOf(x: int, z: int): Coord {
    (ChunkOf(x), ChunkOf(z))
  }

  /** The neighbours whose meshes an edit at local column (lx, lz) of chunk
      (cx, cz) asks to rebuild, in the order the edit asks: the left, right,
      near and far neighbour when the cell lies on that edge of its chunk,
      each only when that neighbour is present. */
  function EdgeNeighbours(cx: int, cz: int, lx: int, lz: int, present: set<Coord>): (r: seq<Coord>)
    ensures forall k :: 0 <= k < |r| ==> r[k] in present
  {
    (if lx == 0 && (cx - 1, cz) in present then [(cx - 1, cz)] else [])
    + (if lx == CHUNK_W - 1 && (cx + 1, cz) in present then [(cx + 1, cz)] else [])
    + (if lz == 0 && (cx, cz - 1) in present then [(cx, cz - 1)] else [])
    + (if lz == CHUNK_W - 1 && (cx, cz + 1) in present then [(cx, cz + 1)] else [])
  }

  /** A neighbour is asked to rebuild exactly when it is present and the
      edited cell lies on the edge they share; a diagonal chunk never is,
      and each neighbour is asked at most once. */
  lemma EdgeNeighboursExactly(cx: int, cz: int, lx: int, lz: int, present: set<Coord>, c: Coord)
    requires 0 <= lx < CHUNK_W && 0 <= lz < CHUNK_W
    ensures c in EdgeNeighbours(cx, cz, lx, lz, present) <==>
      c in present &&
      ((c == (cx - 1, cz) && lx == 0) || (c == (cx + 1, cz) && lx == CHUNK_W - 1) ||
       (c == (cx, cz - 1) && lz == 0) || (c == (cx, cz + 1) && lz == CHUNK_W - 1))
    ensures c in EdgeNeighbours(cx, cz, lx, lz, present) ==>
      (c.0 == cx && (c.1 == cz - 1 || c.1 == cz + 1)) || (c.1 == cz && (c.0 == cx - 1 || c.0 == cx + 1))
    ensures |EdgeNeighbours(cx, cz, lx, lz, present)| <= 2
  {
  }

  /** A new chunk at (x, z), seen by the world only through its grid. */
  method MakeChunk(x: int, z: int, height: (int, int) -> int) returns (c: Chunk)
    ensures fresh(c) && fresh(c.blocks) && c.Valid() && c.chunkX == x && c.chunkZ == z
    ensures Terrain(c.blocks, c.worldPos, height)
  {
    c := new Chunk(x, z, height);
  }

  /** The world. `rebuildLog` records, in order, every chunk whose mesh
      rebuild has been requested; `Repr` holds the world, its chunks and
      their block grids. */
  class World {
    var chunks: map<Coord, Chunk>
    var lastAccessedChunk: Chunk?
    var lastCX: int
    var lastCZ: int
    /** The height field of the noise generator shared by every chunk. */
    const height: (int, int) -> int
    ghost var rebuildLog: seq<Coord>
    ghost var Repr: set<object>

    ghost predicate Valid()
      reads this, Repr
    {
      && this in Repr
      && (forall c :: c in chunks ==>
            chunks[c] in Repr && chunks[c].blocks in Repr && chunks[c].Valid() &&
            chunks[c].chunkX == c.0 && chunks[c].chunkZ == c.1)
      && (forall c1, c2 :: c1 in chunks && c2 in chunks && c1 != c2 ==> chunks[c1].blocks != chunks[c2].blocks)
      && (lastAccessedChunk != null ==>
            (lastCX, lastCZ) in chunks && chunks[(lastCX, lastCZ)] == lastAccessedChunk)
    }

    /** The block at world cell (x, y, z) by a lookup in the map alone: air
        above or below the world and in a chunk that is not present. */
    ghost function BlockAt(x: int, y: int, z: int): BlockType
      reads this, Repr
      requires Valid()
    {
      var c := ChunkCoordOf(x, z);
      if y < 0 || y >= CHUNK_H || c !in chunks then Air
      else chunks[c].blocks[LocalOf(x), y, LocalOf(z)]
    }

    /** An empty world with an empty cache. */
    constructor (heightField: (int, int) -> int)
      ensures Valid() && fresh(Repr)
      ensures chunks == map[] && lastAccessedChunk == null && lastCX == -999999 && lastCZ == -999999
      ensures height == heightField && rebuildLog == []
    {
      chunks := map[];
      lastAccessedChunk := null;
      lastCX, lastCZ := -999999, -999999;
      height := heightField;
      rebuildLog := [];
      Repr := {this};
    }

    /** The block at world cell (x, y, z): the cached chunk answers when the
        cell lies in it; otherwise the map is searched and, on a hit, the
        cache is pointed at the chunk found. The answer is the map-only
        lookup's, so the cache changes nothing but speed. */
    method GetBlock(x: int, y: int, z: int) returns (b: BlockType)
      requires Valid()
      modifies this
      ensures Valid() && b == BlockAt(x, y, z)
      ensures chunks == old(chunks) && Repr == old(Repr) && rebuildLog == old(rebuildLog)
      // the cache moves only after a successful map lookup
      ensures lastAccessedChunk != old(lastAccessedChunk) || (lastCX, lastCZ) != (old(lastCX), old(lastCZ)) ==>
        0 <= y < CHUNK_H && (lastCX, lastCZ) == ChunkCoordOf(x, z) && lastCX == ChunkOf(x) &&
        ChunkCoordOf(x, z) in chunks && lastAccessedChunk == chunks[ChunkCoordOf(x, z)]
    {
      if y < 0 || y >= CHUNK_H {
        return Air;
      }
      var cx := if x >= 0 then TruncDiv(x, CHUNK_W) else TruncDiv(x + 1, CHUNK_W) - 1;
      var cz := if z >= 0 then TruncDiv(z, CHUNK_W) else TruncDiv(z + 1, CHUNK_W) - 1;
      assert (cx, cz) == ChunkCoordOf(x, z);
      if cx == lastCX && cz == lastCZ && lastAccessedChunk != null {
        var lx := x - cx * CHUNK_W;
        var lz := z - cz * CHUNK_W;
        return lastAccessedChunk.blocks[lx, y, lz];
      }
      if (cx, cz) in chunks {
        var chunk := chunks[(cx, cz)];
        lastCX := cx;
        lastCZ := cz;
        lastAccessedChunk := chunk;
        var lx := x - cx * CHUNK_W;
        var lz := z - cz * CHUNK_W;
        return chunk.blocks[lx, y, lz];
      }
      return Air;
    }

    /** The block grids of the present chunks. */
    ghost function Grids(): set<object>
      reads this, chunks.Values
    {
      set c | c in chunks.Values :: c.blocks
    }

    /** Writes one cell. Out of the vertical range, or in a chunk that is not
        present, nothing happens. Otherwise the cell takes the new type, every
        other cell keeps its old one, and rebuilds are requested for the
        edited chunk and then its present edge neighbours. */
    method SetBlock(x: int, y: int, z: int, t: BlockType)
      requires Valid()
      modifies this, Grids()
      ensures Valid() && chunks == old(chunks) && Repr == old(Repr)
      ensures lastAccessedChunk == old(lastAccessedChunk) && lastCX == old(lastCX) && lastCZ == old(lastCZ)
      ensures y < 0 || y >= CHUNK_H || ChunkCoordOf(x, z) !in chunks ==>
        rebuildLog == old(rebuildLog) && forall x', y', z' :: BlockAt(x', y', z') == old(BlockAt(x', y', z'))
      ensures 0 <= y < CHUNK_H && ChunkCoordOf(x, z) in chunks ==>
        && BlockAt(x, y, z) == t
        && (forall x', y', z' :: (x', y', z') != (x, y, z) ==> BlockAt(x', y', z') == old(BlockAt(x', y', z')))
        && rebuildLog == old(rebuildLog) + [ChunkCoordOf(x, z)] +
             EdgeNeighbours(ChunkOf(x), ChunkOf(z), LocalOf(x), LocalOf(z), chunks.Keys)
    {
      if y < 0 || y >= CHUNK_H {
        return;
      }
      var cx := if x >= 0 then TruncDiv(x, CHUNK_W) else TruncDiv(x + 1, CHUNK_W) - 1;
      var cz := if z >= 0 then TruncDiv(z, CHUNK_W) else TruncDiv(z + 1, CHUNK_W) - 1;
      assert (cx, cz) == ChunkCoordOf(x, z);
      if (cx, cz) in chunks {
        var lx := x - cx * CHUNK_W;
        var lz := z - cz * CHUNK_W;
        assert lx == LocalOf(x) && lz == LocalOf(z) && cx == ChunkOf(x) && cz == ChunkOf(z);
        assert chunks[(cx, cz)] in chunks.Values;
        StoreCell(x, y, z, chunks[(cx, cz)], lx, lz, t);
        rebuildLog := rebuildLog + [(cx, cz)];
        RequestRebuilds(cx, cz, lx, lz);
      }
    }

    /** The store into the grid of the chunk holding world cell (x, y, z),
        at its local cell (lx, y, lz): that cell takes the new type and every
        other cell of the world keeps its old one. */
    method StoreCell(x: int, y: int, z: int, chunk: Chunk, lx: int, lz: int, t: BlockType)
      requires Valid() && 0 <= y < CHUNK_H && ChunkCoordOf(x, z) in chunks
      requires chunk == chunks[ChunkCoordOf(x, z)] && lx == LocalOf(x) && lz == LocalOf(z)
      modifies chunk.blocks
      ensures Valid() && BlockAt(x, y, z) == t
      ensures forall x', y', z' :: (x', y', z') != (x, y, z) ==> BlockAt(x', y', z') == old(BlockAt(x', y', z'))
    {
      chunk.blocks[lx, y, lz] := t;
      forall x', y', z' | (x', y', z') != (x, y, z)
        ensures BlockAt(x', y', z') == old(BlockAt(x', y', z'))
      {
        ChunkLocalIsBijective(x, x');
        ChunkLocalIsBijective(z, z');
      }
    }

    /** After an edit at local column (lx, lz) of chunk (cx, cz): requests
        the rebuilds of the present neighbours sharing the edited cell's edge. */
    method RequestRebuilds(cx: int, cz: int, lx: int, lz: int)
      requires Valid()
      modifies this
      ensures Valid() && chunks == old(chunks) && Repr == old(Repr)
      ensures lastAccessedChunk == old(lastAccessedChunk) && lastCX == old(lastCX) && lastCZ == old(lastCZ)
      ensures forall x', y', z' :: BlockAt(x', y', z') == old(BlockAt(x', y', z'))
      ensures rebuildLog == old(rebuildLog) + EdgeNeighbours(cx, cz, lx, lz, chunks.Keys)
    {
      ghost var l0 := rebuildLog;
      ghost var keys := chunks.Keys;
      ghost var p1 := if lx == 0 && (cx - 1, cz) in keys then [(cx - 1, cz)] else [];
      ghost var p2 := if lx == CHUNK_W - 1 && (cx + 1, cz) in keys then [(cx + 1, cz)] else [];
      ghost var p3 := if lz == 0 && (cx, cz - 1) in keys then [(cx, cz - 1)] else [];
      ghost var p4 := if lz == CHUNK_W - 1 && (cx, cz + 1) in keys then [(cx, cz + 1)] else [];
      if lx == 0 { UpdateChunkMesh(cx - 1, cz); }
      assert rebuildLog == l0 + p1;
      if lx == CHUNK_W - 1 { UpdateChunkMesh(cx + 1, cz); }
      assert rebuildLog == l0 + p1 + p2;
      if lz == 0 { UpdateChunkMesh(cx, cz - 1); }
      assert rebuildLog == l0 + p1 + p2 + p3;
      if lz == CHUNK_W - 1 { UpdateChunkMesh(cx, cz + 1); }
      assert rebuildLog == l0 + p1 + p2 + p3 + p4;
      assert EdgeNeighbours(cx, cz, lx, lz, keys) == p1 + p2 + p3 + p4;
      ConcatAssoc(l0, p1, p2);
      ConcatAssoc(l0, p1 + p2, p3);
      ConcatAssoc(l0, p1 + p2 + p3, p4);
    }

    /** Requests a mesh rebuild of chunk (cx, cz) when it is present. */
    method UpdateChunkMesh(cx: int, cz: int)
      requires Valid()
      modifies this
      ensures Valid() && forall x', y', z' :: BlockAt(x', y', z') == old(BlockAt(x', y', z'))
      ensures chunks == old(chunks) && Repr == old(Repr)
      ensures lastAccessedChunk == old(lastAccessedChunk) && lastCX == old(lastCX) && lastCZ == old(lastCZ)
      ensures rebuildLog == old(rebuildLog) + (if (cx, cz) in chunks then [(cx, cz)] else [])
    {
      if (cx, cz) in chunks {
        rebuildLog := rebuildLog + [(cx, cz)];
      }
    }

    /** Creates the chunk at (x, z) from the shared height field and stores
        it, replacing any chunk already there; a cache entry for (x, z) is
        dropped, since it would refer to the replaced chunk. */
    method AddChunk(x: int, z: int)
      requires Valid()
      modifies this
      ensures Valid() && fresh(Repr - old(Repr))
      ensures chunks.Keys == old(chunks.Keys) + {(x, z)}
      ensures forall c :: c in old(chunks) && c != (x, z) ==> chunks[c] == old(chunks[c])
      ensures fresh(chunks[(x, z)]) && fresh(chunks[(x, z)].blocks)
      ensures Terrain(chunks[(x, z)].blocks, chunks[(x, z)].worldPos, height)
      ensures rebuildLog == old(rebuildLog)
    {
      var c := MakeChunk(x, z, height);
      ghost var old0 := chunks;
      assert forall k :: k in old0 ==> old0[k].blocks != c.blocks && old0[k] != c;
      chunks := chunks[(x, z) := c];
      Repr := Repr + {c, c.blocks};
      if lastAccessedChunk != null && lastCX == x && lastCZ == z {
        lastAccessedChunk := null;
      }
      forall c1, c2 | c1 in chunks && c2 in chunks && c1 != c2
        ensures chunks[c1].blocks != chunks[c2].blocks
      {
        if c1 != (x, z) && c2 != (x, z) {
          assert chunks[c1] == old0[c1] && chunks[c2] == old0[c2];
        }
      }
      assert this in Repr;
      assert forall k :: k in chunks ==>
            chunks[k] in Repr && chunks[k].blocks in Repr && chunks[k].Valid() &&
            chunks[k].chunkX == k.0 && chunks[k].chunkZ == k.1;
      assert lastAccessedChunk != null ==>
            (lastCX, lastCZ) in chunks && chunks[(lastCX, lastCZ)] == lastAccessedChunk;
    }

    /** The store as written: the chunk at (x, z) is replaced and the cache
        is left alone, so a cache entry for (x, z) keeps referring to the
        replaced chunk, which is no longer in the map. */
    method AddChunkAsWritten(x: int, z: int)
      requires Valid()
      modifies this
      ensures chunks.Keys == old(chunks.Keys) + {(x, z)} && fresh(chunks[(x, z)])
      ensures lastAccessedChunk == old(lastAccessedChunk) && lastCX == old(lastCX) && lastCZ == old(lastCZ)
      ensures old(lastAccessedChunk) != null && (old(lastCX), old(lastCZ)) == (x, z) ==>
        lastAccessedChunk !in chunks.Values && !Valid()
    {
      var c := MakeChunk(x, z, height);
      chunks := chunks[(x, z) := c];
      Repr := Repr + {c, c.blocks};
      if lastAccessedChunk != null && lastCX == x && lastCZ == z {
        assert old(lastAccessedChunk) in old(Repr) && lastAccessedChunk != c;
        assert chunks[(x, z)] == c;
        forall k | k in chunks
          ensures chunks[k] != lastAccessedChunk
        {
          if k != (x, z) {
            assert old(chunks[k]) == chunks[k];
            assert old(chunks[k]).blocks != old(chunks[(x, z)]).blocks;
          }
        }
      }
    }
  }
}
