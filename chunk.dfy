/** One chunk of the voxel world: its block grid, the terrain fill and the
    greedy mesher that turns the grid into merged quads. */
module ChunkMesh {
  import opened Blocks
  import opened Wrappers

  // ---------------------------------------------------------------------------
  // Integer vectors and the three sweep axes
  // ---------------------------------------------------------------------------

  /** An integer 3-vector; component 0 is x, 1 is y, 2 is z. */
  datatype Vec = Vec(x: int, y: int, z: int)

  function Get(p: Vec, a: int): int
    requires 0 <= a < 3
  {
    if a == 0 then p.x else if a == 1 then p.y else p.z
  }

  function Set(p: Vec, a: int, value: int): (r: Vec)
    requires 0 <= a < 3
    ensures Get(r, a) == value
    ensures forall b :: 0 <= b < 3 && b != a ==> Get(r, b) == Get(p, b)
  {
    if a == 0 then p.(x := value) else if a == 1 then p.(y := value) else p.(z := value)
  }

  function Add(p: Vec, q: Vec): Vec {
    Vec(p.x + q.x, p.y + q.y, p.z + q.z)
  }

  /** The vector with `value` on axis a and zero elsewhere. */
  function Unit(a: int, value: int): Vec
    requires 0 <= a < 3
  {
    Set(Vec(0, 0, 0), a, value)
  }

  /** The chunk's extent along each axis: {CHUNK_W, CHUNK_H, CHUNK_W}. */
  function Dim(a: int): int
    requires 0 <= a < 3
  {
    if a == 1 then CHUNK_H else CHUNK_W
  }

  /** The two in-plane axes of a sweep along `axis`: u = axis+1, v = axis+2 (mod 3). */
  function UAxis(axis: int): int requires 0 <= axis < 3 { (axis + 1) % 3 }
  function VAxis(axis: int): int requires 0 <= axis < 3 { (axis + 2) % 3 }

  /** The cell at coordinate s on the sweep axis and (i, j) on the in-plane axes. */
  function SlicePos(axis: int, s: int, i: int, j: int): (p: Vec)
    requires 0 <= axis < 3
    ensures Get(p, axis) == s && Get(p, UAxis(axis)) == i && Get(p, VAxis(axis)) == j
  {
    Set(Set(Set(Vec(0, 0, 0), axis, s), UAxis(axis), i), VAxis(axis), j)
  }

  predicate InChunk(p: Vec) {
    0 <= p.x < CHUNK_W && 0 <= p.y < CHUNK_H && 0 <= p.z < CHUNK_W
  }

  ghost predicate ChunkShaped(blocks: array3<BlockType>) {
    blocks.Length0 == CHUNK_W && blocks.Length1 == CHUNK_H && blocks.Length2 == CHUNK_W
  }

  /** A cell of the chunk; a cell outside the chunk reads as air. */
  function CellOrAir(blocks: array3<BlockType>, p: Vec): BlockType
    reads blocks
    requires ChunkShaped(blocks)
  {
    if InChunk(p) then blocks[p.x, p.y, p.z] else Air
  }

  // ---------------------------------------------------------------------------
  // Face classification
  // ---------------------------------------------------------------------------

  /** How a block occludes: air < water < solid. */
  function Opacity(b: BlockType): (r: int)
    ensures r == 0 <==> b == Air
    ensures r == 1 <==> b == Water
    ensures r == 2 <==> IsSolid(b)
  {
    if b == Air then 0 else if b == Water then 1 else 2
  }

  /** The face between cell b1 and the next cell b2 along the sweep axis:
      the mesher's nine-way branch. */
  function FaceType(b1: BlockType, b2: BlockType): (f: BlockType)
    // a face exists exactly where the two cells differ in opacity class
    ensures f != Air <==> Opacity(b1) != Opacity(b2)
    // and it takes the type of the more opaque cell: solid over water over air
    ensures Opacity(b1) > Opacity(b2) ==> f == b1
    ensures Opacity(b2) > Opacity(b1) ==> f == b2
  {
    var b1Solid := b1 != Air && b1 != Water;
    var b2Solid := b2 != Air && b2 != Water;
    var b1Water := b1 == Water;
    var b2Water := b2 == Water;
    if b1Solid && b2Solid then Air
    else if b1 == Air && b2 == Air then Air
    else if b1Solid && b2 == Air then b1
    else if b1 == Air && b2Solid then b2
    else if b1Water && b2 == Air then b1
    else if b1 == Air && b2Water then b2
    else if b1Solid && b2Water then b1
    else if b1Water && b2Solid then b2
    else Air
  }

  /** The classification does not depend on which side of the slice a cell is on. */
  lemma FaceTypeSymmetric(b1: BlockType, b2: BlockType)
    ensures FaceType(b1, b2) == FaceType(b2, b1)
  {
  }

  /** The classification table, case by case. */
  lemma FaceTypeTable(b1: BlockType, b2: BlockType)
    ensures IsSolid(b1) && IsSolid(b2) ==> FaceType(b1, b2) == Air
    ensures b1 == b2 ==> FaceType(b1, b2) == Air
    ensures IsSolid(b1) && (b2 == Air || b2 == Water) ==> FaceType(b1, b2) == b1
    ensures (b1 == Air || b1 == Water) && IsSolid(b2) ==> FaceType(b1, b2) == b2
    ensures {b1, b2} == {Water, Air} ==> FaceType(b1, b2) == Water
  {
  }

  /** The face type of the mask cell (i, j) of the slice between sweep
      coordinates s and s + 1, cells outside the chunk reading as air. */
  function SliceFace(blocks: array3<BlockType>, axis: int, s: int, i: int, j: int): BlockType
    reads blocks
    requires ChunkShaped(blocks) && 0 <= axis < 3
  {
    FaceType(CellOrAir(blocks, SlicePos(axis, s, i, j)), CellOrAir(blocks, SlicePos(axis, s + 1, i, j)))
  }

  /** On in-plane coordinates inside the chunk, a slice cell lies in the
      chunk exactly when its sweep coordinate does, and one unit along the
      sweep axis is the cell of the next slice. */
  lemma SliceNeighbours(axis: int, s: int, i: int, j: int)
    requires 0 <= axis < 3 && 0 <= i < Dim(UAxis(axis)) && 0 <= j < Dim(VAxis(axis))
    ensures InChunk(SlicePos(axis, s, i, j)) <==> 0 <= s < Dim(axis)
    ensures Add(SlicePos(axis, s, i, j), Unit(axis, 1)) == SlicePos(axis, s + 1, i, j)
  {
    if axis == 0 {
    } else if axis == 1 {
    } else {
    }
  }

  /** One mask cell as the mesher computes it: the near cell is read only when
      s >= 0 and the far one only when s < Dim(axis) - 1, so every read of the
      grid is inside the chunk and the result is the face of the slice. */
  function GuardedFace(blocks: array3<BlockType>, axis: int, s: int, i: int, j: int): (f: BlockType)
    reads blocks
    requires ChunkShaped(blocks) && 0 <= axis < 3 && -1 <= s < Dim(axis)
    requires 0 <= i < Dim(UAxis(axis)) && 0 <= j < Dim(VAxis(axis))
    ensures f == SliceFace(blocks, axis, s, i, j)
  {
    var x := SlicePos(axis, s, i, j);
    var y := Add(x, Unit(axis, 1));
    SliceNeighbours(axis, s, i, j);
    var b1 := if s >= 0 then blocks[x.x, x.y, x.z] else Air;
    var b2 := if s < Dim(axis) - 1 then blocks[y.x, y.y, y.z] else Air;
    FaceType(b1, b2)
  }

  /** Fills the mask buffer of slice s (the plane between sweep cells s and
      s + 1, for s from -1 to Dim(axis) - 1), as the mesher's first double
      loop does, row by row along v and cell by cell along u. */
  method FillMask(blocks: array3<BlockType>, axis: int, s: int, mask: array2<BlockType>)
    requires ChunkShaped(blocks) && 0 <= axis < 3 && -1 <= s < Dim(axis)
    requires mask.Length0 == Dim(UAxis(axis)) && mask.Length1 == Dim(VAxis(axis))
    modifies mask
    ensures forall i, j :: 0 <= i < mask.Length0 && 0 <= j < mask.Length1 ==>
      mask[i, j] == SliceFace(blocks, axis, s, i, j)
  {
    var u, v := UAxis(axis), VAxis(axis);
    var j := 0;
    while j < Dim(v)
      invariant 0 <= j <= Dim(v)
      invariant forall i', j' :: 0 <= i' < Dim(u) && 0 <= j' < j ==> mask[i', j'] == SliceFace(blocks, axis, s, i', j')
    {
      var i := 0;
      while i < Dim(u)
        invariant 0 <= i <= Dim(u)
        invariant forall i', j' :: 0 <= i' < Dim(u) && 0 <= j' < j ==> mask[i', j'] == SliceFace(blocks, axis, s, i', j')
        invariant forall i' :: 0 <= i' < i ==> mask[i', j] == SliceFace(blocks, axis, s, i', j)
      {
        mask[i, j] := GuardedFace(blocks, axis, s, i, j);
        i := i + 1;
      }
      j := j + 1;
    }
  }


  // ---------------------------------------------------------------------------
  // Greedy merge of one slice mask
  // ---------------------------------------------------------------------------

  /** A merged face rectangle of a slice mask: columns i..i+w-1 along the
      slice's u axis, rows j..j+h-1 along its v axis, all of one face type. */
  datatype Rect = Rect(i: int, j: int, w: int, h: int, kind: BlockType)

  predicate Covers(r: Rect, i: int, j: int) {
    r.i <= i < r.i + r.w && r.j <= j < r.j + r.h
  }

  predicate InBounds(r: Rect, du: int, dv: int) {
    0 <= r.i && 1 <= r.w && r.i + r.w <= du && 0 <= r.j && 1 <= r.h && r.j + r.h <= dv
  }

  ghost predicate Covered(rects: seq<Rect>, i: int, j: int) {
    exists k :: 0 <= k < |rects| && Covers(rects[k], i, j)
  }

  predicate Disjoint(a: Rect, b: Rect) {
    a.i + a.w <= b.i || b.i + b.w <= a.i || a.j + a.h <= b.j || b.j + b.h <= a.j
  }

  /** The partition property of a merge of mask m: every rectangle lies in the
      mask and carries a non-air type that every cell under it had, no two
      rectangles overlap, and every non-air cell lies under one of them. */
  ghost predicate Partitions(rects: seq<Rect>, m: seq<seq<BlockType>>, du: int, dv: int)
    requires |m| == du && forall i :: 0 <= i < du ==> |m[i]| == dv
  {
    && (forall k :: 0 <= k < |rects| ==> InBounds(rects[k], du, dv) && rects[k].kind != Air)
    && (forall k, i, j :: 0 <= k < |rects| && 0 <= i < du && 0 <= j < dv && Covers(rects[k], i, j) ==>
          m[i][j] == rects[k].kind)
    && (forall a, b :: 0 <= a < b < |rects| ==> Disjoint(rects[a], rects[b]))
    && (forall i, j :: 0 <= i < du && 0 <= j < dv && m[i][j] != Air ==> Covered(rects, i, j))
  }

  /** The contents of a mask buffer, column by column. */
  ghost function Snapshot(mask: array2<BlockType>): (m: seq<seq<BlockType>>)
    reads mask
    ensures |m| == mask.Length0 && forall i :: 0 <= i < mask.Length0 ==> |m[i]| == mask.Length1
    ensures forall i, j :: 0 <= i < mask.Length0 && 0 <= j < mask.Length1 ==> m[i][j] == mask[i, j]
  {
    seq(mask.Length0, i requires 0 <= i < mask.Length0 reads mask =>
      seq(mask.Length1, j requires 0 <= j < mask.Length1 reads mask => mask[i, j]))
  }

  /** The 2D greedy merge of one slice mask, in place on the mask buffer as the
      mesher runs it: scan the cells row by row; at a non-air cell extend the
      width while the same type continues along the row, then extend the
      height while a whole row segment of that width matches; emit the
      rectangle and clear its cells to air. Afterwards the buffer is all air
      and the emitted rectangles partition the non-air cells it held. */
  method MergeMask(mask: array2<BlockType>) returns (rects: seq<Rect>)
    modifies mask
    ensures Partitions(rects, old(Snapshot(mask)), mask.Length0, mask.Length1)
    ensures Greedy(rects, old(Snapshot(mask)), mask.Length0, mask.Length1)
    ensures forall i, j :: 0 <= i < mask.Length0 && 0 <= j < mask.Length1 ==> mask[i, j] == Air
  {
    var du, dv := mask.Length0, mask.Length1;
    ghost var m := Snapshot(mask);
    rects := [];
    var j := 0;
    while j < dv
      invariant 0 <= j <= dv
      invariant MergeInv(mask, m, rects) && Greedy(rects, m, du, dv)
      invariant forall i', j' :: 0 <= i' < du && 0 <= j' < j ==> mask[i', j'] == Air
    {
      var i := 0;
      while i < du
        invariant 0 <= i <= du
        invariant MergeInv(mask, m, rects) && Greedy(rects, m, du, dv)
        invariant forall i', j' :: 0 <= i' < du && 0 <= j' < j ==> mask[i', j'] == Air
        invariant forall i' :: 0 <= i' < i ==> mask[i', j] == Air
      {
        if mask[i, j] != Air {
          var kind := mask[i, j];
          var w, h := GrowRect(mask, i, j);
          var r := Rect(i, j, w, h, kind);
          GreedyNext(mask, m, rects, r);
          ClearRect(mask, m, rects, r);
          rects := rects + [r];
          i := i + w;
        } else {
          i := i + 1;
        }
      }
      j := j + 1;
    }
  }

  /** Cell (i, j) is still to be merged: it is not air in the mask and no
      rectangle emitted so far covers it. */
  ghost predicate Pending(rects: seq<Rect>, m: seq<seq<BlockType>>, i: int, j: int)
    requires 0 <= i < |m| && 0 <= j < |m[i]|
  {
    m[i][j] != Air && !Covered(rects, i, j)
  }

  /** Rectangle r is the one the greedy scan grows after emitting `prev`:
      it starts at the first pending cell in row-major order, its width
      stops at the edge or at the first cell along row r.j that is not a
      pending cell of its type, and its height stops at the edge or at the
      first row holding such a cell under the width. */
  ghost predicate GreedyAt(prev: seq<Rect>, r: Rect, m: seq<seq<BlockType>>, du: int, dv: int)
    requires |m| == du && forall i :: 0 <= i < du ==> |m[i]| == dv
    requires InBounds(r, du, dv)
  {
    && (forall i, j :: 0 <= i < du && 0 <= j < dv && (j < r.j || (j == r.j && i < r.i)) ==> !Pending(prev, m, i, j))
    && (r.i + r.w == du || m[r.i + r.w][r.j] != r.kind || Covered(prev, r.i + r.w, r.j))
    && (r.j + r.h == dv ||
          exists i :: r.i <= i < r.i + r.w && (m[i][r.j + r.h] != r.kind || Covered(prev, i, r.j + r.h)))
  }

  /** Every rectangle is the one the greedy scan grows after the ones
      before it. */
  ghost predicate Greedy(rects: seq<Rect>, m: seq<seq<BlockType>>, du: int, dv: int)
    requires |m| == du && forall i :: 0 <= i < du ==> |m[i]| == dv
  {
    forall k :: 0 <= k < |rects| ==> InBounds(rects[k], du, dv) && GreedyAt(rects[..k], rects[k], m, du, dv)
  }

  /** A partition of the mask that is the one the greedy scan produces. */
  ghost predicate GreedyPartition(rects: seq<Rect>, m: seq<seq<BlockType>>, du: int, dv: int)
    requires |m| == du && forall i :: 0 <= i < du ==> |m[i]| == dv
  {
    Partitions(rects, m, du, dv) && Greedy(rects, m, du, dv)
  }

  /** The rectangle grown at the scan position (i, j), with every cell
      before it already air in the buffer, is the greedy one. */
  lemma GreedyNext(mask: array2<BlockType>, m: seq<seq<BlockType>>, rects: seq<Rect>, r: Rect)
    requires MergeInv(mask, m, rects) && Greedy(rects, m, mask.Length0, mask.Length1)
    requires InBounds(r, mask.Length0, mask.Length1) && r.kind == mask[r.i, r.j] && r.kind != Air
    requires forall i, j :: 0 <= i < mask.Length0 && 0 <= j < mask.Length1 && (j < r.j || (j == r.j && i < r.i)) ==>
      mask[i, j] == Air
    requires r.i + r.w == mask.Length0 || mask[r.i + r.w, r.j] != r.kind
    requires r.j + r.h == mask.Length1 || RowBreaks(mask, r.i, r.w, r.j + r.h, r.kind)
    ensures Greedy(rects + [r], m, mask.Length0, mask.Length1)
  {
    var du, dv := mask.Length0, mask.Length1;
    var rs := rects + [r];
    assert GreedyAt(rects, r, m, du, dv) by {
      forall i, j | 0 <= i < du && 0 <= j < dv && (j < r.j || (j == r.j && i < r.i))
        ensures !Pending(rects, m, i, j)
      {
        assert mask[i, j] == Air;
      }
      if r.j + r.h < dv {
        var i :| r.i <= i < r.i + r.w && mask[i, r.j + r.h] != r.kind;
        assert m[i][r.j + r.h] != r.kind || Covered(rects, i, r.j + r.h);
      }
    }
    forall k | 0 <= k < |rs|
      ensures InBounds(rs[k], du, dv) && GreedyAt(rs[..k], rs[k], m, du, dv)
    {
      if k < |rects| {
        assert rs[..k] == rects[..k] && rs[k] == rects[k];
      } else {
        assert rs[..k] == rects;
      }
    }
  }

  /** What the merge keeps true between emissions: the buffer holds air under
      every emitted rectangle and the original mask elsewhere, and the
      rectangles emitted so far are in bounds, uniform and pairwise disjoint. */
  ghost predicate MergeInv(mask: array2<BlockType>, m: seq<seq<BlockType>>, rects: seq<Rect>)
    reads mask
  {
    && |m| == mask.Length0 && (forall i :: 0 <= i < mask.Length0 ==> |m[i]| == mask.Length1)
    && (forall i, j :: 0 <= i < mask.Length0 && 0 <= j < mask.Length1 ==>
          mask[i, j] == if Covered(rects, i, j) then Air else m[i][j])
    && (forall k :: 0 <= k < |rects| ==> InBounds(rects[k], mask.Length0, mask.Length1) && rects[k].kind != Air)
    && (forall k, i, j ::
          (0 <= k < |rects| && 0 <= i < mask.Length0 && 0 <= j < mask.Length1 && Covers(rects[k], i, j)) ==>
          m[i][j] == rects[k].kind)
    && (forall a, b :: 0 <= a < b < |rects| ==> Disjoint(rects[a], rects[b]))
  }

  /** Row `row` of the mask holds a cell other than `kind` in columns
      i..i+w-1. */
  ghost predicate RowBreaks(mask: array2<BlockType>, i: int, w: int, row: int, kind: BlockType)
    reads mask
    requires 0 <= i && i + w <= mask.Length0 && 0 <= row < mask.Length1
  {
    exists i' :: i <= i' < i + w && mask[i', row] != kind
  }

  /** The width and height loops of the merge, started at the non-air cell
      (i, j): the rectangle holds only that cell's type, its width stops at
      the mask's edge or at the first cell of another type along row j, and
      its height stops at the mask's edge or at the first row with a cell
      of another type under the width. */
  method GrowRect(mask: array2<BlockType>, i: int, j: int) returns (w: int, h: int)
    requires 0 <= i < mask.Length0 && 0 <= j < mask.Length1 && mask[i, j] != Air
    ensures 1 <= w && i + w <= mask.Length0 && 1 <= h && j + h <= mask.Length1
    ensures forall i', j' :: i <= i' < i + w && j <= j' < j + h ==> mask[i', j'] == mask[i, j]
    ensures i + w == mask.Length0 || mask[i + w, j] != mask[i, j]
    ensures j + h == mask.Length1 || RowBreaks(mask, i, w, j + h, mask[i, j])
  {
    var kind := mask[i, j];
    w := 1;
    while i + w < mask.Length0 && mask[i + w, j] == kind
      invariant 1 <= w && i + w <= mask.Length0
      invariant forall i' :: i <= i' < i + w ==> mask[i', j] == kind
    {
      w := w + 1;
    }
    h := 1;
    var done := false;
    while j + h < mask.Length1
      invariant 1 <= h && j + h <= mask.Length1
      invariant forall i', j' :: i <= i' < i + w && j <= j' < j + h ==> mask[i', j'] == kind
    {
      var row, k := j + h, 0;
      while k < w
        invariant 0 <= k <= w
        invariant forall i' :: i <= i' < i + k ==> mask[i', row] == kind
      {
        if mask[i + k, row] != kind {
          done := true;
          break;
        }
        k := k + 1;
      }
      if done {
        break;
      }
      h := h + 1;
    }
  }

  /** Clears a freshly grown rectangle to air; afterwards the merge invariant
      holds with the rectangle appended, and no other cell changed. */
  method ClearRect(mask: array2<BlockType>, ghost m: seq<seq<BlockType>>, ghost rects: seq<Rect>, r: Rect)
    requires MergeInv(mask, m, rects)
    requires InBounds(r, mask.Length0, mask.Length1) && r.kind != Air
    requires forall i, j :: Covers(r, i, j) ==> mask[i, j] == r.kind
    modifies mask
    ensures MergeInv(mask, m, rects + [r])
    ensures forall i, j :: 0 <= i < mask.Length0 && 0 <= j < mask.Length1 ==>
      mask[i, j] == if Covers(r, i, j) then Air else old(mask[i, j])
  {
    // The rectangle's cells are not covered yet, so it is uniform in m and
    // disjoint from every earlier rectangle.
    forall a | 0 <= a < |rects|
      ensures Disjoint(rects[a], r)
    {
      if !Disjoint(rects[a], r) {
        var i := if rects[a].i < r.i then r.i else rects[a].i;
        var j := if rects[a].j < r.j then r.j else rects[a].j;
        assert Covers(rects[a], i, j) && Covers(r, i, j);
        assert Covered(rects, i, j);
        assert false;
      }
    }
    var l := 0;
    while l < r.h
      invariant 0 <= l <= r.h
      invariant forall i, j :: 0 <= i < mask.Length0 && 0 <= j < mask.Length1 ==>
        mask[i, j] == if Covers(r, i, j) && j < r.j + l then Air else old(mask[i, j])
    {
      var k := 0;
      while k < r.w
        invariant 0 <= k <= r.w
        invariant forall i, j :: 0 <= i < mask.Length0 && 0 <= j < mask.Length1 ==>
          mask[i, j] == if Covers(r, i, j) && (j < r.j + l || (j == r.j + l && i < r.i + k)) then Air
                        else old(mask[i, j])
      {
        mask[r.i + k, r.j + l] := Air;
        k := k + 1;
      }
      l := l + 1;
    }
    var rs := rects + [r];
    forall i, j | Covered(rects, i, j)
      ensures Covered(rs, i, j)
    {
      var k :| 0 <= k < |rects| && Covers(rects[k], i, j);
      assert Covers(rs[k], i, j);
    }
    forall i, j | 0 <= i < mask.Length0 && 0 <= j < mask.Length1
      ensures mask[i, j] == if Covered(rs, i, j) then Air else m[i][j]
    {
      if Covers(r, i, j) {
        assert Covers(rs[|rects|], i, j);
      } else if Covered(rs, i, j) {
        var k :| 0 <= k < |rs| && Covers(rs[k], i, j);
        assert k < |rects| && Covers(rects[k], i, j);
      }
    }
  }

  /** The mask of slice s as a value: column i along u, row j along v. */
  ghost function SliceMask(blocks: array3<BlockType>, axis: int, s: int): (m: seq<seq<BlockType>>)
    reads blocks
    requires ChunkShaped(blocks) && 0 <= axis < 3
    ensures |m| == Dim(UAxis(axis)) && forall i :: 0 <= i < |m| ==> |m[i]| == Dim(VAxis(axis))
    ensures forall i, j :: 0 <= i < Dim(UAxis(axis)) && 0 <= j < Dim(VAxis(axis)) ==>
      m[i][j] == SliceFace(blocks, axis, s, i, j)
  {
    seq(Dim(UAxis(axis)), i reads blocks =>
      seq(Dim(VAxis(axis)), j reads blocks => SliceFace(blocks, axis, s, i, j)))
  }

  lemma SnapshotIsSliceMask(mask: array2<BlockType>, blocks: array3<BlockType>, axis: int, s: int)
    requires ChunkShaped(blocks) && 0 <= axis < 3
    requires mask.Length0 == Dim(UAxis(axis)) && mask.Length1 == Dim(VAxis(axis))
    requires forall i, j :: 0 <= i < mask.Length0 && 0 <= j < mask.Length1 ==>
      mask[i, j] == SliceFace(blocks, axis, s, i, j)
    ensures Snapshot(mask) == SliceMask(blocks, axis, s)
  {
    var a, b := Snapshot(mask), SliceMask(blocks, axis, s);
    forall i | 0 <= i < |a|
      ensures a[i] == b[i]
    {
      assert |a[i]| == |b[i]|;
      forall j | 0 <= j < |a[i]|
        ensures a[i][j] == b[i][j]
      {
      }
    }
  }

  // ---------------------------------------------------------------------------
  // Colours and quads
  // ---------------------------------------------------------------------------

  /** The per-material colour table; RGB values in the comments. */
  datatype Color =
    | GrassGreen  // (0.25, 0.75, 0.25)
    | DirtBrown   // (0.45, 0.32, 0.20)
    | StoneGrey   // (0.5, 0.5, 0.5)
    | WaterBlue   // (0.2, 0.4, 0.85)
    | SandYellow  // (0.9, 0.85, 0.6)
    | Magenta     // (1, 0, 1), for a type without a colour

  /** The colour of a face of type t: grass is green only on an upward
      "back" face of the y sweep, and shows the dirt colour on every other
      face; the one type without an entry, air, is magenta. */
  function GetColor(t: BlockType, axis: int, isBack: bool): (c: Color)
    ensures c == GrassGreen <==> t == Grass && axis == 1 && isBack
    ensures t == Grass && !(axis == 1 && isBack) ==> c == DirtBrown
    ensures c == Magenta <==> t == Air
  {
    match t
    case Grass => if axis == 1 && isBack then GrassGreen else DirtBrown
    case Dirt => DirtBrown
    case Stone => StoneGrey
    case Water => WaterBlue
    case Sand => SandYellow
    case Air => Magenta
  }

  /** Only grass faces depend on the sweep axis and the face side. */
  lemma ColorIgnoresFaceExceptGrass(t: BlockType, a1: int, b1: bool, a2: int, b2: bool)
    requires t != Grass
    ensures GetColor(t, a1, b1) == GetColor(t, a2, b2)
  {
  }

  /** A mesh vertex: position, face normal and colour. */
  datatype Vertex = Vertex(pos: Vec, normal: Vec, color: Color)

  /** The two triangles (six vertices v0 v1 v2, v2 v3 v0) of a w-by-h quad
      with corner x (chunk-local) on the slice plane of `axis`, shifted by the
      chunk's world origin; the winding swaps v1 and v3 for a back face, and
      the normal is +1 or -1 on the sweep axis. */
  function Quad(worldPos: Vec, axis: int, x: Vec, w: int, h: int, kind: BlockType, isBack: bool): (r: seq<Vertex>)
    requires 0 <= axis < 3
    ensures |r| == 6 && r[3] == r[2] && r[5] == r[0]
  {
    var p := Add(x, worldPos);
    var du := Unit(UAxis(axis), w);
    var dv := Unit(VAxis(axis), h);
    var n := Unit(axis, if isBack then 1 else -1);
    var c := GetColor(kind, axis, isBack);
    var v1 := if isBack then Add(p, du) else Add(p, dv);
    var v2 := Add(Add(p, du), dv);
    var v3 := if isBack then Add(p, dv) else Add(p, du);
    [Vertex(p, n, c), Vertex(v1, n, c), Vertex(v2, n, c), Vertex(v2, n, c), Vertex(v3, n, c), Vertex(p, n, c)]
  }

  /** A unit normal along one axis: +1 or -1 on that axis, 0 on the others. */
  predicate IsAxisNormal(n: Vec) {
    || n in {Vec(1, 0, 0), Vec(-1, 0, 0)}
    || n in {Vec(0, 1, 0), Vec(0, -1, 0)}
    || n in {Vec(0, 0, 1), Vec(0, 0, -1)}
  }

  /** Quad q of a vertex list: six vertices with one normal and one colour. */
  predicate QuadAt(mesh: seq<Vertex>, q: int)
    requires 0 <= q && 6 * q + 6 <= |mesh|
  {
    var b := 6 * q;
    && IsAxisNormal(mesh[b].normal)
    && (forall k :: b <= k < b + 6 ==> mesh[k].normal == mesh[b].normal && mesh[k].color == mesh[b].color)
    && mesh[b + 5].pos == mesh[b].pos && mesh[b + 3].pos == mesh[b + 2].pos
  }

  /** A flat triangle list made of whole quads. */
  predicate QuadList(mesh: seq<Vertex>) {
    |mesh| % 6 == 0 && forall q :: 0 <= q < |mesh| / 6 ==> QuadAt(mesh, q)
  }

  /** A quad is six vertices with a shared colour and a normal that is +1 or
      -1 on the sweep axis only; its four distinct corners are the corners of
      the w-by-h rectangle on the slice plane, and the second triangle closes
      the first. */
  lemma QuadShape(worldPos: Vec, axis: int, x: Vec, w: int, h: int, kind: BlockType, isBack: bool)
    requires 0 <= axis < 3
    ensures var r := Quad(worldPos, axis, x, w, h, kind, isBack);
      && QuadList(r)
      && (forall k :: 0 <= k < 6 ==> Get(r[k].normal, axis) == (if isBack then 1 else -1))
      && (forall k, b :: 0 <= k < 6 && 0 <= b < 3 && b != axis ==> Get(r[k].normal, b) == 0)
      && (forall k :: 0 <= k < 6 ==> r[k].color == GetColor(kind, axis, isBack))
      && (forall k :: 0 <= k < 6 ==> Get(r[k].pos, axis) == Get(x, axis) + Get(worldPos, axis))
      && var p := Add(x, worldPos);
         var du, dv := Unit(UAxis(axis), w), Unit(VAxis(axis), h);
         r[0].pos == p && r[2].pos == Add(Add(p, du), dv) && {r[1].pos, r[4].pos} == {Add(p, du), Add(p, dv)}
  {
    var r := Quad(worldPos, axis, x, w, h, kind, isBack);
    var sign := if isBack then 1 else -1;
    assert r[0].normal == Unit(axis, sign);
    assert QuadAt(r, 0);
  }

  // ---------------------------------------------------------------------------
  // Back-face test
  // ---------------------------------------------------------------------------

  /** The cell read by the back-face test for a quad at x on the slice plane
      of `axis` (sweep coordinate x[axis] = s + 1): the cell one step back
      along the sweep axis, read only when that step stays at or above 0 on
      the sweep axis, so the read is always inside the chunk. */
  function BackCell(blocks: array3<BlockType>, axis: int, x: Vec): (b: BlockType)
    reads blocks
    requires ChunkShaped(blocks) && 0 <= axis < 3
    requires 0 <= Get(x, axis) <= Dim(axis)
    requires 0 <= Get(x, UAxis(axis)) < Dim(UAxis(axis)) && 0 <= Get(x, VAxis(axis)) < Dim(VAxis(axis))
    ensures b == CellOrAir(blocks, Add(x, Unit(axis, -1)))
  {
    var r := Add(x, Unit(axis, -1));
    assert Get(r, axis) == Get(x, axis) - 1;
    assert Get(r, UAxis(axis)) == Get(x, UAxis(axis)) && Get(r, VAxis(axis)) == Get(x, VAxis(axis));
    if Get(r, axis) >= 0 then blocks[r.x, r.y, r.z] else Air
  }

  /** The cell index the back-face test reads as the mesher guards it: the
      guard checks the x component of the back position whatever the sweep
      axis, and yields air (None here) only when that component is negative. */
  function BackIndexAsWritten(axis: int, x: Vec): Option<Vec>
    requires 0 <= axis < 3
  {
    var r := Add(x, Unit(axis, -1));
    if r.x >= 0 then Some(r) else None
  }

  /** On the y sweep the first quad corner at the origin makes the as-written
      guard let through a read of cell (0, -1, 0), outside the chunk. */
  lemma BackIndexAsWrittenLeavesChunk()
    ensures BackIndexAsWritten(1, SlicePos(1, 0, 0, 0)) == Some(Vec(0, -1, 0))
    ensures !InChunk(Vec(0, -1, 0))
  {
    assert SlicePos(1, 0, 0, 0) == Vec(0, 0, 0);
  }

  /** The read guarded on the sweep axis never leaves the chunk, for every
      quad corner the mesher can emit. */
  lemma BackReadInChunk(axis: int, x: Vec)
    requires 0 <= axis < 3
    requires 0 <= Get(x, axis) <= Dim(axis)
    requires 0 <= Get(x, UAxis(axis)) < Dim(UAxis(axis)) && 0 <= Get(x, VAxis(axis)) < Dim(VAxis(axis))
    ensures Get(x, axis) - 1 >= 0 ==> InChunk(Add(x, Unit(axis, -1)))
  {
    var r := Add(x, Unit(axis, -1));
    assert Get(r, axis) == Get(x, axis) - 1;
    assert Get(r, UAxis(axis)) == Get(x, UAxis(axis)) && Get(r, VAxis(axis)) == Get(x, VAxis(axis));
  }

  // ---------------------------------------------------------------------------
  // The mesh as a function of the block grid and the slice partitions
  // ---------------------------------------------------------------------------

  /** The quad emitted for rectangle r of slice s: its corner sits at sweep
      coordinate s + 1, and it is a back face when the cell behind it (the
      near cell of the slice) has the rectangle's type. */
  ghost function RectQuad(worldPos: Vec, blocks: array3<BlockType>, axis: int, s: int, r: Rect): seq<Vertex>
    reads blocks
    requires ChunkShaped(blocks) && 0 <= axis < 3
  {
    var x := SlicePos(axis, s + 1, r.i, r.j);
    Quad(worldPos, axis, x, r.w, r.h, r.kind, CellOrAir(blocks, Add(x, Unit(axis, -1))) == r.kind)
  }

  /** The quads of slice s, in the order its rectangles were found. */
  ghost function SliceQuads(worldPos: Vec, blocks: array3<BlockType>, axis: int, s: int, rects: seq<Rect>): seq<Vertex>
    reads blocks
    requires ChunkShaped(blocks) && 0 <= axis < 3
    decreases |rects|
  {
    if rects == [] then []
    else SliceQuads(worldPos, blocks, axis, s, rects[..|rects| - 1]) + RectQuad(worldPos, blocks, axis, s, rects[|rects| - 1])
  }

  /** The quads of the sweep along `axis`: entry k of ap holds the rectangles
      of slice k - 1. */
  ghost function AxisMesh(worldPos: Vec, blocks: array3<BlockType>, axis: int, ap: seq<seq<Rect>>): seq<Vertex>
    reads blocks
    requires ChunkShaped(blocks) && 0 <= axis < 3
    decreases |ap|
  {
    if ap == [] then []
    else AxisMesh(worldPos, blocks, axis, ap[..|ap| - 1]) + SliceQuads(worldPos, blocks, axis, |ap| - 2, ap[|ap| - 1])
  }

  /** The whole mesh: the sweeps along x, y and z in that order. */
  ghost function MeshOf(worldPos: Vec, blocks: array3<BlockType>, parts: seq<seq<seq<Rect>>>): seq<Vertex>
    reads blocks
    requires ChunkShaped(blocks) && |parts| <= 3
    decreases |parts|
  {
    if parts == [] then []
    else MeshOf(worldPos, blocks, parts[..|parts| - 1]) + AxisMesh(worldPos, blocks, |parts| - 1, parts[|parts| - 1])
  }

  /** Entry k of ap is the greedy partition of the mask of slice k - 1 of
      the sweep along `axis`. */
  ghost predicate AxisParts(blocks: array3<BlockType>, axis: int, ap: seq<seq<Rect>>)
    reads blocks
    requires ChunkShaped(blocks) && 0 <= axis < 3
    decreases |ap|
  {
    ap == [] ||
    (AxisParts(blocks, axis, ap[..|ap| - 1]) &&
     GreedyPartition(ap[|ap| - 1], SliceMask(blocks, axis, |ap| - 2), Dim(UAxis(axis)), Dim(VAxis(axis))))
  }

  /** AxisParts holds exactly when every entry k is the greedy partition of
      the mask of slice k - 1. */
  lemma AxisPartsEach(blocks: array3<BlockType>, axis: int, ap: seq<seq<Rect>>)
    requires ChunkShaped(blocks) && 0 <= axis < 3
    ensures AxisParts(blocks, axis, ap) <==>
      forall k :: 0 <= k < |ap| ==>
        GreedyPartition(ap[k], SliceMask(blocks, axis, k - 1), Dim(UAxis(axis)), Dim(VAxis(axis)))
  {
    if AxisParts(blocks, axis, ap) {
      AxisPartsGives(blocks, axis, ap);
    }
    if forall k :: 0 <= k < |ap| ==>
         GreedyPartition(ap[k], SliceMask(blocks, axis, k - 1), Dim(UAxis(axis)), Dim(VAxis(axis))) {
      AxisPartsFrom(blocks, axis, ap);
    }
  }

  lemma {:induction false} AxisPartsGives(blocks: array3<BlockType>, axis: int, ap: seq<seq<Rect>>)
    requires ChunkShaped(blocks) && 0 <= axis < 3 && AxisParts(blocks, axis, ap)
    ensures forall k :: 0 <= k < |ap| ==>
      GreedyPartition(ap[k], SliceMask(blocks, axis, k - 1), Dim(UAxis(axis)), Dim(VAxis(axis)))
    decreases |ap|
  {
    if ap != [] {
      var init, last := ap[..|ap| - 1], ap[|ap| - 1];
      assert AxisParts(blocks, axis, init);
      assert GreedyPartition(last, SliceMask(blocks, axis, |ap| - 2), Dim(UAxis(axis)), Dim(VAxis(axis)));
      AxisPartsGives(blocks, axis, init);
      forall k | 0 <= k < |ap|
        ensures GreedyPartition(ap[k], SliceMask(blocks, axis, k - 1), Dim(UAxis(axis)), Dim(VAxis(axis)))
      {
        if k < |init| {
          assert init[k] == ap[k];
        } else {
          assert ap[k] == last;
        }
      }
    }
  }

  lemma {:induction false} AxisPartsFrom(blocks: array3<BlockType>, axis: int, ap: seq<seq<Rect>>)
    requires ChunkShaped(blocks) && 0 <= axis < 3
    requires forall k :: 0 <= k < |ap| ==>
      GreedyPartition(ap[k], SliceMask(blocks, axis, k - 1), Dim(UAxis(axis)), Dim(VAxis(axis)))
    ensures AxisParts(blocks, axis, ap)
    decreases |ap|
  {
    if ap != [] {
      var init := ap[..|ap| - 1];
      forall k | 0 <= k < |init|
        ensures GreedyPartition(init[k], SliceMask(blocks, axis, k - 1), Dim(UAxis(axis)), Dim(VAxis(axis)))
      {
        assert init[k] == ap[k];
      }
      AxisPartsFrom(blocks, axis, init);
    }
  }

  lemma AxisMeshSnoc(worldPos: Vec, blocks: array3<BlockType>, axis: int, ap: seq<seq<Rect>>, rects: seq<Rect>)
    requires ChunkShaped(blocks) && 0 <= axis < 3
    ensures AxisMesh(worldPos, blocks, axis, ap + [rects])
         == AxisMesh(worldPos, blocks, axis, ap) + SliceQuads(worldPos, blocks, axis, |ap| - 1, rects)
  {
    assert (ap + [rects])[..|ap|] == ap;
  }

  lemma AxisPartsSnoc(blocks: array3<BlockType>, axis: int, ap: seq<seq<Rect>>, rects: seq<Rect>)
    requires ChunkShaped(blocks) && 0 <= axis < 3
    requires AxisParts(blocks, axis, ap)
    requires GreedyPartition(rects, SliceMask(blocks, axis, |ap| - 1), Dim(UAxis(axis)), Dim(VAxis(axis)))
    ensures AxisParts(blocks, axis, ap + [rects])
  {
    assert (ap + [rects])[..|ap|] == ap;
  }

  /** parts[a] holds the greedy partition of every slice of the sweep along axis a. */
  ghost predicate GreedyParts(blocks: array3<BlockType>, parts: seq<seq<seq<Rect>>>)
    reads blocks
    requires ChunkShaped(blocks)
  {
    |parts| <= 3 && forall a :: 0 <= a < |parts| ==> |parts[a]| == Dim(a) + 1 && AxisParts(blocks, a, parts[a])
  }

  lemma GreedyPartsSnoc(worldPos: Vec, blocks: array3<BlockType>, ps: seq<seq<seq<Rect>>>, ap: seq<seq<Rect>>)
    requires ChunkShaped(blocks) && |ps| < 3
    requires GreedyParts(blocks, ps)
    requires |ap| == Dim(|ps|) + 1 && AxisParts(blocks, |ps|, ap)
    ensures GreedyParts(blocks, ps + [ap])
    ensures MeshOf(worldPos, blocks, ps + [ap]) == MeshOf(worldPos, blocks, ps) + AxisMesh(worldPos, blocks, |ps|, ap)
  {
    var ps' := ps + [ap];
    assert ps'[..|ps|] == ps;
    forall a | 0 <= a < |ps'|
      ensures |ps'[a]| == Dim(a) + 1 && AxisParts(blocks, a, ps'[a])
    {
      if a < |ps| {
        assert ps'[a] == ps[a];
      }
    }
  }

  lemma QuadListAppend(a: seq<Vertex>, b: seq<Vertex>)
    requires QuadList(a) && QuadList(b)
    ensures QuadList(a + b)
  {
    var c := a + b;
    forall q | 0 <= q < |c| / 6
      ensures QuadAt(c, q)
    {
      if q < |a| / 6 {
        assert QuadAt(a, q);
        assert forall k :: 6 * q <= k < 6 * q + 6 ==> c[k] == a[k];
      } else {
        var q' := q - |a| / 6;
        assert QuadAt(b, q');
        assert forall k :: 6 * q <= k < 6 * q + 6 ==> c[k] == b[k - |a|];
      }
    }
  }

  lemma {:induction false} SliceQuadsAreQuads(worldPos: Vec, blocks: array3<BlockType>, axis: int, s: int, rects: seq<Rect>)
    requires ChunkShaped(blocks) && 0 <= axis < 3
    ensures QuadList(SliceQuads(worldPos, blocks, axis, s, rects))
    ensures |SliceQuads(worldPos, blocks, axis, s, rects)| == 6 * |rects|
    decreases |rects|
  {
    if rects != [] {
      var r := rects[|rects| - 1];
      SliceQuadsAreQuads(worldPos, blocks, axis, s, rects[..|rects| - 1]);
      var x := SlicePos(axis, s + 1, r.i, r.j);
      QuadShape(worldPos, axis, x, r.w, r.h, r.kind, CellOrAir(blocks, Add(x, Unit(axis, -1))) == r.kind);
      QuadListAppend(SliceQuads(worldPos, blocks, axis, s, rects[..|rects| - 1]), RectQuad(worldPos, blocks, axis, s, r));
    }
  }

  lemma {:induction false} AxisMeshIsQuads(worldPos: Vec, blocks: array3<BlockType>, axis: int, ap: seq<seq<Rect>>)
    requires ChunkShaped(blocks) && 0 <= axis < 3
    ensures QuadList(AxisMesh(worldPos, blocks, axis, ap))
    decreases |ap|
  {
    if ap != [] {
      AxisMeshIsQuads(worldPos, blocks, axis, ap[..|ap| - 1]);
      SliceQuadsAreQuads(worldPos, blocks, axis, |ap| - 2, ap[|ap| - 1]);
      QuadListAppend(AxisMesh(worldPos, blocks, axis, ap[..|ap| - 1]), SliceQuads(worldPos, blocks, axis, |ap| - 2, ap[|ap| - 1]));
    }
  }

  /** The mesh is a list of whole quads: its length is a multiple of 6 and
      each quad's normal is a unit vector on one axis. */
  lemma {:induction false} MeshIsQuads(worldPos: Vec, blocks: array3<BlockType>, parts: seq<seq<seq<Rect>>>)
    requires ChunkShaped(blocks) && |parts| <= 3
    ensures QuadList(MeshOf(worldPos, blocks, parts))
    decreases |parts|
  {
    if parts != [] {
      MeshIsQuads(worldPos, blocks, parts[..|parts| - 1]);
      AxisMeshIsQuads(worldPos, blocks, |parts| - 1, parts[|parts| - 1]);
      QuadListAppend(MeshOf(worldPos, blocks, parts[..|parts| - 1]), AxisMesh(worldPos, blocks, |parts| - 1, parts[|parts| - 1]));
    }
  }

  // ---------------------------------------------------------------------------
  // Terrain
  // ---------------------------------------------------------------------------

  /** The raw column height clamped into [1, CHUNK_H - 1]. */
  function ClampHeight(h: int): (r: int)
    ensures 1 <= r <= CHUNK_H - 1
    ensures 1 <= h <= CHUNK_H - 1 ==> r == h
    ensures h >= CHUNK_H ==> r == CHUNK_H - 1
    ensures h < 1 ==> r == 1
  {
    var a := if h >= CHUNK_H then CHUNK_H - 1 else h;
    if a < 1 then 1 else a
  }

  /** The block at height y of a column whose surface is at height h. */
  function ColumnBlock(y: int, h: int): BlockType {
    if y > h then (if y <= WATER_LEVEL then Water else Air)
    else if y == h then (if y >= WATER_LEVEL then Grass else Dirt)
    else Dirt
  }

  /** The column profile: solid exactly up to the surface, water filling the
      cells above a surface below the water level up to that level, air
      above, and grass exactly on a surface at or above the water level. */
  lemma ColumnProfile(y: int, h: int)
    ensures IsSolid(ColumnBlock(y, h)) <==> y <= h
    ensures ColumnBlock(y, h) == Water <==> h < y <= WATER_LEVEL
    ensures ColumnBlock(y, h) == Air <==> y > h && y > WATER_LEVEL
    ensures ColumnBlock(y, h) == Grass <==> y == h && h >= WATER_LEVEL
    ensures ColumnBlock(y, h) == Dirt <==> y < h || (y == h && h < WATER_LEVEL)
  {
  }

  /** The terrain of a chunk with world origin worldPos: every cell of column
      (x, z) follows the column profile of the clamped height of world column
      (worldPos.x + x, worldPos.z + z). */
  ghost predicate Terrain(blocks: array3<BlockType>, worldPos: Vec, height: (int, int) -> int)
    reads blocks
    requires ChunkShaped(blocks)
  {
    forall x, y, z :: 0 <= x < CHUNK_W && 0 <= y < CHUNK_H && 0 <= z < CHUNK_W ==>
      blocks[x, y, z] == ColumnBlock(y, ClampHeight(height(worldPos.x + x, worldPos.z + z)))
  }

  /** Every generated chunk has dirt in its bottom layer, so the y sweep's
      first slice (below the chunk) holds a dirt face at every cell, and the
      partition of that slice has a rectangle with its corner at (0, 0): the
      mesher emits a quad with corner (0, 0, 0) on the y sweep for every
      chunk, which is where the as-written back-face guard reads (0, -1, 0). */
  lemma TerrainEmitsBottomCornerQuad(blocks: array3<BlockType>, worldPos: Vec, height: (int, int) -> int, rects: seq<Rect>)
    requires ChunkShaped(blocks) && Terrain(blocks, worldPos, height)
    requires Partitions(rects, SliceMask(blocks, 1, -1), Dim(UAxis(1)), Dim(VAxis(1)))
    ensures exists k :: 0 <= k < |rects| && rects[k].i == 0 && rects[k].j == 0
    ensures SlicePos(1, 0, 0, 0) == Vec(0, 0, 0)
  {
    assert SlicePos(1, -1, 0, 0) == Vec(0, -1, 0);
    assert SlicePos(1, 0, 0, 0) == Vec(0, 0, 0);
    assert blocks[0, 0, 0] == Dirt;
    assert SliceMask(blocks, 1, -1)[0][0] == Dirt;
    assert Covered(rects, 0, 0);
    var k :| 0 <= k < |rects| && Covers(rects[k], 0, 0);
    assert InBounds(rects[k], Dim(UAxis(1)), Dim(VAxis(1)));
  }

  /** One sweep of the mesher along `axis`: for each slice s from -1 to
      Dim(axis) - 1, fill the mask buffer, merge it and emit one quad per
      rectangle; `ap` records each slice's partition. */
  method SweepAxis(worldPos: Vec, blocks: array3<BlockType>, axis: int, mesh: seq<Vertex>)
    returns (out: seq<Vertex>, ghost ap: seq<seq<Rect>>)
    requires ChunkShaped(blocks) && 0 <= axis < 3
    ensures |ap| == Dim(axis) + 1 && AxisParts(blocks, axis, ap)
    ensures out == mesh + AxisMesh(worldPos, blocks, axis, ap)
  {
    var mask := new BlockType[Dim(UAxis(axis)), Dim(VAxis(axis))];
    out, ap := mesh, [];
    var s := -1;
    while s < Dim(axis)
      invariant -1 <= s <= Dim(axis) && |ap| == s + 1
      invariant AxisParts(blocks, axis, ap)
      invariant out == mesh + AxisMesh(worldPos, blocks, axis, ap)
    {
      out, ap := SweepNext(worldPos, blocks, axis, s, mask, mesh, out, ap);
      s := s + 1;
    }
  }

  /** One turn of the sweep: slice s is merged and its quads are
      appended, so the mesh again covers every slice swept so far. */
  method SweepNext(worldPos: Vec, blocks: array3<BlockType>, axis: int, s: int, mask: array2<BlockType>,
                   mesh: seq<Vertex>, out: seq<Vertex>, ghost ap: seq<seq<Rect>>)
    returns (out': seq<Vertex>, ghost ap': seq<seq<Rect>>)
    requires ChunkShaped(blocks) && 0 <= axis < 3 && -1 <= s < Dim(axis) && |ap| == s + 1
    requires mask.Length0 == Dim(UAxis(axis)) && mask.Length1 == Dim(VAxis(axis))
    requires AxisParts(blocks, axis, ap) && out == mesh + AxisMesh(worldPos, blocks, axis, ap)
    modifies mask
    ensures |ap'| == |ap| + 1 && AxisParts(blocks, axis, ap')
    ensures out' == mesh + AxisMesh(worldPos, blocks, axis, ap')
  {
    var rects;
    ghost var prev := AxisMesh(worldPos, blocks, axis, ap);
    out', rects := SweepSlice(worldPos, blocks, axis, s, mask, out);
    ghost var slice := SliceQuads(worldPos, blocks, axis, s, rects);
    assert AxisParts(blocks, axis, ap) && AxisMesh(worldPos, blocks, axis, ap) == prev;
    AxisPartsSnoc(blocks, axis, ap, rects);
    AxisMeshSnoc(worldPos, blocks, axis, ap, rects);
    ap' := ap + [rects];
    assert AxisMesh(worldPos, blocks, axis, ap') == prev + slice;
    ConcatAssoc(mesh, prev, slice);
  }

  lemma ConcatAssoc<T>(a: seq<T>, b: seq<T>, c: seq<T>)
    ensures a + (b + c) == a + b + c
  {
  }

  /** One slice of a sweep: fill the mask buffer, merge it into rectangles
      and emit their quads after `mesh`. */
  method SweepSlice(worldPos: Vec, blocks: array3<BlockType>, axis: int, s: int, mask: array2<BlockType>, mesh: seq<Vertex>)
    returns (out: seq<Vertex>, rects: seq<Rect>)
    requires ChunkShaped(blocks) && 0 <= axis < 3 && -1 <= s < Dim(axis)
    requires mask.Length0 == Dim(UAxis(axis)) && mask.Length1 == Dim(VAxis(axis))
    modifies mask
    ensures Partitions(rects, SliceMask(blocks, axis, s), Dim(UAxis(axis)), Dim(VAxis(axis)))
    ensures Greedy(rects, SliceMask(blocks, axis, s), Dim(UAxis(axis)), Dim(VAxis(axis)))
    ensures out == mesh + SliceQuads(worldPos, blocks, axis, s, rects)
  {
    FillMask(blocks, axis, s, mask);
    SnapshotIsSliceMask(mask, blocks, axis, s);
    rects := MergeMask(mask);
    out := EmitQuads(worldPos, blocks, axis, s, rects, mesh);
  }

  /** Emits the quads of the rectangles of slice s, each with its back-face
      test, after the vertices already in `mesh`. */
  method EmitQuads(worldPos: Vec, blocks: array3<BlockType>, axis: int, s: int, rects: seq<Rect>, mesh: seq<Vertex>)
    returns (out: seq<Vertex>)
    requires ChunkShaped(blocks) && 0 <= axis < 3 && -1 <= s < Dim(axis)
    requires forall k :: 0 <= k < |rects| ==> InBounds(rects[k], Dim(UAxis(axis)), Dim(VAxis(axis)))
    ensures out == mesh + SliceQuads(worldPos, blocks, axis, s, rects)
  {
    out := mesh;
    var k := 0;
    while k < |rects|
      invariant 0 <= k <= |rects|
      invariant out == mesh + SliceQuads(worldPos, blocks, axis, s, rects[..k])
    {
      var r := rects[k];
      var x := SlicePos(axis, s + 1, r.i, r.j);
      var isBack := BackCell(blocks, axis, x) == r.kind;
      ghost var q := Quad(worldPos, axis, x, r.w, r.h, r.kind, isBack);
      assert q == RectQuad(worldPos, blocks, axis, s, r);
      assert rects[..k + 1][..k] == rects[..k];
      assert SliceQuads(worldPos, blocks, axis, s, rects[..k + 1]) == SliceQuads(worldPos, blocks, axis, s, rects[..k]) + q;
      ConcatAssoc(mesh, SliceQuads(worldPos, blocks, axis, s, rects[..k]), q);
      out := out + Quad(worldPos, axis, x, r.w, r.h, r.kind, isBack);
      k := k + 1;
    }
    assert rects[..|rects|] == rects;
  }

  /** The sweeps along x, y and z in turn, each appending its quads: the
      result is the greedy mesh of the grid, a list of whole quads. */
  method GreedyMesh(worldPos: Vec, blocks: array3<BlockType>) returns (mesh: seq<Vertex>, ghost ps: seq<seq<seq<Rect>>>)
    requires ChunkShaped(blocks)
    ensures GreedyParts(blocks, ps) && |ps| == 3 && mesh == MeshOf(worldPos, blocks, ps)
    ensures QuadList(mesh)
  {
    mesh, ps := [], [];
    var axis := 0;
    while axis < 3
      invariant 0 <= axis <= 3 && |ps| == axis
      invariant GreedyParts(blocks, ps)
      invariant mesh == MeshOf(worldPos, blocks, ps)
    {
      ghost var ap;
      mesh, ap := SweepAxis(worldPos, blocks, axis, mesh);
      GreedyPartsSnoc(worldPos, blocks, ps, ap);
      ps := ps + [ap];
      axis := axis + 1;
    }
    MeshIsQuads(worldPos, blocks, ps);
  }

  // ---------------------------------------------------------------------------
  // The chunk object
  // ---------------------------------------------------------------------------

  /** One W x H x W chunk: its block grid, its world origin and bounding box,
      and the mesh produced by its last build together with the dirty flag
      (new geometry waiting to be handed to the renderer) and the vertex
      count last handed over. `parts` records, for the last build, the
      greedy partition of every slice mask the merge found. */
  class Chunk {
    const chunkX: int
    const chunkZ: int
    const worldPos: Vec
    const aabbMin: Vec
    const aabbMax: Vec
    const blocks: array3<BlockType>
    var meshData: seq<Vertex>
    var isDirty: bool
    var indexCount: int
    ghost var parts: seq<seq<seq<Rect>>>

    ghost predicate Valid()
      reads this
    {
      && ChunkShaped(blocks)
      && worldPos == Vec(chunkX * CHUNK_W, 0, chunkZ * CHUNK_W)
      && aabbMin == worldPos
      && aabbMax == Add(worldPos, Vec(CHUNK_W, CHUNK_H, CHUNK_W))
    }

    /** The mesh is the greedy mesh of the current grid. */
    ghost predicate MeshCurrent()
      reads this, blocks
      requires Valid()
    {
      GreedyParts(blocks, parts) && |parts| == 3 && meshData == MeshOf(worldPos, blocks, parts)
    }

    /** A chunk at chunk coordinates (x, z): its origin is (x * W, 0, z * W),
        its grid is filled from the raw column heights `height` (indexed by
        world column), and its first mesh is built; the build here runs to
        completion, so the chunk starts dirty with the mesh ready. */
    constructor (x: int, z: int, height: (int, int) -> int)
      ensures Valid() && fresh(blocks)
      ensures chunkX == x && chunkZ == z
      ensures Terrain(blocks, worldPos, height)
      ensures MeshCurrent() && isDirty && indexCount == 0
    {
      chunkX, chunkZ := x, z;
      worldPos := Vec(x * CHUNK_W, 0, z * CHUNK_W);
      aabbMin := Vec(x * CHUNK_W, 0, z * CHUNK_W);
      aabbMax := Add(Vec(x * CHUNK_W, 0, z * CHUNK_W), Vec(CHUNK_W, CHUNK_H, CHUNK_W));
      blocks := new BlockType[CHUNK_W, CHUNK_H, CHUNK_W];
      meshData, isDirty, indexCount := [], false, 0;
      parts := [];
      new;
      GenerateTerrain(height);
      BuildGreedyMesh();
    }

    /** Fills every column of the grid from its clamped height. */
    method GenerateTerrain(height: (int, int) -> int)
      requires Valid()
      modifies blocks
      ensures Terrain(blocks, worldPos, height)
    {
      var x := 0;
      while x < CHUNK_W
        invariant 0 <= x <= CHUNK_W
        invariant forall x', y, z :: 0 <= x' < x && 0 <= y < CHUNK_H && 0 <= z < CHUNK_W ==>
          blocks[x', y, z] == ColumnBlock(y, ClampHeight(height(worldPos.x + x', worldPos.z + z)))
      {
        var z := 0;
        while z < CHUNK_W
          invariant 0 <= z <= CHUNK_W
          invariant forall x', y, z' :: 0 <= x' < x && 0 <= y < CHUNK_H && 0 <= z' < CHUNK_W ==>
            blocks[x', y, z'] == ColumnBlock(y, ClampHeight(height(worldPos.x + x', worldPos.z + z')))
          invariant forall y, z' :: 0 <= y < CHUNK_H && 0 <= z' < z ==>
            blocks[x, y, z'] == ColumnBlock(y, ClampHeight(height(worldPos.x + x, worldPos.z + z')))
        {
          var h := ClampHeight(height(worldPos.x + x, worldPos.z + z));
          var y := 0;
          while y < CHUNK_H
            invariant 0 <= y <= CHUNK_H
            invariant forall x', y', z' :: 0 <= x' < x && 0 <= y' < CHUNK_H && 0 <= z' < CHUNK_W ==>
              blocks[x', y', z'] == ColumnBlock(y', ClampHeight(height(worldPos.x + x', worldPos.z + z')))
            invariant forall y', z' :: 0 <= y' < CHUNK_H && 0 <= z' < z ==>
              blocks[x, y', z'] == ColumnBlock(y', ClampHeight(height(worldPos.x + x, worldPos.z + z')))
            invariant forall y' :: 0 <= y' < y ==> blocks[x, y', z] == ColumnBlock(y', h)
          {
            if y > h {
              blocks[x, y, z] := if y <= WATER_LEVEL then Water else Air;
            } else if y == h {
              blocks[x, y, z] := if y >= WATER_LEVEL then Grass else Dirt;
            } else {
              blocks[x, y, z] := Dirt;
            }
            y := y + 1;
          }
          z := z + 1;
        }
        x := x + 1;
      }
    }

    /** The greedy mesher: sweep the x, y and z axes in turn, appending each
        sweep's quads; the new mesh replaces the old one and the chunk
        becomes dirty. */
    method BuildGreedyMesh()
      requires Valid()
      modifies this
      ensures Valid() && MeshCurrent() && QuadList(meshData)
      ensures isDirty && indexCount == old(indexCount)
    {
      var tempMesh, ps := GreedyMesh(worldPos, blocks);
      meshData := tempMesh;
      parts := ps;
      isDirty := true;
    }

    /** A rebuild request, run to completion: the mesh is rebuilt from the
        current grid and the chunk becomes dirty. */
    method Rebuild()
      requires Valid()
      modifies this
      ensures Valid() && MeshCurrent() && QuadList(meshData)
      ensures isDirty && indexCount == old(indexCount)
    {
      BuildGreedyMesh();
    }

    /** Hands a ready mesh to the renderer: a dirty chunk with an empty mesh
        draws nothing and stays dirty; a dirty chunk with a mesh records its
        vertex count, stops being dirty and drops its copy of the mesh; a
        clean chunk is left alone. */
    method Update()
      modifies this
      ensures old(isDirty) && old(meshData) == [] ==> indexCount == 0 && isDirty && meshData == []
      ensures old(isDirty) && old(meshData) != [] ==> indexCount == |old(meshData)| && !isDirty && meshData == []
      ensures !old(isDirty) ==> indexCount == old(indexCount) && !isDirty && meshData == old(meshData)
      ensures parts == old(parts)
    {
      if isDirty {
        if meshData == [] {
          indexCount := 0;
          return;
        }
        indexCount := |meshData|;
        isDirty := false;
        meshData := [];
      }
    }
  }
}
