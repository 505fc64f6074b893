/** The single-threaded bump arena: fixed-size blocks obtained from the heap,
    a bump pointer inside the newest block, aligned allocation by the rules
    of std::align, reset, move, and the byte counters. Addresses are
    integers and 0 stands for the null pointer. */
module Arenas {
  import opened Wrappers

  /** The largest value of a 64-bit size_t or uintptr_t. */
  const SIZE_MAX: int := 0xFFFF_FFFF_FFFF_FFFF

  /** The alignment `allocate` uses when none is given: that of
      std::max_align_t on the usual 64-bit targets. */
  const DEFAULT_ALIGNMENT: int := 16

  /** The block size a default-constructed arena uses. */
  const DEFAULT_BLOCK_SIZE: int := 4096

  // ---------------------------------------------------------------
  // Helpers of the header
  // ---------------------------------------------------------------

  /** A power of two has exactly one bit set: it is non-zero and clearing
      its lowest set bit leaves nothing. */
  predicate IsPowerOfTwo(x: bv64) {
    x != 0 && x & (x - 1) == 0
  }

  /** The default alignment is a power of two, as std::align demands. */
  lemma DefaultAlignmentIsPowerOfTwo()
    ensures IsPowerOfTwo(DEFAULT_ALIGNMENT as bv64)
  {
    assert DEFAULT_ALIGNMENT as bv64 == 16;
  }

  /** A power of two is exactly a non-zero value that equals its own lowest
      set bit (the two's-complement isolation x & -x). */
  lemma PowerOfTwoIsLowestBit(x: bv64)
    ensures IsPowerOfTwo(x) <==> x != 0 && x & -x == x
  {
  }

  /** Doubling a power of two that does not overflow gives a power of two. */
  lemma PowerOfTwoDoubles(x: bv64)
    requires IsPowerOfTwo(x) && x < 0x8000_0000_0000_0000
    ensures IsPowerOfTwo(x + x)
  {
  }

  /** The overflow-checked address addition: None (the source's `false`)
      when a + b would exceed SIZE_MAX, otherwise the sum. */
  function CheckAddOverflow(a: int, b: int): (r: Option<int>)
    requires 0 <= a <= SIZE_MAX && 0 <= b <= SIZE_MAX
    ensures r.Some? ==> r.value <= SIZE_MAX
  {
    if b > SIZE_MAX - a then None else Some(a + b)
  }

  /** The check agrees with 64-bit wrap-around: it fails exactly when the
      wrapped sum comes out below `a`, and when it succeeds its result is
      the wrapped sum, so no wrap has happened. */
  lemma CheckAddOverflowMatchesWrap(a: int, b: int)
    requires 0 <= a <= SIZE_MAX && 0 <= b <= SIZE_MAX
    ensures CheckAddOverflow(a, b).None? <==> (a + b) % (SIZE_MAX + 1) < a
    ensures CheckAddOverflow(a, b).Some? ==> CheckAddOverflow(a, b).value == (a + b) % (SIZE_MAX + 1)
  {
    if a + b > SIZE_MAX {
      assert (a + b) % (SIZE_MAX + 1) == a + b - (SIZE_MAX + 1);
    } else {
      assert (a + b) % (SIZE_MAX + 1) == a + b;
    }
  }

  // ---------------------------------------------------------------
  // std::align
  // ---------------------------------------------------------------

  lemma MulMonotone(x: int, y: int, a: int)
    requires x <= y && a >= 0
    ensures x * a <= y * a
  {
    assert y * a - x * a == (y - x) * a;
  }

  lemma MulSucc(n: int, b: int)
    ensures (n + 1) * b == n * b + b
  {
  }

  /** A multiple of a leaves no remainder. */
  lemma {:induction false} MultipleHasNoRemainder(k: int, a: int)
    requires a >= 1
    ensures (k * a) % a == 0
  {
    var x := k * a;
    var q := x / a;
    var r := x % a;
    assert x == q * a + r;
    assert (k - q) * a == r;
    if k - q >= 1 {
      MulMonotone(1, k - q, a);
    } else if k - q <= -1 {
      MulMonotone(k - q, -1, a);
    }
  }

  /** The first address at or above p that is a multiple of a. */
  function AlignUp(p: int, a: int): (q: int)
    requires a >= 1
    ensures q % a == 0 && p <= q < p + a
  {
    var m := p % a;
    var d := p / a;
    assert p == d * a + m;
    if m == 0 then p
    else
      assert p + (a - m) == (d + 1) * a;
      MultipleHasNoRemainder(d + 1, a);
      p + (a - m)
  }

  /** No multiple of a lies in [p, AlignUp(p, a)). */
  lemma {:induction false} AlignUpIsLeast(p: int, a: int, q: int)
    requires a >= 1 && p <= q && q % a == 0
    ensures AlignUp(p, a) <= q
  {
    var d := p / a;
    var e := q / a;
    assert p == d * a + p % a;
    assert q == e * a;
    if p % a != 0 {
      if e <= d {
        MulMonotone(e, d, a);
        assert false;
      }
      MulMonotone(d + 1, e, a);
      assert AlignUp(p, a) == (d + 1) * a;
    }
  }

  /** The pointer and remaining space std::align leaves behind. */
  datatype Aligned = Aligned(ptr: int, space: int)

  /** std::align(alignment, size, ptr, space): when `size` bytes aligned to
      `alignment` fit into the `space` bytes at `ptr`, the first such
      address together with the space left after the padding; otherwise
      nothing, and the caller's ptr and space stay as they were. */
  function Align(alignment: int, size: int, ptr: int, space: int): (r: Option<Aligned>)
    requires alignment >= 1 && size >= 0 && space >= 0
    ensures r.Some? <==> exists q :: ptr <= q && q % alignment == 0 && q + size <= ptr + space
    ensures r.Some? ==>
      && r.value.ptr % alignment == 0
      && ptr <= r.value.ptr < ptr + alignment
      && r.value.ptr + size <= ptr + space
      && r.value.space == space - (r.value.ptr - ptr)
      && (forall q :: ptr <= q < r.value.ptr ==> q % alignment != 0)
  {
    var q := AlignUp(ptr, alignment);
    if q - ptr + size <= space then
      assert forall q' :: ptr <= q' < q ==> q' % alignment != 0 by {
        forall q' | ptr <= q' < q
          ensures q' % alignment != 0
        {
          if q' % alignment == 0 {
            AlignUpIsLeast(ptr, alignment, q');
          }
        }
      }
      Some(Aligned(q, space - (q - ptr)))
    else
      assert forall q' :: ptr <= q' && q' % alignment == 0 ==> q' + size > ptr + space by {
        forall q' | ptr <= q' && q' % alignment == 0
          ensures q' + size > ptr + space
        {
          AlignUpIsLeast(ptr, alignment, q');
        }
      }
      None
  }

  /** A block whose base is a multiple of the alignment always holds a
      request no larger than the block. */
  lemma AlignedBlockFits(alignment: int, size: int, base: int, blockSize: int)
    requires alignment >= 1 && 0 <= size <= blockSize && base % alignment == 0
    ensures Align(alignment, size, base, blockSize) == Some(Aligned(base, blockSize))
  {
    AlignUpIsLeast(base, alignment, base);
  }

  // ---------------------------------------------------------------
  // The arena
  // ---------------------------------------------------------------

  /** A live allocation: its address, its size and the block it came from. */
  datatype Allocation = Allocation(addr: int, size: int, block: nat)

  /** The byte ranges [a, a + s) and [b, b + t) do not overlap. */
  predicate Apart(a: int, s: int, b: int, t: int) {
    a + s <= b || b + t <= a
  }

  function SizeSum(live: seq<Allocation>): int {
    if live == [] then 0 else SizeSum(live[..|live| - 1]) + live[|live| - 1].size
  }

  /** Allocation x lies inside its block, and below the bump pointer when
      that block is the current one. */
  ghost predicate Inside(x: Allocation, blocks: seq<int>, blockSize: int, cur: nat, ptr: int) {
    && x.size >= 0
    && x.block < |blocks|
    && blocks[x.block] <= x.addr
    && x.addr + x.size <= blocks[x.block] + blockSize
    && (x.block == cur ==> x.addr + x.size <= ptr)
  }

  /** The arena's invariant over its field values: blocks are non-null and
      never overlap; a moved-from arena holds nothing; otherwise the bump
      pointer runs inside the current block; every live allocation lies
      inside its block; live allocations never overlap; and the used count
      is the sum of their sizes. */
  ghost predicate Consistent(blockSize: int, usedBytes: int, blocks: seq<int>, cur: nat,
                             ptr: int, end: int, live: seq<Allocation>)
  {
    && blockSize >= 1
    && usedBytes == SizeSum(live)
    && (forall k :: 0 <= k < |blocks| ==> blocks[k] > 0)
    && (forall k, l :: 0 <= k < l < |blocks| ==> BlocksApart(blocks, blockSize, k, l))
    && (if blocks == [] then ptr == 0 && end == 0 && live == []
        else cur < |blocks| && blocks[cur] <= ptr <= end && end == blocks[cur] + blockSize)
    && (forall i :: 0 <= i < |live| ==> Inside(live[i], blocks, blockSize, cur, ptr))
    && (forall i, j :: 0 <= i < j < |live| ==> Separate(live, i, j))
  }

  /** Blocks k and l share no byte. */
  ghost predicate BlocksApart(blocks: seq<int>, blockSize: int, k: int, l: int) {
    0 <= k < |blocks| && 0 <= l < |blocks| && Apart(blocks[k], blockSize, blocks[l], blockSize)
  }

  /** Live allocations i and j share no byte. */
  ghost predicate Separate(live: seq<Allocation>, i: int, j: int) {
    0 <= i < |live| && 0 <= j < |live| && Apart(live[i].addr, live[i].size, live[j].addr, live[j].size)
  }

  /** A block from the heap shares no byte with the blocks already held. */
  ghost predicate IsFreshBlock(base: int, blocks: seq<int>, blockSize: int) {
    base > 0 && forall k :: 0 <= k < |blocks| ==> Apart(blocks[k], blockSize, base, blockSize)
  }

  /** Appending a fresh block and bumping from its start keeps the invariant. */
  lemma NewBlockKeepsConsistent(blockSize: int, usedBytes: int, blocks: seq<int>, cur: nat,
                                ptr: int, end: int, live: seq<Allocation>, base: int)
    requires Consistent(blockSize, usedBytes, blocks, cur, ptr, end, live)
    requires IsFreshBlock(base, blocks, blockSize)
    ensures Consistent(blockSize, usedBytes, blocks + [base], |blocks|, base, base + blockSize, live)
  {
    var blocks' := blocks + [base];
    forall k, l | 0 <= k < l < |blocks'|
      ensures BlocksApart(blocks', blockSize, k, l)
    {
      if l < |blocks| {
        assert BlocksApart(blocks, blockSize, k, l);
      }
    }
    forall i | 0 <= i < |live|
      ensures Inside(live[i], blocks', blockSize, |blocks|, base)
    {
      assert Inside(live[i], blocks, blockSize, cur, ptr);
    }
  }

  /** Handing out [r, r + size) between the bump pointer and the end of the
      current block keeps the invariant: the new range lies above every
      live allocation of the current block and in another block than the
      rest. */
  lemma {:induction false} BumpKeepsConsistent(blockSize: int, usedBytes: int, blocks: seq<int>, cur: nat,
                                               ptr: int, end: int, live: seq<Allocation>, r: int, size: int)
    requires Consistent(blockSize, usedBytes, blocks, cur, ptr, end, live)
    requires blocks != [] && size >= 0 && ptr <= r && r + size <= end
    ensures Consistent(blockSize, usedBytes + size, blocks, cur, r + size, end,
                       live + [Allocation(r, size, cur)])
    ensures cur < |blocks| && blocks[cur] <= r && r + size <= blocks[cur] + blockSize
  {
    var made := Allocation(r, size, cur);
    var live' := live + [made];
    assert live'[..|live'| - 1] == live;
    forall i | 0 <= i < |live|
      ensures Apart(live[i].addr, live[i].size, r, size)
    {
      var x := live[i];
      assert Inside(x, blocks, blockSize, cur, ptr);
      if x.block < cur {
        assert BlocksApart(blocks, blockSize, x.block, cur);
      } else if x.block > cur {
        assert BlocksApart(blocks, blockSize, cur, x.block);
      }
    }
    forall i | 0 <= i < |live'|
      ensures Inside(live'[i], blocks, blockSize, cur, r + size)
    {
      if i < |live| {
        assert Inside(live[i], blocks, blockSize, cur, ptr);
      }
    }
    forall i, j | 0 <= i < j < |live'|
      ensures Separate(live', i, j)
    {
      if j < |live| {
        assert Separate(live, i, j);
      }
    }
  }

  class Arena {
    var blockSize: int
    var ptr: int
    var end: int
    var usedBytes: int
    var blocks: seq<int>
    /** Index in `blocks` of the block the bump pointer runs in. */
    ghost var cur: nat
    /** The allocations handed out since the last reset. */
    ghost var live: seq<Allocation>
    /** The blocks handed back with delete[], in order. */
    ghost var freed: seq<int>

    ghost predicate Valid()
      reads this
    {
      Consistent(blockSize, usedBytes, blocks, cur, ptr, end, live)
    }

    ghost predicate FreshBlock(base: int)
      reads this
    {
      IsFreshBlock(base, blocks, blockSize)
    }

    /** The bytes reserved so far: one block size per block held. */
    function Capacity(): (c: int)
      reads this
      requires Valid()
      ensures c >= 0
      ensures c == 0 <==> blocks == []
    {
      |blocks| * blockSize
    }

    /** The bytes handed out since the last reset, padding not counted. */
    function Used(): (u: int)
      reads this
      requires Valid()
      ensures u == SizeSum(live)
    {
      usedBytes
    }

    /** Whether the first std::align on the current block yields a non-null
        address. */
    predicate FitsCurrent(size: int, alignment: int)
      reads this
      requires Valid() && size >= 0 && alignment >= 1
    {
      var r := Align(alignment, size, ptr, end - ptr);
      r.Some? && r.value.ptr != 0
    }

    /** A new arena with block size max(requested, 1) and one block, whose
        address `base` the heap chooses. */
    constructor (requested: int, base: int)
      requires 0 <= requested <= SIZE_MAX && base > 0
      ensures Valid()
      ensures blockSize == (if requested < 1 then 1 else requested)
      ensures blocks == [base] && ptr == base && end == base + blockSize
      ensures usedBytes == 0 && live == [] && freed == []
      ensures Capacity() == blockSize
    {
      blockSize := if requested < 1 then 1 else requested;
      ptr := 0;
      end := 0;
      usedBytes := 0;
      blocks := [];
      cur := 0;
      live := [];
      freed := [];
      new;
      AllocateBlock(base);
    }

    /** A default-constructed arena: the default block size and one block
        at `base`. */
    constructor Default(base: int)
      requires base > 0
      ensures Valid()
      ensures blockSize == DEFAULT_BLOCK_SIZE
      ensures blocks == [base] && ptr == base && end == base + DEFAULT_BLOCK_SIZE
      ensures usedBytes == 0 && live == [] && freed == []
    {
      blockSize := DEFAULT_BLOCK_SIZE;
      ptr := 0;
      end := 0;
      usedBytes := 0;
      blocks := [];
      cur := 0;
      live := [];
      freed := [];
      new;
      AllocateBlock(base);
    }

    /** Take a fresh block from the heap and bump from its start. */
    method AllocateBlock(base: int)
      requires Valid() && FreshBlock(base)
      modifies this
      ensures Valid()
      ensures blocks == old(blocks) + [base] && cur == |old(blocks)|
      ensures ptr == base && end == base + blockSize
      ensures blockSize == old(blockSize) && usedBytes == old(usedBytes)
      ensures live == old(live) && freed == old(freed)
    {
      NewBlockKeepsConsistent(blockSize, usedBytes, blocks, cur, ptr, end, live, base);
      blocks := blocks + [base];
      cur := |blocks| - 1;
      ptr := base;
      end := base + blockSize;
    }

    /** Hand out `size` bytes aligned to `alignment` (a power of two): from
        the current block when they fit there, else from a fresh block at
        `base` that must hold them. The result is never null, lies inside a
        block and overlaps no other live allocation. */
    method Allocate(size: int, alignment: int, base: int) returns (r: int)
      requires Valid()
      requires 0 <= size <= SIZE_MAX && 1 <= alignment <= SIZE_MAX
      requires IsPowerOfTwo(alignment as bv64)
      requires FreshBlock(base)
      requires !FitsCurrent(size, alignment) ==> Align(alignment, size, base, blockSize).Some?
      modifies this
      ensures Valid()
      ensures r > 0 && r % alignment == 0
      ensures blockSize == old(blockSize) && freed == old(freed)
      ensures usedBytes == old(usedBytes) + size
      ensures live == old(live) + [Allocation(r, size, cur)]
      ensures ptr == r + size && blocks[cur] <= r && r + size <= blocks[cur] + blockSize
      ensures old(FitsCurrent(size, alignment)) ==>
        blocks == old(blocks) && cur == old(cur) && end == old(end)
        && r == Align(alignment, size, old(ptr), old(end) - old(ptr)).value.ptr
      ensures !old(FitsCurrent(size, alignment)) ==>
        blocks == old(blocks) + [base] && cur == |old(blocks)| && end == base + blockSize
        && r == Align(alignment, size, base, blockSize).value.ptr
      ensures Capacity() == old(Capacity()) + (if old(FitsCurrent(size, alignment)) then 0 else blockSize)
    {
      ghost var n := |blocks|;
      var a := Align(alignment, size, ptr, end - ptr);
      if a.Some? && a.value.ptr != 0 {
        r := a.value.ptr;
        Bump(r, size);
      } else {
        AllocateBlock(base);
        MulSucc(n, blockSize);
        var b := Align(alignment, size, ptr, blockSize);
        r := b.value.ptr;
        Bump(r, size);
      }
    }

    /** `allocate` with the alignment left to its default, that of
        std::max_align_t. */
    method AllocateDefault(size: int, base: int) returns (r: int)
      requires Valid()
      requires 0 <= size <= SIZE_MAX
      requires FreshBlock(base)
      requires !FitsCurrent(size, DEFAULT_ALIGNMENT) ==> Align(DEFAULT_ALIGNMENT, size, base, blockSize).Some?
      modifies this
      ensures Valid()
      ensures r > 0 && r % DEFAULT_ALIGNMENT == 0
      ensures blockSize == old(blockSize) && freed == old(freed)
      ensures usedBytes == old(usedBytes) + size
      ensures live == old(live) + [Allocation(r, size, cur)]
      ensures ptr == r + size && blocks[cur] <= r && r + size <= blocks[cur] + blockSize
    {
      DefaultAlignmentIsPowerOfTwo();
      r := Allocate(size, DEFAULT_ALIGNMENT, base);
    }

    /** Record [r, r + size), which lies between the bump pointer and the
        end of the current block, and move the bump pointer past it. */
    method Bump(r: int, size: int)
      requires Valid() && blocks != [] && size >= 0 && ptr <= r && r + size <= end
      modifies this
      ensures Valid()
      ensures blocks == old(blocks) && cur == old(cur) && end == old(end)
      ensures blockSize == old(blockSize) && freed == old(freed)
      ensures usedBytes == old(usedBytes) + size
      ensures live == old(live) + [Allocation(r, size, cur)]
      ensures ptr == r + size && blocks[cur] <= r && r + size <= blocks[cur] + blockSize
    {
      BumpKeepsConsistent(blockSize, usedBytes, blocks, cur, ptr, end, live, r, size);
      ptr := r + size;
      usedBytes := usedBytes + size;
      live := live + [Allocation(r, size, cur)];
    }

    /** Forget every allocation and bump again from the start of the first
        block; the blocks stay reserved. A moved-from arena, which holds no
        block, is left as it is. */
    method Reset()
      requires Valid()
      modifies this
      ensures Valid()
      ensures blocks == old(blocks) && blockSize == old(blockSize) && freed == old(freed)
      ensures old(blocks) != [] ==>
        usedBytes == 0 && live == [] && ptr == blocks[0] && end == blocks[0] + blockSize
      ensures old(blocks) == [] ==>
        usedBytes == old(usedBytes) && ptr == old(ptr) && end == old(end) && live == old(live)
    {
      if blocks != [] {
        ptr := blocks[0];
        end := ptr + blockSize;
        usedBytes := 0;
        cur := 0;
        live := [];
      }
    }

    /** The destructor: every block goes back to the heap with delete[],
        in order, and the pointers become null. */
    method Destroy()
      modifies this
      ensures freed == old(freed) + old(blocks)
      ensures blocks == [] && ptr == 0 && end == 0
      ensures blockSize == old(blockSize) && usedBytes == old(usedBytes)
    {
      freed := freed + blocks;
      ptr := 0;
      end := 0;
      blocks := [];
    }

    /** The move constructor: the new arena takes the block size, pointers,
        count and blocks, and `other` keeps its block size but holds
        nothing. */
    constructor Moved(other: Arena)
      requires other.Valid()
      modifies other
      ensures Valid() && other.Valid()
      ensures blockSize == old(other.blockSize) && ptr == old(other.ptr) && end == old(other.end)
      ensures usedBytes == old(other.usedBytes) && blocks == old(other.blocks)
      ensures live == old(other.live) && freed == []
      ensures other.blocks == [] && other.ptr == 0 && other.end == 0 && other.usedBytes == 0
      ensures other.blockSize == old(other.blockSize) && other.freed == old(other.freed)
    {
      blockSize := other.blockSize;
      ptr := other.ptr;
      end := other.end;
      usedBytes := other.usedBytes;
      blocks := other.blocks;
      cur := other.cur;
      live := other.live;
      freed := [];
      new;
      other.blocks := [];
      other.ptr := 0;
      other.end := 0;
      other.usedBytes := 0;
      other.live := [];
    }

    /** Move assignment: assigning an arena to itself changes nothing;
        otherwise this arena's own blocks go back to the heap and it takes
        over everything `other` held, which is left holding nothing. */
    method MoveAssign(other: Arena)
      requires Valid() && other.Valid()
      modifies this, other
      ensures Valid() && other.Valid()
      ensures other == this ==>
        blockSize == old(blockSize) && ptr == old(ptr) && end == old(end)
        && usedBytes == old(usedBytes) && blocks == old(blocks) && freed == old(freed)
        && cur == old(cur) && live == old(live)
      ensures other != this ==>
        && freed == old(freed) + old(blocks)
        && blockSize == old(other.blockSize) && ptr == old(other.ptr) && end == old(other.end)
        && usedBytes == old(other.usedBytes) && blocks == old(other.blocks) && live == old(other.live)
        && other.blocks == [] && other.ptr == 0 && other.end == 0 && other.usedBytes == 0
        && other.blockSize == old(other.blockSize) && other.freed == old(other.freed)
    {
      if other != this {
        freed := freed + blocks;
        blockSize := other.blockSize;
        ptr := other.ptr;
        end := other.end;
        usedBytes := other.usedBytes;
        blocks := other.blocks;
        cur := other.cur;
        live := other.live;
        other.blocks := [];
        other.ptr := 0;
        other.end := 0;
        other.usedBytes := 0;
        other.live := [];
      }
    }
  }
}
