/** The single-owner smart pointer, for one object and for an array: the
    pointer it holds (0 stands for nullptr), the deleter it disposes of it
    with, and the heap's record of every disposal, kept as a ghost log so
    that "deleted exactly once" can be stated. */
module UniquePtrs {

  /** How a pointer is disposed of: `delete` for one object, `delete[]` for
      an array, or a caller-supplied deleter told apart by an identifier. */
  datatype Deleter = Delete | DeleteArray | Custom(id: int)

  /** One call of a deleter on a pointer. */
  datatype Disposal = Disposal(deleter: Deleter, ptr: int)

  /** The deleter a pointer gets when none is given. */
  function DefaultDeleter(isArray: bool): Deleter {
    if isArray then DeleteArray else Delete
  }

  /** The record of the disposals done so far, shared by every pointer. */
  class Heap {
    ghost var disposed: seq<Disposal>

    constructor ()
      ensures disposed == []
    {
      disposed := [];
    }
  }

  /** The disposal a holder of `p` performs when it gives `p` up: none for
      nullptr, one call of its deleter otherwise. */
  function DisposalOf(d: Deleter, p: int): (r: seq<Disposal>)
    ensures |r| <= 1
    ensures r == [] <==> p == 0
    ensures r != [] ==> r[0].ptr == p && r[0].deleter == d
  {
    if p != 0 then [Disposal(d, p)] else []
  }

  class UniquePtr {
    /** The held pointer; 0 is nullptr. */
    var ptr: int
    var deleter: Deleter
    /** Whether this is the array form, whose default deleter is delete[]. */
    const isArray: bool
    const heap: Heap

    /** The default and the nullptr constructors: nothing held, default
        deleter. */
    constructor Null(heap: Heap, isArray: bool)
      ensures this.heap == heap && this.isArray == isArray
      ensures ptr == 0 && deleter == DefaultDeleter(isArray)
      ensures !AsBool()
    {
      this.heap := heap;
      this.isArray := isArray;
      ptr := 0;
      deleter := DefaultDeleter(isArray);
    }

    /** Take ownership of `p` with the given deleter, or the default one. */
    constructor Own(heap: Heap, isArray: bool, p: int, d: Deleter)
      ensures this.heap == heap && this.isArray == isArray
      ensures ptr == p && deleter == d
      ensures AsBool() <==> p != 0
    {
      this.heap := heap;
      this.isArray := isArray;
      ptr := p;
      deleter := d;
    }

    /** The move constructor, plain or converting: the pointer is released
        from `other` and held here, and the deleter comes along. No
        deleter runs. */
    constructor Moved(other: UniquePtr)
      modifies other
      ensures heap == other.heap && isArray == other.isArray
      ensures ptr == old(other.ptr) && deleter == old(other.deleter)
      ensures other.ptr == 0 && other.deleter == old(other.deleter)
      ensures other.heap.disposed == old(other.heap.disposed)
    {
      heap := other.heap;
      isArray := other.isArray;
      ptr := other.ptr;
      deleter := other.deleter;
      new;
      other.ptr := 0;
    }

    /** `get`: the held pointer. */
    function Get(): int
      reads this
    {
      ptr
    }

    /** `operator bool`: whether a pointer is held. */
    predicate AsBool()
      reads this
    {
      ptr != 0
    }

    /** Give up ownership without disposing: the held pointer comes back
        and nullptr is left behind. */
    method Release() returns (p: int)
      modifies this
      ensures p == old(ptr) && ptr == 0 && deleter == old(deleter)
      ensures !AsBool()
    {
      p := ptr;
      ptr := 0;
    }

    /** Hold `p` and then dispose of the previous pointer, if there was
        one, with the current deleter. */
    method Reset(p: int)
      modifies this, heap
      ensures ptr == p && deleter == old(deleter)
      ensures heap.disposed == old(heap.disposed) + DisposalOf(deleter, old(ptr))
    {
      var previous := ptr;
      ptr := p;
      if previous != 0 {
        heap.disposed := heap.disposed + [Disposal(deleter, previous)];
      }
    }

    /** `= nullptr`: dispose of the held pointer, if any, and hold nothing. */
    method AssignNull()
      modifies this, heap
      ensures ptr == 0 && deleter == old(deleter)
      ensures heap.disposed == old(heap.disposed) + DisposalOf(deleter, old(ptr))
    {
      Reset(0);
    }

    /** Exchange both the pointers and the deleters. */
    method Swap(other: UniquePtr)
      modifies this, other
      ensures ptr == old(other.ptr) && other.ptr == old(ptr)
      ensures deleter == old(other.deleter) && other.deleter == old(deleter)
    {
      ptr, other.ptr := other.ptr, ptr;
      deleter, other.deleter := other.deleter, deleter;
    }

    /** Move assignment: assigning a pointer to itself changes nothing;
        otherwise the previous pointer is disposed of with the previous
        deleter, and this takes over `other`'s pointer and deleter,
        leaving `other` null with its deleter kept, as the move
        constructor does. */
    method MoveAssign(other: UniquePtr)
      requires other.heap == heap
      modifies this, other, heap
      ensures other == this ==> ptr == old(ptr) && deleter == old(deleter) && heap.disposed == old(heap.disposed)
      ensures other != this ==>
        && ptr == old(other.ptr) && deleter == old(other.deleter) && other.ptr == 0
        && other.deleter == old(other.deleter)
        && heap.disposed == old(heap.disposed) + DisposalOf(old(deleter), old(ptr))
    {
      if other != this {
        MoveAssignFrom(other);
      }
    }

    /** Converting move assignment, from a pointer of another element or
        deleter type (hence never this one): there is no self check. */
    method MoveAssignFrom(other: UniquePtr)
      requires other != this && other.heap == heap
      modifies this, other, heap
      ensures ptr == old(other.ptr) && deleter == old(other.deleter) && other.ptr == 0
      ensures other.deleter == old(other.deleter)
      ensures heap.disposed == old(heap.disposed) + DisposalOf(old(deleter), old(ptr))
    {
      var p := other.Release();
      Reset(p);
      deleter := other.deleter;
    }

    /** The destructor: the deleter runs once on the held pointer when
        there is one, and never on nullptr. */
    method Destroy()
      modifies heap
      ensures heap.disposed == old(heap.disposed) + DisposalOf(deleter, ptr)
    {
      if ptr != 0 {
        heap.disposed := heap.disposed + [Disposal(deleter, ptr)];
      }
    }
  }

  /** `==` and `!=` between two pointers compare what they hold. */
  predicate Equal(x: UniquePtr, y: UniquePtr)
    reads x, y
    ensures x == y ==> Equal(x, y)
    ensures Equal(x, y) ==> (EqualsNull(x) <==> EqualsNull(y))
  {
    x.Get() == y.Get()
  }

  predicate NotEqual(x: UniquePtr, y: UniquePtr)
    reads x, y
    ensures NotEqual(x, y) ==> x != y && !(EqualsNull(x) && EqualsNull(y))
  {
    !Equal(x, y)
  }

  /** `x == nullptr` and `nullptr == x`. */
  predicate EqualsNull(x: UniquePtr)
    reads x
    ensures EqualsNull(x) <==> x.Get() == 0
  {
    !x.AsBool()
  }

  /** `x != nullptr` and `nullptr != x`. */
  predicate NotNull(x: UniquePtr)
    reads x
  {
    x.AsBool()
  }

  /** Comparing with nullptr agrees with comparing against a pointer that
      holds nothing, and != is the negation of ==. */
  lemma NullComparisonsAgree(x: UniquePtr, n: UniquePtr)
    requires n.ptr == 0
    ensures EqualsNull(x) <==> Equal(x, n)
    ensures NotNull(x) <==> NotEqual(x, n)
    ensures NotNull(x) <==> !EqualsNull(x)
  {
  }

  /** Ownership passed along by a move is disposed of exactly once: a
      pointer handed to `a`, moved into a new pointer `b`, and then both
      destroyed, is deleted once, by `a`'s deleter. */
  method MoveThenDestroyBoth(heap: Heap, p: int, d: Deleter) returns (a: UniquePtr, b: UniquePtr)
    requires p != 0
    modifies heap
    ensures heap.disposed == old(heap.disposed) + [Disposal(d, p)]
  {
    a := new UniquePtr.Own(heap, false, p, d);
    b := new UniquePtr.Moved(a);
    a.Destroy();
    b.Destroy();
  }

  /** Swapping and destroying both disposes of each pointer once, with the
      deleter that came with it. */
  method SwapThenDestroyBoth(heap: Heap, p: int, q: int) returns (a: UniquePtr, b: UniquePtr)
    requires p != 0 && q != 0
    modifies heap
    ensures heap.disposed == old(heap.disposed) + [Disposal(Custom(2), q), Disposal(Custom(1), p)]
  {
    a := new UniquePtr.Own(heap, false, p, Custom(1));
    b := new UniquePtr.Own(heap, false, q, Custom(2));
    a.Swap(b);
    a.Destroy();
    b.Destroy();
  }

  /** Releasing before destruction hands the duty of disposal to the
      caller: nothing is deleted. */
  method ReleaseThenDestroy(heap: Heap, p: int) returns (a: UniquePtr, q: int)
    modifies heap
    ensures q == p
    ensures heap.disposed == old(heap.disposed)
  {
    a := new UniquePtr.Own(heap, true, p, DeleteArray);
    q := a.Release();
    a.Destroy();
  }
}
