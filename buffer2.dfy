/** The buffer engine of buffer2.c and buffer2.h: a `buffer_t` struct holding a logical
    size, a capacity (`alloc`, where 0 means "not owned"), a user tag and a pointer to
    the bytes, with its allocation, wrapping, destruction, resizing and typed access. */
module Buffer2 {
  import opened CInt
  import opened Bytes

  /** The `ptr` field: NULL, or a region of memory together with its bytes. */
  datatype Ptr = Null | Block(bytes: seq<byte>)

  /** The four fields of a `buffer_t`, taken together as one value. */
  datatype BufferState = BufferState(size: int32, alloc: int32, user: int32, ptr: Ptr) {

    /** A nonzero capacity means the buffer owns its memory and must free it. */
    predicate Owned() {
      alloc != 0
    }

    /** What every entry point establishes and resizing keeps: the capacity is never
        negative, and an owned buffer holds exactly `alloc` bytes, of which the first
        `size` are in use. A wrapped buffer (capacity 0) constrains nothing. */
    predicate Valid() {
      0 <= alloc &&
      (alloc > 0 ==> ptr.Block? && |ptr.bytes| == alloc as int && 0 <= size <= alloc)
    }

    /** The `size` bytes at `ptr` exist. Typed access dereferences them; for a wrapped
        region, making sure that they exist is the caller's responsibility. */
    predicate Accessible() {
      ptr.Block? && 0 <= size && size as int <= |ptr.bytes|
    }
  }

  /** A C element type as `buffer_get`/`buffer_set` see it: its width in bytes and its
      signedness (LP64: char 1, short 2, int 4, long and long long 8). */
  type Width = w: nat | w == 1 || w == 2 || w == 4 || w == 8 witness 1

  datatype ElemType = ElemType(width: Width, signed: bool)

  /** `buffer_getLength(buf, T)`: the size divided by `sizeof(T)`. The `int` size is
      converted to `size_t` (64 bits) before the division, so a negative size gives a
      huge count. No trailing partial element is counted. */
  function ElemCount(size: int32, w: nat): (n: nat)
    requires w > 0
    ensures 0 <= size ==> n * w <= size as int < (n + 1) * w
  {
    var u := (size as int) % 0x1_0000_0000_0000_0000;
    var n := u / w;
    assert u == n * w + u % w;
    assert (n + 1) * w == n * w + w;
    n
  }

  /** Element idx of a view of n elements of w bytes lies inside the first n * w bytes. */
  lemma SlotInside(idx: nat, n: nat, w: nat)
    requires idx < n
    ensures idx * w + w <= n * w
  {
    var k: nat := n - idx - 1;
    assert n * w == k * w + idx * w + w;
  }

  /** Element k of the typed view of bs. */
  function Slot(bs: seq<byte>, k: nat, t: ElemType): int
    requires k * t.width + t.width <= |bs|
  {
    Load(bs, k * t.width, t.width, t.signed)
  }

  /** Writing one element of a view of n elements leaves the other elements of the view as
      they were. */
  lemma StoreKeepsOtherSlots(bs: seq<byte>, n: nat, idx: nat, v: int, t: ElemType)
    requires idx < n && n * t.width <= |bs|
    ensures idx * t.width + t.width <= |bs|
    ensures forall j :: 0 <= j < n && j != idx ==>
              j * t.width + t.width <= |bs| &&
              Slot(Store(bs, idx * t.width, t.width, v), j, t) == Slot(bs, j, t)
  {
    var w := t.width;
    SlotInside(idx, n, w);
    forall j | 0 <= j < n && j != idx
      ensures j * w + w <= |bs| && Slot(Store(bs, idx * w, w, v), j, t) == Slot(bs, j, t)
    {
      SlotInside(j, n, w);
      if j < idx {
        SlotInside(j, idx, w);
      } else {
        SlotInside(idx, j, w);
      }
      LoadStoreDisjoint(bs, idx * w, w, v, j * w, w, t.signed);
    }
  }

  /** Writing element idx of a view of n elements: reading it back gives the stored value
      converted to the element type, and every other element of the view is as it was. */
  lemma StoreSlot(bs: seq<byte>, n: nat, idx: nat, v: int, t: ElemType)
    requires idx < n && n * t.width <= |bs|
    ensures idx * t.width + t.width <= |bs|
    ensures Slot(Store(bs, idx * t.width, t.width, v), idx, t) == Converted(v, t.width, t.signed)
    ensures forall j :: 0 <= j < n && j != idx ==>
              j * t.width + t.width <= |bs| &&
              Slot(Store(bs, idx * t.width, t.width, v), j, t) == Slot(bs, j, t)
  {
    SlotInside(idx, n, t.width);
    LoadStore(bs, idx * t.width, t.width, v, t.signed);
    StoreKeepsOtherSlots(bs, n, idx, v, t);
  }

  /** The bytes of a buffer of `size` bytes after element idx of type t is assigned v. */
  function StoreElem(bs: seq<byte>, size: int32, idx: nat, v: int, t: ElemType): (r: seq<byte>)
    requires 0 <= size as int <= |bs| && idx < ElemCount(size, t.width)
    ensures |r| == |bs|
  {
    SlotInside(idx, ElemCount(size, t.width), t.width);
    Store(bs, idx * t.width, t.width, v)
  }

  class Buffer {
    var size: int32
    var alloc: int32
    var user: int32
    var ptr: Ptr

    /** `buffer_allocStruct()`: room for a `buffer_t`. C leaves the fields uninitialised;
        every entry point overwrites all four, so the values chosen here do not matter. */
    constructor ()
      ensures ptr == Null
    {
      size, alloc, user, ptr := 0, 0, 0, Null;
    }

    /** The fields of the struct as a value (`buffer_getSize`, `buffer_getAllocatedSize`,
        `buffer_getUser` and `buffer_getPointer` read its components). */
    function State(): BufferState
      reads this
    {
      BufferState(size, alloc, user, ptr)
    }

    ghost predicate Valid()
      reads this
    {
      State().Valid()
    }

    predicate Accessible()
      reads this
    {
      State().Accessible()
    }

    /** `buffer_get(buf, idx, T)`: the element at idx of the typed view. The macro checks
        no bounds, so the index must lie inside the view. */
    function Get(idx: int, t: ElemType): (v: int)
      reads this
      requires Accessible() && 0 <= idx < ElemCount(size, t.width) as int
      ensures if t.signed then InSigned(v, t.width) else InUnsigned(v, t.width)
    {
      SlotInside(idx, ElemCount(size, t.width), t.width);
      Slot(ptr.bytes, idx, t)
    }

    /** `buffer_set(buf, idx, val, T)`: the assignment converts val to T and writes the
        element's bytes, and nothing else. */
    method Set(idx: int, v: int, t: ElemType)
      requires Accessible() && 0 <= idx < ElemCount(size, t.width) as int
      modifies this
      ensures size == old(size) && alloc == old(alloc) && user == old(user)
      ensures ptr.Block? && |ptr.bytes| == |old(ptr.bytes)|
      ensures ptr.bytes == StoreElem(old(ptr.bytes), size, idx, v, t)
      ensures forall j :: 0 <= j < |ptr.bytes| && !(idx * t.width <= j < idx * t.width + t.width) ==>
                ptr.bytes[j] == old(ptr.bytes)[j]
      ensures Accessible() && Get(idx, t) == Converted(v, t.width, t.signed)
      ensures forall j :: 0 <= j < ElemCount(size, t.width) as int && j != idx ==> Get(j, t) == old(Get(j, t))
    {
      var w := t.width;
      ghost var n := ElemCount(size, w);
      SlotInside(idx, n, w);
      ghost var before := ptr.bytes;
      ptr := Block(Store(ptr.bytes, idx * w, w, v));
      StoreSlot(before, n, idx, v, t);
    }

    /** `buffer_setUser(buf, val)`: only the tag changes. */
    method SetUser(v: int32)
      modifies this
      ensures user == v
      ensures size == old(size) && alloc == old(alloc) && ptr == old(ptr)
    {
      user := v;
    }

    /** `buffer_enlarge(buf, amount)`: exactly `buffer_resize(buf, size + amount)`; a negative
        amount shrinks. The addition is on `int`, so it must not overflow. */
    method Enlarge(amount: int32, fail: bool) returns (r: int32)
      requires Valid()
      requires IsInt32(size as int + amount as int)
      modifies this
      ensures ResizeOutcome(old(State()), old(size) + amount, fail, State(), r)
    {
      r := Resize(this, size + amount, fail);
    }
  }

  // The C allocator. Whether a request fails is the parameter `fail`; the contents of
  // memory that malloc and realloc hand out are unspecified.

  /** A negative `int` converts to a `size_t` of at least 2^63, which no allocator can
      provide: such a request always fails. */
  method Malloc(n: int, fail: bool) returns (p: Ptr)
    ensures p == Null <==> fail || n < 0
    ensures p.Block? ==> |p.bytes| == n
  {
    if fail || n < 0 {
      return Null;
    }
    assert |seq(n, _ => 0 as byte)| == n;
    var bytes: seq<byte> :| |bytes| == n;
    return Block(bytes);
  }

  /** calloc(length, elem): zero-filled. The request is for length * elem bytes computed
      in `size_t`; with a negative factor and a nonzero other factor it is at least 2^63
      bytes or overflows, and fails. */
  method Calloc(length: int, elem: int, fail: bool) returns (p: Ptr)
    ensures p == Null <==> fail || (length < 0 && elem != 0) || (elem < 0 && length != 0)
    ensures p.Block? ==> length * elem >= 0 && p.bytes == seq(length * elem, _ => 0 as byte)
  {
    if fail || (length < 0 && elem != 0) || (elem < 0 && length != 0) {
      return Null;
    }
    assert length * elem >= 0 by {
      if length < 0 || elem < 0 {
        assert length * elem == 0;
      }
    }
    return Block(seq(length * elem, _ => 0 as byte));
  }

  /** realloc of an owned block to n > 0 bytes: the old bytes are kept as far as they fit. */
  method Realloc(block: seq<byte>, n: nat, fail: bool) returns (p: Ptr)
    ensures p == Null <==> fail
    ensures p.Block? ==> |p.bytes| == n
    ensures p.Block? && |block| <= n ==> block <= p.bytes
    ensures p.Block? && n < |block| ==> p.bytes == block[..n]
  {
    if fail {
      return Null;
    }
    if n < |block| {
      return Block(block[..n]);
    }
    assert |seq(n - |block|, _ => 0 as byte)| == n - |block|;
    var tail: seq<byte> :| |tail| == n - |block|;
    return Block(block + tail);
  }

  /** `buffer_allocData(buf, size, destroy)`: initialise a struct with a fresh, owned
      allocation of size bytes. On failure the struct is freed if destroy is set, and
      otherwise left empty (size and capacity 0, NULL pointer). */
  method AllocData(buf: Buffer?, size: int32, destroy: bool, fail: bool) returns (r: Buffer?, freesStruct: bool)
    modifies buf
    ensures buf == null ==> r == null && !freesStruct
    ensures buf != null && !fail && size >= 0 ==>
              r == buf && !freesStruct &&
              buf.size == size && buf.alloc == size && buf.user == 0 &&
              buf.ptr.Block? && |buf.ptr.bytes| == size as int && buf.Valid()
    ensures buf != null && (fail || size < 0) ==>
              r == null && freesStruct == destroy && buf.user == 0 && buf.ptr == Null &&
              (!destroy ==> buf.size == 0 && buf.alloc == 0 && buf.Valid())
  {
    if buf == null {
      return null, false;
    }
    buf.size := size;
    buf.alloc := size;
    buf.user := 0;
    buf.ptr := Malloc(size as int, fail);
    if buf.ptr == Null {
      if destroy {
        return null, true;
      }
      buf.size := 0;
      buf.alloc := 0;
      return null, false;
    }
    return buf, false;
  }

  /** `buffer_callocData(buf, length, elem, destroy)`: as allocData, for length * elem
      bytes that are all zero. The product is computed in `int` and must not overflow. */
  method CallocData(buf: Buffer?, length: int32, elem: int32, destroy: bool, fail: bool) returns (r: Buffer?, freesStruct: bool)
    requires buf != null ==> IsInt32(length as int * elem as int)
    modifies buf
    ensures buf == null ==> r == null && !freesStruct
    ensures buf != null && !(fail || (length < 0 && elem != 0) || (elem < 0 && length != 0)) ==>
              r == buf && !freesStruct &&
              buf.size as int == length as int * elem as int && buf.alloc == buf.size && buf.user == 0 &&
              buf.ptr.Block? && |buf.ptr.bytes| == buf.size as int &&
              (forall i :: 0 <= i < |buf.ptr.bytes| ==> buf.ptr.bytes[i] == 0) && buf.Valid()
    ensures buf != null && (fail || (length < 0 && elem != 0) || (elem < 0 && length != 0)) ==>
              r == null && freesStruct == destroy && buf.user == 0 && buf.ptr == Null &&
              (!destroy ==> buf.size == 0 && buf.alloc == 0 && buf.Valid())
  {
    if buf == null {
      return null, false;
    }
    buf.size := length * elem;
    buf.alloc := buf.size;
    buf.user := 0;
    buf.ptr := Calloc(length as int, elem as int, fail);
    if buf.ptr == Null {
      if destroy {
        return null, true;
      }
      buf.size := 0;
      buf.alloc := 0;
      return null, false;
    }
    return buf, false;
  }

  /** `buffer_wrapData(buf, ptr, size)`: adopt a foreign region without owning it
      (capacity 0). Fails only on a NULL struct. */
  method WrapData(buf: Buffer?, p: Ptr, size: int32) returns (r: Buffer?)
    modifies buf
    ensures r == buf
    ensures buf != null ==>
              buf.size == size && buf.alloc == 0 && buf.user == 0 && buf.ptr == p &&
              !buf.State().Owned() && buf.Valid()
  {
    if buf == null {
      return null;
    }
    buf.size := size;
    buf.alloc := 0;
    buf.user := 0;
    buf.ptr := p;
    return buf;
  }

  /** `buffer_destroyData(buf)`: whether the data is freed. It is exactly when the buffer
      owns it, so a wrapped region is never freed, and what is freed is a real block. */
  method DestroyData(buf: Buffer?) returns (freesData: bool)
    requires buf != null ==> buf.Valid()
    ensures freesData <==> buf != null && buf.State().Owned()
    ensures freesData ==> buf.ptr.Block?
  {
    if buf == null {
      return false;
    }
    return buf.alloc != 0;
  }

  /** The outcome of `buffer_resize` on a struct whose fields were s, asked for n bytes,
      with `fail` deciding whether the allocator fails; s' is the new state, r the result.
      The policy, in order: reject n <= 0; if the capacity covers n only the size changes;
      an owned buffer grows by realloc, keeping its bytes; a buffer of capacity 0 gets a
      fresh malloc and loses its old contents. */
  ghost predicate ResizeOutcome(s: BufferState, n: int32, fail: bool, s': BufferState, r: int32) {
    if n <= 0 then
      r == 0 && s' == s
    else if s.alloc >= n then
      r == s.alloc && s' == s.(size := n)
    else if s.alloc != 0 then
      if fail then r == 0 && s' == s
      else
        r == n && s'.size == n && s'.alloc == n && s'.user == s.user &&
        s.ptr.Block? && s'.ptr.Block? && |s'.ptr.bytes| == n as int && s.ptr.bytes <= s'.ptr.bytes
    else
      if fail then r == 0 && s' == s.(ptr := Null)
      else
        r == n && s'.size == n && s'.alloc == n && s'.user == s.user &&
        s'.ptr.Block? && |s'.ptr.bytes| == n as int
  }

  /** The number `buffer_resize` returns on a struct whose fields are s: the capacity when
      it already covers n, n after a successful allocation, 0 otherwise. */
  function ResizeReturn(s: BufferState, n: int32, fail: bool): (r: int32)
    ensures r != 0 <==> n > 0 && (s.alloc >= n || !fail)
  {
    if n <= 0 then 0
    else if s.alloc >= n then s.alloc
    else if fail then 0
    else n
  }

  /** The outcome determines the returned number, which is ResizeReturn's. */
  lemma ResizeReturnDetermined(s: BufferState, n: int32, fail: bool, s': BufferState, r: int32)
    requires s.Valid() && ResizeOutcome(s, n, fail, s', r)
    ensures r == ResizeReturn(s, n, fail)
  {
  }

  /** `buffer_resize(buf, size)`: nonzero on success, 0 on rejection or failure. The struct
      is dereferenced only for a positive size. */
  method Resize(buf: Buffer?, n: int32, fail: bool) returns (r: int32)
    requires n > 0 ==> buf != null && buf.Valid()
    modifies buf
    ensures buf == null ==> r == 0
    ensures buf != null ==> ResizeOutcome(old(buf.State()), n, fail, buf.State(), r)
  {
    if n <= 0 {
      return 0;
    }
    if buf.alloc >= n {
      buf.size := n;
      return buf.alloc;
    } else if buf.alloc != 0 {
      var p := Realloc(buf.ptr.bytes, n as nat, fail);
      if p == Null {
        return 0;
      }
      buf.ptr := p;
      buf.size := n;
      buf.alloc := n;
      return n;
    } else {
      buf.ptr := Malloc(n as int, fail);
      if buf.ptr == Null {
        return 0;
      }
      buf.size := n;
      buf.alloc := n;
      return n;
    }
  }

  /** Resizing keeps the struct invariant. */
  lemma ResizeKeepsValid(s: BufferState, n: int32, fail: bool, s': BufferState, r: int32)
    requires s.Valid() && ResizeOutcome(s, n, fail, s', r)
    ensures s'.Valid()
  {
  }

  /** Resizing succeeds exactly when the size is positive and either the capacity already
      covers it or the allocator does not fail; on success the size is n and the
      capacity covers it, and the user tag never changes. */
  lemma ResizeSucceeds(s: BufferState, n: int32, fail: bool, s': BufferState, r: int32)
    requires s.Valid() && ResizeOutcome(s, n, fail, s', r)
    ensures r != 0 <==> n > 0 && (s.alloc >= n || !fail)
    ensures r != 0 ==> s'.size == n && s'.alloc >= n && s'.Accessible()
    ensures s'.user == s.user
  {
  }

  /** An owned buffer keeps the bytes it had in use, up to the new size, whatever the
      outcome. */
  lemma ResizeKeepsPrefix(s: BufferState, n: int32, fail: bool, s': BufferState, r: int32, j: int)
    requires s.Valid() && s.Owned() && ResizeOutcome(s, n, fail, s', r)
    requires 0 <= j < s.size as int && j < s'.size as int
    ensures s'.ptr.Block? && j < |s'.ptr.bytes| && s'.ptr.bytes[j] == s.ptr.bytes[j]
  {
    if n > 0 && s.alloc < n && !fail {
      assert s.ptr.bytes <= s'.ptr.bytes;
    }
  }

  /** Apart from a failing first allocation, which sets the pointer to NULL, a resize that
      returns 0 changes nothing. */
  lemma ResizeFailureChangesNothing(s: BufferState, n: int32, fail: bool, s': BufferState, r: int32)
    requires s.Valid() && ResizeOutcome(s, n, fail, s', r) && r == 0
    ensures n <= 0 || s.Owned() ==> s' == s
    ensures n > 0 && !s.Owned() ==> s' == s.(ptr := Null)
  {
  }

  /** Resizing an owned buffer to its own size changes nothing and succeeds. */
  lemma ResizeToSameSize(s: BufferState, fail: bool, s': BufferState, r: int32)
    requires s.Valid() && s.Owned() && s.size > 0 && ResizeOutcome(s, s.size, fail, s', r)
    ensures s' == s && r != 0
  {
  }

  /** The first successful resize of a wrapped buffer makes it an owned one: it then holds
      a fresh block that destroyData frees. */
  lemma ResizeTakesOwnership(s: BufferState, n: int32, fail: bool, s': BufferState, r: int32)
    requires s.Valid() && !s.Owned() && ResizeOutcome(s, n, fail, s', r) && r != 0
    ensures s'.Owned() && s'.alloc == n
  {
  }

  /** `buffer_alloc(size)`: a new struct, then allocData with destroy set, so a failed
      allocation frees the struct and yields NULL. The struct allocation itself may fail. */
  method Alloc(size: int32, structFail: bool, fail: bool) returns (r: Buffer?, freesStruct: bool)
    ensures r == null <==> structFail || fail || size < 0
    ensures freesStruct <==> !structFail && (fail || size < 0)
    ensures r != null ==>
              fresh(r) && r.size == size && r.alloc == size && r.user == 0 &&
              r.ptr.Block? && |r.ptr.bytes| == size as int && r.Valid()
  {
    var b: Buffer? := null;
    if !structFail {
      b := new Buffer();
    }
    r, freesStruct := AllocData(b, size, true, fail);
  }

  /** `buffer_calloc(length, elem)`: as Alloc, zero-filled, for length * elem bytes. */
  method CallocNew(length: int32, elem: int32, structFail: bool, fail: bool) returns (r: Buffer?, freesStruct: bool)
    requires !structFail ==> IsInt32(length as int * elem as int)
    ensures r == null <==> structFail || fail || (length < 0 && elem != 0) || (elem < 0 && length != 0)
    ensures freesStruct <==> r == null && !structFail
    ensures r != null ==>
              fresh(r) && r.size as int == length as int * elem as int && r.alloc == r.size && r.user == 0 &&
              r.ptr.Block? && |r.ptr.bytes| == r.size as int &&
              (forall i :: 0 <= i < |r.ptr.bytes| ==> r.ptr.bytes[i] == 0) && r.Valid()
  {
    var b: Buffer? := null;
    if !structFail {
      b := new Buffer();
    }
    r, freesStruct := CallocData(b, length, elem, true, fail);
  }

  /** `buffer_wrap(ptr, size)`: a new struct wrapping a foreign region. */
  method Wrap(p: Ptr, size: int32, structFail: bool) returns (r: Buffer?)
    ensures r == null <==> structFail
    ensures r != null ==> fresh(r) && r.size == size && r.alloc == 0 && r.user == 0 && r.ptr == p
  {
    var b: Buffer? := null;
    if !structFail {
      b := new Buffer();
    }
    r := WrapData(b, p, size);
  }

  /** `buffer_destroy(buf)`: destroyData, which frees the data only if owned, then free
      of the struct (a no-op on NULL). */
  method Destroy(buf: Buffer?) returns (freesData: bool, freesStruct: bool)
    requires buf != null ==> buf.Valid()
    ensures freesData <==> buf != null && buf.State().Owned()
    ensures freesData ==> buf.ptr.Block?
    ensures freesStruct <==> buf != null
  {
    freesData := DestroyData(buf);
    freesStruct := buf != null;
  }
}
