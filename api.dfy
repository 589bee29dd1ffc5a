/** The logic of the Lua binding's entry points (wrapper.c) with the Lua stack taken away:
    each argument arrives as a value, each raised error (`luaL_argerror` on an argument,
    `luaL_error`) is a result, and what is pushed back is the returned value. The buffer
    is the `Buffer2.Buffer` held by the userdata. */
module Api {
  import opened CInt
  import opened Arith
  import opened Results
  import opened Bytes
  import opened Buffer2
  import opened TypeCodes

  /** What an entry point raises: an error on argument `arg` (`luaL_argerror`) or a plain
      runtime error (`luaL_error`). */
  datatype Error = ArgError(arg: nat) | RuntimeError

  /** A type argument as `typeFromArg` sees it: an integer, a string, nothing (none or nil),
      or anything else (a table, a float without an integer value, ...). */
  datatype TypeArg = IntegerArg(n: int64) | StringArg(s: string) | NoArg | OtherArg

  /** A value argument as `luaL_checkinteger` and `luaL_checknumber` see it: a Lua integer,
      a Lua float (with the integer it equals, if any), or something that is no number. */
  datatype Number = Int(i: int64) | Float(integral: Option<int64>) | NotNumber

  /** What `api_bufferGet` pushes: an integer, or the bit pattern of a float or double
      element (floating-point values themselves are not modelled). */
  datatype Value = Integer(i: int64) | FloatBits(bits: nat)

  /** The integer branch of `typeFromArg`: the Lua integer is converted to `int`, and kept
      if it is a valid code. */
  function TypeFromInteger(n: int64): (r: Option<int32>)
    ensures r.Some? ==> IsValidType(r.value) && (r.value as int - n as int) % 0x1_0000_0000 == 0
    ensures IsValidType(Narrow32(n as int)) ==> r.Some?
  {
    var t := Narrow32(n as int);
    if IsValidType(t) then Some(t) else None
  }

  /** `typeFromArg(L, buf, pos)`: the type named by argument pos, or the type stored in the
      buffer when the argument is absent and there is a buffer (`current`). Anything else
      raises an error on that argument. */
  function TypeFromArg(arg: TypeArg, current: Option<int32>, pos: nat): (r: Result<int32, Error>)
    requires current.Some? ==> 0 <= current.value < 32
    ensures r.Failure? ==> r.error == ArgError(pos)
    ensures r.Success? ==> 0 <= r.value < 32
    ensures r.Success? && !arg.NoArg? ==> IsValidType(r.value)
    ensures arg.NoArg? ==> (r.Success? <==> current.Some?) && (r.Success? ==> r.value == current.value)
    ensures arg.OtherArg? ==> r.Failure?
  {
    match arg
    case IntegerArg(n) =>
      (match TypeFromInteger(n) case Some(t) => Success(t) case None => Failure(ArgError(pos)))
    case StringArg(s) =>
      (match TypeFromName(CString(s)) case Some(t) => Success(t) case None => Failure(ArgError(pos)))
    case NoArg =>
      if current.Some? then Success(current.value) else Failure(ArgError(pos))
    case OtherArg =>
      Failure(ArgError(pos))
  }

  /** The type a buffer's tag holds, which an absent type argument stands for. */
  function CurrentType(b: Buffer): (r: Option<int32>)
    reads b
    ensures r.Some? && 0 <= r.value < 32
  {
    Some(TypeOfTag(b.user))
  }

  /** Every valid code given as an integer resolves to itself, and so does any integer
      that agrees with it in the low 32 bits. */
  lemma IntegerTypeRoundTrip(t: int32, k: int)
    requires IsValidType(t) && IsInt64(t as int + k * 0x1_0000_0000)
    ensures TypeFromInteger((t as int + k * 0x1_0000_0000) as int64) == Some(t)
  {
    var n := t as int + k * 0x1_0000_0000;
    DivModUnique(n, 0x1_0000_0000, k, t as int);
  }

  /** `getLength(buf, type)`: the size divided by the width of the type's kind, converted
      back to `int`; -1 for a kind without a width. */
  function GetLength(size: int32, t: int32): (n: int32)
    ensures TypeSize(t) == -1 ==> n == -1
    ensures TypeSize(t) > 0 && size >= 0 ==>
              n >= 0 && n as int == ElemCount(size, TypeSize(t) as nat) &&
              n as int * TypeSize(t) as int <= size as int < (n as int + 1) * TypeSize(t) as int
  {
    var w := TypeSize(t);
    if w == -1 then -1
    else
      var c := ElemCount(size, w as nat);
      assert c <= c * w as nat;
      Narrow32(c)
  }

  /** The length does not depend on the signed bit. */
  lemma GetLengthIgnoresSign(size: int32, k: int32)
    requires 0 <= k < 16
    ensures GetLength(size, k) == GetLength(size, k + Signed)
  {
    TypeSizeIgnoresSign(k);
  }

  // The 1-based index of `api_bufferGet` and `api_bufferSet`.

  /** The bounds check as written: one is subtracted from the 64-bit Lua integer, the
      difference is stored in an `int`, which keeps its low 32 bits, and only that `int` is
      compared with the length. Overflow of the subtraction is undefined in C; it is taken
      to wrap here. */
  function SlotIndexAsWritten(idx: int64, length: int32): (r: Option<nat>)
    ensures r.Some? ==> r.value < length as int
  {
    var i := Narrow32(Narrow64(idx as int - 1) as int);
    if i < 0 || i >= length then None else Some(i as nat)
  }

  /** The bounds check as intended: a 1-based index inside 1..length selects element
      idx - 1, and every other index selects nothing. */
  function SlotIndex(idx: int64, length: int32): (r: Option<nat>)
    ensures r.Some? <==> 1 <= idx as int <= length as int
    ensures r.Some? ==> r.value == idx as int - 1
  {
    if 1 <= idx as int <= length as int then Some((idx - 1) as nat) else None
  }

  /** For an index whose predecessor is an `int`, the two checks agree. */
  lemma SlotIndexAgrees(idx: int64, length: int32)
    requires IsInt32(idx as int - 1)
    ensures SlotIndexAsWritten(idx, length) == SlotIndex(idx, length)
  {
  }

  /** The truncation lets an index far outside a one-element buffer through to element 0. */
  lemma SlotIndexWrapsAround()
    ensures SlotIndexAsWritten(0x1_0000_0001, 1) == Some(0)
    ensures SlotIndex(0x1_0000_0001, 1) == None
  {
    assert Narrow64(0x1_0000_0000) as int == 0x1_0000_0000;
    assert Narrow32(0x1_0000_0000) == 0;
  }

  /** The element type `api_bufferGet` reads a slot of kind t with. */
  function ElemTypeOf(t: int32): (e: ElemType)
    requires TypeSize(t) > 0
    ensures e.width as int == TypeSize(t) as int
  {
    ElemType(TypeSize(t) as Width, !IsFloatKind(t) && t >= Signed)
  }

  /** A type whose view holds slot i has a width, and slot i is an element of the view. */
  lemma SlotInView(b: Buffer, idx: int64, t: int32)
    requires b.Accessible() && SlotIndex(idx, GetLength(b.size, t)).Some?
    ensures TypeSize(t) > 0
    ensures SlotIndex(idx, GetLength(b.size, t)).value < ElemCount(b.size, TypeSize(t) as nat)
  {
  }

  /** The value an element of type t holds, as `api_bufferGet` pushes it: an integer kind is
      read with its signedness and converted to a Lua integer (an unsigned 64-bit value
      wraps); a floating kind gives its bits. */
  function AsValue(t: int32, raw: int): Value {
    if IsFloatKind(t) then FloatBits(if raw < 0 then 0 else raw) else Integer(Narrow64(raw))
  }

  /** `api_bufferGet(buf, idx, type)`: nothing for an index outside 1..length, the element
      otherwise; a type argument (3) that resolves to nothing is an error. */
  function ApiGet(b: Buffer, idx: int64, arg: TypeArg): (r: Result<Option<Value>, Error>)
    reads b
    requires b.Accessible()
    ensures TypeFromArg(arg, CurrentType(b), 3).Failure? <==> r.Failure?
    ensures r.Failure? ==> r.error == ArgError(3)
    ensures r.Success? ==>
              var t := TypeFromArg(arg, CurrentType(b), 3).value;
              (r.value.Some? <==> 1 <= idx as int <= GetLength(b.size, t) as int)
    ensures r.Success? && r.value.Some? ==>
              var t := TypeFromArg(arg, CurrentType(b), 3).value;
              TypeSize(t) > 0 && 0 <= idx as int - 1 < ElemCount(b.size, TypeSize(t) as nat) &&
              r.value.value == AsValue(t, b.Get(idx as int - 1, ElemTypeOf(t)))
  {
    match TypeFromArg(arg, CurrentType(b), 3)
    case Failure(e) => Failure(e)
    case Success(t) =>
      match SlotIndex(idx, GetLength(b.size, t))
      case None => Success(None)
      case Some(i) =>
        SlotInView(b, idx, t);
        Success(Some(AsValue(t, b.Get(i, ElemTypeOf(t)))))
  }

  /** The number `api_bufferSet` stores into an element of type t: the integer for an
      integer kind (`luaL_checkinteger`, which rejects a float without an integer value),
      or the given bit pattern of the number converted to float or double. None is the
      error on the value argument. */
  function StoredValue(t: int32, v: Number, pattern: nat): (r: Option<int>)
    ensures v.NotNumber? ==> r.None?
    ensures IsFloatKind(t) && !v.NotNumber? ==> r == Some(pattern as int)
    ensures !IsFloatKind(t) && v.Int? ==> r == Some(v.i as int)
  {
    if IsFloatKind(t) then
      if v.NotNumber? then None else Some(pattern as int)
    else
      match v
      case Int(i) => Some(i as int)
      case Float(integral) => if integral.Some? then Some(integral.value as int) else None
      case NotNumber => None
  }

  /** What `api_bufferSet` decides before it writes, in the order of its checks: a type
      argument (4) that resolves to nothing, an index outside 1..length (nothing happens,
      whatever the value), a value that is not a number of the right sort (argument 3), or
      the write of a number into slot i, through the unsigned type of the kind's width. */
  datatype SetPlan = TypeError | OutOfRange | ValueError | Write(t: int32, slot: nat, value: int)

  function PlanSet(size: int32, user: int32, idx: int64, v: Number, arg: TypeArg, pattern: nat): (p: SetPlan)
    ensures p.TypeError? <==> TypeFromArg(arg, Some(TypeOfTag(user)), 4).Failure?
    ensures !p.TypeError? ==>
              var t := TypeFromArg(arg, Some(TypeOfTag(user)), 4).value;
              (p.OutOfRange? <==> !(1 <= idx as int <= GetLength(size, t) as int)) &&
              (p.ValueError? <==> 1 <= idx as int <= GetLength(size, t) as int && StoredValue(t, v, pattern).None?) &&
              (p.Write? ==> p.t == t && StoredValue(t, v, pattern) == Some(p.value))
    ensures p.Write? ==>
              TypeSize(p.t) > 0 && p.slot == idx as int - 1 && 0 <= idx as int - 1 < GetLength(size, p.t) as int &&
              (size >= 0 ==> p.slot < ElemCount(size, TypeSize(p.t) as nat))
  {
    match TypeFromArg(arg, Some(TypeOfTag(user)), 4)
    case Failure(_) => TypeError
    case Success(t) =>
      match SlotIndex(idx, GetLength(size, t))
      case None => OutOfRange
      case Some(i) =>
        match StoredValue(t, v, pattern)
        case None => ValueError
        case Some(x) => Write(t, i, x)
  }

  /** The unsigned element type `api_bufferSet` writes a slot of kind t with. */
  function StoreTypeOf(t: int32): (e: ElemType)
    requires TypeSize(t) > 0
    ensures e.width as int == TypeSize(t) as int && !e.signed
  {
    ElemType(TypeSize(t) as Width, false)
  }

  /** `api_bufferSet(buf, idx, val, type)`, carrying out PlanSet: the errors and the
      out-of-range index change nothing; a write changes exactly the element's bytes, and
      reading the element back with the same type argument gives the stored number
      converted to the type. Floating kinds store `pattern`, the bytes of the number
      converted to float or double, which this model does not compute. */
  method ApiSet(b: Buffer, idx: int64, v: Number, arg: TypeArg, pattern: nat) returns (r: Option<Error>)
    requires b.Accessible()
    modifies b
    ensures b.Accessible()
    ensures b.size == old(b.size) && b.alloc == old(b.alloc) && b.user == old(b.user)
    ensures PlanSet(b.size, b.user, idx, v, arg, pattern).TypeError? ==> r == Some(ArgError(4)) && b.ptr == old(b.ptr)
    ensures PlanSet(b.size, b.user, idx, v, arg, pattern).OutOfRange? ==> r.None? && b.ptr == old(b.ptr)
    ensures PlanSet(b.size, b.user, idx, v, arg, pattern).ValueError? ==> r == Some(ArgError(3)) && b.ptr == old(b.ptr)
    ensures PlanSet(b.size, b.user, idx, v, arg, pattern).Write? ==>
              var p := PlanSet(b.size, b.user, idx, v, arg, pattern);
              r.None? &&
              b.ptr.bytes == StoreElem(old(b.ptr.bytes), b.size, p.slot, p.value, StoreTypeOf(p.t)) &&
              ApiGet(b, idx, arg) == Success(Some(ReadBack(p.t, p.value)))
  {
    var p := PlanSet(b.size, b.user, idx, v, arg, pattern);
    match p
    case TypeError => return Some(ArgError(4));
    case OutOfRange => return None;
    case ValueError => return Some(ArgError(3));
    case Write(t, i, x) =>
      var e := StoreTypeOf(t);
      ghost var before := b.ptr.bytes;
      ghost var n := ElemCount(b.size, e.width);
      b.Set(i, x, e);
      StoreSlot(before, n, i, x, ElemTypeOf(t));
      ReadBackOfSet(b, idx, arg, t, x);
      return None;
  }

  /** What reading back an element of type t gives after v was stored into it. */
  function ReadBack(t: int32, v: int): Value
    requires TypeSize(t) > 0
  {
    AsValue(t, Converted(v, TypeSize(t) as nat, ElemTypeOf(t).signed))
  }

  /** Reading back through ApiGet, with the same type argument, the element just written. */
  lemma ReadBackOfSet(b: Buffer, idx: int64, arg: TypeArg, t: int32, v: int)
    requires b.Accessible()
    requires TypeFromArg(arg, CurrentType(b), 3).Success? && TypeFromArg(arg, CurrentType(b), 3).value == t
    requires SlotIndex(idx, GetLength(b.size, t)).Some? && TypeSize(t) > 0
    requires b.Get(idx as int - 1, ElemTypeOf(t)) == Converted(v, TypeSize(t) as nat, ElemTypeOf(t).signed)
    ensures ApiGet(b, idx, arg) == Success(Some(ReadBack(t, v)))
  {
  }

  /** An integer that the element type can represent reads back unchanged. */
  lemma SetGetRoundTrip(t: int32, v: int64)
    requires TypeSize(t) > 0 && !IsFloatKind(t)
    requires if t >= Signed then InSigned(v as int, TypeSize(t) as nat) else InUnsigned(v as int, TypeSize(t) as nat)
    ensures ReadBack(t, v as int) == Integer(v)
  {
    ConvertedInRange(v as int, TypeSize(t) as nat, ElemTypeOf(t).signed);
  }

  /** `api_bufferGetType(buf)`: the low five bits of the tag. */
  function ApiGetType(b: Buffer): (t: int64)
    reads b
    ensures 0 <= t < 32 && t as int == TypeOfTag(b.user) as int
  {
    TypeOfTag(b.user) as int64
  }

  /** `api_bufferSetType(buf, type)`: the type argument (2) resolves, against the stored type,
      to a code that replaces the low five bits of the tag; the higher bits and the other
      fields are kept. An absent argument stores the type already there. */
  method ApiSetType(b: Buffer, arg: TypeArg) returns (r: Option<Error>)
    modifies b
    ensures b.size == old(b.size) && b.alloc == old(b.alloc) && b.ptr == old(b.ptr)
    ensures TypeFromArg(arg, old(CurrentType(b)), 2).Failure? ==> r == Some(ArgError(2)) && b.user == old(b.user)
    ensures TypeFromArg(arg, old(CurrentType(b)), 2).Success? ==>
              r.None? && ApiGetType(b) as int == TypeFromArg(arg, old(CurrentType(b)), 2).value as int &&
              b.user / 32 == old(b.user) / 32
  {
    var tr := TypeFromArg(arg, CurrentType(b), 2);
    if tr.Failure? {
      return Some(ArgError(2));
    }
    b.user := WithType(b.user, tr.value);
    return None;
  }

  /** Storing the type a tag already holds gives back the same tag. */
  lemma WithSameType(user: int32)
    ensures WithType(user, TypeOfTag(user)) == user
  {
    var u := WithType(user, TypeOfTag(user));
    assert u as int == (u as int / 32) * 32 + u as int % 32;
    assert user as int == (user as int / 32) * 32 + user as int % 32;
  }

  /** `api_bufferGetSize(buf)`. */
  function ApiGetSize(b: Buffer): (n: int64)
    reads b
    ensures n as int == b.size as int
  {
    b.size as int64
  }

  /** `api_bufferSetSize(buf, size)`: the Lua integer is converted to `int`; a size that is not
      positive is an error on argument 2, a failing resize a runtime error. */
  method ApiSetSize(b: Buffer, size: int64, fail: bool) returns (r: Option<Error>)
    requires b.Valid()
    modifies b
    ensures Narrow32(size as int) <= 0 ==> r == Some(ArgError(2)) && b.State() == old(b.State())
    ensures Narrow32(size as int) > 0 ==>
              var n := Narrow32(size as int);
              ResizeOutcome(old(b.State()), n, fail, b.State(), ResizeReturn(old(b.State()), n, fail)) &&
              (r.None? <==> ResizeReturn(old(b.State()), n, fail) != 0) &&
              (r.Some? ==> r.value == RuntimeError)
  {
    var n := Narrow32(size as int);
    if n <= 0 {
      return Some(ArgError(2));
    }
    ghost var before := b.State();
    var res := Resize(b, n, fail);
    ResizeReturnDetermined(before, n, fail, b.State(), res);
    if res == 0 {
      return Some(RuntimeError);
    }
    return None;
  }

  /** `api_bufferGetLength(buf, type)`: the length under the type argument (2), which
      defaults to the stored type; a kind without a width is a runtime error. */
  function ApiGetLength(b: Buffer, arg: TypeArg): (r: Result<int32, Error>)
    reads b
    ensures TypeFromArg(arg, CurrentType(b), 2).Failure? ==> r == Failure(ArgError(2))
    ensures TypeFromArg(arg, CurrentType(b), 2).Success? ==>
              var t := TypeFromArg(arg, CurrentType(b), 2).value;
              (r.Failure? <==> GetLength(b.size, t) == -1) && (r.Failure? ==> r.error == RuntimeError) &&
              (TypeSize(t) == -1 ==> r.Failure?) &&
              (b.size >= 0 ==> (r.Failure? <==> TypeSize(t) == -1)) &&
              (r.Success? ==> r.value == GetLength(b.size, t))
  {
    match TypeFromArg(arg, CurrentType(b), 2)
    case Failure(e) => Failure(e)
    case Success(t) =>
      var len := GetLength(b.size, t);
      if len == -1 then Failure(RuntimeError) else Success(len)
  }

  /** A length read with an explicit type argument never fails on the width: only the
      absent argument can hand over an unusable stored kind. */
  lemma GetLengthOfNamedType(b: Buffer, arg: TypeArg)
    requires b.size >= 0 && !arg.NoArg? && TypeFromArg(arg, CurrentType(b), 2).Success?
    ensures ApiGetLength(b, arg).Success?
  {
    ValidExactlyWhenSized(TypeFromArg(arg, CurrentType(b), 2).value);
  }

  /** The byte size `api_bufferSetLength` asks for does not overflow `int` (overflow is
      undefined in C). */
  predicate SetLengthFits(user: int32, len: int64, arg: TypeArg) {
    match TypeFromArg(arg, Some(TypeOfTag(user)), 3)
    case Failure(_) => true
    case Success(t) =>
      TypeSize(t) == -1 || Narrow32(len as int) <= 0 || IsInt32(TypeSize(t) as int * Narrow32(len as int) as int)
  }

  /** `api_bufferSetLength(buf, len, type)`: checked in the order of the source, the type
      argument (3), a kind without a width (runtime error), a length that is not positive
      (argument 2), then a resize to width * len bytes, whose failure is a runtime error.
      The tag is never touched, and afterwards the length under that type is len. */
  method ApiSetLength(b: Buffer, len: int64, arg: TypeArg, fail: bool) returns (r: Option<Error>)
    requires b.Valid() && SetLengthFits(b.user, len, arg)
    modifies b
    ensures b.user == old(b.user)
    ensures TypeFromArg(arg, old(CurrentType(b)), 3).Failure? ==> r == Some(ArgError(3)) && b.State() == old(b.State())
    ensures TypeFromArg(arg, old(CurrentType(b)), 3).Success? ==>
              var t := TypeFromArg(arg, old(CurrentType(b)), 3).value;
              var l := Narrow32(len as int);
              (TypeSize(t) == -1 ==> r == Some(RuntimeError) && b.State() == old(b.State())) &&
              (TypeSize(t) > 0 && l <= 0 ==> r == Some(ArgError(2)) && b.State() == old(b.State())) &&
              (TypeSize(t) > 0 && l > 0 ==>
                 var n := TypeSize(t) * l;
                 ResizeOutcome(old(b.State()), n, fail, b.State(), ResizeReturn(old(b.State()), n, fail)) &&
                 (r.None? <==> ResizeReturn(old(b.State()), n, fail) != 0) &&
                 (r.Some? ==> r.value == RuntimeError) &&
                 (r.None? ==> GetLength(b.size, t) == l))
  {
    var l := Narrow32(len as int);
    var tr := TypeFromArg(arg, CurrentType(b), 3);
    if tr.Failure? {
      return Some(ArgError(3));
    }
    var t := tr.value;
    var w := TypeSize(t);
    if w == -1 {
      return Some(RuntimeError);
    }
    if l <= 0 {
      return Some(ArgError(2));
    }
    ghost var before := b.State();
    var res := Resize(b, w * l, fail);
    ResizeReturnDetermined(before, w * l, fail, b.State(), res);
    if res == 0 {
      return Some(RuntimeError);
    }
    LengthOfProduct(l, w, t);
    return None;
  }

  /** A buffer of width * l bytes holds exactly l elements of that width. */
  lemma LengthOfProduct(l: int32, w: int32, t: int32)
    requires l > 0 && w == TypeSize(t) && w > 0 && IsInt32(w as int * l as int)
    ensures GetLength(w * l, t) == l
  {
    var size := w * l;
    DivModUnique(size as int, 0x1_0000_0000_0000_0000, 0, size as int);
    DivModUnique(size as int, w as int, l as int, 0);
    assert ElemCount(size, w as nat) == l as int;
  }

  /** `api_bufferNew(size)`: the Lua integer converted to `int` must be positive (argument 1);
      the buffer is then allocated with allocData without destroy, and a failed allocation is
      a runtime error. */
  method ApiNew(size: int64, fail: bool) returns (r: Result<Buffer, Error>)
    ensures Narrow32(size as int) <= 0 ==> r == Failure(ArgError(1))
    ensures Narrow32(size as int) > 0 && fail ==> r == Failure(RuntimeError)
    ensures r.Success? <==> Narrow32(size as int) > 0 && !fail
    ensures r.Success? ==>
              fresh(r.value) && r.value.size == Narrow32(size as int) && r.value.alloc == r.value.size &&
              r.value.user == 0 && r.value.Valid() && r.value.State().Owned()
  {
    var n := Narrow32(size as int);
    if n <= 0 {
      return Failure(ArgError(1));
    }
    var b := new Buffer();
    var res, _ := AllocData(b, n, false, fail);
    if res == null {
      b.alloc := 0;
      return Failure(RuntimeError);
    }
    return Success(b);
  }

  /** The argument checks of `api_bufferCalloc(len, elem)`: the length (argument 1) and the
      element size (argument 2) must be positive `int`s. A numeric elem is a size in bytes and
      the type is unsigned char; otherwise elem is a type (with no stored type to fall back
      on) and the size is its width. The result is (length, element size, type). */
  function CallocArgs(len: int64, elem: TypeArg): (r: Result<(int32, int32, int32), Error>)
    ensures Narrow32(len as int) <= 0 ==> r == Failure(ArgError(1))
    ensures r.Failure? && Narrow32(len as int) > 0 ==> r.error == ArgError(2)
    ensures r.Success? ==>
              r.value.0 == Narrow32(len as int) && r.value.0 > 0 && r.value.1 > 0 && IsValidType(r.value.2)
    ensures r.Success? && elem.IntegerArg? ==> r.value.1 == Narrow32(elem.n as int) && r.value.2 == Unsigned + TypeChar
    ensures r.Success? && !elem.IntegerArg? ==> r.value.1 == TypeSize(r.value.2)
    ensures Narrow32(len as int) > 0 && elem.IntegerArg? ==> (r.Success? <==> Narrow32(elem.n as int) > 0)
    ensures Narrow32(len as int) > 0 && !elem.IntegerArg? ==> (r.Success? <==> TypeFromArg(elem, None, 2).Success?)
  {
    var l := Narrow32(len as int);
    if l <= 0 then Failure(ArgError(1))
    else
      var sized: Result<(int32, int32), Error> :=
        match elem
        case IntegerArg(k) => Success((Narrow32(k as int), Unsigned + TypeChar))
        case _ =>
          (match TypeFromArg(elem, None, 2)
           case Failure(err) => Failure(err)
           case Success(t) => Success((TypeSize(t), t)));
      if sized.Failure? then Failure(sized.error)
      else if sized.value.0 <= 0 then Failure(ArgError(2))
      else Success((l, sized.value.0, sized.value.1))
  }

  /** `api_bufferCalloc(len, elem)`: a zero-filled buffer of length * elem bytes whose type is
      then set as by `settype`, so the tag holds exactly the type. */
  method ApiCalloc(len: int64, elem: TypeArg, fail: bool) returns (r: Result<Buffer, Error>)
    requires CallocArgs(len, elem).Success? ==>
               IsInt32(CallocArgs(len, elem).value.0 as int * CallocArgs(len, elem).value.1 as int)
    ensures CallocArgs(len, elem).Failure? ==> r == Failure(CallocArgs(len, elem).error)
    ensures CallocArgs(len, elem).Success? ==> (r.Success? <==> !fail) && (r.Failure? ==> r.error == RuntimeError)
    ensures r.Success? ==>
              var (l, e, t) := CallocArgs(len, elem).value;
              fresh(r.value) && r.value.size as int == l as int * e as int && r.value.alloc == r.value.size &&
              r.value.user == t && ApiGetType(r.value) as int == t as int &&
              r.value.ptr.Block? && |r.value.ptr.bytes| == r.value.size as int &&
              (forall i :: 0 <= i < |r.value.ptr.bytes| ==> r.value.ptr.bytes[i] == 0) &&
              r.value.Valid() && r.value.State().Owned()
  {
    var args := CallocArgs(len, elem);
    if args.Failure? {
      return Failure(args.error);
    }
    var (l, e, t) := args.value;
    assert l as int * e as int > 0 by {
      MulMonotone(1, l as int, e as int);
    }
    var b := new Buffer();
    var res, _ := CallocData(b, l, e, false, fail);
    if res == null {
      b.alloc := 0;
      return Failure(RuntimeError);
    }
    var typeArg := IntegerArg(t as int64);
    IntegerTypeRoundTrip(t, 0);
    var err := ApiSetType(b, typeArg);
    assert b.user == t by {
      assert TypeOfTag(b.user) == t && b.user / 32 == 0;
    }
    return Success(b);
  }

  /** `other_iter(buf, idx)`, the iterator `ipairs` hands out: it reads element idx + 1 (with
      the stored type, as `buf[idx + 1]` does) and returns the new index with the element,
      or nothing, which ends the loop. The increment must not overflow. */
  function Iter(b: Buffer, idx: int64): (r: Option<(int64, Value)>)
    reads b
    requires b.Accessible() && idx as int < 0x7fff_ffff_ffff_ffff
    ensures r.Some? ==> r.value.0 as int == idx as int + 1 && ApiGet(b, idx + 1, NoArg) == Success(Some(r.value.1))
    ensures r.None? ==> ApiGet(b, idx + 1, NoArg) == Success(None)
  {
    var got := ApiGet(b, idx + 1, NoArg);
    if got.Success? && got.value.Some? then Some((idx + 1, got.value.value)) else None
  }

  /** Iterating from index 0 visits exactly the elements 1..length under the stored type,
      each with its value, and then stops. */
  lemma IterVisitsElements(b: Buffer, idx: int64)
    requires b.Accessible() && 0 <= idx as int < 0x7fff_ffff_ffff_ffff
    requires TypeSize(TypeOfTag(b.user)) > 0
    ensures Iter(b, idx).Some? <==> idx as int < GetLength(b.size, TypeOfTag(b.user)) as int
    ensures Iter(b, idx).Some? ==>
              Iter(b, idx).value.1 == AsValue(TypeOfTag(b.user), b.Get(idx as int, ElemTypeOf(TypeOfTag(b.user))))
  {
    var t := TypeOfTag(b.user);
    assert TypeFromArg(NoArg, CurrentType(b), 3) == Success(t);
  }
}
