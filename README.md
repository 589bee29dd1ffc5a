# buffer2 in Dafny

buffer2 is a small C library of resizable byte buffers with a Lua binding. This project
models it in Dafny and proves properties of the model.

A `buffer_t` holds four fields:
- a logical size in bytes;
- a capacity `alloc`, where 0 marks a wrapped region the buffer does not own;
- a user tag;
- a pointer to the bytes.

The engine (`buffer2.c`, `buffer2.h`) allocates, zero-allocates, wraps, destroys and
resizes buffers. It also reads and writes the byte array as an array of C integers of a
given width.

The binding (`wrapper.c`) adds a 5-bit type code. The code is a signed bit (0x10) and a
kind nibble. The binding resolves type names such as `"signed short"` or `"int32"`, and it
keeps the current type in the low five bits of the user tag. It exposes 1-based, bounds
checked element access and length/size/type getters and setters.

The configuration is fixed:
- LP64, 64-bit Lua integers, double floats, so every kind 0x0-0xa is available;
- widths: char 1, short 2, int 4, long 8, long long 8, float 4, double 8, and 8/16/32/64
  give 1/2/4/8;
- elements are stored little-endian.

Modules, file by file:
- `cint.dfy` (`CInt`): C `int` as `int32`, `lua_Integer` as `int64`, and the two's
  complement conversions between them (`Narrow32`, `Narrow64`).
- `bytes.dfy` (`Bytes`): the bytes of one element. It holds the little-endian encoding and
  C's conversion to an unsigned or signed type of n bytes. It proves that decode and
  encode are inverse, that a store is read back, and that a store leaves every other
  element alone.
- `buffer2.dfy` (`Buffer2`): the engine.
  - `Buffer` is a class with the four struct fields; its methods assign them in place.
  - The pointer is `Null` or a `Block` of bytes.
  - A failing `malloc`/`calloc`/`realloc` is the parameter `fail`.
  - The resize policy is the predicate `ResizeOutcome`, which `Resize`, `Enlarge` and the
    binding's setters are proved against.
- `typecodes.dfy` (`TypeCodes`): the internal functions of the binding.
  - They are the validator, the width table, `startswith` and `findstr` as loops, and name
    resolution.
  - They also cover the type stored in the tag.
- `api.dfy` (`Api`): the entry points of the binding with the Lua stack removed.
  - Arguments are values (`TypeArg`, `Number`).
  - A raised error is `ArgError(n)` or `RuntimeError`.
  - What is pushed is the result.
- `results.dfy` (`Results`): `Option` and `Result`.
- `arith.dfy` (`Arith`): shared facts of integer arithmetic (Euclidean division and
  multiplication by a positive factor).

## Model

| member | source | states |
|---|---|---|
| CInt.Narrow32 | wrapper.c:459 | storing a Lua integer in an `int` keeps it modulo 2^32 and keeps every value of `int` range unchanged |
| CInt.Narrow64 | wrapper.c:610-613 | converting to `lua_Integer` keeps the value modulo 2^64 and keeps every value of 64-bit signed range |
| Bytes.DecodeLE | buffer2.h:64 | the value of n bytes is below 256^n |
| Bytes.DecodeEncode | buffer2.h:76 | decoding the n-byte encoding of v gives v modulo 256^n |
| Bytes.EncodeDecode | buffer2.h:64 | encoding the value of a byte sequence gives back the same bytes |
| Bytes.ConvertedInRange | buffer2.h:76 | a value the element type can represent survives assignment to it unchanged |
| Bytes.Load | buffer2.h:64 | an element read with a signedness lies in that type's range |
| Bytes.Store | buffer2.h:76 | a store keeps the length and changes no byte outside the element |
| Bytes.LoadStore | buffer2.h:76 | reading a stored element gives the value converted to the element type |
| Bytes.LoadStoreDisjoint | buffer2.h:76 | a store leaves every element that does not overlap it unchanged |
| Bytes.StoreLoad | buffer2.h:64 | storing the value just loaded changes nothing |
| Buffer2.ElemCount | buffer2.h:44-51 | the typed length n satisfies n*w <= size < (n+1)*w, so trailing bytes are never an element |
| Buffer2.StoreSlot | buffer2.h:64-76 | after writing element i, element i reads as the value converted to T and every other element reads as before |
| Buffer2.Buffer.constructor | buffer2.h:81 | a new struct holds no pointer yet |
| Buffer2.Buffer.Get | buffer2.h:64 | an in-range element read lies in the range of its type; the index must be inside the view because the macro checks nothing |
| Buffer2.Buffer.Set | buffer2.h:76 | only the element's bytes change; it reads back as the converted value; size, alloc, user and every other element are kept |
| Buffer2.Buffer.SetUser | buffer2.h:26-27 | the tag becomes v and no other field changes |
| Buffer2.Buffer.Enlarge | buffer2.h:133 | the outcome is exactly that of resizing to size + amount |
| Buffer2.AllocData | buffer2.c:5-22 | success gives size == alloc == n, user 0 and n bytes; failure returns NULL, frees the struct iff destroy, and otherwise leaves size == alloc == 0 |
| Buffer2.CallocData | buffer2.c:24-41 | success gives size == alloc == length*elem with every byte zero; failure behaves as for allocData |
| Buffer2.WrapData | buffer2.c:43-54 | the struct holds the given region with size n, alloc 0 and user 0; only a NULL struct fails |
| Buffer2.DestroyData | buffer2.c:56-59 | the data is freed exactly when the buffer owns it, so a wrapped region is never freed |
| Buffer2.ResizeReturn | buffer2.c:61-83 | the returned number is nonzero exactly when n > 0 and either the capacity covers n or the allocation does not fail |
| Buffer2.Resize | buffer2.c:61-83 | the new state and result satisfy `ResizeOutcome`: n <= 0 changes nothing; enough capacity changes only size; an owned buffer grows by realloc keeping its bytes or stays unchanged; a wrapped one gets a fresh block or a NULL pointer |
| Buffer2.ResizeReturnDetermined | buffer2.c:61-83 | the outcome fixes the returned number to `ResizeReturn` |
| Buffer2.ResizeKeepsValid | buffer2.c:61-83 | resizing keeps the capacity non-negative and an owned buffer's size within its capacity |
| Buffer2.ResizeSucceeds | buffer2.c:64-81 | success happens iff n > 0 and (alloc >= n or the allocator succeeds); on success size == n <= alloc; the tag never changes |
| Buffer2.ResizeKeepsPrefix | buffer2.c:66-75 | an owned buffer keeps every byte in use that is below the new size |
| Buffer2.ResizeFailureChangesNothing | buffer2.c:64-78 | a zero return leaves an owned buffer unchanged and leaves a wrapped one with only its pointer set to NULL |
| Buffer2.ResizeToSameSize | buffer2.c:66-68 | resizing an owned buffer to its own size succeeds and changes nothing |
| Buffer2.ResizeTakesOwnership | buffer2.c:76-81 | a successful resize of a wrapped buffer makes it owned with capacity n |
| Buffer2.Alloc | buffer2.h:97 | destroy is set, so a failed allocation frees the struct and returns NULL; success gives a fresh, valid buffer of n bytes |
| Buffer2.CallocNew | buffer2.h:103 | as Alloc, zero-filled, for length*elem bytes |
| Buffer2.Wrap | buffer2.h:112 | a fresh struct around the region, with alloc 0 |
| Buffer2.Destroy | buffer2.h:118 | the owned data, and only owned data, is freed, then the struct is freed |
| TypeCodes.Kind | wrapper.c:200 | the kind nibble is below 16 |
| TypeCodes.IsValidType | wrapper.c:195-244 | a code is valid iff it has no bit above 0x1f and its kind is 0x0-0xa |
| TypeCodes.TypeSize | wrapper.c:417-448 | the width is -1 exactly for kinds above 0xa, and otherwise 1, 2, 4 or 8 |
| TypeCodes.ValidExactlyWhenSized | wrapper.c:195-244 | a five-bit code is valid iff its kind has a width |
| TypeCodes.TypeSizeIgnoresSign | wrapper.c:417-448 | the width and validity do not depend on the signed bit; the fixed-width kinds have 1, 2, 4 and 8 bytes |
| TypeCodes.StartsWith | wrapper.c:341-348 | the result is true iff `beginning` is a prefix of `str` |
| TypeCodes.LookupFirst | wrapper.c:358-364 | the lookup yields the number of the first entry whose string matches |
| TypeCodes.LookupMissing | wrapper.c:358-364 | the lookup yields the terminator's number when nothing matches |
| TypeCodes.LookupIsEndIff | wrapper.c:358-364 | with a terminator number no entry carries, the lookup yields it iff no entry matches |
| TypeCodes.FindStr | wrapper.c:358-364 | the loop returns the first matching entry's number, or the terminator's (-1 in the name list) |
| TypeCodes.FirstIndex | wrapper.c:358-364 | the position of the first match, or the list's length when nothing matches |
| TypeCodes.CString | wrapper.c:276 | the C view of a Lua string is its longest prefix without NUL |
| TypeCodes.StripSign | wrapper.c:278-283 | the flag is true iff the name starts with "signed "; what remains is a suffix shorter by 0, 7 or 9 characters |
| TypeCodes.TypeFromName | wrapper.c:285-324 | a resolved code is valid, and has the signed bit iff the name started with "signed " |
| TypeCodes.Resolve | wrapper.c:321-324 | a found kind gets 0x10 added for "signed ", and the result is valid |
| TypeCodes.LookupInNames | wrapper.c:286-319 | every number in the name list is a kind 0x0-0xa, and a missing name gives -1 |
| TypeCodes.NamesAreKinds | wrapper.c:286-319 | no entry of the name list carries the terminator -1 |
| TypeCodes.KindNameListed | wrapper.c:286-319 | each kind's canonical name is listed under that kind and starts with neither prefix |
| TypeCodes.NameRoundTrip | wrapper.c:278-324 | every valid code is resolved from its name ("signed " + kind name for signed codes) |
| TypeCodes.PrefixesResolve | wrapper.c:278-324 | for the canonical name X of every kind, float and double included, "unsigned X" and "X" resolve to code(X) and "signed X" to code(X) + 0x10 |
| TypeCodes.NamesUnprefixed | wrapper.c:286-319 | no listed name starts with "signed " or "unsigned " itself |
| TypeCodes.PrefixesResolveAll | wrapper.c:278-324 | for every listed name X, aliases "8", "16", "32" and "64" included, "signed X" resolves to X's kind + 0x10 and "unsigned X" to X's kind |
| TypeCodes.UnknownNameRejected | wrapper.c:320-331 | a name is rejected iff what remains after the prefix is not in the list |
| TypeCodes.StripPrefixed | wrapper.c:278-283 | stripping undoes the prefix of a name that carries none of its own |
| TypeCodes.ResolveFromParts | wrapper.c:278-324 | resolving a name is the prefix test followed by the lookup |
| TypeCodes.TypeOfTag | wrapper.c:328 | the stored type is the tag's low five bits, between 0 and 31 |
| TypeCodes.WithType | wrapper.c:603-604 | the new tag stores type t and keeps every bit above the low five |
| Api.TypeFromInteger | wrapper.c:268-271 | an integer is accepted when its low 32 bits form a valid code, and gives that code |
| Api.IntegerTypeRoundTrip | wrapper.c:268-271 | every valid code, and any integer congruent to it modulo 2^32, resolves to that code |
| Api.TypeFromArg | wrapper.c:267-332 | an integer or string resolves to a valid code; an absent argument gives the stored type if there is a buffer; every other case is an error on that argument |
| Api.CurrentType | wrapper.c:326-328 | the stored type that an absent argument stands for lies in 0..31 |
| Api.GetLength | wrapper.c:375-406 | -1 for a kind without width; otherwise, for a non-negative size, the n with n*w <= size < (n+1)*w |
| Api.GetLengthIgnoresSign | wrapper.c:375-406 | the length does not depend on the signed bit |
| Api.SlotIndexAsWritten | wrapper.c:625-628 | the index check as the code performs it, on the low 32 bits of idx - 1 |
| Api.SlotIndex | wrapper.c:625-628 | an index selects element idx - 1 iff 1 <= idx <= length |
| Api.SlotIndexAgrees | wrapper.c:625-628 | the two checks agree whenever idx - 1 fits in an `int` |
| Api.SlotIndexWrapsAround | wrapper.c:625 | index 2^32 + 1 passes the written check on a one-element buffer, though it is out of range |
| Api.ElemTypeOf | wrapper.c:610-690 | a kind is read with its own width |
| Api.SlotInView | wrapper.c:628 | an index that passes the check names an element inside the buffer's view |
| Api.ApiGet | wrapper.c:623-694 | a type error is an error on argument 3; otherwise nothing is returned iff idx is outside 1..length (the corrected index check of the Findings section), and an in-range element is read with its kind's width and signedness |
| Api.StoredValue | wrapper.c:697-700 | a non-number is always rejected; an integer kind stores the Lua integer; a floating kind stores the float's bit pattern |
| Api.PlanSet | wrapper.c:710-750 | the checks run in source order: type argument 4, then bounds (the corrected index check of the Findings section), which win over a bad value, then value argument 3 |
| Api.StoreTypeOf | wrapper.c:697-700 | a slot is written through the unsigned type of its kind's width |
| Api.ApiSet | wrapper.c:710-750 | an error or an out-of-range index leaves the bytes unchanged; a write changes exactly the element and reads back with the same type argument; size, alloc and the tag are kept |
| Api.ReadBackOfSet | wrapper.c:623-750 | reading back the element just written gives the stored number converted to the type |
| Api.SetGetRoundTrip | wrapper.c:623-750 | an integer that the type can represent reads back unchanged |
| Api.ApiGetType | wrapper.c:587-591 | the result is the tag's low five bits |
| Api.ApiSetType | wrapper.c:600-606 | a resolved type is then what gettype returns; higher tag bits and other fields are kept; a bad type is an error on argument 2 |
| Api.WithSameType | wrapper.c:600-606 | writing back the stored type leaves the tag unchanged, so settype with no argument is a no-op |
| Api.ApiGetSize | wrapper.c:518-522 | the result is the buffer's size |
| Api.ApiSetSize | wrapper.c:531-537 | a size that is not positive is an error on argument 2 and changes nothing; otherwise the buffer is resized, and a zero return is a runtime error |
| Api.ApiGetLength | wrapper.c:550-557 | the length under the resolved type; -1 is a runtime error, which for a non-negative size happens exactly for a kind without width |
| Api.GetLengthOfNamedType | wrapper.c:550-557 | an explicit valid type always yields a length |
| Api.ApiSetLength | wrapper.c:567-576 | errors come in source order; the buffer is resized to width*len bytes; the tag never changes; after success the length under that type is len |
| Api.LengthOfProduct | wrapper.c:574 | a buffer of w*len bytes has length len under a type of width w |
| Api.ApiNew | wrapper.c:458-469 | a size that is not positive in `int` is an error on argument 1; success gives a fresh, owned buffer of that size with tag 0; allocation failure is a runtime error |
| Api.CallocArgs | wrapper.c:479-487 | len <= 0 is an error on argument 1; a numeric elem is a size with type unsigned char; a named elem gives its width; elem <= 0 is an error on argument 2 |
| Api.ApiCalloc | wrapper.c:477-506 | success gives a fresh, zero-filled, owned buffer of len*elem bytes whose tag is exactly the type; allocation failure is a runtime error |
| Api.Iter | wrapper.c:861-869 | the iterator returns index idx + 1 with buf[idx + 1], or nothing |
| Api.IterVisitsElements | wrapper.c:861-869 | from a non-negative index, the iterator yields a value iff idx < length under the stored type, and that value is element idx of the buffer |

## Left out

- The Lua stack, userdata and metatables. This covers `bufferFromArg`'s userdata check,
  `__index`/`__newindex` dispatch, `__len`, `__ipairs`, `__gc`, and `setupLib`/`setupMeta`
  with the `types` table. They are host glue; each argument of an entry point is a
  parameter here.
- Lua's conversion of numeric strings. `lua_isnumber` (wrapper.c:268) accepts a numeral
  string such as "8", which then takes the integer branch of `typeFromArg` as code 8. So a
  bare "8", "16", "32" or "64" never reaches the name list from Lua. Prefixed forms such as
  "signed 8" are not numerals and do reach it (`PrefixesResolveAll`). `TypeFromArg` treats
  every string as a name.
- The same conversion for calloc's `elem` (wrapper.c:482). There the string "4" is an
  element size of 4, while `CallocArgs(len, StringArg("4"))` looks "4" up as a name and
  gives an error on argument 2.
- Floating-point values. A floating element is read as its raw bits (`FloatBits`). A
  floating store writes the bit pattern the caller passes. Rounding and NaN are not
  modelled.
- The arguments read with `luaL_checkinteger` are `int64` values here. These are new's
  size (wrapper.c:459), calloc's len (wrapper.c:479), setsize's size (wrapper.c:533),
  setlength's len (wrapper.c:569), the index of get and set (wrapper.c:625, 712) and the
  iterator's idx (wrapper.c:862). Not modelled for them: the error raised on a value that
  is not an integer, and the conversion of a numeric string or an integral float.
- The real heap. `malloc`, `calloc` and `realloc` are modelled by their results. Failure
  is a parameter and fresh contents are arbitrary. A size whose `size_t` conversion is 2^63
  or more always fails. Leaks and double frees are not modelled; `DestroyData` and
  `Destroy` report what they free.
- `lua_newuserdata` failing.
- Aliasing of wrapped regions. A `Block` is a value, so writes through another pointer to
  a wrapped region are not seen.
- The build-dependent widths and the conditional availability of kinds. One configuration
  is fixed.
- The per-type macros of `buffer2.h` (`buffer_getChar`, `buffer_setShort`, ...). They are
  instances of `Buffer.Get` and `Buffer.Set` at one `ElemType`.
- Buffer2.Buffer.constructor: C leaves the new struct's fields uninitialised. Every entry
  point overwrites all four, so the model starts them at zero and NULL.
- Buffer2.CallocData, Buffer2.CallocNew, Api.ApiCalloc: these require that length * elem
  fits in an `int`, because C leaves a signed overflow undefined.
- Buffer2.Buffer.Enlarge: requires that size + amount fits in an `int`, for the same reason.
- Api.ApiSetLength: requires that width * len fits in an `int`, for the same reason.
- Api.Iter: requires idx + 1 to fit in a `lua_Integer`, for the same reason.
- Buffer2.ResizeToSameSize: holds only for owned buffers. A wrapped buffer resized to its
  own size gets a fresh block, so its contents are lost.
- Buffer2.Buffer.Get: plain `char` is taken to be the kind's signed or unsigned type as the
  signed bit says. The engine's own macros with plain `char` follow the platform's choice.
- `example.c`, the repository's demonstration program: its only effects are printing
  and float reinterpretation.

## Findings

| source | as written | input that shows it | evidently intended | confidence | as-written member | corrected member |
|---|---|---|---|---|---|---|
| wrapper.c:625-628 (and wrapper.c:712-715) | the 1-based index minus one is stored in an `int` before the bounds check, keeping only its low 32 bits | `buf:get(4294967297)` on a buffer of length 1 passes the check as element 0 and returns `buf[1]`; `buf:set(4294967297, v)` overwrites it | every index outside 1..length returns nothing (get) or is ignored (set) | not executed | Api.SlotIndexAsWritten, Api.SlotIndexWrapsAround | Api.SlotIndex, used by Api.ApiGet and Api.ApiSet |
