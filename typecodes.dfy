/** The type descriptors of the Lua binding (wrapper.c): a 5-bit code made of a signedness
    bit (0x10) and a kind nibble, the width of each kind, the resolution of type names,
    and the storage of the current type in the low five bits of a buffer's user tag.
    Configuration: LP64, 64-bit Lua integers, double floats, so every kind 0x0-0xa is
    available. In two's complement, `x & 0xf` is `x % 16`, `x & 0x1f` is `x % 32` and
    `x & ~0x1f` is `x - x % 32`, with Dafny's Euclidean `%`; these are the forms used here. */
module TypeCodes {
  import opened CInt
  import opened Results
  import Arith

  const Unsigned: int32 := 0x00
  const Signed: int32 := 0x10

  const TypeChar: int32 := 0x0
  const TypeShort: int32 := 0x1
  const TypeInt: int32 := 0x2
  const TypeLong: int32 := 0x3
  const TypeLongLong: int32 := 0x4
  const TypeFloat: int32 := 0x5
  const TypeDouble: int32 := 0x6
  const Type8: int32 := 0x7
  const Type16: int32 := 0x8
  const Type32: int32 := 0x9
  const Type64: int32 := 0xa

  /** The kind nibble of a code (`type & 0xf`). */
  function Kind(t: int32): (k: int32)
    ensures 0 <= k < 16
  {
    t % 16
  }

  /** `isValidType`: no bit above the low five, and a kind available in this configuration. */
  function IsValidType(t: int32): (ok: bool)
    ensures ok <==> 0 <= t < 32 && Kind(t) <= TypeDouble + 4
  {
    if t % 32 != t then false
    else
      match Kind(t)
      case 0 => true   // char
      case 1 => true   // short
      case 2 => true   // int
      case 3 => true   // long
      case 4 => true   // long long
      case 5 => true   // float
      case 6 => true   // double
      case 7 => true   // 8
      case 8 => true   // 16
      case 9 => true   // 32
      case 10 => true  // 64
      case _ => false
  }

  /** Whether a code names a floating-point kind (float or double), whose signed and
      unsigned forms are the same C type. */
  predicate IsFloatKind(t: int32) {
    Kind(t) == TypeFloat || Kind(t) == TypeDouble
  }

  /** `typeSize`: the width in bytes of the kind of t (the signed bit is ignored), or -1
      for a kind that does not exist. */
  function TypeSize(t: int32): (w: int32)
    ensures w == -1 <==> Kind(t) > TypeDouble + 4
    ensures w != -1 ==> w == 1 || w == 2 || w == 4 || w == 8
  {
    match Kind(t)
    case 0 => 1   // sizeof(unsigned char)
    case 1 => 2   // sizeof(unsigned short)
    case 2 => 4   // sizeof(unsigned int)
    case 3 => 8   // sizeof(unsigned long)
    case 4 => 8   // sizeof(unsigned long long)
    case 5 => 4   // sizeof(float)
    case 6 => 8   // sizeof(double)
    case 7 => 1   // sizeof(uint8_t)
    case 8 => 2   // sizeof(uint16_t)
    case 9 => 4   // sizeof(uint32_t)
    case 10 => 8  // sizeof(uint64_t)
    case _ => -1
  }

  /** The validator and the width table agree: a code of five bits is valid exactly when
      its kind has a width. */
  lemma ValidExactlyWhenSized(t: int32)
    requires 0 <= t < 32
    ensures IsValidType(t) <==> TypeSize(t) > 0
  {
  }

  /** The width does not depend on the signed bit, and the fixed-width kinds have the
      widths their names say. */
  lemma TypeSizeIgnoresSign(k: int32)
    requires 0 <= k < 16
    ensures TypeSize(k) == TypeSize(k + Signed)
    ensures IsValidType(k) <==> IsValidType(k + Signed)
    ensures TypeSize(Type8) == 1 && TypeSize(Type16) == 2 && TypeSize(Type32) == 4 && TypeSize(Type64) == 8
  {
    assert Kind(k + Signed) == k;
  }

  /** `startswith(str, beginning)`: walks both strings while the prefix lasts. The
      arguments are C strings, which contain no NUL; running off the end of str reads its
      terminator, which differs from any character of the prefix. */
  method StartsWith(str: string, beginning: string) returns (r: bool)
    requires '\0' !in str && '\0' !in beginning
    ensures r <==> beginning <= str
  {
    var i := 0;
    while i < |beginning|
      invariant 0 <= i <= |beginning| && i <= |str|
      invariant str[..i] == beginning[..i]
    {
      if i == |str| || str[i] != beginning[i] {
        return false;
      }
      i := i + 1;
    }
    assert beginning == str[..i];
    return true;
  }

  /** An entry of a `findstr` list: a number and the string it belongs to. */
  datatype Entry = Entry(val: int32, str: string)

  /** The number of the first entry whose string is s, or the terminator's number. */
  function Lookup(list: seq<Entry>, s: string, end: int32): int32 {
    if list == [] then end
    else if list[0].str == s then list[0].val
    else Lookup(list[1..], s, end)
  }

  /** Lookup yields the number of the first matching entry. */
  lemma {:induction false} LookupFirst(list: seq<Entry>, s: string, end: int32, k: nat)
    requires k < |list| && list[k].str == s
    requires forall j :: 0 <= j < k ==> list[j].str != s
    ensures Lookup(list, s, end) == list[k].val
  {
    if k > 0 {
      LookupFirst(list[1..], s, end, k - 1);
    }
  }

  /** Lookup yields the terminator's number when no entry matches. */
  lemma {:induction false} LookupMissing(list: seq<Entry>, s: string, end: int32)
    requires forall j :: 0 <= j < |list| ==> list[j].str != s
    ensures Lookup(list, s, end) == end
  {
    if list != [] {
      LookupMissing(list[1..], s, end);
    }
  }

  /** `findstr(str, list)`: the list walked entry by entry, the terminating entry (string
      NULL) holding the number returned when nothing matches. */
  method FindStr(str: string, list: seq<Entry>, end: int32) returns (r: int32)
    ensures r == Lookup(list, str, end)
    ensures (exists k :: 0 <= k < |list| && list[k].str == str) ==>
              exists k :: 0 <= k < |list| && list[k].str == str && r == list[k].val &&
                          forall j :: 0 <= j < k ==> list[j].str != str
    ensures (forall k :: 0 <= k < |list| ==> list[k].str != str) ==> r == end
  {
    var i := 0;
    while i < |list|
      invariant 0 <= i <= |list|
      invariant forall j :: 0 <= j < i ==> list[j].str != str
      invariant Lookup(list[i..], str, end) == Lookup(list, str, end)
    {
      if list[i].str == str {
        LookupFirst(list, str, end, i);
        return list[i].val;
      }
      assert list[i..][1..] == list[i + 1..];
      i := i + 1;
    }
    LookupMissing(list, str, end);
    return end;
  }

  /** The names `typeFromArg` matches, in the order of its list. */
  const Names: seq<Entry> := [
    Entry(TypeChar, "char"),
    Entry(TypeShort, "short"),
    Entry(TypeInt, "int"),
    Entry(TypeLong, "long"),
    Entry(TypeLongLong, "long long"),
    Entry(TypeFloat, "float"),
    Entry(TypeDouble, "double"),
    Entry(Type8, "8"),
    Entry(Type8, "int8"),
    Entry(Type16, "16"),
    Entry(Type16, "int16"),
    Entry(Type32, "32"),
    Entry(Type32, "int32"),
    Entry(Type64, "64"),
    Entry(Type64, "int64")
  ]

  /** The string a C function sees of a Lua string: everything before the first NUL. */
  function CString(s: string): (c: string)
    ensures c <= s && '\0' !in c
    ensures |c| < |s| ==> s[|c|] == '\0'
  {
    if s == [] || s[0] == '\0' then [] else [s[0]] + CString(s[1..])
  }

  /** A name with its optional "signed " or "unsigned " prefix removed, and whether it was
      "signed ". */
  function StripSign(s: string): (r: (bool, string))
    ensures r.0 <==> "signed " <= s
    ensures |s| - |r.1| in {0, 7, 9} && r.1 == s[|s| - |r.1|..]
  {
    if "signed " <= s then (true, s[7..])
    else if "unsigned " <= s then (false, s[9..])
    else (false, s)
  }

  /** The string branch of `typeFromArg`: strip the prefix, look the rest up among the
      names, add the signed bit (`type |= 0x10`, an addition for a kind below 0x10) and
      validate. None is the argument error. */
  function TypeFromName(s: string): (r: Option<int32>)
    ensures r.Some? ==> IsValidType(r.value)
    ensures r.Some? ==> (r.value >= Signed <==> "signed " <= s)
  {
    var (signed, rest) := StripSign(s);
    LookupInNames(rest);
    Resolve(signed, Lookup(Names, rest, -1))
  }

  /** The code for a looked-up kind (-1 when the name was not found) and a sign. */
  function Resolve(signed: bool, kind: int32): (r: Option<int32>)
    requires kind == -1 || 0 <= kind <= Type64
    ensures r.Some? ==> IsValidType(r.value) && (r.value >= Signed <==> signed)
    ensures kind != -1 ==> r == Some(kind + (if signed then Signed else Unsigned))
  {
    if kind == -1 then None
    else
      var t := kind + (if signed then Signed else Unsigned);
      if IsValidType(t) then Some(t) else None
  }

  /** Every number in the list is a kind below 0x10, and a name the list lacks gives -1. */
  lemma LookupInNames(s: string)
    ensures Lookup(Names, s, -1) == -1 || 0 <= Lookup(Names, s, -1) <= Type64
    ensures (forall j :: 0 <= j < |Names| ==> Names[j].str != s) ==> Lookup(Names, s, -1) == -1
  {
    var k := FirstIndex(Names, s);
    if k == |Names| {
      LookupMissing(Names, s, -1);
    } else {
      LookupFirst(Names, s, -1, k);
    }
  }

  /** The position of the first entry whose string is s, or |list| when there is none. */
  function FirstIndex(list: seq<Entry>, s: string): (k: nat)
    ensures k <= |list| && (k < |list| ==> list[k].str == s)
    ensures forall j :: 0 <= j < k ==> list[j].str != s
  {
    if list == [] || list[0].str == s then 0
    else
      var k := FirstIndex(list[1..], s);
      assert forall j :: 1 <= j < k + 1 ==> list[j] == list[1..][j - 1];
      k + 1
  }

  /** The canonical name of a kind. */
  function KindName(k: int32): string
    requires 0 <= k <= Type64
  {
    match k
    case 0 => "char"
    case 1 => "short"
    case 2 => "int"
    case 3 => "long"
    case 4 => "long long"
    case 5 => "float"
    case 6 => "double"
    case 7 => "int8"
    case 8 => "int16"
    case 9 => "int32"
    case 10 => "int64"
  }

  /** A name for every valid code: "signed " before the kind's name when the signed bit is set. */
  function TypeName(t: int32): string
    requires IsValidType(t)
  {
    (if t >= Signed then "signed " else "") + KindName(Kind(t))
  }

  /** A kind's name is in the list under that kind, and carries neither prefix. */
  lemma KindNameListed(k: int32)
    requires 0 <= k <= Type64
    ensures Lookup(Names, KindName(k), -1) == k
    ensures !("signed " <= KindName(k)) && !("unsigned " <= KindName(k))
  {
    var n := KindName(k);
    var j: nat := match k
      case 0 => 0 case 1 => 1 case 2 => 2 case 3 => 3 case 4 => 4 case 5 => 5
      case 6 => 6 case 7 => 8 case 8 => 10 case 9 => 12 case 10 => 14;
    assert Names[j].str == n && Names[j].val == k;
    forall i | 0 <= i < j ensures Names[i].str != n {
      assert |Names[i].str| != |n| || Names[i].str[0] != n[0] || Names[i].str[|n| - 1] != n[|n| - 1];
    }
    LookupFirst(Names, n, -1, j);
    assert (|n| < 7 || n[0] != 's') && n[0] != 'u';
  }

  /** Resolution undoes naming: every valid code is obtained from its name. */
  lemma {:induction false} NameRoundTrip(t: int32)
    requires IsValidType(t)
    ensures TypeFromName(TypeName(t)) == Some(t)
  {
    var k := Kind(t);
    var signed := t >= Signed;
    assert t == k + (if signed then Signed else Unsigned);
    var n := KindName(k);
    KindNameListed(k);
    StripPrefixed(signed, n);
    ResolveFromParts(TypeName(t), signed, n, k);
  }

  /** TypeFromName is Resolve applied to the two halves of its work. */
  lemma ResolveFromParts(s: string, signed: bool, rest: string, kind: int32)
    requires StripSign(s) == (signed, rest)
    requires Lookup(Names, rest, -1) == kind && (kind == -1 || 0 <= kind <= Type64)
    ensures TypeFromName(s) == Resolve(signed, kind)
  {
  }

  /** Stripping undoes the prefix of a name that carries none of its own. */
  lemma StripPrefixed(signed: bool, n: string)
    requires !("signed " <= n) && !("unsigned " <= n)
    ensures StripSign((if signed then "signed " else "") + n) == (signed, n)
  {
    if signed {
      assert ("signed " + n)[7..] == n;
    } else {
      assert "" + n == n;
    }
  }

  /** The "unsigned " prefix is accepted and changes nothing, for every kind, floating
      ones included; "signed " sets the signed bit, for every kind. */
  lemma {:induction false} PrefixesResolve(k: int32)
    requires 0 <= k <= Type64
    ensures TypeFromName("unsigned " + KindName(k)) == Some(k)
    ensures TypeFromName("signed " + KindName(k)) == Some(k + Signed)
    ensures TypeFromName(KindName(k)) == Some(k)
  {
    var n := KindName(k);
    KindNameListed(k);
    assert ("unsigned " + n)[0] == 'u';
    assert ("unsigned " + n)[9..] == n;
    assert ("signed " + n)[7..] == n;
    assert StripSign("unsigned " + n) == (false, n);
    assert StripSign("signed " + n) == (true, n);
    assert StripSign(n) == (false, n);
  }

  /** No listed name carries either prefix itself. */
  lemma NamesUnprefixed(j: nat)
    requires j < |Names|
    ensures !("signed " <= Names[j].str) && !("unsigned " <= Names[j].str)
  {
    var n := Names[j].str;
    assert |n| > 0 && (|n| < 7 || n[0] != 's') && n[0] != 'u';
  }

  /** The prefix rule for every entry of the list, aliases such as "8" included:
      "signed X" gives the code of X plus 0x10, and "unsigned X" the code of X. */
  lemma {:induction false} PrefixesResolveAll(j: nat)
    requires j < |Names|
    ensures 0 <= Lookup(Names, Names[j].str, -1) <= Type64
    ensures TypeFromName("signed " + Names[j].str) == Some(Lookup(Names, Names[j].str, -1) + Signed)
    ensures TypeFromName("unsigned " + Names[j].str) == Some(Lookup(Names, Names[j].str, -1))
  {
    var n := Names[j].str;
    var i := FirstIndex(Names, n);
    LookupFirst(Names, n, -1, i);
    NamesAreKinds();
    LookupInNames(n);
    var k := Lookup(Names, n, -1);
    NamesUnprefixed(j);
    StripPrefixed(true, n);
    ResolveFromParts("signed " + n, true, n, k);
    var u := "unsigned " + n;
    assert u[0] == 'u' && u[9..] == n;
    assert StripSign(u) == (false, n);
    ResolveFromParts(u, false, n, k);
  }

  /** A name is rejected exactly when what remains after the prefix is none of the
      listed names. */
  lemma {:induction false} UnknownNameRejected(s: string)
    ensures TypeFromName(s).None? <==> forall j :: 0 <= j < |Names| ==> Names[j].str != StripSign(s).1
  {
    var (signed, rest) := StripSign(s);
    LookupInNames(rest);
    ResolveFromParts(s, signed, rest, Lookup(Names, rest, -1));
    NamesAreKinds();
    LookupIsEndIff(Names, rest, -1);
  }

  /** No entry of the list carries the terminator's number -1. */
  lemma NamesAreKinds()
    ensures forall j :: 0 <= j < |Names| ==> Names[j].val != -1
  {
  }

  /** With a terminator number that no entry carries, Lookup yields it exactly when no
      entry matches. */
  lemma LookupIsEndIff(list: seq<Entry>, s: string, end: int32)
    requires forall j :: 0 <= j < |list| ==> list[j].val != end
    ensures Lookup(list, s, end) == end <==> forall j :: 0 <= j < |list| ==> list[j].str != s
  {
    var k := FirstIndex(list, s);
    if k == |list| {
      LookupMissing(list, s, end);
    } else {
      LookupFirst(list, s, end, k);
    }
  }

  /** The current type stored in a user tag (`user & 0x1f`). */
  function TypeOfTag(user: int32): (t: int32)
    ensures 0 <= t < 32
  {
    user % 32
  }

  /** The tag with its low five bits replaced by t (`(user & ~0x1f) | t`): the stored type
      is t, and the bits above the low five (user / 32, an arithmetic shift) are kept. */
  function WithType(user: int32, t: int32): (u: int32)
    requires 0 <= t < 32
    ensures TypeOfTag(u) == t
    ensures u / 32 == user / 32
  {
    var high := user as int - user as int % 32;
    assert high == (user as int / 32) * 32;
    Arith.DivModUnique(high + t as int, 32, user as int / 32, t as int);
    (high + t as int) as int32
  }
}
