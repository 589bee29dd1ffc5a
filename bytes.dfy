/** The byte-level view of one element of a buffer: an element of `n` bytes is stored
    little-endian (the native order of the LP64 platforms this model fixes). Storing a
    value converts it to the unsigned type of that width, as a C assignment to an
    unsigned lvalue does; loading reads the bytes back as unsigned or two's complement. */
module Bytes {
  import opened Arith

  /** One byte of memory (C `unsigned char`). */
  newtype byte = x: int | 0 <= x < 256

  /** 256 to the power n: the number of values an n-byte element can hold. */
  function Pow256(n: nat): (p: nat)
    ensures p > 0
    ensures n > 0 ==> p % 2 == 0 && p >= 256
  {
    if n == 0 then 1 else 256 * Pow256(n - 1)
  }

  /** Little-endian value of a sequence of bytes. */
  function DecodeLE(bs: seq<byte>): (v: nat)
    ensures v < Pow256(|bs|)
  {
    if bs == [] then 0
    else
      var rest := DecodeLE(bs[1..]);
      assert rest <= Pow256(|bs| - 1) - 1;
      assert 256 * rest <= 256 * Pow256(|bs| - 1) - 256;
      bs[0] as nat + 256 * rest
  }

  /** The n low-order bytes of v, least significant first. */
  function EncodeLE(v: nat, n: nat): (bs: seq<byte>)
    ensures |bs| == n
  {
    if n == 0 then [] else [(v % 256) as byte] + EncodeLE(v / 256, n - 1)
  }

  /** Decoding an encoding gives back the value reduced to the width. */
  lemma {:induction false} DecodeEncode(v: nat, n: nat)
    ensures DecodeLE(EncodeLE(v, n)) == v % Pow256(n)
  {
    if n > 0 {
      var bs := EncodeLE(v, n);
      var p := Pow256(n - 1);
      assert bs[0] as nat == v % 256;
      assert bs[1..] == EncodeLE(v / 256, n - 1);
      DecodeEncode(v / 256, n - 1);
      assert DecodeLE(bs) == v % 256 + 256 * ((v / 256) % p);
      ModSplit(v, p);
      assert Pow256(n) == 256 * p;
    }
  }

  /** Encoding the value of n bytes gives back those bytes. */
  lemma {:induction false} EncodeDecode(bs: seq<byte>)
    ensures EncodeLE(DecodeLE(bs), |bs|) == bs
  {
    if bs != [] {
      var v := DecodeLE(bs);
      DivModUnique(v, 256, DecodeLE(bs[1..]), bs[0] as nat);
      EncodeDecode(bs[1..]);
      assert EncodeLE(v, |bs|) == [bs[0]] + bs[1..];
    }
  }

  /** C's conversion of any integer to the unsigned type of n bytes. */
  function ToUnsigned(v: int, n: nat): (u: nat)
    ensures u < Pow256(n)
  {
    v % Pow256(n)
  }

  /** Two's complement reading of an n-byte pattern. */
  function ToSigned(u: nat, n: nat): (v: int)
    requires n > 0 && u < Pow256(n)
    ensures InSigned(v, n)
  {
    if u < Pow256(n) / 2 then u else u - Pow256(n)
  }

  predicate InSigned(v: int, n: nat) {
    -(Pow256(n) / 2) <= v < Pow256(n) / 2
  }

  predicate InUnsigned(v: int, n: nat) {
    0 <= v < Pow256(n)
  }

  /** The value an n-byte element holds after v is assigned to it and it is read back
      under the given signedness. */
  function Converted(v: int, n: nat, signed: bool): int
    requires n > 0
  {
    if signed then ToSigned(ToUnsigned(v, n), n) else ToUnsigned(v, n)
  }

  /** A value that the element type can represent survives the conversion unchanged. */
  lemma ConvertedInRange(v: int, n: nat, signed: bool)
    requires n > 0
    requires if signed then InSigned(v, n) else InUnsigned(v, n)
    ensures Converted(v, n, signed) == v
  {
    var p := Pow256(n);
    if signed {
      if v < 0 {
        DivModUnique(v, p, -1, v + p);
      } else {
        DivModUnique(v, p, 0, v);
      }
    } else {
      DivModUnique(v, p, 0, v);
    }
  }

  /** The n-byte element at byte offset off. */
  function Load(bs: seq<byte>, off: nat, n: nat, signed: bool): (v: int)
    requires n > 0 && off + n <= |bs|
    ensures if signed then InSigned(v, n) else InUnsigned(v, n)
  {
    var u := DecodeLE(bs[off..off + n]);
    if signed then ToSigned(u, n) else u
  }

  /** The bytes after v is assigned to the n-byte element at byte offset off. */
  function Store(bs: seq<byte>, off: nat, n: nat, v: int): (r: seq<byte>)
    requires off + n <= |bs|
    ensures |r| == |bs|
    ensures forall j :: 0 <= j < |bs| && !(off <= j < off + n) ==> r[j] == bs[j]
  {
    bs[..off] + EncodeLE(ToUnsigned(v, n), n) + bs[off + n..]
  }

  /** Reading back a stored element gives the stored value, converted to the element's type. */
  lemma LoadStore(bs: seq<byte>, off: nat, n: nat, v: int, signed: bool)
    requires n > 0 && off + n <= |bs|
    ensures Load(Store(bs, off, n, v), off, n, signed) == Converted(v, n, signed)
  {
    var u := ToUnsigned(v, n);
    var r := Store(bs, off, n, v);
    assert r[off..off + n] == EncodeLE(u, n);
    DecodeEncode(u, n);
    DivModUnique(u, Pow256(n), 0, u);
  }

  /** Storing an element leaves every element that does not overlap it as it was. */
  lemma LoadStoreDisjoint(bs: seq<byte>, off: nat, n: nat, v: int, off': nat, n': nat, signed: bool)
    requires n' > 0 && off + n <= |bs| && off' + n' <= |bs|
    requires off' + n' <= off || off + n <= off'
    ensures Load(Store(bs, off, n, v), off', n', signed) == Load(bs, off', n', signed)
  {
    var r := Store(bs, off, n, v);
    assert r[off'..off' + n'] == bs[off'..off' + n'];
  }

  /** Storing what was loaded changes nothing. */
  lemma StoreLoad(bs: seq<byte>, off: nat, n: nat)
    requires n > 0 && off + n <= |bs|
    ensures Store(bs, off, n, Load(bs, off, n, false)) == bs
  {
    var w := bs[off..off + n];
    EncodeDecode(w);
    DivModUnique(DecodeLE(w), Pow256(n), 0, DecodeLE(w));
    assert bs == bs[..off] + w + bs[off + n..];
  }
}
