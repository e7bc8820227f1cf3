/** The numeric codec: Go's conversions of a float64 query bound to a
    fixed-width integer, the fixed-width wrap-around of integer arithmetic,
    and encoding/binary's little-endian serialisation of element arrays. */
module Codec {
  import opened Base
  import opened Dataset

  function Pow256(w: nat): (p: nat)
    ensures p >= 1
  {
    if w == 0 then 1 else 256 * Pow256(w - 1)
  }

  /** Half the range of a w-byte integer: signed values lie in [-Half, Half). */
  function Half(w: nat): int
  {
    Pow256(w) / 2
  }

  predicate SignedFits(w: nat, x: int)
  {
    -Half(w) <= x < Half(w)
  }

  /** Whether x is a legal stored value of kind k: a signed value of the
      kind's width for BYTE, SHORT, INT and INT64, an unsigned pattern of
      that width for FLOAT, DOUBLE and CHAR. */
  predicate InRange(k: Kind, x: int)
    requires Encodable(k)
  {
    if k in {BYTE, SHORT, INT, INT64} then SignedFits(Width(k), x)
    else 0 <= x < Pow256(Width(k))
  }

  // ------------------------------------------------ Go integer arithmetic

  /** Go's conversion of a floating value to an integer: toward zero. */
  function Trunc(x: real): int
  {
    if x >= 0.0 then x.Floor else -((-x).Floor)
  }

  /** Reduce x to a signed integer of w bytes (two's complement wrap). */
  function Wrap(x: int, w: nat): (r: int)
    ensures 1 <= w ==> SignedFits(w, r)
  {
    var p := Pow256(w);
    var m := x % p;
    assert w >= 1 ==> p == 256 * Pow256(w - 1);
    if w == 0 then 0 else if m >= p / 2 then m - p else m
  }

  /** int16(value), int32(value), int64(value) of a float64 in Go. Go leaves
      the result implementation-defined when the truncated value does not
      fit the width; the model wraps it. */
  function ToInt(w: nat, value: real): int
  {
    Wrap(Trunc(value), w)
  }

  /** The tolerance of the coordinate match, 1e-15. */
  const Eps: real := 1.0 / 1000000000000000.0

  /** |float64(v2 - dim)| < eps with v2 - dim computed at width w. */
  predicate IntNear(w: nat, stored: int, target: int)
  {
    var d := Wrap(stored - target, w);
    (if d < 0 then -d else d) as real < Eps
  }

  /** For integer kinds the tolerance test is exact equality: the
      wrapped difference of two in-range values is zero only when they are
      equal, and a non-zero integer is never below 1e-15. */
  lemma IntNearIsEquality(w: nat, stored: int, target: int)
    requires 1 <= w
    requires SignedFits(w, stored) && SignedFits(w, target)
    ensures IntNear(w, stored, target) <==> stored == target
  {
    var p := Pow256(w);
    var diff := stored - target;
    assert p == 256 * Pow256(w - 1);
    assert -p < diff < p;
    if diff > 0 {
      ModSmall(diff, p);
    } else if diff < 0 {
      ModShift(diff, p);
    }
    var d := Wrap(diff, w);
    assert d == 0 <==> diff == 0;
    assert d != 0 ==> (if d < 0 then -d else d) >= 1;
  }

  lemma ModSmall(a: int, p: int)
    requires 0 <= a < p
    ensures a % p == a
  {
  }

  lemma ModShift(a: int, p: int)
    requires -p <= a < 0
    ensures a % p == a + p
  {
    ModSmall(a + p, p);
    assert (a + p) % p == a % p;
  }

  /** IEEE-754 comparisons that the model does not interpret: whether a
      stored 32-bit (resp. 64-bit) pattern lies within 1e-15 of the query
      bound converted to that width, and whether the 32-bit difference is
      finite (below the largest float64). */
  datatype FloatOps = FloatOps(near32: (int, real) -> bool,
                               near64: (int, real) -> bool,
                               finite32: (int, real) -> bool)

  // -------------------------------------------------- little-endian bytes

  function LittleEndian(w: nat, u: nat): (bs: seq<Byte>)
    requires u < Pow256(w)
    ensures |bs| == w
  {
    if w == 0 then [] else [u % 256] + LittleEndian(w - 1, u / 256)
  }

  function FromLittleEndian(bs: seq<Byte>): nat
  {
    if bs == [] then 0 else bs[0] + 256 * FromLittleEndian(bs[1..])
  }

  lemma {:induction false} LittleEndianRoundTrip(w: nat, u: nat)
    requires u < Pow256(w)
    ensures FromLittleEndian(LittleEndian(w, u)) == u
  {
    if w > 0 {
      LittleEndianRoundTrip(w - 1, u / 256);
      assert LittleEndian(w, u)[1..] == LittleEndian(w - 1, u / 256);
    }
  }

  /** The unsigned pattern binary.Write puts on the wire for a stored value. */
  function Bits(k: Kind, x: int): (u: nat)
    requires Encodable(k)
    ensures u < Pow256(Width(k))
  {
    x % Pow256(Width(k))
  }

  /** The stored value a pattern decodes to: sign-extended for the signed
      integer kinds, the pattern itself otherwise. */
  function FromBits(k: Kind, u: nat): int
    requires Encodable(k)
  {
    if k in {BYTE, SHORT, INT, INT64} && u >= Pow256(Width(k)) / 2 then u - Pow256(Width(k)) else u
  }

  lemma BitsRoundTrip(k: Kind, x: int)
    requires Encodable(k) && InRange(k, x)
    ensures FromBits(k, Bits(k, x)) == x
  {
    var w := Width(k);
    var p := Pow256(w);
    var q := Pow256(w - 1);
    assert p == 256 * q;
    assert p / 2 == 128 * q;
    if x < 0 {
      ModShift(x, p);
    } else {
      ModSmall(x, p);
    }
  }

  /** One element little-endian at the kind's width. */
  function EncodeElem(k: Kind, x: int): (bs: seq<Byte>)
    requires Encodable(k)
    ensures |bs| == Width(k)
  {
    LittleEndian(Width(k), Bits(k, x))
  }

  /** binary.Write(buf, binary.LittleEndian, data): the elements one after
      another, no padding. */
  function Encode(k: Kind, xs: seq<int>): seq<Byte>
    requires Encodable(k)
  {
    if xs == [] then [] else Encode(k, xs[..|xs| - 1]) + EncodeElem(k, xs[|xs| - 1])
  }

  /** Read the bytes back at the kind's stride. */
  function Decode(k: Kind, bs: seq<Byte>): seq<int>
    requires Encodable(k)
    decreases |bs|
  {
    if |bs| < Width(k) then []
    else [FromBits(k, FromLittleEndian(bs[..Width(k)]))] + Decode(k, bs[Width(k)..])
  }

  lemma {:induction false} EncodeLength(k: Kind, xs: seq<int>)
    requires Encodable(k)
    ensures |Encode(k, xs)| == Width(k) * |xs|
  {
    if xs != [] {
      EncodeLength(k, xs[..|xs| - 1]);
    }
  }

  /** Encode front to back: the first element's bytes come first. */
  lemma {:induction false} EncodeCons(k: Kind, x: int, xs: seq<int>)
    requires Encodable(k)
    ensures Encode(k, [x] + xs) == EncodeElem(k, x) + Encode(k, xs)
  {
    if xs != [] {
      var t := [x] + xs;
      assert t[..|t| - 1] == [x] + xs[..|xs| - 1];
      EncodeCons(k, x, xs[..|xs| - 1]);
    }
  }

  /** Decoding at the element stride gives back exactly the encoded
      array, for every supported kind. */
  lemma {:induction false} DecodeEncode(k: Kind, xs: seq<int>)
    requires Encodable(k)
    requires forall i :: 0 <= i < |xs| ==> InRange(k, xs[i])
    ensures Decode(k, Encode(k, xs)) == xs
  {
    if xs != [] {
      var w := Width(k);
      EncodeCons(k, xs[0], xs[1..]);
      assert [xs[0]] + xs[1..] == xs;
      var e := EncodeElem(k, xs[0]);
      var rest := Encode(k, xs[1..]);
      assert (e + rest)[..w] == e;
      assert (e + rest)[w..] == rest;
      LittleEndianRoundTrip(w, Bits(k, xs[0]));
      BitsRoundTrip(k, xs[0]);
      DecodeEncode(k, xs[1..]);
    }
  }
}
