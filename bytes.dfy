/** Bytes, optional values and the big-endian integer conversions that Python's
    int.to_bytes / int.from_bytes and struct.pack('>H' / '>I') perform. */
module Bytes {

  type byte = b: int | 0 <= b < 256

  datatype Option<+T> = None | Some(value: T)

  /** 256 to the power n: one more than the largest unsigned value of n bytes. */
  function Pow256(n: nat): (r: nat)
    ensures r >= 1
  {
    if n == 0 then 1 else 256 * Pow256(n - 1)
  }

  /** int.from_bytes(s, 'big'): the unsigned big-endian value of s. */
  function UIntValue(s: seq<byte>): (r: nat)
    ensures r < Pow256(|s|)
  {
    if s == [] then 0
    else
      var p := UIntValue(s[..|s| - 1]);
      assert p * 256 + s[|s| - 1] < Pow256(|s| - 1) * 256 by {
        assert p + 1 <= Pow256(|s| - 1);
        assert (p + 1) * 256 <= Pow256(|s| - 1) * 256;
      }
      p * 256 + s[|s| - 1]
  }

  /** The width-byte big-endian encoding of n (n.to_bytes(width, 'big') when it fits). */
  function UIntBytes(n: nat, width: nat): (r: seq<byte>)
    requires n < Pow256(width)
    ensures |r| == width
  {
    if width == 0 then []
    else
      assert n / 256 < Pow256(width - 1) by {
        DivBound(n, Pow256(width - 1));
      }
      UIntBytes(n / 256, width - 1) + [n % 256]
  }

  lemma DivBound(n: nat, p: nat)
    requires n < 256 * p
    ensures n / 256 < p
  {
  }

  /** Decoding an encoding gives the number back. */
  lemma {:induction false} UIntRoundTrip(n: nat, width: nat)
    requires n < Pow256(width)
    ensures UIntValue(UIntBytes(n, width)) == n
  {
    if width > 0 {
      var r := UIntBytes(n, width);
      assert n / 256 < Pow256(width - 1) by { DivBound(n, Pow256(width - 1)); }
      assert r[..|r| - 1] == UIntBytes(n / 256, width - 1);
      UIntRoundTrip(n / 256, width - 1);
    }
  }

  /** Encoding a decoded value at the same width gives the bytes back. */
  lemma {:induction false} UIntBytesOfValue(s: seq<byte>)
    ensures UIntBytes(UIntValue(s), |s|) == s
  {
    if s != [] {
      var p := s[..|s| - 1];
      UIntBytesOfValue(p);
      var n := UIntValue(s);
      assert n / 256 == UIntValue(p) && n % 256 == s[|s| - 1];
      assert s == p + [s[|s| - 1]];
    }
  }

  /** int.from_bytes(s, 'big', signed=True): two's complement value of s. */
  function SIntValue(s: seq<byte>): (r: int)
    ensures -(Pow256(|s|) as int) <= 2 * r < Pow256(|s|)
  {
    var u := UIntValue(s);
    if 2 * u >= Pow256(|s|) then u - Pow256(|s|) else u
  }

  /** int.from_bytes(s, 'big', signed=signed). */
  function FromBytes(s: seq<byte>, signed: bool): int
  {
    if signed then SIntValue(s) else UIntValue(s)
  }

  /** Whether i.to_bytes(width, 'big', signed=signed) succeeds instead of raising OverflowError. */
  predicate Fits(i: int, width: nat, signed: bool)
  {
    if signed then -(Pow256(width) as int) <= 2 * i < Pow256(width) else 0 <= i < Pow256(width)
  }

  /** i.to_bytes(width, 'big', signed=signed); None stands for the OverflowError. */
  function ToBytes(i: int, width: nat, signed: bool): (r: Option<seq<byte>>)
    ensures r.Some? <==> Fits(i, width, signed)
    ensures r.Some? ==> |r.value| == width
  {
    if !Fits(i, width, signed) then None
    else if i < 0 then Some(UIntBytes(i + Pow256(width), width))
    else Some(UIntBytes(i, width))
  }

  /** to_bytes followed by from_bytes with the same signedness is the identity. */
  lemma ToBytesRoundTrip(i: int, width: nat, signed: bool)
    requires Fits(i, width, signed)
    ensures ToBytes(i, width, signed).Some?
    ensures FromBytes(ToBytes(i, width, signed).value, signed) == i
  {
    if i < 0 {
      UIntRoundTrip(i + Pow256(width), width);
    } else {
      UIntRoundTrip(i, width);
    }
  }

  /** from_bytes followed by to_bytes at the same width is the identity. */
  lemma FromBytesRoundTrip(s: seq<byte>, signed: bool)
    ensures Fits(FromBytes(s, signed), |s|, signed)
    ensures ToBytes(FromBytes(s, signed), |s|, signed) == Some(s)
  {
    UIntBytesOfValue(s);
  }

  /** Python's s[i:j] for non-negative bounds: clipped to the sequence, empty when i >= j. */
  function Slice<T>(s: seq<T>, i: nat, j: nat): (r: seq<T>)
    ensures |r| == if i < j && i < |s| then (if j < |s| then j else |s|) - i else 0
    ensures forall k :: 0 <= k < |r| ==> r[k] == s[i + k]
  {
    var hi := if j < |s| then j else |s|;
    if i < hi then s[i..hi] else []
  }
}
