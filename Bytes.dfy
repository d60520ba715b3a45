/** Bytes and the big-endian integer encodings used on the wire
    (Python's `int.to_bytes(n, width, "big")` and `int.from_bytes(b, "big")`). */
module Bytes {

  type Byte = b: int | 0 <= b < 256

  /** 256 to the power `w`: the number of values a `w`-byte field can hold. */
  function Pow256(w: nat): (r: nat)
    ensures r >= 1
  {
    if w == 0 then 1 else 256 * Pow256(w - 1)
  }

  /** `n` as exactly `width` big-endian bytes. `to_bytes` raises
      OverflowError for a value that does not fit, hence the precondition. */
  function ToBE(n: nat, width: nat): (r: seq<Byte>)
    requires n < Pow256(width)
    ensures |r| == width
    decreases width
  {
    if width == 0 then []
    else ToBE(n / 256, width - 1) + [n % 256]
  }

  /** The unsigned value of a big-endian byte string. */
  function FromBE(s: seq<Byte>): (n: nat)
    ensures n < Pow256(|s|)
  {
    if s == [] then 0 else FromBE(s[..|s| - 1]) * 256 + s[|s| - 1]
  }

  /** Reading back what was written returns the original value. */
  lemma {:induction false} FromBEToBE(n: nat, width: nat)
    requires n < Pow256(width)
    ensures FromBE(ToBE(n, width)) == n
    decreases width
  {
    if width > 0 {
      var r := ToBE(n, width);
      FromBEToBE(n / 256, width - 1);
      assert r[..width - 1] == ToBE(n / 256, width - 1);
    }
  }

  /** Writing back what was read returns the original bytes: the encoding
      of a `w`-byte field is a bijection onto the values below 256^w. */
  lemma {:induction false} ToBEFromBE(s: seq<Byte>)
    ensures ToBE(FromBE(s), |s|) == s
  {
    if s != [] {
      var p := s[..|s| - 1];
      ToBEFromBE(p);
      var n := FromBE(s);
      assert n / 256 == FromBE(p) && n % 256 == s[|s| - 1];
      assert s == p + [s[|s| - 1]];
    }
  }

  /** A block of `n` zero bytes, as a freshly allocated `bytearray(n)` holds. */
  function Zeros(n: nat): (r: seq<Byte>)
    ensures |r| == n && forall i :: 0 <= i < n ==> r[i] == 0
  {
    seq(n, _ => 0)
  }
}
