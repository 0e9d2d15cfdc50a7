/** Fixed-width little-endian integers, as the engine writes them with memcpy. */
module Bytes {

  type byte = b: int | 0 <= b < 256

  /** The number of values a k-byte integer can hold. */
  function Pow256(k: nat): (r: nat)
    ensures r > 0
  {
    if k == 0 then 1 else 256 * Pow256(k - 1)
  }

  function Digit(n: nat, i: nat): byte {
    if i == 0 then n % 256 else Digit(n / 256, i - 1)
  }

  /** The k low-order bytes of n, least significant first. */
  function Encode(n: nat, k: nat): (s: seq<byte>)
    ensures |s| == k
  {
    seq(k, i requires 0 <= i < k => Digit(n, i))
  }

  lemma EncodeStep(n: nat, k: nat)
    requires k > 0
    ensures Encode(n, k) == [n % 256] + Encode(n / 256, k - 1)
  {
  }

  function Decode(s: seq<byte>): (n: nat) {
    if s == [] then 0 else s[0] + 256 * Decode(s[1..])
  }

  lemma {:induction false} DecodeEncode(n: nat, k: nat)
    requires n < Pow256(k)
    ensures Decode(Encode(n, k)) == n
  {
    if k > 0 {
      DecodeEncode(n / 256, k - 1);
      EncodeStep(n, k);
      assert Encode(n, k)[1..] == Encode(n / 256, k - 1);
    }
  }

  lemma {:induction false} EncodeDecode(s: seq<byte>)
    ensures Decode(s) < Pow256(|s|)
    ensures Encode(Decode(s), |s|) == s
  {
    if s != [] {
      EncodeDecode(s[1..]);
      DivMod(s[0], Decode(s[1..]));
      EncodeStep(Decode(s), |s|);
      assert s == [s[0]] + s[1..];
    }
  }

  lemma DivMod(low: byte, high: nat)
    ensures (low + 256 * high) % 256 == low && (low + 256 * high) / 256 == high
  {
  }
}
