/** Bytes, public keys and little-endian words. */
module Bytes {
  // Where keys are only compared, the number their 32 bytes spell stands for them.
  type Key = nat
  type Byte = x: nat | x < 256
  type Pubkey = s: seq<Byte> | |s| == 32 witness seq(32, _ => 0)

  /** The `k` low bytes of `n`, lowest first. */
  function ToLE(n: nat, k: nat): (s: seq<Byte>)
    ensures |s| == k
  {
    if k == 0 then [] else [n % 256] + ToLE(n / 256, k - 1)
  }

  function FromLE(s: seq<Byte>): nat {
    if s == [] then 0 else s[0] + 256 * FromLE(s[1..])
  }

  function Pow256(k: nat): nat {
    if k == 0 then 1 else 256 * Pow256(k - 1)
  }

  lemma {:induction false} NumberRoundTrip(n: nat, k: nat)
    requires n < Pow256(k)
    ensures FromLE(ToLE(n, k)) == n
  {
    if k > 0 {
      NumberRoundTrip(n / 256, k - 1);
    }
  }

  lemma LowByte(low: Byte, high: nat)
    ensures (low + 256 * high) % 256 == low && (low + 256 * high) / 256 == high
  {
  }

  lemma {:induction false} BytesRoundTrip(s: seq<Byte>)
    ensures FromLE(s) < Pow256(|s|)
    ensures ToLE(FromLE(s), |s|) == s
  {
    if s != [] {
      BytesRoundTrip(s[1..]);
      LowByte(s[0], FromLE(s[1..]));
    }
  }
}
