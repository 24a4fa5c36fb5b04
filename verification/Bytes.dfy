/** Bytes and big-endian numbers, shared by the patch format and the wire framing. */
module Bytes {

  type byte = b: int | 0 <= b < 0x100

  /** A stream that arrives in pieces. */
  function Concat(pieces: seq<seq<byte>>): seq<byte> { if pieces == [] then [] else pieces[0] + Concat(pieces[1..]) }

  function Pow256(w: nat): (r: nat)
    ensures r > 0
  {
    if w == 0 then 1 else 0x100 * Pow256(w - 1)
  }

  /** The `w` low bytes of `n`, most significant first. */
  function ToBE(n: nat, w: nat): (s: seq<byte>)
    ensures |s| == w
  {
    if w == 0 then [] else ToBE(n / 0x100, w - 1) + [n % 0x100]
  }

  function FromBE(s: seq<byte>): nat {
    if |s| == 0 then 0 else FromBE(s[..|s| - 1]) * 0x100 + s[|s| - 1]
  }

  lemma {:induction false} FromToBE(n: nat, w: nat)
    requires n < Pow256(w)
    ensures FromBE(ToBE(n, w)) == n
  {
    if w > 0 {
      FromToBE(n / 0x100, w - 1);
      assert ToBE(n, w)[..w - 1] == ToBE(n / 0x100, w - 1);
    }
  }

  lemma {:induction false} ToFromBE(s: seq<byte>)
    ensures FromBE(s) < Pow256(|s|) && ToBE(FromBE(s), |s|) == s
  {
    if |s| > 0 {
      ToFromBE(s[..|s| - 1]);
    }
  }

  lemma Pow256Values()
    ensures Pow256(2) == 0x1_0000 && Pow256(3) == 0x100_0000 && Pow256(4) == 0x1_0000_0000
  {
    assert Pow256(1) == 0x100;
    assert Pow256(2) == 0x1_0000;
    assert Pow256(3) == 0x100_0000;
  }
}
