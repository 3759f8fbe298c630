/** A signature is the bytes of r followed by the bytes of s; the reader cuts it in the middle. */
module Signature {
  import opened TrieSpec

  /** big.Int.Bytes: big-endian, no leading zero byte, nothing at all for zero. */
  function Bytes(n: nat): seq<byte> {
    if n == 0 then [] else Bytes(n / 256) + [n % 256]
  }

  /** big.Int.SetBytes. */
  function Number(bs: seq<byte>): nat {
    if bs == [] then 0 else Number(bs[..|bs| - 1]) * 256 + bs[|bs| - 1]
  }

  function Power(n: nat): (p: nat)
    ensures p > 0
  {
    if n == 0 then 1 else 256 * Power(n - 1)
  }

  function Concatenated(r: nat, s: nat): seq<byte> { Bytes(r) + Bytes(s) }

  function Split(sig: seq<byte>): (nat, nat) {
    var half := |sig| / 2;
    (Number(sig[..half]), Number(sig[half..]))
  }

  lemma {:induction false} BytesRoundTrip(n: nat)
    ensures Number(Bytes(n)) == n
    ensures n > 0 ==> |Bytes(n)| > 0 && Bytes(n)[0] != 0
  {
    if n > 0 {
      BytesRoundTrip(n / 256);
      var bs := Bytes(n);
      assert bs[..|bs| - 1] == Bytes(n / 256);
    }
  }

  lemma {:induction false} NumberBelow(bs: seq<byte>)
    ensures Number(bs) < Power(|bs|)
  {
    if bs != [] { NumberBelow(bs[..|bs| - 1]); }
  }

  lemma {:induction false} NumberAtLeast(bs: seq<byte>)
    requires bs != [] && bs[0] != 0
    ensures Number(bs) >= Power(|bs| - 1)
  {
    if |bs| == 1 {
      assert bs[..0] == [];
    } else {
      NumberAtLeast(bs[..|bs| - 1]);
    }
  }

  lemma {:induction false} PowerGrows(i: nat, j: nat)
    requires i <= j
    ensures Power(i) <= Power(j)
  {
    if i < j { PowerGrows(i, j - 1); }
  }

  /** Numbers whose first bytes are not zero are ordered by their lengths. */
  lemma {:induction false} LongerIsLarger(a: seq<byte>, b: seq<byte>)
    requires |a| < |b| && b[0] != 0
    ensures Number(a) < Number(b)
  {
    NumberBelow(a);
    NumberAtLeast(b);
    PowerGrows(|a|, |b| - 1);
  }

  /** Cutting in the middle gives r and s back exactly when s has as many bytes as r, or one more. */
  lemma {:induction false} SplitRecoversIff(r: nat, s: nat)
    requires r > 0 && s > 0
    ensures Split(Concatenated(r, s)) == (r, s) <==> |Bytes(s)| == |Bytes(r)| || |Bytes(s)| == |Bytes(r)| + 1
  {
    var a, b := Bytes(r), Bytes(s);
    var sig := a + b;
    var half := |sig| / 2;
    BytesRoundTrip(r);
    BytesRoundTrip(s);
    if half == |a| {
      assert sig[..half] == a && sig[half..] == b;
    } else if half < |a| {
      LongerIsLarger(sig[..half], a);
    } else {
      assert sig[..half][0] == a[0];
      LongerIsLarger(a, sig[..half]);
    }
  }

  /** A signature that is written correctly and read back as another: r = 256, s = 1. */
  lemma {:induction false} ShortSIsMisread()
    ensures Concatenated(256, 1) == [1, 0, 1]
    ensures Split(Concatenated(256, 1)) == (1, 1)
  {
    assert Bytes(1) == [1];
    assert Bytes(256) == Bytes(1) + [0];
    var sig: seq<byte> := [1, 0, 1];
    assert sig[..1] == [1] && sig[1..] == [0, 1];
    assert Number([1]) == 1 by { assert [1][..0] == []; }
    assert Number([0, 1]) == 1 by { assert [0, 1][..1] == [0]; assert [0][..0] == []; }
  }
}
