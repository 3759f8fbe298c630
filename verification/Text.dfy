/** The strings the node builds map keys from, and the order it sorts them in. */
module Text {

  function Digit(d: nat): char
    requires d < 10
  {
    '0' + d as char
  }

  /** Decimal notation of a natural number, without leading zeros. */
  function DecimalNat(n: nat): string {
    if n < 10 then [Digit(n)] else DecimalNat(n / 10) + [Digit(n % 10)]
  }

  /** What the verb %d prints. */
  function Decimal(n: int): string {
    if n < 0 then "-" + DecimalNat(-n) else DecimalNat(n)
  }

  /** The map key "txid-index" of a transaction output. */
  function OutpointKey(txid: string, index: int): string {
    txid + "-" + Decimal(index)
  }

  lemma {:induction false} DecimalNatShape(n: nat)
    ensures |DecimalNat(n)| > 0
    ensures forall i :: 0 <= i < |DecimalNat(n)| ==> '0' <= DecimalNat(n)[i] <= '9'
  {
    if n >= 10 { DecimalNatShape(n / 10); }
  }

  lemma {:induction false} DecimalNatInjective(a: nat, b: nat)
    requires DecimalNat(a) == DecimalNat(b)
    ensures a == b
  {
    var s := DecimalNat(a);
    DecimalNatShape(a / 10);
    DecimalNatShape(b / 10);
    if a >= 10 {
      assert b >= 10;
      assert s[..|s| - 1] == DecimalNat(a / 10) == DecimalNat(b / 10);
      DecimalNatInjective(a / 10, b / 10);
      assert Digit(a % 10) == s[|s| - 1] == Digit(b % 10);
    } else {
      assert b < 10;
      assert Digit(a) == s[0] == Digit(b);
    }
  }

  /** Keys of outputs (indices are never negative there) identify the output. */
  lemma {:induction false} OutpointKeyInjective(t: string, i: nat, u: string, j: nat)
    requires OutpointKey(t, i) == OutpointKey(u, j)
    ensures t == u && i == j
  {
    var s := OutpointKey(t, i);
    var a, b := DecimalNat(i), DecimalNat(j);
    DecimalNatShape(i);
    DecimalNatShape(j);
    assert s[|t|] == '-' && s[|u|] == '-';
    assert |t| == |u|;
    assert t == s[..|t|] == u;
    assert a == s[|t| + 1..] == b;
    DecimalNatInjective(i, j);
  }

  /** An input may name a negative index; its key can then be some other output's key. */
  lemma {:induction false} NegativeIndexCollides(t: string)
    ensures OutpointKey(t, -1) == OutpointKey(t + "-", 1)
  {
    assert DecimalNat(1) == "1";
    assert t + "-" + ("-" + "1") == (t + "-") + "-" + "1";
  }

  /** Lexicographic order, as sort.Strings uses it. */
  predicate Before(a: string, b: string) {
    b != [] && (a == [] || a[0] < b[0] || (a[0] == b[0] && Before(a[1..], b[1..])))
  }

  lemma {:induction false} BeforeTotal(a: string, b: string)
    ensures a == b || Before(a, b) || Before(b, a)
  {
    if a != [] && b != [] && a[0] == b[0] {
      BeforeTotal(a[1..], b[1..]);
      if a[1..] == b[1..] {
        assert a == [a[0]] + a[1..] == [b[0]] + b[1..] == b;
      }
    }
  }

  lemma {:induction false} BeforeTransitive(a: string, b: string, c: string)
    requires Before(a, b) && Before(b, c)
    ensures Before(a, c)
  {
    if a != [] && a[0] == b[0] && b[0] == c[0] {
      BeforeTransitive(a[1..], b[1..], c[1..]);
    }
  }

  lemma {:induction false} BeforeIrreflexive(a: string)
    ensures !Before(a, a)
  {
    if a != [] { BeforeIrreflexive(a[1..]); }
  }

  /** Two strings agree up to a position and differ there: the smaller character decides. */
  lemma {:induction false} BeforeDecides(a: string, b: string, n: nat)
    requires n < |a| && n < |b| && a[..n] == b[..n] && a[n] != b[n]
    ensures Before(a, b) <==> a[n] < b[n]
  {
    if n > 0 {
      assert a[0] == a[..n][0] == b[..n][0] == b[0];
      assert a[1..][..n - 1] == a[..n][1..] == b[..n][1..] == b[1..][..n - 1];
      BeforeDecides(a[1..], b[1..], n - 1);
    }
  }

  /** A proper beginning comes first. */
  lemma {:induction false} BeginningIsBefore(a: string, b: string)
    requires |a| < |b| && a == b[..|a|]
    ensures Before(a, b)
  {
    if a != [] {
      assert a[0] == b[0];
      assert a[1..] == b[1..][..|a| - 1];
      BeginningIsBefore(a[1..], b[1..]);
    }
  }

  /** The number a string of digits stands for. */
  function Value(s: string): int {
    if s == [] then 0 else 10 * Value(s[..|s| - 1]) + (s[|s| - 1] as int - 48)
  }

  /** Decimal notation reads back as the number, and starts with 0 for 0 only. */
  lemma {:induction false} DecimalReadsBack(n: nat)
    ensures Value(DecimalNat(n)) == n
    ensures DecimalNat(n)[0] == '0' <==> n == 0
  {
    var s := DecimalNat(n);
    DecimalNatShape(n);
    if n < 10 {
      assert s[..0] == [];
      assert '0' as int == 48;
    } else {
      DecimalReadsBack(n / 10);
      DecimalNatShape(n / 10);
      assert s[..|s| - 1] == DecimalNat(n / 10);
      assert s[0] == DecimalNat(n / 10)[0];
    }
  }
}
