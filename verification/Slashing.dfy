/** Violations, slashing by half, and where the slashed stake goes. */
module Slashing {
  import opened Types

  const SLASHING_THRESHOLD := 3
  const PROBATION_SECONDS := 86400

  datatype Status = Pending | Active | Probation | Slashed | Inactive

  datatype Evidence = Evidence(address: string, kind: string, height: nat, time: int, violation: nat)

  class Validator {
    const address: string
    var violations: nat
    var status: Status
    var score: nat
    var probationEnd: int

    constructor (address: string, score: nat)
      ensures this.address == address && this.score == score && violations == 0 && status == Active
    {
      this.address, this.score := address, score;
      violations, status, probationEnd := 0, Active, 0;
    }
  }

  datatype Outcome = Ok | InvalidValidator | NoStake | RecordFailed

  /** The stake left and the penalty booked when an amount is slashed: the stake loses whole units only. */
  function Kept(amount: nat): nat { amount - amount / 2 }

  function Penalty(amount: nat): real { amount as real * 0.5 }

  class SlashingManager {
    var stakes: map<string, nat>
    var communityPool: real
    var evidence: map<string, seq<Evidence>>

    constructor (stakes: map<string, nat>)
      ensures this.stakes == stakes && communityPool == 0.0 && evidence == map[]
    {
      this.stakes, communityPool, evidence := stakes, 0.0, map[];
    }

    ghost function Filed(address: string): seq<Evidence>
      reads this
    {
      if address in evidence then evidence[address] else []
    }

    method HandleViolation(validator: Validator?, kind: string, height: nat, now: int, stored: bool)
      returns (r: Outcome)
      modifies this, validator
      ensures validator == null ==> r == InvalidValidator
      ensures validator == null ==> unchanged(this)
      ensures validator != null ==>
        var a, v := validator.address, old(validator.violations) + 1;
        && validator.violations == v
        && evidence == old(evidence)[a := old(Filed(a)) + [Evidence(a, kind, height, now, v)]]
        && (v < 3 ==>
              && r == Ok && stakes == old(stakes) && communityPool == old(communityPool)
              && validator.status == Probation && validator.probationEnd == now + 86400
              && validator.score == old(validator.score))
        && (v >= 3 ==> validator.probationEnd == old(validator.probationEnd))
        && (v >= 3 && a !in old(stakes) ==>
              && r == NoStake && stakes == old(stakes) && communityPool == old(communityPool)
              && validator.status == old(validator.status) && validator.score == old(validator.score))
        && (v >= 3 && a in old(stakes) ==>
              && r == (if stored then Ok else RecordFailed)
              && stakes == old(stakes)[a := old(stakes)[a] - old(stakes)[a] / 2]
              && communityPool == old(communityPool) + old(stakes)[a] as real / 2.0
              && validator.status == Slashed && validator.score == 0)
    {
      if validator == null {
        return InvalidValidator;
      }
      validator.violations := validator.violations + 1;
      var a := validator.address;
      var earlier := if a in evidence then evidence[a] else [];
      evidence := evidence[a := earlier + [Evidence(a, kind, height, now, validator.violations)]];
      if validator.violations >= SLASHING_THRESHOLD {
        r := SlashValidator(validator, stored);
        return;
      }
      validator.status := Probation;
      validator.probationEnd := now + PROBATION_SECONDS;
      r := Ok;
    }

    /** The event is stored last: if that fails, the penalty has already been applied. */
    method SlashValidator(validator: Validator, stored: bool) returns (r: Outcome)
      modifies `stakes, `communityPool, validator`status, validator`score
      ensures var a := validator.address;
        && (a !in old(stakes) ==>
              && r == NoStake && stakes == old(stakes) && communityPool == old(communityPool)
              && validator.status == old(validator.status) && validator.score == old(validator.score))
        && (a in old(stakes) ==>
              && r == (if stored then Ok else RecordFailed)
              && stakes == old(stakes)[a := old(stakes)[a] - old(stakes)[a] / 2]
              && communityPool == old(communityPool) + old(stakes)[a] as real / 2.0
              && validator.status == Slashed && validator.score == 0)
    {
      var a := validator.address;
      if a !in stakes {
        return NoStake;
      }
      var penaltyAmount := stakes[a] as real * 0.5;
      FloorOfHalf(stakes[a]);
      stakes := stakes[a := stakes[a] - penaltyAmount.Floor];
      validator.status := Slashed;
      validator.score := 0;
      communityPool := communityPool + penaltyAmount;
      r := if stored then Ok else RecordFailed;
    }
  }

  lemma {:induction false} FloorOfHalf(n: nat)
    ensures (n as real * 0.5).Floor == n / 2
  {
    var h, odd := n / 2, n % 2;
    assert n as real * 0.5 == h as real + odd as real * 0.5;
  }

  // ---------- any number of violations ----------

  /** One validator's violations and stake together with the community pool. */
  datatype Account = Account(violations: nat, amount: nat, pool: real)

  function Violate(c: Account): Account {
    var v := c.violations + 1;
    if v >= SLASHING_THRESHOLD then Account(v, Kept(c.amount), c.pool + Penalty(c.amount))
    else c.(violations := v)
  }

  function ViolateTimes(c: Account, n: nat): Account {
    if n == 0 then c else Violate(ViolateTimes(c, n - 1))
  }

  /** Any run of violations of one validator with a stake does what ViolateTimes says, and touches no other stake. */
  method ViolateRun(sm: SlashingManager, validator: Validator, n: nat, kind: string)
    requires validator.address in sm.stakes
    modifies sm, validator
    ensures validator.address in sm.stakes
    ensures Account(validator.violations, sm.stakes[validator.address], sm.communityPool) ==
            ViolateTimes(old(Account(validator.violations, sm.stakes[validator.address], sm.communityPool)), n)
    ensures sm.stakes == old(sm.stakes)[validator.address := sm.stakes[validator.address]]
  {
    for i := 0 to n
      invariant validator.address in sm.stakes
      invariant Account(validator.violations, sm.stakes[validator.address], sm.communityPool) ==
                ViolateTimes(old(Account(validator.violations, sm.stakes[validator.address], sm.communityPool)), i)
      invariant sm.stakes == old(sm.stakes)[validator.address := sm.stakes[validator.address]]
    {
      var _ := sm.HandleViolation(validator, kind, 0, 0, true);
    }
  }

  function Pow2(n: nat): (p: nat)
    ensures p >= 1
  {
    if n == 0 then 1 else 2 * Pow2(n - 1)
  }

  function CeilDiv(a: nat, b: nat): nat
    requires b > 0
  {
    (a + b - 1) / b
  }

  lemma {:induction false} CeilDivUnique(a: nat, b: nat, q: int)
    requires b > 0 && (q - 1) * b < a <= q * b
    ensures CeilDiv(a, b) == q
  {
    var x := a + b - 1;
    assert q * b <= x by { assert (q - 1) * b == q * b - b; }
    assert x < q * b + b;
    QuotientUnique(x, b, q);
  }

  lemma {:induction false} QuotientUnique(x: nat, b: nat, q: int)
    requires b > 0 && q * b <= x < q * b + b
    ensures x / b == q
  {
    var p, r := x / b, x % b;
    assert x == p * b + r;
    assert (p + 1) * b == p * b + b && (q + 1) * b == q * b + b;
    LessByProduct(p, q + 1, b);
    LessByProduct(q, p + 1, b);
  }

  lemma {:induction false} LessByProduct(i: int, j: int, b: nat)
    requires i * b < j * b
    ensures i < j
  {
  }

  lemma {:induction false} CeilDivBounds(a: nat, b: nat)
    requires b > 0
    ensures (CeilDiv(a, b) - 1) * b < a <= CeilDiv(a, b) * b
  {
    var x := a + b - 1;
    var q := x / b;
    assert x == q * b + x % b;
    assert (q - 1) * b == q * b - b;
  }

  /** Keeping the larger half of a rounded-up quotient is dividing by twice as much, rounded up. */
  lemma {:induction false} KeptOfCeil(a: nat, b: nat)
    requires b > 0
    ensures Kept(CeilDiv(a, b)) == CeilDiv(a, 2 * b)
  {
    var c := CeilDiv(a, b);
    CeilDivBounds(a, b);
    KeptBounds(a, b, c, Kept(c));
    CeilDivUnique(a, 2 * b, Kept(c));
  }

  lemma {:induction false} KeptBounds(a: nat, b: nat, c: int, k: int)
    requires (c - 1) * b < a <= c * b
    requires c == 2 * k || c == 2 * k - 1
    ensures (k - 1) * (2 * b) < a <= k * (2 * b)
  {
    TwiceTimes(k, b);
  }

  lemma {:induction false} TwiceTimes(k: int, b: nat)
    ensures (2 * k) * b == k * (2 * b)
    ensures (2 * k - 1) * b == k * (2 * b) - b
    ensures (2 * k - 2) * b == k * (2 * b) - 2 * b == (k - 1) * (2 * b)
  {
  }

  /** From a clean record: two violations are free, and after 2 + k the stake is the k-fold half, rounded up. */
  lemma {:induction false} StakeAfterViolations(amount: nat, pool: real, k: nat)
    ensures ViolateTimes(Account(0, amount, pool), 0) == Account(0, amount, pool)
    ensures ViolateTimes(Account(0, amount, pool), 1) == Account(1, amount, pool)
    ensures ViolateTimes(Account(0, amount, pool), 2 + k).amount == CeilDiv(amount, Pow2(k))
    ensures ViolateTimes(Account(0, amount, pool), 2 + k).violations == 2 + k
  {
    var c := Account(0, amount, pool);
    assert ViolateTimes(c, 1) == Violate(ViolateTimes(c, 0));
    if k == 0 {
      assert ViolateTimes(c, 2) == Violate(ViolateTimes(c, 1));
    } else {
      StakeAfterViolations(amount, pool, k - 1);
      KeptOfCeil(amount, Pow2(k - 1));
      assert ViolateTimes(c, 2 + k) == Violate(ViolateTimes(c, 2 + k - 1));
    }
  }

  /** A stake never runs out: no number of violations takes the last unit. */
  lemma {:induction false} StakeNeverRunsOut(amount: nat, pool: real, n: nat)
    requires amount > 0
    ensures ViolateTimes(Account(0, amount, pool), n).amount > 0
  {
    if n >= 2 {
      StakeAfterViolations(amount, pool, n - 2);
      CeilDivBounds(amount, Pow2(n - 2));
    } else {
      StakeAfterViolations(amount, pool, 0);
    }
  }

  // ---------- what slashing creates out of nothing ----------

  /** How many of the first k slashes hit an odd amount. */
  function OddSlashes(amount: nat, k: nat): nat {
    if k == 0 then 0 else OddSlashes(amount, k - 1) + CeilDiv(amount, Pow2(k - 1)) % 2
  }

  function Worth(c: Account): real { c.amount as real + c.pool }

  /** Stake and community pool together grow by exactly one half for every slash of an odd amount. */
  lemma {:induction false} WorthAfterViolations(amount: nat, pool: real, k: nat)
    ensures Worth(ViolateTimes(Account(0, amount, pool), 2 + k)) ==
            amount as real + pool + OddSlashes(amount, k) as real * 0.5
  {
    var c := Account(0, amount, pool);
    StakeAfterViolations(amount, pool, k);
    if k == 0 {
      assert ViolateTimes(c, 2) == Violate(ViolateTimes(c, 1));
      assert ViolateTimes(c, 2).pool == pool && CeilDiv(amount, 1) == amount;
    } else {
      WorthAfterViolations(amount, pool, k - 1);
      StakeAfterViolations(amount, pool, k - 1);
      SlashWorth(ViolateTimes(c, 2 + k - 1));
      assert ViolateTimes(c, 2 + k) == Violate(ViolateTimes(c, 2 + k - 1));
    }
  }

  lemma {:induction false} SlashWorth(c: Account)
    requires c.violations + 1 >= SLASHING_THRESHOLD
    ensures Worth(Violate(c)) == Worth(c) + (c.amount % 2) as real * 0.5
  {
    var h, odd := c.amount / 2, c.amount % 2;
    assert Kept(c.amount) == h + odd;
    assert c.amount as real == 2.0 * h as real + odd as real;
  }

  /** Nothing is created over k slashes exactly when 2^k divides the stake. */
  lemma {:induction false} SlashingConservesIff(amount: nat, k: nat)
    ensures OddSlashes(amount, k) == 0 <==> amount % Pow2(k) == 0
  {
    if k > 0 {
      var b := Pow2(k - 1);
      SlashingConservesIff(amount, k - 1);
      if amount % b == 0 {
        var q := amount / b;
        ExactCeil(amount, b);
        EvenQuotient(amount, b, q);
      } else {
        RemainderOfDouble(amount, b);
      }
    }
  }

  lemma {:induction false} ExactCeil(a: nat, b: nat)
    requires b > 0 && a % b == 0
    ensures CeilDiv(a, b) == a / b
  {
    var q := a / b;
    assert a == q * b;
    assert (q - 1) * b == q * b - b;
    CeilDivUnique(a, b, q);
  }

  lemma {:induction false} RemainderUnique(x: nat, c: nat, h: nat, r: nat)
    requires c > 0 && r < c && x == h * c + r
    ensures x % c == r
  {
    QuotientUnique(x, c, h);
    assert x == (x / c) * c + x % c;
  }

  lemma {:induction false} EvenQuotient(a: nat, b: nat, q: nat)
    requires b > 0 && a == q * b
    ensures q % 2 == 0 <==> a % (2 * b) == 0
  {
    var h := q / 2;
    if q % 2 == 0 {
      HalvedProduct(h, 0, b);
      RemainderUnique(a, 2 * b, h, 0);
    } else {
      assert q == 2 * h + 1;
      HalvedProduct(h, 1, b);
      RemainderUnique(a, 2 * b, h, b);
    }
  }

  lemma {:induction false} HalvedProduct(h: nat, odd: nat, b: nat)
    ensures (2 * h + odd) * b == h * (2 * b) + odd * b
  {
  }

  lemma {:induction false} RemainderOfDouble(a: nat, b: nat)
    requires b > 0 && a % b != 0
    ensures a % (2 * b) != 0
  {
    if a % (2 * b) == 0 {
      var p := a / (2 * b);
      assert a == p * (2 * b);
      assert p * (2 * b) == (2 * p) * b by { HalvedProduct(p, 0, b); }
      QuotientUnique(a, b, 2 * p);
    }
  }
}
