/** The block subsidy, its halvings, and the supply that adds up from it. */
module Supply {
  import opened Types

  const INITIAL_REWARD := 50.0
  const HALVING_BLOCKS: nat := 210000
  const MINIMUM_REWARD := 0.00000001

  function Pow2(n: nat): (p: real)
    ensures p >= 1.0
  {
    if n == 0 then 1.0 else 2.0 * Pow2(n - 1)
  }

  /** The subsidy after some halvings, halved once at a time. */
  function Halved(halvings: nat): (x: real)
    ensures x > 0.0
  {
    if halvings == 0 then INITIAL_REWARD else Halved(halvings - 1) / 2.0
  }

  function PowerForm(halvings: nat): real { INITIAL_REWARD / Pow2(halvings) }

  /** Halving repeatedly is dividing by a power of two. */
  lemma {:induction false} HalvingIsPowerForm(n: nat)
    ensures Halved(n) == PowerForm(n)
  {
    if n > 0 { HalvingIsPowerForm(n - 1); }
  }

  /** RewardCalculator.CalculateBlockReward; the subsidy is never negative, so its maximum with 0 is itself. */
  function RewardAt(height: nat): real { PowerForm(height / HALVING_BLOCKS) }

  /** The base subsidy MineBlock mints in block n: it asks for the reward of the block before. */
  function Subsidy(n: nat): real
    requires n >= 1
  {
    Halved((n - 1) / HALVING_BLOCKS)
  }

  function Minted(height: nat): real {
    if height == 0 then 0.0 else Minted(height - 1) + Subsidy(height)
  }

  function FeeSum(txs: seq<Transaction>): real {
    if txs == [] then 0.0 else
      var tx := txs[|txs| - 1];
      FeeSum(txs[..|txs| - 1]) + if tx.txType != TX_COINBASE then tx.gasFee else 0.0
  }

  /** calculateBlockReward of the previous block: halving by a loop, then fees, then the floor. */
  method CalculateBlockReward(number: nat, txs: seq<Transaction>) returns (reward: real)
    ensures number == 0 ==> reward == 50.0
    ensures number > 0 ==>
              var full := RewardAt(number) + FeeSum(txs);
              reward == if full < 0.00000001 then 0.00000001 else full
  {
    if number == 0 {
      return INITIAL_REWARD;
    }
    var halvings := number / HALVING_BLOCKS;
    reward := INITIAL_REWARD;
    for i := 0 to halvings
      invariant reward == Halved(i)
    {
      reward := reward / 2.0;
    }
    HalvingIsPowerForm(halvings);
    var fees := 0.0;
    for i := 0 to |txs|
      invariant fees == FeeSum(txs[..i])
    {
      assert txs[..i + 1][..i] == txs[..i];
      if txs[i].txType != TX_COINBASE {
        fees := fees + txs[i].gasFee;
      }
    }
    assert txs[..|txs|] == txs;
    reward := reward + fees;
    if reward < MINIMUM_REWARD {
      reward := MINIMUM_REWARD;
    }
  }

  /** The two reward functions name the same subsidy for a block exactly when it does not open a new period. */
  lemma {:induction false} RewardFunctionsAgreeIff(n: nat)
    requires n >= 1
    ensures RewardAt(n) == Subsidy(n) <==> n % HALVING_BLOCKS != 0
  {
    var q := n / HALVING_BLOCKS;
    HalvingIsPowerForm(q);
    if n % HALVING_BLOCKS == 0 {
      assert (n - 1) / HALVING_BLOCKS == q - 1;
    } else {
      assert (n - 1) / HALVING_BLOCKS == q;
    }
  }

  // ---------- whole periods ----------

  /** The height at which a halving period starts. */
  function Start(period: nat): nat { period * HALVING_BLOCKS }

  lemma {:induction false} NextStart(period: nat)
    ensures Start(period + 1) == Start(period) + HALVING_BLOCKS
  {
  }

  lemma {:induction false} SubsidyWithin(period: nat, n: nat)
    requires n < HALVING_BLOCKS
    ensures Subsidy(Start(period) + n + 1) == Halved(period)
  {
    assert (period * HALVING_BLOCKS + n) / HALVING_BLOCKS == period;
  }

  function Times(n: nat, x: real): real { if n == 0 then 0.0 else Times(n - 1, x) + x }

  lemma {:induction false} TimesIsProduct(n: nat, x: real)
    ensures Times(n, x) == n as real * x
  {
    if n > 0 {
      TimesIsProduct(n - 1, x);
      OneMoreTimes((n - 1) as real, x);
    }
  }

  lemma {:induction false} OneMoreTimes(a: real, x: real)
    ensures (a + 1.0) * x == a * x + x
  {
  }

  lemma {:induction false} SmallerTimes(a: real, b: real, x: real)
    requires a <= b && x > 0.0
    ensures a * x <= b * x
  {
  }

  lemma {:induction false} TimesBelow(n: nat, x: real)
    requires n < HALVING_BLOCKS && x > 0.0
    ensures Times(n, x) <= 210000.0 * x
  {
    TimesIsProduct(n, x);
    SmallerTimes(n as real, 210000.0, x);
  }

  lemma {:induction false} MintedWithin(period: nat, n: nat)
    requires n <= HALVING_BLOCKS
    ensures Minted(Start(period) + n) == Minted(Start(period)) + Times(n, Halved(period))
  {
    if n > 0 {
      MintedWithin(period, n - 1);
      SubsidyWithin(period, n - 1);
    }
  }

  lemma {:induction false} WholePeriod(x: real)
    ensures 21000000.0 - 420000.0 * x + 210000.0 * x == 21000000.0 - 420000.0 * (x / 2.0)
  {
  }

  /** The supply in closed form: 21,000,000 less what the halvings from here on would mint, plus the n blocks mined. */
  lemma {:induction false} MintedClosedForm(period: nat, n: nat)
    requires n <= HALVING_BLOCKS
    ensures Minted(Start(period) + n) == 21000000.0 - 420000.0 * Halved(period) + n as real * Halved(period)
  {
    MintedWithin(period, n);
    TimesIsProduct(n, Halved(period));
    if period > 0 {
      MintedClosedForm(period - 1, HALVING_BLOCKS);
      NextStart(period - 1);
      WholePeriod(Halved(period - 1));
    }
  }

  /** The supply never reaches 21,000,000, and every block adds to it. */
  lemma {:induction false} MintedBounded(height: nat)
    ensures Minted(height) < 21000000.0
    ensures Minted(height) < Minted(height + 1)
  {
    var q, n := height / HALVING_BLOCKS, height % HALVING_BLOCKS;
    MintedClosedForm(q, 0);
    MintedWithin(q, n);
    TimesBelow(n, Halved(q));
    assert Start(q) + n == height;
  }

  /** The loop of GetCirculatingSupply: one round per halving, with what is left of the height. */
  method CirculatingSupply(height: uint64) returns (totalSupply: real)
    ensures totalSupply == Minted(height)
  {
    totalSupply := 0.0;
    if height > 0 {
      var remaining: nat := height;
      var i: nat := 0;
      while remaining > 0
        invariant remaining > 0 ==> Start(i) + remaining == height && totalSupply == Minted(Start(i))
        invariant remaining == 0 ==> totalSupply == Minted(height)
        decreases remaining
      {
        var blocks := if remaining > HALVING_BLOCKS then HALVING_BLOCKS else remaining;
        var rewardAtLevel := INITIAL_REWARD / Pow2(i);
        HalvingIsPowerForm(i);
        MintedWithin(i, blocks);
        TimesIsProduct(blocks, rewardAtLevel);
        NextStart(i);
        totalSupply := totalSupply + blocks as real * rewardAtLevel;
        remaining := remaining - blocks;
        i := i + 1;
      }
    }
  }

  // ---------- fees ----------

  /** Fees add up part by part. */
  lemma {:induction false} FeesInParts(a: seq<Transaction>, b: seq<Transaction>)
    ensures FeeSum(a + b) == FeeSum(a) + FeeSum(b)
  {
    if b == [] {
      assert a + b == a;
    } else {
      var n := |b| - 1;
      FeesInParts(a, b[..n]);
      assert (a + b)[..|a + b| - 1] == a + b[..n];
    }
  }

  /** A coinbase brings no fee; any other transaction brings its own. */
  lemma {:induction false} FeeOfOne(tx: Transaction)
    ensures FeeSum([tx]) == if tx.txType == 1 then 0.0 else tx.gasFee
  {
    assert [tx][..0] == [];
  }
}
