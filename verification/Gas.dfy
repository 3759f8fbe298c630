/** Gas prices, limits and fees, with the node's 64-bit arithmetic. */
module Gas {
  import opened Types

  const BASE_TX_GAS: uint64 := 21000
  const DEFAULT_GAS_LIMIT: uint64 := 21000
  const MIN_GAS_PRICE: uint64 := 10
  const MAX_GAS_PRICE: uint64 := 100
  const MAX_TOTAL_FEE: real := 2.0

  /** 100,000,000 gas units are one token. */
  function Tokens(units: uint64): real { units as real / 100000000.0 }

  predicate ValidateGas(limit: uint64, price: uint64) {
    && BASE_TX_GAS <= limit <= BASE_TX_GAS * 100
    && MIN_GAS_PRICE <= price <= MAX_GAS_PRICE * 10
    && Tokens(Mul64(limit, price)) <= MAX_TOTAL_FEE
  }

  datatype NewTxResult = Created(tx: Transaction) | PriceTooLow | FeeTooHigh | InvalidGas

  /** The id is a digest of the other fields: makeId stands for it. */
  function NewTransaction(
      sender: string, receiver: string, amount: real, gasPrice: uint64, gasLimit: uint64,
      now: int, makeId: Transaction -> string): NewTxResult
  {
    if gasPrice < MIN_GAS_PRICE then PriceTooLow else
      var limit := if gasLimit == 0 then DEFAULT_GAS_LIMIT else gasLimit;
      var fee := Tokens(Mul64(limit, gasPrice));
      var tx := Transaction("", sender, receiver, amount, now, fee, [], [TxOutput(receiver, amount, "")],
                            TX_REGULAR, limit, gasPrice, Mul64(gasPrice, 2));
      if fee > MAX_TOTAL_FEE then FeeTooHigh
      else if !ValidateGas(limit, gasPrice) then InvalidGas
      else Created(tx.(id := makeId(tx)))
  }

  lemma {:induction false} ProductWithin(a: nat, b: nat, x: nat, y: nat)
    requires a <= x && b <= y
    ensures a * b <= x * y
  {
    assert a * b <= x * b;
    assert x * b <= x * y;
  }

  /** Gas parameters in range never wrap around. */
  lemma {:induction false} GasInRangeDoesNotWrap(limit: uint64, price: uint64)
    requires limit <= BASE_TX_GAS * 100 && price <= MAX_GAS_PRICE * 10
    ensures Mul64(limit, price) == limit * price
  {
    ProductWithin(limit, price, 2100000, 1000);
    NoWrapBelow(limit * price);
  }

  lemma {:induction false} NoWrapBelow(x: nat)
    requires x < TWO_64
    ensures x % TWO_64 == x
  {
  }

  lemma {:induction false} TokensAbove(units: uint64)
    ensures Tokens(units) > 2.0 <==> units > 200000000
  {
  }

  /** Gas is in range exactly when price, limit and their true product are. */
  lemma {:induction false} ValidateGasIff(limit: uint64, price: uint64)
    ensures ValidateGas(limit, price) <==>
            21000 <= limit <= 2100000 && 10 <= price <= 1000 && limit * price <= 200000000
  {
    TokensAbove(Mul64(limit, price));
    if limit <= 2100000 && price <= 1000 { GasInRangeDoesNotWrap(limit, price); }
  }

  /** A transaction is created exactly when price, limit and their true product are in range; else why not. */
  lemma {:induction false} NewTransactionIff(
      sender: string, receiver: string, amount: real, gasPrice: uint64, gasLimit: uint64,
      now: int, makeId: Transaction -> string)
    ensures var limit := if gasLimit == 0 then 21000 else gasLimit;
      var r := NewTransaction(sender, receiver, amount, gasPrice, gasLimit, now, makeId);
      && (r.Created? <==> 10 <= gasPrice <= 1000 && 21000 <= limit <= 2100000 && limit * gasPrice <= 200000000)
      && (r.PriceTooLow? <==> gasPrice < 10)
      && (r.FeeTooHigh? <==> gasPrice >= 10 && limit * gasPrice % 18446744073709551616 > 200000000)
  {
    var limit := if gasLimit == 0 then 21000 else gasLimit;
    TokensAbove(Mul64(limit, gasPrice));
    ValidateGasIff(limit, gasPrice);
    if limit <= 2100000 && gasPrice <= 1000 { GasInRangeDoesNotWrap(limit, gasPrice); }
  }

  /** Every field of a created transaction: the fee is exact and the id is made from all the rest. */
  lemma {:induction false} CreatedTransaction(
      sender: string, receiver: string, amount: real, gasPrice: uint64, gasLimit: uint64,
      now: int, makeId: Transaction -> string)
    requires NewTransaction(sender, receiver, amount, gasPrice, gasLimit, now, makeId).Created?
    ensures var limit := if gasLimit == 0 then 21000 else gasLimit;
      var tx := NewTransaction(sender, receiver, amount, gasPrice, gasLimit, now, makeId).tx;
      && tx.id == makeId(tx.(id := ""))
      && tx.sender == sender && tx.receiver == receiver && tx.amount == amount && tx.timestamp == now
      && tx.gasFee == (limit * gasPrice) as real / 100000000.0 && 0.0 < tx.gasFee <= 2.0
      && tx.inputs == [] && tx.outputs == [TxOutput(receiver, amount, "")] && tx.txType == 0
      && tx.gasLimit == limit && tx.gasPrice == gasPrice && tx.maxFeePerGas == 2 * gasPrice
  {
    var limit := if gasLimit == 0 then 21000 else gasLimit;
    NewTransactionIff(sender, receiver, amount, gasPrice, gasLimit, now, makeId);
    GasInRangeDoesNotWrap(limit, gasPrice);
    ProductWithin(21000, 10, limit, gasPrice);
    NoWrapBelow(gasPrice * 2);
  }
}
