/** Values shared by the ledger, the block builder and the mempool. */
module Types {

  datatype Option<+T> = None | Some(value: T)

  const TWO_64: nat := 0x1_0000_0000_0000_0000
  const TWO_32: nat := 0x1_0000_0000

  type uint64 = n: nat | n < TWO_64
  type uint32 = n: nat | n < TWO_32

  /** Go's unsigned 64-bit addition and multiplication. */
  function Add64(a: uint64, b: uint64): uint64 { (a + b) % TWO_64 }

  function Mul64(a: uint64, b: uint64): uint64 { (a * b) % TWO_64 }

  /** Wrapping a partial sum does not change the wrapped sum. */
  lemma {:induction false} AddAfterWrap(w: nat, d: nat)
    ensures (w % TWO_64 + d) % TWO_64 == (w + d) % TWO_64
  {
    var q := w / TWO_64;
    assert w == q * TWO_64 + w % TWO_64;
    assert w + d == q * TWO_64 + (w % TWO_64 + d);
  }

  const TX_REGULAR := 0
  const TX_COINBASE := 1
  const TX_VALIDATOR_REWARD := 2
  const TX_STAKE := 3

  datatype UTXO = UTXO(
    txid: string, index: int, amount: real, owner: string,
    spent: bool, blockHeight: nat, timestamp: int, script: string)

  datatype TxInput = TxInput(txid: string, index: int, signature: string)

  datatype TxOutput = TxOutput(receiver: string, amount: real, script: string)

  datatype Transaction = Transaction(
    id: string, sender: string, receiver: string, amount: real, timestamp: int,
    gasFee: real, inputs: seq<TxInput>, outputs: seq<TxOutput>, txType: int,
    gasLimit: uint64, gasPrice: uint64, maxFeePerGas: uint64)
  {
    /** Coinbase and validator-reward transactions consume no inputs. */
    predicate IsSystem() { txType == TX_COINBASE || txType == TX_VALIDATOR_REWARD }
  }
}
