/** Values shared by the parts of the transaction pool. */
module Types {
  datatype Option<+T> = None | Some(value: T)

  type Address = nat

  const MAX_UINT64: nat := 0xFFFF_FFFF_FFFF_FFFF

  type Uint64 = n: nat | n <= MAX_UINT64

  function Min(a: int, b: int): int {
    if a < b then a else b
  }

  ghost predicate Distinct<T>(s: seq<T>) {
    forall i, j :: 0 <= i < j < |s| ==> s[i] != s[j]
  }

  lemma Twice<T>(s: seq<T>, i: nat, j: nat)
    requires i < j < |s| && s[i] == s[j]
    ensures multiset(s)[s[i]] >= 2
  {
    assert s == s[..j] + [s[j]] + s[j + 1..];
    assert s[i] in s[..j];
  }

  /** A signed transaction, immutable once made. `id` stands for all that the pool does not look
      at, so that two transactions are equal exactly when their hashes are. `cost` is the value
      plus price times gas. */
  datatype Tx = Tx(id: nat, sender: Address, nonce: Uint64, price: nat, cost: nat, gas: nat, size: nat)

  const TX_SLOT_SIZE: nat := 32 * 1024

  /** The number of pool slots a transaction takes. */
  function NumSlots(tx: Tx): nat {
    (tx.size + TX_SLOT_SIZE - 1) / TX_SLOT_SIZE
  }

  /** Slots are as many as are needed to hold the size, each 32768 bytes. */
  lemma SlotsHold(tx: Tx)
    ensures 32768 * NumSlots(tx) >= tx.size
    ensures NumSlots(tx) > 0 ==> 32768 * (NumSlots(tx) - 1) < tx.size
  {
  }

  ghost function SlotSum(txs: set<Tx>): nat {
    if txs == {} then 0
    else
      var tx :| tx in txs;
      NumSlots(tx) + SlotSum(txs - {tx})
  }

  /** The sum does not depend on the order in which it is taken. */
  lemma {:induction false} SlotSumRemove(txs: set<Tx>, tx: Tx)
    requires tx in txs
    ensures SlotSum(txs) == NumSlots(tx) + SlotSum(txs - {tx})
    decreases |txs|
  {
    var t :| t in txs && SlotSum(txs) == NumSlots(t) + SlotSum(txs - {t});
    if t != tx {
      SlotSumRemove(txs - {t}, tx);
      SlotSumRemove(txs - {tx}, t);
      assert txs - {t} - {tx} == txs - {tx} - {t};
    }
  }

  /** When every transaction has a size, there are no more transactions than slots. */
  lemma {:induction false} CountWithinSlots(txs: set<Tx>)
    requires forall tx :: tx in txs ==> 0 < tx.size
    ensures |txs| <= SlotSum(txs)
    decreases |txs|
  {
    if txs != {} {
      var tx :| tx in txs;
      SlotSumRemove(txs, tx);
      CountWithinSlots(txs - {tx});
    }
  }
}
