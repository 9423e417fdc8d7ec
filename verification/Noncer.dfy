/** `txNoncer`: the next nonce of every account as the pool sees it, falling back to the state. */
module Noncer {
  import opened Types

  /** The part of the state database at a block that the pool reads. */
  datatype ChainState = ChainState(nonces: map<Address, nat>, balances: map<Address, nat>) {
    function Nonce(addr: Address): nat {
      if addr in nonces then nonces[addr] else 0
    }

    function Balance(addr: Address): nat {
      if addr in balances then balances[addr] else 0
    }
  }

  class TxNoncer {
    const fallback: ChainState
    var nonces: map<Address, nat>

    /** The nonce that `Get` answers. */
    function Value(addr: Address): nat
      reads this
    {
      if addr in nonces then nonces[addr] else fallback.Nonce(addr)
    }

    /** All answers at this moment. */
    ghost function Values(): Address -> nat
      reads this
    {
      var nonces, fallback := nonces, fallback;
      (a: Address) => if a in nonces then nonces[a] else fallback.Nonce(a)
    }

    constructor (fallback: ChainState)
      ensures this.fallback == fallback && forall a :: Value(a) == fallback.Nonce(a)
    {
      this.fallback := fallback;
      nonces := map[];
    }

    method Get(addr: Address) returns (nonce: nat)
      modifies this
      ensures nonce == Value(addr) && forall a :: Value(a) == old(Value(a))
    {
      if addr !in nonces {
        nonces := nonces[addr := fallback.Nonce(addr)];
      }
      nonce := nonces[addr];
    }

    method Set(addr: Address, nonce: nat)
      modifies this
      ensures forall a :: Value(a) == if a == addr then nonce else old(Value(a))
    {
      nonces := nonces[addr := nonce];
    }

    method SetIfLower(addr: Address, nonce: nat)
      modifies this
      ensures forall a :: Value(a) == if a == addr && nonce < old(Value(a)) then nonce else old(Value(a))
    {
      if addr !in nonces {
        nonces := nonces[addr := fallback.Nonce(addr)];
      }
      if nonces[addr] <= nonce { return; }
      nonces := nonces[addr := nonce];
    }
  }
}
