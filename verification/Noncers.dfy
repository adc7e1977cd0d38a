/** Account state given by the head, and the virtual nonces layered over it. */
module Noncers {
  import opened Transactions

  /** What the pool reads of the state at a head; unknown accounts have nonce and balance zero. */
  datatype State = State(nonces: map<Addr, nat>, balances: map<Addr, nat>) {
    function Nonce(a: Addr): nat {
      if a in nonces then nonces[a] else 0
    }

    function Balance(a: Addr): nat {
      if a in balances then balances[a] else 0
    }
  }

  class TxNoncer {
    const fallback: State
    var nonces: map<Addr, nat>

    /** The virtual nonce of an account; filling the cache does not change it. */
    ghost function At(a: Addr): nat
      reads this
    {
      if a in nonces then nonces[a] else fallback.Nonce(a)
    }

    constructor (state: State)
      ensures fallback == state && nonces == map[]
      ensures forall a :: At(a) == state.Nonce(a)
    {
      fallback, nonces := state, map[];
    }

    method Get(a: Addr) returns (nonce: nat)
      modifies this
      ensures nonce == old(At(a)) && a in nonces
      ensures forall b :: At(b) == old(At(b))
    {
      if a !in nonces {
        nonces := nonces[a := fallback.Nonce(a)];
      }
      nonce := nonces[a];
    }

    method Set(a: Addr, nonce: nat)
      modifies this
      ensures forall b :: At(b) == if b == a then nonce else old(At(b))
    {
      nonces := nonces[a := nonce];
    }

    method SetIfLower(a: Addr, nonce: nat)
      modifies this
      ensures forall b :: At(b) == if b == a && nonce < old(At(a)) then nonce else old(At(b))
    {
      if a !in nonces {
        nonces := nonces[a := fallback.Nonce(a)];
      }
      if nonces[a] <= nonce {
        return;
      }
      nonces := nonces[a := nonce];
    }
  }
}
