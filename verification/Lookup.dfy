/** `txLookup`: all transactions of the pool by hash, split into local and remote ones, with a
    running count of the slots they take. A hash stands for its transaction, so the two hash maps
    are sets of transactions. */
module Lookup {
  import opened Types

  class TxLookup {
    var slots: int
    var locals: set<Tx>
    var remotes: set<Tx>
    /** How often `Remove` has reported a transaction it could not find. */
    var misses: nat

    ghost predicate Valid()
      reads this
    {
      locals !! remotes && slots == SlotSum(locals + remotes)
    }

    ghost function All(): set<Tx>
      reads this
    {
      locals + remotes
    }

    constructor ()
      ensures Valid() && All() == {} && misses == 0
    {
      slots, locals, remotes, misses := 0, {}, {}, 0;
    }

    method Get(tx: Tx) returns (known: bool)
      ensures known <==> tx in All()
    {
      known := tx in locals || tx in remotes;
    }

    method Count() returns (n: nat)
      requires Valid()
      ensures n == |All()|
    {
      n := |locals| + |remotes|;
    }

    method Add(tx: Tx, local: bool)
      modifies this
      ensures locals == (if local then old(locals) + {tx} else old(locals))
      ensures remotes == (if local then old(remotes) else old(remotes) + {tx})
      ensures slots == old(slots) + NumSlots(tx) && misses == old(misses)
      ensures old(Valid()) && tx !in old(All()) ==> Valid()
    {
      slots := slots + NumSlots(tx);
      if local {
        locals := locals + {tx};
      } else {
        remotes := remotes + {tx};
      }
      SlotSumAdd(old(locals + remotes), tx, locals + remotes);
    }

    lemma SlotSumAdd(was: set<Tx>, tx: Tx, now: set<Tx>)
      requires now == was + {tx}
      ensures tx !in was ==> SlotSum(now) == SlotSum(was) + NumSlots(tx)
    {
      if tx !in was {
        SlotSumRemove(now, tx);
        assert now - {tx} == was;
      }
    }

    method Remove(tx: Tx)
      requires Valid()
      modifies this
      ensures Valid()
      ensures locals == old(locals) - {tx} && remotes == old(remotes) - {tx}
      ensures misses == old(misses) + if tx in old(All()) then 0 else 1
    {
      if tx !in locals && tx !in remotes {
        misses := misses + 1;
        return;
      }
      SlotSumRemove(locals + remotes, tx);
      slots := slots - NumSlots(tx);
      locals := locals - {tx};
      remotes := remotes - {tx};
      assert locals + remotes == old(locals + remotes) - {tx};
    }

    /** Makes local every remote transaction sent from one of `accounts`; returns how many. */
    method RemoteToLocals(accounts: set<Address>) returns (migrated: nat)
      requires Valid()
      modifies this
      ensures Valid() && All() == old(All()) && misses == old(misses)
      ensures remotes == set tx | tx in old(remotes) && tx.sender !in accounts
      ensures migrated == |old(remotes)| - |remotes|
    {
      migrated := 0;
      var todo := remotes;
      while todo != {}
        invariant todo <= old(remotes)
        invariant locals !! remotes && All() == old(All()) && misses == old(misses) && slots == old(slots)
        invariant remotes == set tx | tx in old(remotes) && (tx in todo || tx.sender !in accounts)
        invariant migrated == |old(remotes)| - |remotes|
        decreases |todo|
      {
        var tx :| tx in todo;
        todo := todo - {tx};
        if tx.sender in accounts {
          locals := locals + {tx};
          remotes := remotes - {tx};
          migrated := migrated + 1;
        }
      }
    }
  }
}
