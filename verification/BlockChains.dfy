/** `BlockChain`: the canonical number-to-hash index and the transaction lookup index follow the
    current block through forks and reorganisations. */
module BlockChains {
  import opened Types
  import opened Chains

  /** The transaction is in the block with number `n` of the chain of `h`. */
  ghost predicate InChain(s: Store, h: Hash, n: nat, tx: Tx)
    requires Closed(s) && h in s
  {
    n <= s[h].number && tx in s[Ancestor(s, h, n)].txs
  }

  /** No transaction occurs in two blocks of one chain. */
  ghost predicate OncePerChain(s: Store, h: Hash)
    requires Closed(s) && h in s
  {
    forall m: nat, n: nat, tx :: InChain(s, h, m, tx) && InChain(s, h, n, tx) ==> m == n
  }

  /** The lookup index answers, for exactly the transactions of the chain, the block they are in. */
  ghost predicate Indexes(s: Store, h: Hash, lookup: map<Tx, nat>)
    requires Closed(s) && h in s
  {
    && (forall n: nat, tx :: InChain(s, h, n, tx) ==> tx in lookup && lookup[tx] == n)
    && (forall tx :: tx in lookup ==> InChain(s, h, lookup[tx], tx))
  }

  /** The lookup index with the entries of one block written. */
  function WithEntries(lookup: map<Tx, nat>, b: Block): map<Tx, nat> {
    lookup + Entries(b.txs, b.number)
  }

  function Entries(txs: seq<Tx>, n: nat): map<Tx, nat> {
    map tx | tx in txs :: n
  }

  lemma NoEntries(lookup: map<Tx, nat>, n: nat)
    ensures lookup + Entries([], n) == lookup
  {
  }

  lemma OneMoreEntry(lookup: map<Tx, nat>, txs: seq<Tx>, i: nat, n: nat)
    requires i < |txs|
    ensures (lookup + Entries(txs[..i], n))[txs[i] := n] == lookup + Entries(txs[..i + 1], n)
  {
    assert txs[..i + 1] == txs[..i] + [txs[i]];
    assert Entries(txs[..i + 1], n) == Entries(txs[..i], n)[txs[i] := n];
  }

  /** Halfway through a reorganisation from `h` to `k`: entries for the blocks of `k` above the
      fork, up to number `m`, have been written over those that were there for `h`. */
  ghost predicate Overwritten(s: Store, k: Hash, fork: nat, m: nat, was: map<Tx, nat>, now: map<Tx, nat>)
    requires Closed(s) && k in s
  {
    && (forall n: nat, tx :: fork < n <= m && InChain(s, k, n, tx) ==> tx in now && now[tx] == n)
    && (forall tx :: (tx in was && tx !in now) || (tx in now && (tx !in was || now[tx] != was[tx])) ==>
          tx in now && fork < now[tx] <= m && InChain(s, k, now[tx], tx))
  }

  lemma OverwriteMore(s: Store, k: Hash, fork: nat, m: nat, was: map<Tx, nat>, now: map<Tx, nat>)
    requires Closed(s) && k in s && fork <= m < s[k].number && OncePerChain(s, k)
    requires Overwritten(s, k, fork, m, was, now)
    ensures Overwritten(s, k, fork, m + 1, was, WithEntries(now, s[Ancestor(s, k, m + 1)]))
  {
    hide Closed, Ancestor;
    var b := s[Ancestor(s, k, m + 1)];
    forall tx | tx in b.txs ensures InChain(s, k, m + 1, tx) {
    }
  }

  /** Once the entries of dropped transactions are deleted, the index is that of the new chain
      up to where it has been written. */
  lemma ReorgIndexes(s: Store, h: Hash, k: Hash, m: nat, was: map<Tx, nat>, now: map<Tx, nat>, gone: set<Tx>)
    requires Closed(s) && h in s && k in s && OncePerChain(s, h) && OncePerChain(s, k)
    requires Fork(s, h, k) <= m <= s[k].number
    requires Indexes(s, h, was) && Overwritten(s, k, Fork(s, h, k), m, was, now)
    requires forall tx :: tx in gone <==>
      && (exists n: nat :: Fork(s, h, k) < n && InChain(s, h, n, tx))
      && !exists n: nat :: Fork(s, h, k) < n <= m && InChain(s, k, n, tx)
    ensures Indexes(s, Ancestor(s, k, m), now - gone)
  {
    hide Closed, Ancestor, Fork, Indexes, Overwritten;
    var f, p, l := Fork(s, h, k), Ancestor(s, k, m), now - gone;
    SharedBelow(s, h, k, m);
    forall n: nat, tx | InChain(s, p, n, tx) ensures tx in l && l[tx] == n {
      KeptEntry(s, h, k, m, was, now, n, tx);
    }
    forall tx | tx in l ensures InChain(s, p, l[tx], tx) {
      OnlyNewEntries(s, h, k, m, was, now, tx);
    }
    assert Indexes(s, p, l) by { AreIndexes(s, p, l); }
  }

  lemma AreIndexes(s: Store, h: Hash, lookup: map<Tx, nat>)
    requires Closed(s) && h in s
    requires forall n: nat, tx :: InChain(s, h, n, tx) ==> tx in lookup && lookup[tx] == n
    requires forall tx :: tx in lookup ==> InChain(s, h, lookup[tx], tx)
    ensures Indexes(s, h, lookup)
  {
  }

  /** The chain up to `m` is part of the chain, and up to the fork both chains are the same. */
  lemma SharedBelow(s: Store, h: Hash, k: Hash, m: nat)
    requires Closed(s) && h in s && k in s && m <= s[k].number
    ensures forall n: nat, tx :: InChain(s, Ancestor(s, k, m), n, tx) <==> n <= m && InChain(s, k, n, tx)
    ensures forall n: nat, tx :: n <= Fork(s, h, k) ==> (InChain(s, h, n, tx) <==> InChain(s, k, n, tx))
  {
    hide Closed, Fork;
    forall n: nat, tx ensures InChain(s, Ancestor(s, k, m), n, tx) <==> n <= m && InChain(s, k, n, tx) {
      if n <= m { AncestorTransitive(s, k, m, n); }
    }
    forall n: nat, tx | n <= Fork(s, h, k) ensures InChain(s, h, n, tx) <==> InChain(s, k, n, tx) {
      ForkDivides(s, h, k, n);
    }
  }

  lemma KeptEntry(s: Store, h: Hash, k: Hash, m: nat, was: map<Tx, nat>, now: map<Tx, nat>, n: nat, tx: Tx)
    requires Closed(s) && h in s && k in s && OncePerChain(s, h) && OncePerChain(s, k) && n <= m
    requires Indexes(s, h, was) && Overwritten(s, k, Fork(s, h, k), m, was, now) && InChain(s, k, n, tx)
    requires n <= Fork(s, h, k) ==> InChain(s, h, n, tx)
    ensures tx in now && now[tx] == n
    ensures !((exists i: nat :: Fork(s, h, k) < i && InChain(s, h, i, tx))
              && !exists i: nat :: Fork(s, h, k) < i <= m && InChain(s, k, i, tx))
  {
    hide Closed, Ancestor, Fork, InChain;
  }

  lemma OnlyNewEntries(s: Store, h: Hash, k: Hash, m: nat, was: map<Tx, nat>, now: map<Tx, nat>, tx: Tx)
    requires Closed(s) && h in s && k in s && Fork(s, h, k) <= m
    requires Indexes(s, h, was) && Overwritten(s, k, Fork(s, h, k), m, was, now) && tx in now
    requires !((exists i: nat :: Fork(s, h, k) < i && InChain(s, h, i, tx))
               && !exists i: nat :: Fork(s, h, k) < i <= m && InChain(s, k, i, tx))
    requires forall n: nat :: n <= Fork(s, h, k) ==> (InChain(s, h, n, tx) <==> InChain(s, k, n, tx))
    ensures now[tx] <= m && InChain(s, k, now[tx], tx)
  {
    hide Closed, Ancestor, Fork, InChain;
  }

  datatype ReorgError = InvalidOldChain | InvalidNewChain

  datatype Branches = Branches(oldChain: seq<Block>, newChain: seq<Block>, deletedTxs: seq<Tx>)

  const NO_BRANCHES := Branches([], [], [])

  /** Walks back from both blocks to their common ancestor. */
  method FindFork(s: Store, oldBlock: Block, newBlock: Block)
    returns (err: Option<ReorgError>, branches: Branches)
    requires Named(s) && HasBlock(s, oldBlock) && HasBlock(s, newBlock)
    ensures Closed(s) ==>
      var fork := Fork(s, oldBlock.hash, newBlock.hash);
      var left := Branch(s, oldBlock.hash, fork);
      err.None? && branches == Branches(left, Branch(s, newBlock.hash, fork), TxsOf(left))
  {
    hide Closed, Walked, Fork, Branch;
    var a, b := oldBlock, newBlock;
    var oldChain: seq<Block>, newChain: seq<Block>, deletedTxs := [], [], [];
    ghost var h, k := a.hash, b.hash;
    if Closed(s) { WalkStart(s, h, k); }
    if a.number > b.number {
      while a.number != b.number
        invariant a.number >= b.number && HasBlock(s, a)
        invariant Closed(s) ==> Walked(s, h, k, a.hash, b.hash, oldChain, newChain)
        invariant deletedTxs == TxsOf(oldChain)
        decreases a.number
      {
        if Closed(s) { StepLeft(s, h, k, a.hash, b.hash, oldChain, newChain); }
        TxsOfMore(oldChain, a);
        oldChain, deletedTxs := oldChain + [a], deletedTxs + a.txs;
        var parent := Read(s, a.parent, a.number - 1);
        if parent.None? { return Some(InvalidOldChain), NO_BRANCHES; }
        a := parent.value;
      }
    } else {
      while b.number != a.number
        invariant a.number <= b.number && HasBlock(s, b)
        invariant Closed(s) ==> Walked(s, h, k, a.hash, b.hash, oldChain, newChain)
        decreases b.number
      {
        if Closed(s) { StepRight(s, h, k, a.hash, b.hash, oldChain, newChain); }
        newChain := newChain + [b];
        var parent := Read(s, b.parent, b.number - 1);
        if parent.None? { return Some(InvalidNewChain), NO_BRANCHES; }
        b := parent.value;
      }
    }
    while a.hash != b.hash
      invariant a.number == b.number && HasBlock(s, a) && HasBlock(s, b)
      invariant Closed(s) ==> Walked(s, h, k, a.hash, b.hash, oldChain, newChain)
      invariant deletedTxs == TxsOf(oldChain)
      decreases a.number
    {
      if Closed(s) { StepBoth(s, h, k, a.hash, b.hash, oldChain, newChain); }
      TxsOfMore(oldChain, a);
      oldChain, deletedTxs, newChain := oldChain + [a], deletedTxs + a.txs, newChain + [b];
      var parent := Read(s, a.parent, a.number - 1);
      if parent.None? { return Some(InvalidOldChain), NO_BRANCHES; }
      a := parent.value;
      parent := Read(s, b.parent, b.number - 1);
      if parent.None? { return Some(InvalidNewChain), NO_BRANCHES; }
      b := parent.value;
    }
    if Closed(s) { WalkEnd(s, h, k, a.hash, oldChain, newChain); }
    err, branches := None, Branches(oldChain, newChain, deletedTxs);
  }

  /** Halfway through a reorganisation to `k`: the number index has the chain of `k` from above
      the fork up to `m`, and is otherwise unchanged. */
  ghost predicate Renumbered(s: Store, k: Hash, fork: nat, m: nat, was: map<nat, Hash>, now: map<nat, Hash>)
    requires Closed(s) && k in s && m <= s[k].number
  {
    && (forall n: nat :: fork < n <= m ==> n in now && now[n] == Ancestor(s, k, n))
    && forall n: nat :: !(fork < n <= m) ==> (n in now <==> n in was) && (n in now ==> now[n] == was[n])
  }

  lemma RenumberMore(s: Store, k: Hash, fork: nat, m: nat, was: map<nat, Hash>, now: map<nat, Hash>)
    requires Closed(s) && k in s && fork <= m < s[k].number && Renumbered(s, k, fork, m, was, now)
    ensures Renumbered(s, k, fork, m + 1, was, now[m + 1 := Ancestor(s, k, m + 1)])
  {
    hide Closed, Ancestor;
  }

  /** The index after the stale upper entries are deleted: the chain of `k` up to `m`. */
  lemma RenumberDone(s: Store, h: Hash, k: Hash, m: nat, was: map<nat, Hash>, now: map<nat, Hash>, now': map<nat, Hash>)
    requires Closed(s) && h in s && k in s && was == CanonOf(s, h) && Fork(s, h, k) < m <= s[k].number
    requires Renumbered(s, k, Fork(s, h, k), m, was, now)
    requires forall top: nat :: UpTo(now, top) ==> now' == map n | n in now && n < m + 1 :: now[n]
    ensures now' == CanonOf(s, Ancestor(s, k, m))
  {
    hide Closed, Ancestor, Fork, UpTo;
    var p := Ancestor(s, k, m);
    RenumberTop(s, h, k, m, was, now);
    forall n: nat | n <= m ensures n in now && now[n] == Ancestor(s, p, n) {
      AncestorTransitive(s, k, m, n);
      if n <= Fork(s, h, k) { ForkDivides(s, h, k, n); }
    }
    assert now' == CanonOf(s, p);
  }

  lemma RenumberTop(s: Store, h: Hash, k: Hash, m: nat, was: map<nat, Hash>, now: map<nat, Hash>)
    requires Closed(s) && h in s && k in s && was == CanonOf(s, h) && Fork(s, h, k) <= m <= s[k].number
    requires Renumbered(s, k, Fork(s, h, k), m, was, now)
    ensures UpTo(now, if m > s[h].number then m else s[h].number)
  {
    hide OneGenesis, Fork, Ancestor;
    assert forall n: nat :: n in was <==> n <= s[h].number;
  }

  lemma NothingRenumbered(s: Store, k: Hash, fork: nat, was: map<nat, Hash>, now: map<nat, Hash>)
    requires Closed(s) && k in s && fork <= s[k].number && Renumbered(s, k, fork, fork, was, now)
    ensures now == was
  {
  }

  /** With the entries of the new head on top, the lookup index is that of its chain. */
  lemma HeadIndexes(s: Store, k: Hash, m: nat, lookup: map<Tx, nat>)
    requires Closed(s) && k in s && OncePerChain(s, k) && m <= s[k].number <= m + 1
    requires Indexes(s, Ancestor(s, k, m), lookup)
    ensures Indexes(s, k, WithEntries(lookup, s[k]))
  {
    hide Closed, Ancestor, Indexes, Fork, OneGenesis;
    SharedBelow(s, k, k, m);
    StartsThere(s, k);
    var p, l := Ancestor(s, k, m), WithEntries(lookup, s[k]);
    IndexesAre(s, p, lookup);
    forall n: nat, tx | InChain(s, k, n, tx) ensures tx in l && l[tx] == n {
      assert tx in s[k].txs ==> InChain(s, k, s[k].number, tx);
      if tx !in s[k].txs { assert InChain(s, p, n, tx); }
    }
    forall tx | tx in l ensures InChain(s, k, l[tx], tx) {
      if tx !in s[k].txs { assert InChain(s, p, lookup[tx], tx); }
    }
    AreIndexes(s, k, l);
  }

  lemma IndexesAre(s: Store, h: Hash, lookup: map<Tx, nat>)
    requires Closed(s) && h in s && Indexes(s, h, lookup)
    ensures forall n: nat, tx :: InChain(s, h, n, tx) ==> tx in lookup && lookup[tx] == n
    ensures forall tx :: tx in lookup ==> InChain(s, h, lookup[tx], tx)
  {
  }

  /** Whether a reorganisation to `k` leaves no stale entries of the chain of `h`. */
  ghost predicate Covers(s: Store, h: Hash, k: Hash)
    requires Closed(s) && h in s && k in s
  {
    s[k].number - Fork(s, h, k) >= 2 || s[k].number >= s[h].number
  }

  /** With the entry of the new head on top, the number index is that of its chain exactly if the
      new branch has two blocks or its head is not below the old one. */
  lemma HeadCanon(s: Store, h: Hash, k: Hash, canon: map<nat, Hash>)
    requires Closed(s) && h in s && k in s
    requires if s[k].number - Fork(s, h, k) >= 2 then canon == CanonOf(s, s[k].parent) else canon == CanonOf(s, h)
    ensures canon[s[k].number := k] == CanonOf(s, k) <==> Covers(s, h, k)
  {
    hide Closed, Fork, Ancestor, CanonOf;
    if s[k].number - Fork(s, h, k) >= 2 {
      CanonAgain(s, k);
    } else if s[k].number >= s[h].number {
      HeadOnTop(s, h, k);
    } else {
      CanonUpTo(s, h);
      CanonUpTo(s, k);
      assert s[h].number in canon;
      assert s[h].number !in CanonOf(s, k);
    }
  }

  lemma CanonAgain(s: Store, k: Hash)
    requires Closed(s) && k in s && s[k].number > 0
    ensures s[k].parent in s && CanonOf(s, s[k].parent)[s[k].number := k] == CanonOf(s, k)
  {
    hide OneGenesis, CanonOf, Ancestor;
    CanonOfChild(s, k);
  }

  lemma HeadOnTop(s: Store, h: Hash, k: Hash)
    requires Closed(s) && h in s && k in s && s[h].number <= s[k].number <= Fork(s, h, k) + 1
    ensures CanonOf(s, h)[s[k].number := k] == CanonOf(s, k)
  {
    hide Closed, Fork, Ancestor, CanonOf;
    StartsThere(s, k);
    CanonEntries(s, h);
    forall n: nat | n < s[k].number ensures Ancestor(s, h, n) == Ancestor(s, k, n) {
      ForkDivides(s, h, k, n);
    }
    CanonIs(s, k, CanonOf(s, h)[s[k].number := k]);
  }

  /** `txs` are the transactions of the chain of `k` above `fork` up to `m`. */
  ghost predicate TxsBetween(s: Store, k: Hash, fork: nat, m: nat, txs: seq<Tx>)
    requires Closed(s) && k in s
  {
    forall tx :: tx in txs <==> exists n: nat :: fork < n <= m && InChain(s, k, n, tx)
  }

  lemma MoreBetween(s: Store, k: Hash, fork: nat, m: nat, txs: seq<Tx>)
    requires Closed(s) && k in s && fork <= m < s[k].number && TxsBetween(s, k, fork, m, txs)
    ensures TxsBetween(s, k, fork, m + 1, txs + s[Ancestor(s, k, m + 1)].txs)
  {
    hide Closed, Ancestor;
    var b := s[Ancestor(s, k, m + 1)];
    forall tx ensures tx in txs + b.txs <==> exists n: nat :: fork < n <= m + 1 && InChain(s, k, n, tx) {
      if tx in b.txs { assert InChain(s, k, m + 1, tx); }
    }
  }

  lemma BranchTxs(s: Store, h: Hash, fork: nat)
    requires Closed(s) && h in s && fork <= s[h].number
    ensures TxsBetween(s, h, fork, s[h].number, TxsOf(Branch(s, h, fork)))
  {
    hide Closed, Ancestor, Branch, TxsOf, InChain;
    forall tx ensures tx in TxsOf(Branch(s, h, fork)) <==>
        exists n: nat :: fork < n <= s[h].number && InChain(s, h, n, tx)
    {
      BranchInChain(s, h, fork, tx);
    }
  }

  lemma BranchInChain(s: Store, h: Hash, fork: nat, tx: Tx)
    requires Closed(s) && h in s && fork <= s[h].number
    ensures tx in TxsOf(Branch(s, h, fork)) <==> exists n: nat :: fork < n <= s[h].number && InChain(s, h, n, tx)
  {
    hide Closed, Branch, TxsOf;
    BranchHolds(s, h, fork, tx);
    if tx in TxsOf(Branch(s, h, fork)) {
      var n: nat :| fork < n <= s[h].number && tx in s[Ancestor(s, h, n)].txs;
      assert InChain(s, h, n, tx);
    }
    if n: nat :| fork < n <= s[h].number && InChain(s, h, n, tx) {
      assert tx in s[Ancestor(s, h, n)].txs;
      assert exists n: nat :: fork < n <= s[h].number && tx in s[Ancestor(s, h, n)].txs;
    }
  }

  ghost function BranchesOf(s: Store, h: Hash, k: Hash): Branches
    requires Closed(s) && h in s && k in s
  {
    var fork := Fork(s, h, k);
    var left := Branch(s, h, fork);
    Branches(left, Branch(s, k, fork), TxsOf(left))
  }

  lemma NothingYet(s: Store, k: Hash, fork: nat, canon: map<nat, Hash>, lookup: map<Tx, nat>)
    requires Closed(s) && k in s && fork <= s[k].number
    ensures Renumbered(s, k, fork, fork, canon, canon) && Overwritten(s, k, fork, fork, lookup, lookup)
    ensures TxsBetween(s, k, fork, fork, [])
  {
  }

  lemma ParentIs(s: Store, h: Hash)
    requires Closed(s) && h in s && s[h].number > 0
    ensures s[h].parent in s && Ancestor(s, h, s[h].number - 1) == s[h].parent
    ensures s[s[h].parent].number == s[h].number - 1
  {
  }

  lemma HashOf(s: Store, h: Hash)
    requires Closed(s) && h in s
    ensures s[h].hash == h
  {
  }

  lemma NothingStale(s: Store, h: Hash, k: Hash, fork: nat, was: map<nat, Hash>, now: map<nat, Hash>,
                     now': map<nat, Hash>)
    requires Closed(s) && h in s && k in s && was == CanonOf(s, h) && fork <= s[k].number
    requires Renumbered(s, k, fork, fork, was, now)
    requires forall top: nat :: UpTo(now, top) ==> now' == map n | n in now && n < s[h].number + 1 :: now[n]
    ensures now' == was
  {
    hide Closed, Ancestor, UpTo, CanonOf;
    NothingRenumbered(s, k, fork, was, now);
    CanonUpTo(s, h);
    CanonEntries(s, h);
  }

  /** The deleted lookups are those of transactions the new branch does not have. */
  lemma Useless(s: Store, h: Hash, k: Hash, m: nat, deletedTxs: seq<Tx>, addedTxs: seq<Tx>)
    requires Closed(s) && h in s && k in s && deletedTxs == TxsOf(Branch(s, h, Fork(s, h, k)))
    requires TxsBetween(s, k, Fork(s, h, k), m, addedTxs)
    ensures forall tx :: tx in Difference(deletedTxs, addedTxs) <==>
      && (exists n: nat :: Fork(s, h, k) < n && InChain(s, h, n, tx))
      && !exists n: nat :: Fork(s, h, k) < n <= m && InChain(s, k, n, tx)
  {
    hide Closed, Ancestor, Fork, Branch, TxsOf, Difference;
    BranchTxs(s, h, Fork(s, h, k));
    forall tx ensures tx in Difference(deletedTxs, addedTxs) <==> tx in deletedTxs && tx !in addedTxs {
      DifferenceHolds(deletedTxs, addedTxs, tx);
    }
  }

  class BlockChain {
    var blocks: Store
    var tds: map<Hash, nat>
    var canon: map<nat, Hash>
    var lookup: map<Tx, nat>
    var current: Block
    var currentHeader: Block
    var currentFastBlock: Block

    /** Both indexes describe exactly the chain of the current block. */
    ghost predicate Indexed()
      reads this
    {
      && Closed(blocks) && HasBlock(blocks, current)
      && canon == CanonOf(blocks, current.hash) && Indexes(blocks, current.hash, lookup)
    }

    /** Stored blocks have their total difficulties. */
    ghost predicate Weighed()
      reads this
    {
      && Closed(blocks) && HasBlock(blocks, current) && tds.Keys == blocks.Keys
      && forall h :: h in blocks ==> tds[h] == TotalDifficulty(blocks, h)
    }

    /** No stored block is heavier than the current one. */
    ghost predicate Heaviest()
      reads this
    {
      Weighed() && forall h :: h in blocks ==> tds[h] <= tds[current.hash]
    }

    constructor (genesis: Block)
      requires genesis.hash != NO_HASH && genesis.number == 0 && genesis.parent == NO_HASH
      ensures Indexed() && Heaviest() && blocks == map[genesis.hash := genesis] && current == genesis
    {
      blocks := map[genesis.hash := genesis];
      tds := map[genesis.hash := genesis.difficulty];
      canon := map[0 := genesis.hash];
      lookup := WithEntries(map[], genesis);
      current, currentHeader, currentFastBlock := genesis, genesis, genesis;
      new;
      assert Ancestor(blocks, genesis.hash, 0) == genesis.hash;
    }

    /** The two blocks a reorganisation starts from. */
    ghost predicate Reorganising(oldBlock: Block, newBlock: Block)
      reads this
    {
      && Indexed() && current == oldBlock && HasBlock(blocks, newBlock)
      && OncePerChain(blocks, oldBlock.hash) && OncePerChain(blocks, newBlock.hash)
    }

    /** What it leaves to its caller: everything but the new head has been written. If the new
        branch is its head alone, neither the number index nor the current block has moved. */
    ghost predicate Reorganised(oldBlock: Block, newBlock: Block, was: map<nat, Hash>,
                                now: map<nat, Hash>, lookup: map<Tx, nat>, current: Block)
      requires Closed(blocks) && HasBlock(blocks, oldBlock) && HasBlock(blocks, newBlock)
      reads this`blocks
    {
      var k, f := newBlock.hash, Fork(blocks, oldBlock.hash, newBlock.hash);
      var m := if newBlock.number > f then newBlock.number - 1 else f;
      && Indexes(blocks, Ancestor(blocks, k, m), lookup)
      && (if m > f then now == CanonOf(blocks, Ancestor(blocks, k, m)) else now == was)
      && current == if m > f then blocks[Ancestor(blocks, k, m)] else oldBlock
    }

    /** Makes a block the head of the indexes and the markers. */
    method WriteHeadBlock(block: Block)
      modifies this`canon, this`lookup, this`current, this`currentHeader, this`currentFastBlock
      ensures canon == old(canon)[block.number := block.hash]
      ensures lookup == WithEntries(old(lookup), block) && current == block
      ensures Canonical(old(canon), block.number) != block.hash ==> currentHeader == block && currentFastBlock == block
      ensures Canonical(old(canon), block.number) == block.hash ==>
        currentHeader == old(currentHeader) && currentFastBlock == old(currentFastBlock)
    {
      var updateHeads := Canonical(canon, block.number) != block.hash;
      canon := canon[block.number := block.hash];
      WriteLookups(block);
      if updateHeads {
        currentHeader, currentFastBlock := block, block;
      }
      current := block;
    }

    /** Writes lookup entries for all transactions of a block. */
    method WriteLookups(block: Block)
      modifies this`lookup
      ensures lookup == WithEntries(old(lookup), block)
    {
      hide Entries;
      NoEntries(lookup, block.number);
      for i := 0 to |block.txs|
        invariant lookup == old(lookup) + Entries(block.txs[..i], block.number)
      {
        OneMoreEntry(old(lookup), block.txs, i, block.number);
        lookup := lookup[block.txs[i] := block.number];
      }
      assert block.txs[..|block.txs|] == block.txs;
    }

    /** Deletes lookup entries. */
    method DeleteLookups(txs: seq<Tx>)
      modifies this`lookup
      ensures lookup == old(lookup) - set tx | tx in txs
    {
      for i := 0 to |txs|
        invariant lookup == old(lookup) - set tx | tx in txs[..i]
      {
        lookup := lookup - {txs[i]};
      }
      assert txs[..|txs|] == txs;
    }
  
    /** Writes the new branch but for its head, lowest block first. */
    method WriteBranch(newBlock: Block, newChain: seq<Block>, ghost fork: nat) returns (addedTxs: seq<Tx>)
      requires Closed(blocks) && HasBlock(blocks, newBlock) && OncePerChain(blocks, newBlock.hash)
      requires fork <= newBlock.number && newChain == Branch(blocks, newBlock.hash, fork)
      modifies this`canon, this`lookup, this`current, this`currentHeader, this`currentFastBlock
      ensures var k, m := newBlock.hash, if newBlock.number > fork then newBlock.number - 1 else fork;
        && Renumbered(blocks, k, fork, m, old(canon), canon)
        && Overwritten(blocks, k, fork, m, old(lookup), lookup)
        && TxsBetween(blocks, k, fork, m, addedTxs)
        && current == if m > fork then blocks[Ancestor(blocks, k, m)] else old(current)
      ensures newBlock.number <= fork + 1 ==>
        currentHeader == old(currentHeader) && currentFastBlock == old(currentFastBlock)
    {
      hide Closed, Ancestor, Branch, OncePerChain, Overwritten, Renumbered, TxsBetween, WithEntries;
      ghost var k := newBlock.hash;
      addedTxs := [];
      NothingYet(blocks, k, fork, canon, lookup);
      var i := |newChain| - 1;
      while i >= 1
        invariant -1 <= i < |newChain| && (i == -1 ==> newChain == [])
        invariant Renumbered(blocks, k, fork, newBlock.number - i - 1, old(canon), canon)
        invariant Overwritten(blocks, k, fork, newBlock.number - i - 1, old(lookup), lookup)
        invariant TxsBetween(blocks, k, fork, newBlock.number - i - 1, addedTxs)
        invariant current ==
          if newBlock.number - i - 1 > fork then blocks[Ancestor(blocks, k, newBlock.number - i - 1)] else old(current)
        invariant |newChain| <= 1 ==>
          currentHeader == old(currentHeader) && currentFastBlock == old(currentFastBlock)
      {
        BranchAt(blocks, k, fork, i);
        RenumberMore(blocks, k, fork, newBlock.number - i - 1, old(canon), canon);
        OverwriteMore(blocks, k, fork, newBlock.number - i - 1, old(lookup), lookup);
        MoreBetween(blocks, k, fork, newBlock.number - i - 1, addedTxs);
        HashOf(blocks, Ancestor(blocks, k, newBlock.number - i));
        WriteHeadBlock(newChain[i]);
        addedTxs := addedTxs + newChain[i].txs;
        i := i - 1;
      }
    }

    /** Writes the new branch but for its head, and deletes the indexes that have become useless. */
    method Rewrite(oldBlock: Block, newBlock: Block, b: Branches)
      requires Reorganising(oldBlock, newBlock) && b == BranchesOf(blocks, oldBlock.hash, newBlock.hash)
      modifies this`canon, this`lookup, this`current, this`currentHeader, this`currentFastBlock
      ensures Reorganised(oldBlock, newBlock, old(canon), canon, lookup, current)
      ensures newBlock.number <= Fork(blocks, oldBlock.hash, newBlock.hash) + 1 ==>
        currentHeader == old(currentHeader) && currentFastBlock == old(currentFastBlock)
    {
      hide Closed, Ancestor, Fork, Branch, CanonOf, Indexes, OncePerChain, Overwritten, Renumbered, TxsBetween, InChain;
      ghost var h, k, f := oldBlock.hash, newBlock.hash, Fork(blocks, oldBlock.hash, newBlock.hash);
      ghost var m := if newBlock.number > f then newBlock.number - 1 else f;
      var addedTxs := WriteBranch(newBlock, b.newChain, f);
      Useless(blocks, h, k, m, b.deletedTxs, addedTxs);
      ReorgIndexes(blocks, h, k, m, old(lookup), lookup, set tx | tx in Difference(b.deletedTxs, addedTxs));
      var useless := TxDifference(b.deletedTxs, addedTxs);
      DeleteLookups(useless);
      ghost var canon' := canon;
      canon := DeleteFrom(canon, current.number + 1);
      if m > f {
        RenumberDone(blocks, h, k, m, old(canon), canon', canon);
      } else {
        NothingStale(blocks, h, k, f, old(canon), canon', canon);
      }
    }

    /** Rewrites the indexes from the old head's chain to the new one's, but for the new head. */
    method Reorg(oldBlock: Block, newBlock: Block) returns (err: Option<ReorgError>)
      requires Reorganising(oldBlock, newBlock)
      modifies this`canon, this`lookup, this`current, this`currentHeader, this`currentFastBlock
      ensures err.None? && Reorganised(oldBlock, newBlock, old(canon), canon, lookup, current)
      ensures newBlock.number <= Fork(blocks, oldBlock.hash, newBlock.hash) + 1 ==>
        currentHeader == old(currentHeader) && currentFastBlock == old(currentFastBlock)
    {
      hide Reorganised, Fork, Branch, Indexes, CanonOf, OncePerChain, TxsOf, OneGenesis;
      var branches;
      err, branches := FindFork(blocks, oldBlock, newBlock);
      if err.None? {
        Rewrite(oldBlock, newBlock, branches);
      }
    }

    /** A reorganisation does not change whether the new head has its number, and it has it only if it
        is on the old chain. */
    lemma NumberOfHead(oldBlock: Block, newBlock: Block, was: map<nat, Hash>, now: map<nat, Hash>,
                       lookup: map<Tx, nat>, current: Block)
      requires Closed(blocks) && HasBlock(blocks, oldBlock) && HasBlock(blocks, newBlock)
      requires Reorganised(oldBlock, newBlock, was, now, lookup, current) && was == CanonOf(blocks, oldBlock.hash)
      ensures Canonical(now, newBlock.number) == newBlock.hash <==> Canonical(was, newBlock.number) == newBlock.hash
      ensures Canonical(was, newBlock.number) == newBlock.hash ==>
        newBlock.number <= Fork(blocks, oldBlock.hash, newBlock.hash)
    {
      hide Fork, Indexes, OneGenesis;
      if newBlock.number in was {
        ForkDivides(blocks, oldBlock.hash, newBlock.hash, newBlock.number);
      }
    }

    /** Once the new head is written too, the lookups are right, and so are the numbers if they
        are covered. */
    lemma AfterReorg(oldBlock: Block, newBlock: Block, was: map<nat, Hash>, now: map<nat, Hash>,
                     lookup: map<Tx, nat>, current: Block)
      requires Closed(blocks) && HasBlock(blocks, oldBlock) && HasBlock(blocks, newBlock)
      requires OncePerChain(blocks, newBlock.hash)
      requires Reorganised(oldBlock, newBlock, was, now, lookup, current) && was == CanonOf(blocks, oldBlock.hash)
      ensures Indexes(blocks, newBlock.hash, WithEntries(lookup, newBlock))
      ensures now[newBlock.number := newBlock.hash] == CanonOf(blocks, newBlock.hash)
        <==> Covers(blocks, oldBlock.hash, newBlock.hash)
    {
      hide Closed, Fork, Ancestor, Indexes, CanonOf, OncePerChain, WithEntries, Covers;
      var h, k, f := oldBlock.hash, newBlock.hash, Fork(blocks, oldBlock.hash, newBlock.hash);
      var m := if newBlock.number > f then newBlock.number - 1 else f;
      HeadIndexes(blocks, k, m, lookup);
      if newBlock.number > f {
        ParentIs(blocks, k);
      }
      HeadCanon(blocks, h, k, now);
    }

    /** A child of the current block needs no reorganisation. */
    lemma AfterChild(block: Block)
      requires Indexed() && HasBlock(blocks, block) && block.parent == current.hash && OncePerChain(blocks, block.hash)
      ensures Indexes(blocks, block.hash, WithEntries(lookup, block))
      ensures canon[block.number := block.hash] == CanonOf(blocks, block.hash)
      ensures Covers(blocks, current.hash, block.hash)
    {
      hide Indexes, CanonOf, OncePerChain, WithEntries, Ancestor, Fork;
      ParentIs(blocks, block.hash);
      HeadIndexes(blocks, block.hash, block.number - 1, lookup);
      CanonAgain(blocks, block.hash);
    }

    /** Makes a stored block the head, with a reorganisation if it is not a child of the current
        one. The indexes come out right exactly when the new branch covers the old numbers. */
    method WriteKnownBlock(block: Block) returns (err: Option<ReorgError>)
      requires Reorganising(current, block)
      modifies this`canon, this`lookup, this`current, this`currentHeader, this`currentFastBlock
      ensures err.None? && current == block
      ensures Indexes(blocks, block.hash, lookup)
      ensures canon == CanonOf(blocks, block.hash) <==> Covers(blocks, old(current).hash, block.hash)
      ensures Indexed() <==> Covers(blocks, old(current).hash, block.hash)
      ensures Canonical(old(canon), block.number) != block.hash ==> currentHeader == block && currentFastBlock == block
      ensures Canonical(old(canon), block.number) == block.hash ==>
        currentHeader == old(currentHeader) && currentFastBlock == old(currentFastBlock)
    {
      hide Fork, Ancestor, Indexes, CanonOf, OncePerChain, OneGenesis, WithEntries;
      err := None;
      if block.parent != current.hash {
        err := Reorg(current, block);
        AfterReorg(old(current), block, old(canon), canon, lookup, current);
        NumberOfHead(old(current), block, old(canon), canon, lookup, current);
      } else {
        AfterChild(block);
      }
      if err.None? {
        WriteHeadBlock(block);
      }
    }
  
    /** Stores a block that has been processed, and makes it the head if it wins the choice. */
    method WriteBlock(block: Block, committed: bool, preserve: Preserve, coin: bool) returns (status: WriteStatus)
      requires Indexed() && Weighed()
      requires block.hash != NO_HASH && (block.hash in blocks ==> blocks[block.hash] == block)
      requires AppendOnce(blocks, current, block)
      modifies this
      ensures status == UnknownAncestor <==> Read(old(blocks), block.parent, block.number - 1).None?
      ensures blocks == if status == UnknownAncestor then old(blocks) else old(blocks)[block.hash := block]
      ensures status == CommitFailed <==> status != UnknownAncestor && !committed
      ensures Weighed()
      ensures status == CanonStat ==>
        && current == block && Wins(blocks, old(current), block, preserve, coin)
        && (Indexed() <==> Covers(blocks, old(current).hash, block.hash))
        && (ConstantDifficulty(blocks) ==> Indexed())
        && (Canonical(old(canon), block.number) != block.hash ==> currentHeader == block && currentFastBlock == block)
        && (Canonical(old(canon), block.number) == block.hash ==>
              currentHeader == old(currentHeader) && currentFastBlock == old(currentFastBlock))
      ensures status == SideStat ==> !Wins(blocks, old(current), block, preserve, coin)
      ensures status in {CanonStat, SideStat} ==>
        && Closed(blocks) && block.hash in blocks && old(current).hash in blocks
        && var externTd, localTd := TotalDifficulty(blocks, block.hash), TotalDifficulty(blocks, old(current).hash);
        && (externTd > localTd ==> status == CanonStat)
        && (externTd < localTd ==> status == SideStat)
        && (externTd == localTd && block.number < old(current).number ==> status == CanonStat)
        && (externTd == localTd && block.number > old(current).number ==> status == SideStat)
        && (externTd == localTd && block.number == old(current).number ==>
              && (preserve.current ==> status == SideStat)
              && (!preserve.current && preserve.block ==> status == CanonStat)
              && (!preserve.current && !preserve.block ==> (status == CanonStat <==> coin)))
      ensures status != CanonStat ==>
        && Indexed() && current == old(current) && canon == old(canon) && lookup == old(lookup)
        && currentHeader == old(currentHeader) && currentFastBlock == old(currentFastBlock)
      ensures status in {CanonStat, SideStat} && old(Heaviest()) ==> Heaviest()
    {
      hide Indexes, CanonOf, OncePerChain, TotalDifficulty, Fork, Ancestor, Covers, ConstantDifficulty, Closed;
      var parent := Read(blocks, block.parent, block.number - 1);
      if parent.None? { return UnknownAncestor; }
      var localTd, externTd := tds[current.hash], tds[block.parent] + block.difficulty;
      BlockStored(blocks, tds, block, current, lookup);
      blocks, tds := blocks[block.hash := block], tds[block.hash := externTd];
      if !committed { return CommitFailed; }
      var reorg := externTd > localTd
        || (externTd == localTd
            && (block.number < current.number
                || (block.number == current.number && !preserve.current && (preserve.block || coin))));
      if reorg {
        WinnerCovers(blocks, current, block);
        var err := WriteKnownBlock(block);
        status := CanonStat;
      } else {
        status := SideStat;
      }
    }
  }

  datatype WriteStatus = UnknownAncestor | CommitFailed | CanonStat | SideStat

  /** Whether the local miner's blocks are to be preserved, for the current and the new block. */
  datatype Preserve = Preserve(current: bool, block: bool)

  /** Adding `block` lets no chain hold a transaction twice. */
  ghost predicate AppendOnce(s: Store, current: Block, block: Block)
    requires Closed(s)
  {
    var t := s[block.hash := block];
    Closed(t) && current.hash in t ==> OncePerChain(t, current.hash) && OncePerChain(t, block.hash)
  }

  /** The choice between the current head and a new block: by total difficulty, then the shorter
      chain, then by who mined them and by lot. */
  ghost predicate Wins(s: Store, current: Block, block: Block, preserve: Preserve, coin: bool) {
    && Closed(s) && current.hash in s && block.hash in s
    && var externTd, localTd := TotalDifficulty(s, block.hash), TotalDifficulty(s, current.hash);
      || externTd > localTd
      || (externTd == localTd && block.number < current.number)
      || (externTd == localTd && block.number == current.number && !preserve.current && (preserve.block || coin))
  }

  lemma BlockStored(s: Store, tds: map<Hash, nat>, block: Block, current: Block, lookup: map<Tx, nat>)
    requires Closed(s) && HasBlock(s, current) && tds.Keys == s.Keys
    requires forall h :: h in s ==> tds[h] == TotalDifficulty(s, h)
    requires block.hash != NO_HASH && (block.hash in s ==> s[block.hash] == block)
    requires Read(s, block.parent, block.number - 1).Some?
    ensures var t, tds' := s[block.hash := block], tds[block.hash := tds[block.parent] + block.difficulty];
      && Extends(t, s) && CanonOf(t, current.hash) == CanonOf(s, current.hash)
      && (Indexes(s, current.hash, lookup) ==> Indexes(t, current.hash, lookup))
      && TotalDifficulty(t, current.hash) == tds[current.hash] && TotalDifficulty(t, block.hash) == tds'[block.hash]
      && forall h :: h in t ==> tds'[h] == TotalDifficulty(t, h) && (h in s ==> tds'[h] == tds[h])
  {
    hide OneGenesis, Indexes, TotalDifficulty, CanonOf, Closed;
    ParentBelow(s, block);
    var t := s[block.hash := block];
    StoredClosed(s, block);
    SameCanon(s, t, current.hash);
    SameIndexes(s, t, current.hash, lookup);
    forall h | h in s ensures TotalDifficulty(t, h) == TotalDifficulty(s, h) {
      SameTotal(s, t, h);
    }
    TotalOfChild(t, block.hash);
  }

  lemma TotalOfChild(s: Store, h: Hash)
    requires Closed(s) && h in s && s[h].number > 0
    ensures s[h].parent in s && TotalDifficulty(s, h) == TotalDifficulty(s, s[h].parent) + s[h].difficulty
  {
  }

  lemma SameIndexes(s: Store, t: Store, h: Hash, lookup: map<Tx, nat>)
    requires Extends(t, s) && h in s
    ensures Indexes(s, h, lookup) ==> Indexes(t, h, lookup)
  {
    hide Closed, Indexes, Ancestor;
    if Indexes(s, h, lookup) {
      IndexesAre(s, h, lookup);
      forall n: nat, tx ensures InChain(t, h, n, tx) <==> InChain(s, h, n, tx) {
        if n <= s[h].number { SameAncestor(s, t, h, n); }
      }
      AreIndexes(t, h, lookup);
    }
  }

  /** With constant difficulty a winner never ends below the old head. */
  lemma WinnerCovers(s: Store, current: Block, block: Block)
    requires Closed(s) && HasBlock(s, current) && HasBlock(s, block)
    requires TotalDifficulty(s, block.hash) >= TotalDifficulty(s, current.hash)
    ensures ConstantDifficulty(s) ==> Covers(s, current.hash, block.hash)
  {
    hide Closed, Fork;
    if ConstantDifficulty(s) { HeavierIsLonger(s, current.hash, block.hash); }
  }

  const GENESIS := Block(1, NO_HASH, 0, 1, [])
  const FIRST := Block(2, 1, 1, 1, [])
  const SECOND := Block(3, 2, 2, 1, [])
  const HEAVY := Block(4, 1, 1, 5, [])

  /** A heavy block on genesis against a chain of two light ones: the new head is lower and alone
      on its branch, and the old number above it stays in the index. */
  method LowBranchLeavesNumber() returns (chain: BlockChain)
    ensures fresh(chain) && Closed(chain.blocks) && chain.current == HEAVY && !chain.Indexed()
  {
    hide CanonOf, OncePerChain, Indexes, OneGenesis, AppendOnce, ConstantDifficulty, WithEntries, Wins, Covers,
      TotalDifficulty, Fork, Closed, BlockChain.Indexed, BlockChain.Weighed, BlockChain.Heaviest;
    chain := new BlockChain(GENESIS);
    var s := chain.blocks;
    FirstTwoWin();
    NoTxsOnce(s, GENESIS, FIRST);
    var status := chain.WriteBlock(FIRST, true, Preserve(false, false), false);
    s := s[2 := FIRST];
    NoTxsOnce(s, FIRST, SECOND);
    status := chain.WriteBlock(SECOND, true, Preserve(false, false), false);
    s := s[3 := SECOND];
    NoTxsOnce(s, SECOND, HEAVY);
    HeavyWins();
    status := chain.WriteBlock(HEAVY, true, Preserve(false, false), false);
    assert chain.blocks == map[1 := GENESIS, 2 := FIRST, 3 := SECOND, 4 := HEAVY];
  }

  lemma NoTxsOnce(s: Store, current: Block, block: Block)
    requires Closed(s) && block.txs == [] && forall h :: h in s ==> s[h].txs == []
    ensures AppendOnce(s, current, block)
  {
  }

  lemma FirstTwoWin()
    ensures Closed(map[1 := GENESIS])
    ensures Closed(map[1 := GENESIS, 2 := FIRST]) && Covers(map[1 := GENESIS, 2 := FIRST], 1, 2)
    ensures Closed(map[1 := GENESIS, 2 := FIRST, 3 := SECOND])
    ensures Covers(map[1 := GENESIS, 2 := FIRST, 3 := SECOND], 2, 3)
    ensures forall p: Preserve, coin :: Wins(map[1 := GENESIS, 2 := FIRST], GENESIS, FIRST, p, coin)
    ensures forall p: Preserve, coin :: Wins(map[1 := GENESIS, 2 := FIRST, 3 := SECOND], FIRST, SECOND, p, coin)
  {
  }

  lemma HeavyWins()
    ensures var s := map[1 := GENESIS, 2 := FIRST, 3 := SECOND, 4 := HEAVY];
      && Closed(s) && !Covers(s, 3, 4)
      && forall p: Preserve, coin :: Wins(s, SECOND, HEAVY, p, coin)
  {
    var s := map[1 := GENESIS, 2 := FIRST, 3 := SECOND, 4 := HEAVY];
    assert TotalDifficulty(s, 2) == 2;
    assert Fork(s, 2, 4) == 0;
  }
}
