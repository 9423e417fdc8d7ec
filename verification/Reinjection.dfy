/** The transactions that a reset of the pool takes back from blocks that have left the chain. */
module Reinjection {
  import opened Types
  import opened Chains

  /** How far apart two heads may be for their blocks to be compared. */
  const MAX_DEPTH: nat := 64

  function Distance(m: nat, n: nat): nat {
    if m < n then n - m else m - n
  }

  /** Transactions of the old branch that the new one does not have; nothing when the new head is
      a child of the old one, or too far off. */
  ghost function Lost(s: Store, oldHead: Block, newHead: Block): seq<Tx>
    requires Closed(s) && HasBlock(s, oldHead) && HasBlock(s, newHead)
  {
    if oldHead.hash == newHead.parent || Distance(oldHead.number, newHead.number) > MAX_DEPTH then []
    else
      var fork := Fork(s, oldHead.hash, newHead.hash);
      Difference(TxsOf(Branch(s, oldHead.hash, fork)), TxsOf(Branch(s, newHead.hash, fork)))
  }

  /** Collects the transactions to reinject; nothing comes back when the reset is to be given up. */
  method Reinject(s: Store, oldHead: Block, newHead: Block) returns (r: Option<seq<Tx>>)
    requires Named(s) && HasBlock(s, newHead)
    ensures Closed(s) && HasBlock(s, oldHead) ==> r == Some(Lost(s, oldHead, newHead))
    ensures oldHead.hash == newHead.parent || Distance(oldHead.number, newHead.number) > MAX_DEPTH ==> r == Some([])
    ensures oldHead.number > newHead.number + 64 || newHead.number > oldHead.number + 64 ==> r == Some([])
    ensures oldHead.hash != newHead.parent && Distance(oldHead.number, newHead.number) <= MAX_DEPTH
      && Read(s, oldHead.hash, oldHead.number).None?
      ==> r == if newHead.number >= oldHead.number then None else Some([])
  {
    hide Closed, Walked, Fork, Branch;
    if oldHead.hash == newHead.parent || Distance(oldHead.number, newHead.number) > MAX_DEPTH { return Some([]); }
    var found := Read(s, oldHead.hash, oldHead.number);
    if found.None? {
      return if newHead.number >= oldHead.number then None else Some([]);
    }
    var rem, add := found.value, newHead;
    var discarded: seq<Tx>, included: seq<Tx> := [], [];
    ghost var h, k, left: seq<Block>, right: seq<Block> := rem.hash, add.hash, [], [];
    if Closed(s) { WalkStart(s, h, k); }
    while rem.number > add.number
      invariant HasBlock(s, rem) && discarded == TxsOf(left)
      invariant Closed(s) ==> Walked(s, h, k, rem.hash, add.hash, left, right)
      decreases rem.number
    {
      if Closed(s) { StepLeft(s, h, k, rem.hash, add.hash, left, right); }
      TxsOfMore(left, rem);
      discarded, left := discarded + rem.txs, left + [rem];
      var parent := Read(s, rem.parent, rem.number - 1);
      if parent.None? { return None; }
      rem := parent.value;
    }
    while add.number > rem.number
      invariant HasBlock(s, add) && rem.number <= add.number && included == TxsOf(right)
      invariant Closed(s) ==> Walked(s, h, k, rem.hash, add.hash, left, right)
      decreases add.number
    {
      if Closed(s) { StepRight(s, h, k, rem.hash, add.hash, left, right); }
      TxsOfMore(right, add);
      included, right := included + add.txs, right + [add];
      var parent := Read(s, add.parent, add.number - 1);
      if parent.None? { return None; }
      add := parent.value;
    }
    while rem.hash != add.hash
      invariant HasBlock(s, rem) && HasBlock(s, add) && rem.number == add.number
      invariant discarded == TxsOf(left) && included == TxsOf(right)
      invariant Closed(s) ==> Walked(s, h, k, rem.hash, add.hash, left, right)
      decreases rem.number
    {
      if Closed(s) { StepBoth(s, h, k, rem.hash, add.hash, left, right); }
      TxsOfMore(left, rem);
      TxsOfMore(right, add);
      discarded, left := discarded + rem.txs, left + [rem];
      var parent := Read(s, rem.parent, rem.number - 1);
      if parent.None? { return None; }
      included, right := included + add.txs, right + [add];
      rem := parent.value;
      parent := Read(s, add.parent, add.number - 1);
      if parent.None? { return None; }
      add := parent.value;
    }
    if Closed(s) { WalkEnd(s, h, k, rem.hash, left, right); }
    var keep := TxDifference(discarded, included);
    r := Some(keep);
  }

  /** A head whose chain runs through the old head loses nothing. */
  lemma NothingLost(s: Store, oldHead: Block, newHead: Block)
    requires Closed(s) && HasBlock(s, oldHead) && HasBlock(s, newHead)
    requires oldHead.number <= newHead.number && Ancestor(s, newHead.hash, oldHead.number) == oldHead.hash
    ensures Lost(s, oldHead, newHead) == []
  {
    hide Closed;
    StartsThere(s, oldHead.hash);
    ForkDivides(s, oldHead.hash, newHead.hash, oldHead.number);
  }

  /** What is lost are the transactions only the old branch has, in its order. */
  lemma LostExactly(s: Store, oldHead: Block, newHead: Block, tx: Tx)
    requires Closed(s) && HasBlock(s, oldHead) && HasBlock(s, newHead)
    requires oldHead.number <= newHead.number + 64 && newHead.number <= oldHead.number + 64
    requires oldHead.hash != newHead.parent
    ensures var fork := Fork(s, oldHead.hash, newHead.hash);
      tx in Lost(s, oldHead, newHead) <==>
      && (exists n: nat :: fork < n <= oldHead.number && tx in s[Ancestor(s, oldHead.hash, n)].txs)
      && !exists n: nat :: fork < n <= newHead.number && tx in s[Ancestor(s, newHead.hash, n)].txs
  {
    hide Closed, Fork, Branch, TxsOf, Difference, Ancestor;
    var fork := Fork(s, oldHead.hash, newHead.hash);
    BranchHolds(s, oldHead.hash, fork, tx);
    BranchHolds(s, newHead.hash, fork, tx);
    DifferenceHolds(TxsOf(Branch(s, oldHead.hash, fork)), TxsOf(Branch(s, newHead.hash, fork)), tx);
  }

  /** A request to move the pool from one head to another; the first has no old head. */
  datatype ResetRequest = ResetRequest(oldHead: Option<Block>, newHead: Block) {
    /** The new head's chain runs through the old head. */
    ghost predicate Extends(blocks: Store) {
      oldHead.Some? ==>
        && Closed(blocks) && HasBlock(blocks, oldHead.value) && HasBlock(blocks, newHead)
        && oldHead.value.number <= newHead.number
        && Ancestor(blocks, newHead.hash, oldHead.value.number) == oldHead.value.hash
    }
  }
}
