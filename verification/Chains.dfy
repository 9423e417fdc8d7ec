/** Blocks linked by their parents, and the chain of ancestors of a block. */
module Chains {
  import opened Types

  type Hash = nat

  const NO_HASH: Hash := 0

  datatype Block = Block(hash: Hash, parent: Hash, number: nat, difficulty: nat, txs: seq<Tx>)

  /** The blocks or headers in the database. */
  type Store = map<Hash, Block>

  /** Looks a block up by hash and number. */
  function Read(s: Store, hash: Hash, number: int): (r: Option<Block>) {
    if hash in s && s[hash].number == number then Some(s[hash]) else None
  }

  /** Every block but the one genesis has its parent in the store, one number below. */
  ghost predicate Closed(s: Store) {
    && NO_HASH !in s
    && Named(s)
    && (forall h {:trigger s[h].parent} ::
          h in s && s[h].number > 0 ==> s[h].parent in s && s[s[h].parent].number == s[h].number - 1)
    && OneGenesis(s)
  }

  /** Blocks are stored under their own hash. */
  ghost predicate Named(s: Store) {
    forall h :: h in s ==> s[h].hash == h
  }

  ghost predicate OneGenesis(s: Store) {
    && (forall h :: h in s && s[h].number == 0 ==> s[h].parent == NO_HASH)
    && forall h, k :: h in s && k in s && s[h].number == 0 && s[k].number == 0 ==> h == k
  }

  /** The ancestor of `h` with number `n`, walking from parent to parent. */
  ghost function Ancestor(s: Store, h: Hash, n: nat): (a: Hash)
    requires Closed(s) && h in s && n <= s[h].number
    ensures a in s && s[a].number == n
    decreases s[h].number
  {
    if s[h].number == n then h else Ancestor(s, s[h].parent, n)
  }

  /** The number-to-hash index that `head` deserves. */
  ghost function CanonOf(s: Store, head: Hash): map<nat, Hash>
    requires Closed(s) && head in s
  {
    map n | 0 <= n <= s[head].number :: Ancestor(s, head, n)
  }

  /** Difficulties summed back to genesis. */
  ghost function TotalDifficulty(s: Store, h: Hash): nat
    requires Closed(s) && h in s
    decreases s[h].number
  {
    s[h].difficulty + if s[h].number == 0 then 0 else TotalDifficulty(s, s[h].parent)
  }

  /** What an index answers for a number; the zero hash when it has no entry. */
  function Canonical(canon: map<nat, Hash>, n: int): Hash {
    if n in canon then canon[n] else NO_HASH
  }

  /** An index is defined for exactly the numbers up to `top`. */
  ghost predicate UpTo(canon: map<nat, Hash>, top: nat) {
    (forall n: nat :: n in canon <==> n <= top) && forall n :: n in canon ==> canon[n] != NO_HASH
  }

  lemma {:induction false} Bounded(canon: map<nat, Hash>) returns (top: nat)
    ensures forall n :: n in canon ==> n <= top
    decreases |canon|
  {
    top := 0;
    if canon != map[] {
      var n :| n in canon;
      var below := Bounded(canon - {n});
      assert forall k :: k in canon ==> k == n || k in canon - {n};
      top := if n < below then below else n;
    }
  }

  /** Deletes the index entries from `start` on, up to the first that is missing. */
  method DeleteFrom(canon: map<nat, Hash>, start: nat) returns (written: map<nat, Hash>)
    ensures forall top: nat :: UpTo(canon, top) ==> written == map n | n in canon && n < start :: canon[n]
  {
    written := canon;
    var i: int := start;
    ghost var top: int := Bounded(canon);
    while Canonical(canon, i) != NO_HASH
      invariant start <= i && (start <= top ==> i <= top + 1)
      invariant written == map n | n in canon && !(start <= n < i) :: canon[n]
      decreases top + 1 - i
    {
      written := written - {i};
      i := i + 1;
    }
  }

  lemma StartsThere(s: Store, h: Hash)
    requires Closed(s) && h in s
    ensures Ancestor(s, h, s[h].number) == h && NO_HASH !in s
  {
  }

  lemma CanonUpTo(s: Store, h: Hash)
    requires Closed(s) && h in s
    ensures UpTo(CanonOf(s, h), s[h].number)
  {
    hide Ancestor, OneGenesis;
    forall n: nat | n <= s[h].number ensures CanonOf(s, h)[n] != NO_HASH {
      assert Ancestor(s, h, n) in s;
    }
  }

  lemma CanonEntries(s: Store, h: Hash)
    requires Closed(s) && h in s
    ensures forall n: nat :: n in CanonOf(s, h) <==> n <= s[h].number
    ensures forall n: nat :: n <= s[h].number ==> CanonOf(s, h)[n] == Ancestor(s, h, n)
  {
  }

  lemma CanonIs(s: Store, h: Hash, c: map<nat, Hash>)
    requires Closed(s) && h in s
    requires forall n: nat :: n in c <==> n <= s[h].number
    requires forall n: nat :: n <= s[h].number ==> c[n] == Ancestor(s, h, n)
    ensures c == CanonOf(s, h)
  {
  }

  /** An ancestor's ancestors are ancestors. */
  lemma {:induction false} AncestorTransitive(s: Store, h: Hash, m: nat, n: nat)
    requires Closed(s) && h in s && n <= m <= s[h].number
    ensures Ancestor(s, Ancestor(s, h, m), n) == Ancestor(s, h, n)
    decreases s[h].number
  {
    if s[h].number > m { AncestorTransitive(s, s[h].parent, m, n); }
  }

  /** Where two chains meet, they stay together. */
  lemma {:induction false} MeetingChains(s: Store, h: Hash, k: Hash, m: nat, n: nat)
    requires Closed(s) && h in s && k in s && n <= m <= s[h].number && m <= s[k].number
    requires Ancestor(s, h, m) == Ancestor(s, k, m)
    ensures Ancestor(s, h, n) == Ancestor(s, k, n)
  {
    AncestorTransitive(s, h, m, n);
    AncestorTransitive(s, k, m, n);
  }

  lemma Genesis(s: Store, h: Hash, k: Hash)
    requires Closed(s) && h in s && k in s
    ensures Ancestor(s, h, 0) == Ancestor(s, k, 0)
  {
  }

  /** A larger store gives old blocks the same ancestors and the same total difficulty. */
  ghost predicate Extends(t: Store, s: Store) {
    Closed(s) && Closed(t) && forall k :: k in s ==> k in t && t[k] == s[k]
  }

  lemma ParentBelow(s: Store, block: Block)
    requires Closed(s) && Read(s, block.parent, block.number - 1).Some?
    ensures block.number > 0 && block.parent in s && s[block.parent].number == block.number - 1
  {
  }

  /** A block whose parent is stored can be added. */
  lemma StoredClosed(s: Store, b: Block)
    requires Closed(s) && b.hash != NO_HASH && (b.hash in s ==> s[b.hash] == b)
    requires b.number > 0 && b.parent in s && s[b.parent].number == b.number - 1
    ensures Extends(s[b.hash := b], s)
  {
    hide OneGenesis;
    StillOneGenesis(s, b);
  }

  lemma StillOneGenesis(s: Store, b: Block)
    requires OneGenesis(s) && b.number > 0 && (b.hash in s ==> s[b.hash] == b)
    ensures OneGenesis(s[b.hash := b])
  {
  }

  lemma {:induction false} SameAncestor(s: Store, t: Store, h: Hash, n: nat)
    requires Extends(t, s) && h in s && n <= s[h].number
    ensures Ancestor(t, h, n) == Ancestor(s, h, n)
    decreases s[h].number
  {
    if n < s[h].number { SameAncestor(s, t, s[h].parent, n); }
  }

  lemma {:induction false} SameTotal(s: Store, t: Store, h: Hash)
    requires Extends(t, s) && h in s
    ensures TotalDifficulty(t, h) == TotalDifficulty(s, h)
    decreases s[h].number
  {
    if s[h].number > 0 { SameTotal(s, t, s[h].parent); }
  }

  lemma SameCanon(s: Store, t: Store, h: Hash)
    requires Extends(t, s) && h in s
    ensures CanonOf(t, h) == CanonOf(s, h)
  {
    forall n: nat | n <= s[h].number ensures Ancestor(t, h, n) == Ancestor(s, h, n) {
      SameAncestor(s, t, h, n);
    }
  }

  ghost predicate Weighty(s: Store) {
    forall k :: k in s && s[k].number > 0 ==> s[k].difficulty >= 1
  }

  /** With difficulties of at least one, a proper ancestor has a smaller total. */
  lemma {:induction false} AncestorLighter(s: Store, h: Hash, n: nat)
    requires Closed(s) && h in s && n < s[h].number && Weighty(s)
    ensures TotalDifficulty(s, Ancestor(s, h, n)) < TotalDifficulty(s, h)
    decreases s[h].number
  {
    if n < s[h].number - 1 { AncestorLighter(s, s[h].parent, n); }
  }

  ghost predicate ConstantDifficulty(s: Store) {
    && Weighty(s)
    && forall h, k :: h in s && k in s && s[h].number > 0 && s[k].number > 0 ==> s[h].difficulty == s[k].difficulty
  }

  lemma {:induction false} EqualHeights(s: Store, h: Hash, k: Hash)
    requires Closed(s) && h in s && k in s && ConstantDifficulty(s) && s[h].number == s[k].number
    ensures TotalDifficulty(s, h) == TotalDifficulty(s, k)
    decreases s[h].number
  {
    if s[h].number > 0 { EqualHeights(s, s[h].parent, s[k].parent); }
  }

  /** When every block has the same difficulty, the heavier chain is never the shorter one. */
  lemma HeavierIsLonger(s: Store, h: Hash, k: Hash)
    requires Closed(s) && h in s && k in s && ConstantDifficulty(s)
    ensures TotalDifficulty(s, h) > TotalDifficulty(s, k) <==> s[h].number > s[k].number
  {
    if s[h].number > s[k].number {
      AncestorLighter(s, h, s[k].number);
      EqualHeights(s, Ancestor(s, h, s[k].number), k);
    } else if s[h].number < s[k].number {
      AncestorLighter(s, k, s[h].number);
      EqualHeights(s, Ancestor(s, k, s[h].number), h);
    } else {
      EqualHeights(s, h, k);
    }
  }

  /** The index of a child: that of its parent and one entry more. */
  lemma CanonOfChild(s: Store, h: Hash)
    requires Closed(s) && h in s && s[h].number > 0
    ensures CanonOf(s, h) == CanonOf(s, s[h].parent)[s[h].number := h]
  {
    var p := s[h].parent;
    forall n: nat | n < s[h].number ensures Ancestor(s, h, n) == Ancestor(s, p, n) {
    }
  }

  /** The number of the last block that two chains share. */
  ghost function Fork(s: Store, h: Hash, k: Hash): (n: nat)
    requires Closed(s) && h in s && k in s
    ensures n <= s[h].number && n <= s[k].number
    decreases s[h].number + s[k].number
  {
    if h == k then s[h].number
    else if s[h].number > s[k].number then Fork(s, s[h].parent, k)
    else if s[h].number < s[k].number then Fork(s, h, s[k].parent)
    else Fork(s, s[h].parent, s[k].parent)
  }

  /** Two chains agree exactly up to their fork. */
  lemma {:induction false} ForkDivides(s: Store, h: Hash, k: Hash, n: nat)
    requires Closed(s) && h in s && k in s && n <= s[h].number && n <= s[k].number
    ensures Ancestor(s, h, n) == Ancestor(s, k, n) <==> n <= Fork(s, h, k)
    decreases s[h].number + s[k].number
  {
    if h == k {
    } else if s[h].number > s[k].number {
      ForkDivides(s, s[h].parent, k, n);
    } else if s[h].number < s[k].number {
      ForkDivides(s, h, s[k].parent, n);
    } else if n < s[h].number {
      ForkDivides(s, s[h].parent, s[k].parent, n);
    }
  }

  /** The blocks of a chain above number `n`, the head first. */
  ghost function Branch(s: Store, h: Hash, n: nat): (b: seq<Block>)
    requires Closed(s) && h in s && n <= s[h].number
    ensures |b| == s[h].number - n
    decreases s[h].number
  {
    if s[h].number == n then [] else [s[h]] + Branch(s, s[h].parent, n)
  }

  lemma {:induction false} BranchAt(s: Store, h: Hash, n: nat, i: nat)
    requires Closed(s) && h in s && n <= s[h].number && i < s[h].number - n
    ensures Branch(s, h, n)[i] == s[Ancestor(s, h, s[h].number - i)]
    decreases s[h].number
  {
    hide OneGenesis;
    if i > 0 { BranchAt(s, s[h].parent, n, i - 1); }
  }

  /** The transactions of some blocks, in that order. */
  function TxsOf(blocks: seq<Block>): seq<Tx> {
    if blocks == [] then [] else TxsOf(blocks[..|blocks| - 1]) + blocks[|blocks| - 1].txs
  }

  lemma {:induction false} TxsOfHolds(blocks: seq<Block>, tx: Tx)
    ensures tx in TxsOf(blocks) <==> exists i :: 0 <= i < |blocks| && tx in blocks[i].txs
  {
    if blocks != [] { TxsOfHolds(blocks[..|blocks| - 1], tx); }
  }

  function Difference(a: seq<Tx>, b: seq<Tx>): seq<Tx> {
    if a == [] then []
    else Difference(a[..|a| - 1], b) + if a[|a| - 1] in b then [] else [a[|a| - 1]]
  }

  lemma {:induction false} DifferenceHolds(a: seq<Tx>, b: seq<Tx>, tx: Tx)
    ensures tx in Difference(a, b) <==> tx in a && tx !in b
  {
    if a != [] {
      assert a == a[..|a| - 1] + [a[|a| - 1]];
      DifferenceHolds(a[..|a| - 1], b, tx);
    }
  }

  method TxDifference(a: seq<Tx>, b: seq<Tx>) returns (keep: seq<Tx>)
    ensures keep == Difference(a, b)
  {
    keep := [];
    var remove: set<Tx> := {};
    for i := 0 to |b|
      invariant remove == set j | 0 <= j < i :: b[j]
    {
      remove := remove + {b[i]};
    }
    for i := 0 to |a|
      invariant keep == Difference(a[..i], b)
    {
      assert a[..i + 1][..i] == a[..i];
      if a[i] !in remove {
        keep := keep + [a[i]];
      }
    }
    assert a[..|a|] == a;
  }

  ghost predicate HasBlock(s: Store, b: Block) {
    b.hash in s && s[b.hash] == b
  }

  /** Two walkers came down from `h` and `k`, noting the blocks they left; where they are now,
      their chains still fork at the same place. */
  ghost predicate Walked(s: Store, h: Hash, k: Hash, a: Hash, b: Hash, left: seq<Block>, right: seq<Block>)
    requires Closed(s) && h in s && k in s
  {
    && a in s && b in s && s[a].number <= s[h].number && s[b].number <= s[k].number
    && a == Ancestor(s, h, s[a].number) && b == Ancestor(s, k, s[b].number)
    && Fork(s, a, b) == Fork(s, h, k)
    && left == Branch(s, h, s[a].number) && right == Branch(s, k, s[b].number)
  }

  lemma {:induction false} BranchMore(s: Store, h: Hash, n: nat)
    requires Closed(s) && h in s && n < s[h].number
    ensures Branch(s, h, n) == Branch(s, h, n + 1) + [s[Ancestor(s, h, n + 1)]]
    ensures Ancestor(s, h, n) == s[Ancestor(s, h, n + 1)].parent
    decreases s[h].number
  {
    if n + 1 < s[h].number { BranchMore(s, s[h].parent, n); }
  }

  /** One step down on the side that is higher, or on both if neither is. */
  lemma StepLeft(s: Store, h: Hash, k: Hash, a: Hash, b: Hash, left: seq<Block>, right: seq<Block>)
    requires Closed(s) && h in s && k in s && Walked(s, h, k, a, b, left, right) && s[a].number > s[b].number
    ensures Read(s, s[a].parent, s[a].number - 1).Some?
    ensures Walked(s, h, k, s[a].parent, b, left + [s[a]], right)
  {
    BranchMore(s, h, s[a].number - 1);
  }

  lemma StepRight(s: Store, h: Hash, k: Hash, a: Hash, b: Hash, left: seq<Block>, right: seq<Block>)
    requires Closed(s) && h in s && k in s && Walked(s, h, k, a, b, left, right) && s[a].number < s[b].number
    ensures Read(s, s[b].parent, s[b].number - 1).Some?
    ensures Walked(s, h, k, a, s[b].parent, left, right + [s[b]])
  {
    BranchMore(s, k, s[b].number - 1);
  }

  lemma StepBoth(s: Store, h: Hash, k: Hash, a: Hash, b: Hash, left: seq<Block>, right: seq<Block>)
    requires Closed(s) && h in s && k in s && Walked(s, h, k, a, b, left, right) && s[a].number == s[b].number && a != b
    ensures Read(s, s[a].parent, s[a].number - 1).Some? && Read(s, s[b].parent, s[b].number - 1).Some?
    ensures Walked(s, h, k, s[a].parent, s[b].parent, left + [s[a]], right + [s[b]])
  {
    BranchMore(s, h, s[a].number - 1);
    BranchMore(s, k, s[b].number - 1);
  }

  lemma WalkStart(s: Store, h: Hash, k: Hash)
    requires Closed(s) && h in s && k in s
    ensures Walked(s, h, k, h, k, [], [])
  {
  }

  /** Where the walkers meet is the fork. */
  lemma WalkEnd(s: Store, h: Hash, k: Hash, a: Hash, left: seq<Block>, right: seq<Block>)
    requires Closed(s) && h in s && k in s && Walked(s, h, k, a, a, left, right)
    ensures s[a].number == Fork(s, h, k)
    ensures left == Branch(s, h, Fork(s, h, k)) && right == Branch(s, k, Fork(s, h, k))
  {
  }

  lemma TxsOfMore(blocks: seq<Block>, b: Block)
    ensures TxsOf(blocks + [b]) == TxsOf(blocks) + b.txs
  {
    assert (blocks + [b])[..|blocks|] == blocks;
  }

  /** A branch holds the transactions of its chain above the fork. */
  lemma BranchHolds(s: Store, h: Hash, fork: nat, tx: Tx)
    requires Closed(s) && h in s && fork <= s[h].number
    ensures tx in TxsOf(Branch(s, h, fork)) <==>
      exists n: nat :: fork < n <= s[h].number && tx in s[Ancestor(s, h, n)].txs
  {
    hide Closed, Ancestor, Branch, TxsOf;
    var b := Branch(s, h, fork);
    TxsOfHolds(b, tx);
    if tx in TxsOf(b) {
      var i :| 0 <= i < |b| && tx in b[i].txs;
      BranchAt(s, h, fork, i);
      assert tx in s[Ancestor(s, h, s[h].number - i)].txs;
    }
    if exists n: nat :: fork < n <= s[h].number && tx in s[Ancestor(s, h, n)].txs {
      var n: nat :| fork < n <= s[h].number && tx in s[Ancestor(s, h, n)].txs;
      BranchAt(s, h, fork, s[h].number - n);
      assert tx in b[s[h].number - n].txs;
    }
  }
}
