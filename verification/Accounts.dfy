/** What the pool's `pending` and `queue` maps mean, and the facts about them that every pool
    operation rests on. */
module Accounts {
  import opened Types
  import opened Lists

  type Accounts = map<Address, List>

  function At(m: Accounts, a: Address): List {
    if a in m then m[a] else map[]
  }

  /** `m` with the list of `a` replaced, the entry being deleted when the list is empty. */
  function With(m: Accounts, a: Address, l: List): Accounts {
    if |l| == 0 then m - {a} else m[a := l]
  }

  function Inserted(m: Accounts, tx: Tx): Accounts {
    m[tx.sender := At(m, tx.sender)[tx.nonce := tx]]
  }

  ghost predicate Has(m: Accounts, tx: Tx) {
    Holds(At(m, tx.sender), tx)
  }

  ghost predicate Proper(m: Accounts) {
    forall a, n :: a in m && n in m[a] ==> m[a][n].sender == a && m[a][n].nonce == n
  }

  ghost predicate NoEmptyList(m: Accounts) {
    forall a :: a in m ==> |m[a]| > 0
  }

  ghost predicate Apart(p: Accounts, q: Accounts) {
    forall a, n :: n in At(p, a) ==> n !in At(q, a)
  }

  /** The two maps share no account nonce, and `txs` is exactly their disjoint union. */
  ghost predicate Partition(p: Accounts, q: Accounts, txs: set<Tx>) {
    && Proper(p) && Proper(q) && Apart(p, q)
    && forall tx :: tx in txs <==> Has(p, tx) || Has(q, tx)
  }

  lemma PartitionSym(p: Accounts, q: Accounts, txs: set<Tx>)
    requires Partition(p, q, txs)
    ensures Partition(q, p, txs)
  {
  }

  /** `l` is divided into `kept` and `gone`. */
  ghost predicate Divided(l: List, kept: List, gone: set<Tx>) {
    && Keyed(kept)
    && (forall tx :: Holds(l, tx) <==> Holds(kept, tx) || tx in gone)
    && (forall tx :: tx in gone ==> !Holds(kept, tx))
  }

  lemma ProperKeyed(m: Accounts, a: Address)
    requires Proper(m)
    ensures Keyed(At(m, a))
    ensures forall tx :: Holds(At(m, a), tx) ==> tx.sender == a
  {
  }

  /** Taking transactions off an account's list takes them out of the union. */
  lemma TakenOff(p: Accounts, q: Accounts, txs: set<Tx>, a: Address, kept: List, gone: set<Tx>)
    requires Partition(p, q, txs) && Divided(At(p, a), kept, gone)
    ensures Partition(p[a := kept], q, txs - gone) && gone <= txs
  {
    var p': Accounts := p[a := kept];
    ProperKeyed(p, a);
    forall b, n | b in p' && n in p'[b] ensures p'[b][n].sender == b && p'[b][n].nonce == n {
      if b == a { assert Holds(kept, kept[n]) && Holds(At(p, a), kept[n]); }
    }
    forall b, n | n in At(p', b) ensures n !in At(q, b) {
      if b == a { assert Holds(kept, kept[n]) && Holds(At(p, a), kept[n]); }
      assert n in At(p, b);
    }
    forall tx ensures tx in txs - gone <==> Has(p', tx) || Has(q, tx) {
      TakenOffOne(p, q, txs, a, kept, gone, tx);
    }
    forall tx | tx in gone ensures tx in txs {
      assert Holds(At(p, a), tx) && Has(p, tx);
    }
  }

  lemma TakenOffOne(p: Accounts, q: Accounts, txs: set<Tx>, a: Address, kept: List, gone: set<Tx>, tx: Tx)
    requires Partition(p, q, txs) && Divided(At(p, a), kept, gone)
    ensures tx in txs - gone <==> Has(p[a := kept], tx) || Has(q, tx)
  {
    ProperKeyed(p, a);
    assert Holds(At(p, a), tx) <==> Holds(kept, tx) || tx in gone;
    if tx in gone {
      assert tx.sender == a && tx.nonce in At(p, a);
    }
  }

  /** Adding a transaction at an account nonce that neither map uses adds it to the union. */
  lemma PutOn(p: Accounts, q: Accounts, txs: set<Tx>, tx: Tx)
    requires Partition(p, q, txs)
    requires tx.nonce !in At(p, tx.sender) && tx.nonce !in At(q, tx.sender)
    ensures Partition(Inserted(p, tx), q, txs + {tx}) && tx !in txs
  {
    var p': Accounts := Inserted(p, tx);
    forall t ensures t in txs + {tx} <==> Has(p', t) || Has(q, t) {
      if t.sender == tx.sender && t.nonce == tx.nonce {
        assert Has(p', t) <==> t == tx;
      } else {
        assert Has(p', t) <==> Has(p, t);
      }
    }
  }

  /** Deleting or keeping an empty list makes no difference to the union. */
  lemma Tidied(p: Accounts, q: Accounts, txs: set<Tx>, a: Address)
    requires Partition(p, q, txs) && |At(p, a)| == 0
    ensures Partition(p - {a}, q, txs)
  {
    assert At(p, a) == map[];
    forall tx ensures Has(p - {a}, tx) <==> Has(p, tx) {
      if tx.sender != a { assert At(p - {a}, tx.sender) == At(p, tx.sender); }
    }
    assert forall b :: b != a ==> At(p - {a}, b) == At(p, b);
  }

  /** `m` with the transactions of `l` added to the list of `a`. */
  function Merged(m: Accounts, a: Address, l: List): Accounts {
    if l == map[] then m else m[a := At(m, a) + l]
  }

  /** The transactions of `s`, by nonce. */
  function Collected(s: seq<Tx>): List {
    if s == [] then map[] else Collected(s[..|s| - 1])[s[|s| - 1].nonce := s[|s| - 1]]
  }

  lemma {:induction false} CollectedHolds(s: seq<Tx>, n: nat)
    ensures n in Collected(s) ==> Collected(s)[n] in s && Collected(s)[n].nonce == n
    ensures n !in Collected(s) ==> forall tx :: tx in s ==> tx.nonce != n
  {
    if s != [] {
      var t := s[..|s| - 1];
      assert s == t + [s[|s| - 1]];
      CollectedHolds(t, n);
    }
  }

  lemma CollectedAscending(l: List)
    requires Keyed(l)
    ensures Collected(Ascending(l)) == l
  {
    forall n ensures n in Collected(Ascending(l)) <==> n in l
      ensures n in l ==> n in Collected(Ascending(l)) && Collected(Ascending(l))[n] == l[n]
    {
      CollectedHolds(Ascending(l), n);
      if n in l { AscendingHolds(l, l[n]); }
      if n in Collected(Ascending(l)) { AscendingHolds(l, Collected(Ascending(l))[n]); }
    }
  }

  lemma InsertedMerges(m: Accounts, a: Address, s: seq<Tx>, i: nat)
    requires i < |s| && s[i].sender == a
    ensures Inserted(Merged(m, a, Collected(s[..i])), s[i]) == Merged(m, a, Collected(s[..i + 1]))
  {
    assert s[..i + 1][..i] == s[..i];
    MergedMore(m, a, Collected(s[..i]), s[i]);
  }

  lemma MergedMore(m: Accounts, a: Address, c: List, tx: Tx)
    requires tx.sender == a
    ensures Inserted(Merged(m, a, c), tx) == Merged(m, a, c[tx.nonce := tx])
  {
    var c' := c[tx.nonce := tx];
    assert tx.nonce in c';
    if c == map[] {
      assert At(m, a)[tx.nonce := tx] == At(m, a) + c';
    } else {
      assert (At(m, a) + c)[tx.nonce := tx] == At(m, a) + c';
    }
  }

  /** Adding a transaction at a nonce that only this map may use, in place of what is there. */
  lemma PutOver(p: Accounts, q: Accounts, txs: set<Tx>, tx: Tx)
    requires Partition(p, q, txs) && tx.nonce !in At(q, tx.sender) && tx !in txs
    ensures var l := At(p, tx.sender);
      var gone := if tx.nonce in l then {l[tx.nonce]} else {};
      gone <= txs && Partition(Inserted(p, tx), q, txs - gone + {tx})
  {
    var l: List := At(p, tx.sender);
    if tx.nonce in l {
      ProperKeyed(p, tx.sender);
      var kept := l - {tx.nonce};
      TakenOff(p, q, txs, tx.sender, kept, {l[tx.nonce]});
      var p': Accounts := p[tx.sender := kept];
      PutOn(p', q, txs - {l[tx.nonce]}, tx);
      assert kept[tx.nonce := tx] == l[tx.nonce := tx];
      assert Inserted(p', tx) == Inserted(p, tx);
    } else {
      PutOn(p, q, txs, tx);
      assert txs - {} == txs;
    }
  }

  lemma InsertedNonempty(m: Accounts, tx: Tx)
    requires NoEmptyList(m)
    ensures NoEmptyList(Inserted(m, tx))
  {
    assert tx.nonce in At(m, tx.sender)[tx.nonce := tx];
  }

  lemma InsertedKeys(m: Accounts, tx: Tx)
    ensures Inserted(m, tx).Keys == m.Keys + {tx.sender}
  {
  }

  /** The transaction that `tx` takes the place of, if any. */
  ghost function Superseded(m: Accounts, tx: Tx): set<Tx> {
    var l := At(m, tx.sender);
    if tx.nonce in l then {l[tx.nonce]} else {}
  }

  /** `PutOver` seen from the lookup `all`, of which `transit` is in neither map. */
  lemma PutOverInTransit(p: Accounts, q: Accounts, all: set<Tx>, transit: set<Tx>, tx: Tx, all': set<Tx>)
    requires transit <= all && Partition(p, q, all - transit)
    requires tx.nonce !in At(p, tx.sender) && (tx in transit || tx !in all)
    requires all' == all - Superseded(q, tx) + {tx}
    ensures transit - {tx} <= all' && Partition(p, Inserted(q, tx), all' - (transit - {tx}))
    ensures Superseded(q, tx) <= all - transit && tx !in Superseded(q, tx)
  {
    PartitionSym(p, q, all - transit);
    PutOver(q, p, all - transit, tx);
    var gone := Superseded(q, tx);
    assert all' - (transit - {tx}) == all - transit - gone + {tx};
    PartitionSym(Inserted(q, tx), p, all' - (transit - {tx}));
  }

  /** Transactions of one account with distinct nonces that the list `l` does not use. */
  ghost predicate Movable(txs: seq<Tx>, a: Address, l: List) {
    && (forall i, j :: 0 <= i < j < |txs| ==> txs[i].nonce != txs[j].nonce)
    && (forall i :: 0 <= i < |txs| ==> txs[i].sender == a && txs[i].nonce !in l)
  }

  lemma StillMovable(m: Accounts, a: Address, txs: seq<Tx>, i: nat)
    requires Movable(txs, a, At(m, a)) && i < |txs|
    ensures txs[i].nonce !in At(Merged(m, a, Collected(txs[..i])), a)
  {
    CollectedHolds(txs[..i], txs[i].nonce);
  }

  lemma WithKeys(m: Accounts, a: Address, l: List)
    requires a in m
    ensures With(m, a, l).Keys <= m.Keys && (a in With(m, a, l) <==> |l| > 0)
    ensures a !in With(m, a, l) ==> With(m, a, l).Keys <= m.Keys - {a}
  {
  }

  lemma WithIs(m: Accounts, a: Address, l: List)
    ensures With(m, a, l) == if |l| == 0 then m[a := l] - {a} else m[a := l]
  {
  }

  lemma WithNonempty(m: Accounts, a: Address, l: List)
    requires NoEmptyList(m)
    ensures NoEmptyList(With(m, a, l))
  {
  }

  lemma MergedNonempty(m: Accounts, a: Address, l: List)
    requires NoEmptyList(m)
    ensures NoEmptyList(Merged(m, a, l))
  {
    if l != map[] {
      var n :| n in l;
      assert n in At(m, a) + l;
    }
  }

  lemma TakenOffTidy(p: Accounts, q: Accounts, txs: set<Tx>, a: Address, kept: List, gone: set<Tx>)
    requires Partition(p, q, txs) && Divided(At(p, a), kept, gone)
    ensures Partition(With(p, a, kept), q, txs - gone) && gone <= txs
  {
    TakenOff(p, q, txs, a, kept, gone);
    if |kept| == 0 {
      Tidied(p[a := kept], q, txs - gone, a);
      assert p[a := kept] - {a} == p - {a};
    }
  }

  /** The transactions of part of a list can be moved wherever their nonces are free. */
  lemma PartMovable(m: Accounts, a: Address, part: List, l: List)
    requires Proper(m) && (forall n :: n in part ==> n in At(m, a) && part[n] == At(m, a)[n] && n !in l)
    ensures Movable(Ascending(part), a, l)
    ensures Keyed(part) && Collected(Ascending(part)) == part
    ensures forall tx :: tx in Ascending(part) <==> tx in Txs(part)
  {
    var s := Ascending(part);
    forall i, j | 0 <= i < j < |s| ensures s[i].nonce != s[j].nonce {
      AscendingOrdered(part, i, j);
    }
    forall tx ensures tx in s <==> Holds(part, tx) {
      AscendingHolds(part, tx);
    }
    forall i | 0 <= i < |s| ensures s[i].sender == a && s[i].nonce !in l {
      assert Holds(part, s[i]);
    }
    CollectedAscending(part);
  }

  /** Cutting a pending list at one of its transactions: that one goes, and those after it are
      free to move to the queue. */
  lemma CutAt(p: Accounts, q: Accounts, txs: set<Tx>, tx: Tx)
    requires Partition(p, q, txs) && Has(p, tx)
    ensures var a, l := tx.sender, At(p, tx.sender);
      var kept, after := Below(l, tx.nonce), AtLeast(l, tx.nonce + 1);
      && Partition(With(p, a, kept), q, txs - {tx} - Txs(after))
      && {tx} + Txs(after) <= txs && tx !in Txs(after)
      && Movable(Ascending(after), a, At(q, a)) && Movable(Ascending(after), a, At(With(p, a, kept), a))
      && Collected(Ascending(after)) == after
      && (forall t :: t in Ascending(after) <==> t in Txs(after))
  {
    var a, l := tx.sender, At(p, tx.sender);
    var kept, after := Below(l, tx.nonce), AtLeast(l, tx.nonce + 1);
    ProperKeyed(p, a);
    forall t ensures t in Txs(after) <==> Holds(after, t) {
      TxsHolds(after, t);
    }
    TakenOffTidy(p, q, txs, a, kept, {tx} + Txs(after));
    assert txs - {tx} - Txs(after) == txs - ({tx} + Txs(after));
    WithAts(p, a, kept);
    PartMovable(p, a, after, At(q, a));
    PartMovable(p, a, after, kept);
  }

  /** Taking one transaction off the queue. */
  lemma CutOne(p: Accounts, q: Accounts, txs: set<Tx>, tx: Tx)
    requires Partition(p, q, txs) && Has(q, tx)
    ensures Partition(p, With(q, tx.sender, At(q, tx.sender) - {tx.nonce}), txs - {tx})
    ensures tx.sender in q
  {
    var l: List := At(q, tx.sender);
    var kept := l - {tx.nonce};
    ProperKeyed(q, tx.sender);
    PartitionSym(p, q, txs);
    TakenOffTidy(q, p, txs, tx.sender, kept, {tx});
    PartitionSym(With(q, tx.sender, kept), p, txs - {tx});
  }

  /** Some transaction in `gone` is in the list at or below the nonce. */
  ghost predicate CutBelow(l: List, gone: set<Tx>, n: nat) {
    exists k: nat :: k in l && k <= n && l[k] in gone
  }

  /** What is left of a pending list when transactions are removed: all below the lowest of them. */
  ghost function CutList(l: List, gone: set<Tx>): List {
    map n | n in l && !CutBelow(l, gone, n) :: l[n]
  }

  /** Removing the transactions in `gone` turns the lists `m` into `m'`. */
  ghost predicate CutBy(m: Accounts, m': Accounts, gone: set<Tx>) {
    forall a :: At(m', a) == CutList(At(m, a), gone)
  }

  lemma CutByNone(m: Accounts)
    ensures CutBy(m, m, {})
  {
    forall a ensures At(m, a) == CutList(At(m, a), {}) {
    }
  }

  /** A list cut already is cut once more, or has lost the transaction by then. */
  lemma CutListMore(l: List, gone: set<Tx>, d: Tx)
    requires Keyed(l)
    ensures var l' := CutList(l, gone);
      CutList(l, gone + {d}) == if Holds(l', d) then Below(l', d.nonce) else l'
  {
    var l' := CutList(l, gone);
    forall n: nat | n in l
      ensures CutBelow(l, gone + {d}, n) <==> CutBelow(l, gone, n) || (Holds(l', d) && d.nonce <= n)
    {
      if Holds(l, d) && d.nonce <= n && !Holds(l', d) {
        assert CutBelow(l, gone, d.nonce);
      }
      if Holds(l', d) && d.nonce <= n {
        assert l[d.nonce] in gone + {d};
      }
      if CutBelow(l, gone, n) {
        var k: nat :| k in l && k <= n && l[k] in gone;
        assert l[k] in gone + {d};
      }
    }
  }

  lemma CutByMore(m0: Accounts, m: Accounts, gone: set<Tx>, d: Tx, m': Accounts)
    requires Proper(m0) && CutBy(m0, m, gone)
    requires m' == if Has(m, d) then With(m, d.sender, Below(At(m, d.sender), d.nonce)) else m
    ensures CutBy(m0, m', gone + {d})
  {
    hide CutList, With, Below;
    if Has(m, d) { WithAts(m, d.sender, Below(At(m, d.sender), d.nonce)); }
    forall a ensures At(m', a) == CutList(At(m0, a), gone + {d}) {
      assert At(m, a) == CutList(At(m0, a), gone);
      ProperKeyed(m0, a);
      CutListMore(At(m0, a), gone, d);
      CutListWithin(At(m0, a), gone, d);
    }
  }

  lemma CutListWithin(l: List, gone: set<Tx>, d: Tx)
    ensures Holds(CutList(l, gone), d) ==> Holds(l, d)
  {
  }

  /** What a removal cuts off a pending list without removing it ends up in the queue, and the queue
      loses only what is removed. */
  lemma CutMoves(p: Accounts, q: Accounts, p': Accounts, q': Accounts, txs: set<Tx>, gone: set<Tx>, tx: Tx)
    requires Partition(p, q, txs) && Partition(p', q', txs - gone) && CutBy(p, p', gone)
    ensures Has(p', tx) <==> Has(p, tx) && !CutBelow(At(p, tx.sender), gone, tx.nonce)
    ensures Has(q', tx) <==>
      tx !in gone && (Has(q, tx) || (Has(p, tx) && CutBelow(At(p, tx.sender), gone, tx.nonce)))
  {
    hide CutBelow;
    assert At(p', tx.sender) == CutList(At(p, tx.sender), gone);
    if tx in txs { OneOwner(p, q, txs, tx); }
    if tx in txs - gone { OneOwner(p', q', txs - gone, tx); }
    if Has(p', tx) { assert tx in txs - gone; }
  }

  lemma OneOwner(p: Accounts, q: Accounts, txs: set<Tx>, tx: Tx)
    requires Partition(p, q, txs) && tx in txs
    ensures tx.nonce in At(p, tx.sender) <==> Has(p, tx)
    ensures !Has(p, tx) <==> Has(q, tx)
  {
  }

  /** Replacing a transaction at its account nonce, seen from the two halves of the lookup. */
  lemma ReplacedPartition(p: Accounts, q: Accounts, locals: set<Tx>, remotes: set<Tx>, tx: Tx, local: bool)
    requires Partition(p, q, locals + remotes) && tx.nonce in At(p, tx.sender) && tx !in locals + remotes
    ensures var was := At(p, tx.sender)[tx.nonce];
      && was in locals + remotes
      && Partition(Inserted(p, tx), q,
           (locals - {was} + if local then {tx} else {}) + (remotes - {was} + if local then {} else {tx}))
  {
    var was := At(p, tx.sender)[tx.nonce];
    PutOver(p, q, locals + remotes, tx);
    assert (locals - {was} + if local then {tx} else {}) + (remotes - {was} + if local then {} else {tx})
        == locals + remotes - {was} + {tx};
  }

  /** The ways a list operation divides a list into what stays and what it returns. */
  lemma ForwardDivides(l: List, t: nat)
    requires Keyed(l)
    ensures Divided(l, AtLeast(l, t), Txs(Below(l, t)))
  {
    forall tx ensures tx in Txs(Below(l, t)) <==> Holds(Below(l, t), tx) {
      TxsHolds(Below(l, t), tx);
    }
  }

  lemma PayableDivides(l: List, costLimit: nat, gasLimit: nat)
    requires Keyed(l)
    ensures Divided(l, Payable(l, costLimit, gasLimit), Txs(Unpayable(l, costLimit, gasLimit)))
  {
    forall tx ensures tx in Txs(Unpayable(l, costLimit, gasLimit)) <==> Holds(Unpayable(l, costLimit, gasLimit), tx) {
      TxsHolds(Unpayable(l, costLimit, gasLimit), tx);
    }
  }

  /** A strict filter divides a list three ways: kept, unpayable, and invalidated. */
  lemma StrictDivides(l: List, costLimit: nat, gasLimit: nat)
    requires Keyed(l)
    ensures var out, after := Unpayable(l, costLimit, gasLimit), Invalidated(l, costLimit, gasLimit);
      && Keyed(out) && Keyed(after)
      && Divided(l, StrictlyPayable(l, costLimit, gasLimit), Txs(out) + Txs(after))
      && Txs(out) !! Txs(after)
  {
    var out, after := Unpayable(l, costLimit, gasLimit), Invalidated(l, costLimit, gasLimit);
    forall tx ensures tx in Txs(out) <==> Holds(out, tx) {
      TxsHolds(out, tx);
    }
    forall tx ensures tx in Txs(after) <==> Holds(after, tx) {
      TxsHolds(after, tx);
    }
    if |out| == 0 {
      assert out == map[];
    } else {
      forall n | n in l && n < Least(out.Keys) ensures Affordable(l[n], costLimit, gasLimit) {
        assert n !in out;
      }
    }
  }

  lemma CapDivides(l: List, k: nat)
    requires Keyed(l)
    ensures Divided(l, Capped(l, k), set tx | tx in CapDrops(l, k))
  {
    forall tx
      ensures Keyed(Capped(l, k))
      ensures Holds(l, tx) <==> Holds(Capped(l, k), tx) || tx in CapDrops(l, k)
      ensures !(Holds(Capped(l, k), tx) && tx in CapDrops(l, k))
    {
      CappedSplits(l, k, tx);
    }
    CappedSplits(l, k, Tx(0, 0, 0, 0, 0, 0, 0));
  }

  lemma ReadyDivides(l: List, start: nat)
    requires Keyed(l)
    ensures Divided(l, Without(l, ReadyRun(l, start)), set tx | tx in ReadyRun(l, start))
  {
    var ready := ReadyRun(l, start);
    forall tx | tx in ready ensures Holds(l, tx) {
      var i :| 0 <= i < |ready| && ready[i] == tx;
      RunAt(l, Least(l.Keys), i);
    }
  }

  lemma {:induction false} CapDropsDistinct(l: List, k: nat, i: nat, j: nat)
    requires Keyed(l) && i < j < |CapDrops(l, k)|
    ensures CapDrops(l, k)[i] != CapDrops(l, k)[j]
    decreases |l|
  {
    var n := Greatest(l.Keys);
    if i > 0 {
      CapDropsDistinct(l - {n}, k, i - 1, j - 1);
    } else {
      CappedSplits(l - {n}, k, CapDrops(l, k)[j]);
    }
  }

  lemma RunNonces(l: List, n: nat)
    requires Keyed(l)
    ensures forall i :: 0 <= i < |Run(l, n)| ==> Run(l, n)[i].nonce == n + i
  {
    forall i | 0 <= i < |Run(l, n)| ensures Run(l, n)[i].nonce == n + i {
      RunAt(l, n, i);
    }
  }

  /** `PutOverInTransit` for the first map, from the two halves of the lookup. */
  lemma PromotedPartition(p: Accounts, q: Accounts, locals: set<Tx>, remotes: set<Tx>, transit: set<Tx>, tx: Tx)
    requires transit <= locals + remotes && Partition(p, q, locals + remotes - transit)
    requires tx.nonce !in At(q, tx.sender) && tx in transit
    ensures var gone := Superseded(p, tx);
      && tx !in gone && gone <= locals + remotes
      && transit - {tx} <= (locals - gone) + (remotes - gone)
      && Partition(Inserted(p, tx), q, (locals - gone) + (remotes - gone) - (transit - {tx}))
    ensures transit - {tx} <= (locals - {tx}) + (remotes - {tx})
    ensures Partition(p, q, (locals - {tx}) + (remotes - {tx}) - (transit - {tx}))
  {
    var all, gone := locals + remotes, Superseded(p, tx);
    PartitionSym(p, q, all - transit);
    PutOverInTransit(q, p, all, transit, tx, all - gone + {tx});
    assert all - gone + {tx} == (locals - gone) + (remotes - gone);
    PartitionSym(q, Inserted(p, tx), all - gone + {tx} - (transit - {tx}));
    assert (locals - {tx}) + (remotes - {tx}) - (transit - {tx}) == all - transit;
  }

  /** What is left of a queue list once old and, if filtering is on, unpayable ones are gone. */
  function Executable(l: List, stateNonce: nat, filtering: bool, balance: nat, maxGas: nat): List {
    var rest := AtLeast(l, stateNonce);
    if filtering then Payable(rest, balance, maxGas) else rest
  }

  /** What is left of a queue list after promotion and, for a remote account, capping. */
  function LeftQueued(l: List, ready: seq<Tx>, local: bool, limit: nat): List {
    var rest := Without(l, ready);
    if local then rest else Capped(rest, limit)
  }

  /** Taking the ready transactions off a queue list leaves them free to become pending. */
  lemma ReadyPartition(p: Accounts, q: Accounts, locals: set<Tx>, remotes: set<Tx>, a: Address, start: nat,
                       gone: set<Tx>)
    requires Partition(p, q, locals + remotes) && a in q && gone == set tx | tx in ReadyRun(q[a], start)
    ensures var ready := ReadyRun(q[a], start);
      var q' := q[a := Without(q[a], ready)];
      && gone <= locals + remotes
      && Partition(p, q', locals + remotes - gone)
      && Movable(ready, a, At(p, a)) && Movable(ready, a, At(q', a))
  {
    var l, ready := q[a], ReadyRun(q[a], start);
    var q': Accounts := q[a := Without(l, ready)];
    ProperKeyed(q, a);
    PartitionSym(p, q, locals + remotes);
    ReadyDivides(l, start);
    TakenOff(q, p, locals + remotes, a, Without(l, ready), gone);
    PartitionSym(q', p, locals + remotes - gone);
    if |l| > 0 {
      RunNonces(l, Least(l.Keys));
      forall i | 0 <= i < |ready|
        ensures ready[i].sender == a && ready[i].nonce !in At(p, a) && ready[i].nonce !in At(q', a)
      {
        assert ready[i] in ready && Holds(l, ready[i]);
      }
    }
  }

  lemma TidiedQueue(p: Accounts, q: Accounts, txs: set<Tx>, a: Address)
    requires Partition(p, q, txs) && a in q
    ensures |q[a]| == 0 ==> Partition(p, q - {a}, txs)
  {
    if |q[a]| == 0 {
      PartitionSym(p, q, txs);
      Tidied(q, p, txs, a);
      PartitionSym(q - {a}, p, txs);
    }
  }

  lemma MergedAt(m: Accounts, a: Address, l: List)
    ensures forall b :: At(Merged(m, a, l), b) == if b == a then At(m, a) + l else At(m, b)
  {
    if l == map[] { assert At(m, a) + l == At(m, a); }
  }

  lemma WithAts(m: Accounts, a: Address, l: List)
    ensures forall b :: At(With(m, a, l), b) == if b == a then l else At(m, b)
  {
    if |l| == 0 { assert l == map[]; }
  }

  /** Strictly filtering a pending list: the unpayable ones go, the invalidated ones can move. */
  lemma FilteredPartition(p: Accounts, q: Accounts, locals: set<Tx>, remotes: set<Tx>, a: Address, costLimit: nat,
                          gasLimit: nat)
    requires Partition(p, q, locals + remotes) && a in p
    ensures var out, after := Unpayable(p[a], costLimit, gasLimit), Invalidated(p[a], costLimit, gasLimit);
      var p' := p[a := StrictlyPayable(p[a], costLimit, gasLimit)];
      && Keyed(out) && Keyed(after)
      && Txs(out) + Txs(after) <= locals + remotes
      && Txs(after) <= (locals - Txs(out)) + (remotes - Txs(out))
      && Partition(p', q, (locals - Txs(out)) + (remotes - Txs(out)) - Txs(after))
      && Movable(Ascending(after), a, At(q, a)) && Movable(Ascending(after), a, At(p', a))
      && Collected(Ascending(after)) == after
  {
    var l := p[a];
    var out, after := Unpayable(l, costLimit, gasLimit), Invalidated(l, costLimit, gasLimit);
    var kept := StrictlyPayable(l, costLimit, gasLimit);
    ProperKeyed(p, a);
    StrictDivides(l, costLimit, gasLimit);
    TakenOff(p, q, locals + remotes, a, kept, Txs(out) + Txs(after));
    assert locals + remotes - (Txs(out) + Txs(after)) == (locals - Txs(out)) + (remotes - Txs(out)) - Txs(after);
    PartMovable(p, a, after, At(q, a));
    PartMovable(p, a, after, kept);
  }

  lemma {:induction false} CapDropsAll(l: List)
    requires Keyed(l)
    ensures Collected(CapDrops(l, 0)) == l
    ensures forall tx :: tx in CapDrops(l, 0) <==> Holds(l, tx)
    ensures forall i, j :: 0 <= i < j < |CapDrops(l, 0)| ==> CapDrops(l, 0)[i].nonce != CapDrops(l, 0)[j].nonce
  {
    var s := CapDrops(l, 0);
    forall tx ensures tx in s <==> Holds(l, tx) {
      CappedSplits(l, 0, tx);
      CappedWithin(l, 0);
    }
    forall i, j | 0 <= i < j < |s| ensures s[i].nonce != s[j].nonce {
      CapDropsDistinct(l, 0, i, j);
      assert s[i] in s && s[j] in s;
    }
    forall n ensures n in Collected(s) <==> n in l
      ensures n in l ==> n in Collected(s) && Collected(s)[n] == l[n]
    {
      CollectedHolds(s, n);
      if n in l { assert Holds(l, l[n]); }
      if n in Collected(s) { assert Holds(l, Collected(s)[n]); }
    }
  }

  /** A whole pending list can move to the queue. */
  lemma GappedPartition(p: Accounts, q: Accounts, txs: set<Tx>, a: Address, gone: set<Tx>)
    requires Partition(p, q, txs) && a in p && gone == set tx | tx in CapDrops(p[a], 0)
    ensures var s := CapDrops(p[a], 0);
      && gone <= txs && Partition(p[a := map[]], q, txs - gone)
      && Movable(s, a, At(q, a)) && Movable(s, a, At(p[a := map[]], a)) && Collected(s) == p[a]
  {
    ProperKeyed(p, a);
    CapDropsAll(p[a]);
    assert Divided(p[a], map[], gone);
    TakenOff(p, q, txs, a, map[], gone);
    forall i | 0 <= i < |CapDrops(p[a], 0)|
      ensures CapDrops(p[a], 0)[i].sender == a && CapDrops(p[a], 0)[i].nonce !in At(q, a)
    {
      assert Holds(p[a], CapDrops(p[a], 0)[i]);
    }
  }

  lemma TidiedPending(p: Accounts, q: Accounts, txs: set<Tx>, a: Address)
    requires Partition(p, q, txs) && a in p
    ensures |p[a]| == 0 ==> Partition(p - {a}, q, txs)
  {
    if |p[a]| == 0 {
      Tidied(p, q, txs, a);
    }
  }

  lemma WithOthers(m: Accounts, a: Address, l: List)
    ensures forall b :: b != a && b in m ==> b in With(m, a, l)
  {
  }

  lemma AbsentAt(m: Accounts)
    ensures forall a :: a !in m ==> At(m, a) == map[]
  {
  }

  lemma ReplacedNonempty(m: Accounts, a: Address, l: List)
    requires NoEmptyList(m) && |l| > 0
    ensures NoEmptyList(m[a := l])
  {
  }

  /** A list without its `i` lowest nonces. */
  ghost function AfterFirst(l: List, i: nat): List
    decreases i
  {
    if i == 0 then l
    else
      var rest := AfterFirst(l, i - 1);
      if |rest| == 0 then rest else rest - {Least(rest.Keys)}
  }

  lemma {:induction false} AfterFirstAscending(l: List, i: nat)
    requires i <= |l|
    ensures Ascending(AfterFirst(l, i)) == Ascending(l)[i..]
    ensures forall n :: n in AfterFirst(l, i) ==> n in l && AfterFirst(l, i)[n] == l[n]
    decreases i
  {
    hide Ascending, Least;
    if i > 0 {
      var rest := AfterFirst(l, i - 1);
      AfterFirstAscending(l, i - 1);
      assert |rest| == |Ascending(rest)| == |l| - (i - 1);
      AscendingRest(rest);
      assert Ascending(l)[i - 1..][1..] == Ascending(l)[i..];
    }
  }

  lemma AscendingRest(l: List)
    ensures |l| == 0 ==> Ascending(l) == []
    ensures |l| > 0 ==> Ascending(l - {Least(l.Keys)}) == Ascending(l)[1..]
  {
  }

  lemma NothingDropped(m: Accounts, a: Address)
    requires a in m && |m[a]| > 0
    ensures m == With(m, a, AfterFirst(At(m, a), 0))
  {
    assert m == m[a := m[a]];
  }

  lemma AllDropped(l: List)
    ensures AfterFirst(l, |l|) == map[]
  {
    AfterFirstAscending(l, |l|);
    assert |AfterFirst(l, |l|)| == 0;
  }

  /** The next transaction in ascending order is in the list, and is its lowest. */
  lemma FirstOf(m0: Accounts, a: Address, i: nat, m: Accounts)
    requires Proper(m0) && i < |At(m0, a)| && m == With(m0, a, AfterFirst(At(m0, a), i))
    ensures var l, tx := At(m0, a), Ascending(At(m0, a))[i];
      && tx.sender == a && Has(m, tx)
      && With(m, a, At(m, a) - {tx.nonce}) == With(m0, a, AfterFirst(l, i + 1))
  {
    var l: List := At(m0, a);
    AfterFirstAscending(l, i);
    var rest := AfterFirst(l, i);
    var n := Least(rest.Keys);
    AscendingStep(rest, n);
    WithAts(m0, a, rest);
    WithWith(m0, a, rest, rest - {n});
  }

  lemma NothingCapped(m: Accounts, a: Address)
    requires a in m && |m[a]| > 0
    ensures m == With(m, a, Capped(At(m, a), |At(m, a)|))
  {
    assert m == m[a := m[a]];
  }

  /** The next transaction in descending order is in the capped list, and is its highest. */
  lemma LastOf(m0: Accounts, a: Address, i: nat, m: Accounts)
    requires Proper(m0) && i < |At(m0, a)| && m == With(m0, a, Capped(At(m0, a), i + 1))
    ensures var l, tx := At(m0, a), Ascending(At(m0, a))[i];
      && tx.sender == a && Has(m, tx)
      && With(m, a, At(m, a) - {tx.nonce}) == With(m0, a, Capped(l, i))
  {
    hide Capped, Ascending, With;
    var l: List := At(m0, a);
    ProperKeyed(m0, a);
    TopOfCapped(l, i);
    WithAts(m0, a, Capped(l, i + 1));
    WithWith(m0, a, Capped(l, i + 1), Capped(l, i));
  }

  lemma TopOfCapped(l: List, i: nat)
    requires Keyed(l) && i < |l|
    ensures var tx := Ascending(l)[i];
      Holds(l, tx) && Holds(Capped(l, i + 1), tx) && Capped(l, i + 1) - {tx.nonce} == Capped(l, i)
  {
    hide Capped, Ascending;
    var top := Capped(l, i + 1);
    TopIs(l, i);
    CappedWithin(l, i + 1);
    CappedAgain(l, i + 1, i);
    CappedOne(top);
  }

  /** The highest nonce that capping keeps is that of the last transaction kept. */
  lemma TopIs(l: List, i: nat)
    requires i < |l|
    ensures var top := Capped(l, i + 1);
      |top| == i + 1 && Ascending(l)[i] == top[Greatest(top.Keys)]
  {
    hide *;
    var top := Capped(l, i + 1);
    CappedIsPrefix(l, i + 1);
    CappedWithin(l, i + 1);
    AscendingTop(top, Greatest(top.Keys));
  }

  lemma CapsTop(l: List)
    requires |l| > 0
    ensures CapDrops(l, |l| - 1) == [l[Greatest(l.Keys)]] && Capped(l, |l| - 1) == l - {Greatest(l.Keys)}
  {
    CappedOne(l);
    assert CapDrops(l - {Greatest(l.Keys)}, |l| - 1) == [];
  }

  lemma CappedOne(l: List)
    requires |l| > 0
    ensures Capped(l, |l| - 1) == l - {Greatest(l.Keys)}
  {
    assert |l - {Greatest(l.Keys)}| == |l| - 1;
  }

  lemma {:induction false} CappedAgain(l: List, k: nat, j: nat)
    requires j <= k
    ensures Capped(Capped(l, k), j) == Capped(l, j)
    decreases |l|
  {
    if |l| > k {
      CappedAgain(l - {Greatest(l.Keys)}, k, j);
    }
  }

  lemma WithWith(m: Accounts, a: Address, l: List, l': List)
    ensures With(With(m, a, l), a, l') == With(m, a, l')
  {
    SetTwice(m, a, l, l');
    WithoutTwice(m, a, l);
  }

  lemma SetTwice(m: Accounts, a: Address, l: List, l': List)
    ensures m[a := l][a := l'] == m[a := l'] && (m - {a})[a := l'] == m[a := l']
  {
  }

  lemma WithoutTwice(m: Accounts, a: Address, l: List)
    ensures m[a := l] - {a} == m - {a} && m - {a} - {a} == m - {a}
  {
  }

  lemma PresentAt(m: Accounts, a: Address)
    requires a in m
    ensures At(m, a) == m[a]
  {
  }
}
