/** `txList`: an account's transactions with cached upper bounds on cost and gas, which let
    `Filter` return at once when nothing can exceed the limits. */
module TxLists {
  import opened Types
  import opened Lists
  import opened SortedMap

  lemma FilterSplits(l: List, costLimit: nat, gasLimit: nat, drop: Tx -> bool)
    requires forall tx :: drop(tx) == !Affordable(tx, costLimit, gasLimit)
    ensures Matching(l, drop) == Unpayable(l, costLimit, gasLimit)
    ensures Dropped(l, drop) == Payable(l, costLimit, gasLimit)
    ensures Unpayable(l, costLimit, gasLimit) == map[] ==> Payable(l, costLimit, gasLimit) == l
  {
    if Unpayable(l, costLimit, gasLimit) == map[] {
      forall n | n in l ensures Affordable(l[n], costLimit, gasLimit) {
        assert n !in Unpayable(l, costLimit, gasLimit);
      }
    }
  }

  /** What a filter leaves, removes and hands back, by cost and gas. */
  lemma FilterDivides(l: List, costLimit: nat, gasLimit: nat)
    requires Keyed(l)
    ensures forall s, tx: Tx :: ListingOf(s, Unpayable(l, costLimit, gasLimit)) ==>
      (tx in s <==> Holds(l, tx) && (tx.cost > costLimit || tx.gas > gasLimit))
    ensures forall s, tx: Tx :: ListingOf(s, Invalidated(l, costLimit, gasLimit)) && tx in s ==>
      tx.cost <= costLimit && tx.gas <= gasLimit
    ensures forall n :: n in Payable(l, costLimit, gasLimit) ==> l[n].cost <= costLimit && l[n].gas <= gasLimit
    ensures forall n :: n in StrictlyPayable(l, costLimit, gasLimit) ==> l[n].cost <= costLimit && l[n].gas <= gasLimit
  {
    hide ListingOf;
    var out, after := Unpayable(l, costLimit, gasLimit), Invalidated(l, costLimit, gasLimit);
    forall s, tx: Tx | ListingOf(s, out)
      ensures tx in s <==> Holds(l, tx) && (tx.cost > costLimit || tx.gas > gasLimit)
    {
      Listed(s, out, tx);
    }
    forall s, tx: Tx | ListingOf(s, after) && tx in s ensures tx.cost <= costLimit && tx.gas <= gasLimit {
      Listed(s, after, tx);
    }
    forall n | n in StrictlyPayable(l, costLimit, gasLimit) ensures l[n].cost <= costLimit && l[n].gas <= gasLimit {
      assert n !in out;
    }
  }

  lemma FilterLeaves(l: List, costLimit: nat, gasLimit: nat)
    ensures forall n :: n in Payable(l, costLimit, gasLimit) ==> n in l && Payable(l, costLimit, gasLimit)[n] == l[n]
    ensures forall n :: n in StrictlyPayable(l, costLimit, gasLimit) ==>
      n in l && StrictlyPayable(l, costLimit, gasLimit)[n] == l[n]
    ensures forall tx: Tx :: tx !in []
  {
  }

  /** Dropping what lies above the lowest removed nonce leaves the list below that nonce. */
  lemma StrictFilterSplits(l: List, costLimit: nat, gasLimit: nat, removed: seq<Tx>, lowest: nat, above: Tx -> bool)
    requires Keyed(l) && ListingOf(removed, Unpayable(l, costLimit, gasLimit))
    requires exists tx :: tx in removed && tx.nonce == lowest
    requires forall tx :: tx in removed ==> lowest <= tx.nonce
    requires forall tx :: above(tx) == (tx.nonce > lowest)
    ensures Dropped(Payable(l, costLimit, gasLimit), above) == StrictlyPayable(l, costLimit, gasLimit)
    ensures Matching(Payable(l, costLimit, gasLimit), above) == Invalidated(l, costLimit, gasLimit)
  {
    var out := Unpayable(l, costLimit, gasLimit);
    var first :| first in removed && first.nonce == lowest;
    Listed(removed, out, first);
    forall n | n in out ensures lowest <= n {
      Listed(removed, out, out[n]);
    }
    assert Least(out.Keys) == lowest;
    forall n | n in l && n < lowest ensures Affordable(l[n], costLimit, gasLimit) {
      assert n !in out;
    }
  }

  lemma CutSplits(l: List, nonce: nat, above: Tx -> bool)
    requires Keyed(l) && forall tx :: above(tx) == (tx.nonce > nonce)
    ensures Dropped(l - {nonce}, above) == Below(l, nonce)
    ensures Matching(l - {nonce}, above) == AtLeast(l, nonce + 1)
  {
  }

  class TxList {
    const strict: bool
    const txs: TxSortedMap
    var costcap: nat
    var gascap: nat

    /** Besides the map's own invariant: no transaction exceeds the cached bounds. */
    ghost predicate Valid()
      reads this, txs
    {
      && txs.Valid()
      && forall n :: n in txs.items ==> txs.items[n].cost <= costcap && txs.items[n].gas <= gascap
    }

    constructor (strict: bool)
      ensures Valid() && fresh(txs) && this.strict == strict && txs.items == map[]
    {
      this.strict := strict;
      txs := new TxSortedMap();
      costcap, gascap := 0, 0;
    }

    method Add(tx: Tx, priceBump: nat) returns (inserted: bool, replaced: Option<Tx>)
      requires Valid()
      modifies this, txs
      ensures Valid() && txs.items == Added(old(txs.items), tx, priceBump)
      ensures inserted <==> (tx.nonce in old(txs.items) ==>
        var was := old(txs.items)[tx.nonce];
        was.price < tx.price && (100 + priceBump) * was.price < 100 * (tx.price + 1))
      ensures !inserted ==> txs.items == old(txs.items)
      ensures inserted ==> txs.items == old(txs.items)[tx.nonce := tx]
      ensures inserted <==> (tx.nonce in old(txs.items) ==> Replaces(old(txs.items)[tx.nonce], tx, priceBump))
      ensures replaced == if inserted && tx.nonce in old(txs.items) then Some(old(txs.items)[tx.nonce]) else None
    {
      var found := txs.Get(tx.nonce);
      if found.Some? {
        var threshold := (100 + priceBump) * found.value.price / 100;
        if found.value.price >= tx.price || tx.price < threshold {
          return false, None;
        }
      }
      txs.Put(tx);
      if costcap < tx.cost {
        costcap := tx.cost;
      }
      if gascap < tx.gas {
        gascap := tx.gas;
      }
      return true, found;
    }

    method Forward(threshold: nat) returns (removed: seq<Tx>)
      requires Valid()
      modifies txs
      ensures Valid() && removed == Ascending(Below(old(txs.items), threshold))
      ensures txs.items == AtLeast(old(txs.items), threshold)
    {
      removed := txs.Forward(threshold);
    }

    /** The work of `Filter`. */
    method Sift(costLimit: nat, gasLimit: nat) returns (removed: seq<Tx>, invalids: seq<Tx>)
      requires Valid()
      modifies this, txs
      ensures Valid()
      ensures ListingOf(removed, Unpayable(old(txs.items), costLimit, gasLimit))
      ensures strict ==> txs.items == StrictlyPayable(old(txs.items), costLimit, gasLimit)
      ensures strict ==> ListingOf(invalids, Invalidated(old(txs.items), costLimit, gasLimit))
      ensures !strict ==> txs.items == Payable(old(txs.items), costLimit, gasLimit) && invalids == []
    {
      ghost var l := txs.items;
      if costcap <= costLimit && gascap <= gasLimit {
        return [], [];
      }
      costcap, gascap := costLimit, gasLimit;
      var drop := (tx: Tx) => tx.gas > gasLimit || tx.cost > costLimit;
      FilterSplits(l, costLimit, gasLimit, drop);
      removed := txs.Filter(drop);
      if |removed| == 0 {
        return [], [];
      }
      invalids := [];
      if strict {
        var lowest := LowestNonce(removed);
        var above := (tx: Tx) => tx.nonce > lowest;
        StrictFilterSplits(l, costLimit, gasLimit, removed, lowest, above);
        invalids := txs.FilterLoose(above);
      }
      txs.Reheap();
    }

    /** Despite the short cut, exactly the unpayable transactions are removed, and in strict mode
        also what comes after the first of them. */
    method Filter(costLimit: nat, gasLimit: nat) returns (removed: seq<Tx>, invalids: seq<Tx>)
      requires Valid()
      modifies this, txs
      ensures Valid()
      ensures forall n :: n in txs.items ==> txs.items[n].cost <= costLimit && txs.items[n].gas <= gasLimit
      ensures forall tx ::
        tx in removed <==> Holds(old(txs.items), tx) && (tx.cost > costLimit || tx.gas > gasLimit)
      ensures forall tx :: tx in invalids ==> tx.cost <= costLimit && tx.gas <= gasLimit
      ensures ListingOf(removed, Unpayable(old(txs.items), costLimit, gasLimit))
      ensures strict ==> txs.items == StrictlyPayable(old(txs.items), costLimit, gasLimit)
      ensures strict ==> ListingOf(invalids, Invalidated(old(txs.items), costLimit, gasLimit))
      ensures !strict ==> txs.items == Payable(old(txs.items), costLimit, gasLimit) && invalids == []
    {
      hide *;
      ItemsKeyed();
      FilterDivides(txs.items, costLimit, gasLimit);
      FilterLeaves(txs.items, costLimit, gasLimit);
      removed, invalids := Sift(costLimit, gasLimit);
    }

    lemma ItemsKeyed()
      requires Valid()
      ensures Keyed(txs.items)
    {
    }

    method Cap(threshold: nat) returns (drops: seq<Tx>)
      requires Valid()
      modifies txs
      ensures Valid() && drops == CapDrops(old(txs.items), threshold)
      ensures txs.items == Capped(old(txs.items), threshold)
    {
      CappedWithin(txs.items, threshold);
      drops := txs.Cap(threshold);
    }

    /** Removes by nonce; in strict mode everything after it is invalidated with it. */
    method Remove(tx: Tx) returns (found: bool, invalids: seq<Tx>)
      requires Valid()
      modifies txs
      ensures Valid() && (found <==> tx.nonce in old(txs.items))
      ensures !found ==> txs.items == old(txs.items) && invalids == []
      ensures found && strict ==> txs.items == Below(old(txs.items), tx.nonce)
      ensures found && strict ==> ListingOf(invalids, AtLeast(old(txs.items), tx.nonce + 1))
      ensures found && !strict ==> txs.items == old(txs.items) - {tx.nonce} && invalids == []
    {
      var nonce := tx.nonce;
      found := txs.Remove(nonce);
      invalids := [];
      if found && strict {
        var above := (t: Tx) => t.nonce > nonce;
        CutSplits(old(txs.items), nonce, above);
        invalids := txs.Filter(above);
      }
    }

    method Ready(start: nat) returns (ready: seq<Tx>)
      requires Valid()
      modifies txs
      ensures Valid() && ready == ReadyRun(old(txs.items), start)
      ensures txs.items == Without(old(txs.items), ready)
    {
      ready := txs.Ready(start);
    }
  }

  /** The loop of `Filter` over the removed transactions. */
  method LowestNonce(removed: seq<Tx>) returns (lowest: nat)
    requires |removed| > 0
    ensures exists tx :: tx in removed && tx.nonce == lowest
    ensures forall tx :: tx in removed ==> lowest <= tx.nonce
  {
    lowest := MAX_UINT64;
    for i := 0 to |removed|
      invariant forall j :: 0 <= j < i ==> lowest <= removed[j].nonce
      invariant i == 0 ==> lowest == MAX_UINT64
      invariant i > 0 ==> exists j :: 0 <= j < i && removed[j].nonce == lowest
    {
      if lowest > removed[i].nonce {
        lowest := removed[i].nonce;
      }
    }
  }
}
