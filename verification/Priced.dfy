/** `txPricedList`: a heap of the remote transactions by price that forgets removed ones lazily.
    `stales` estimates how many entries are no longer live. */
module Priced {
  import opened Types
  import opened Lists
  import opened Lookup
  import Heaps

  /** Cheaper, or as cheap with a higher nonce. */
  predicate PriceLess(a: Tx, b: Tx) {
    a.price < b.price || (a.price == b.price && a.nonce > b.nonce)
  }

  lemma PriceOrder()
    ensures Heaps.StrictWeak(PriceLess)
  {
  }

  ghost predicate Covered(live: set<Tx>, drop: seq<Tx>, heap: seq<Tx>) {
    forall tx :: tx in live ==> tx in drop || tx in heap
  }

  /** No live transaction has more than one entry. */
  ghost predicate NoDuplicates(live: set<Tx>, heap: seq<Tx>) {
    forall tx :: tx in live ==> multiset(heap)[tx] <= 1
  }

  function SlotsOf(txs: seq<Tx>): nat {
    if txs == [] then 0 else SlotsOf(txs[..|txs| - 1]) + NumSlots(txs[|txs| - 1])
  }

  lemma SlotsOfMore(s: seq<Tx>, tx: Tx)
    ensures SlotsOf([]) == 0
    ensures (s + [tx])[..|s|] == s && SlotsOf(s + [tx]) == SlotsOf(s) + NumSlots(tx)
  {
    assert (s + [tx])[..|s|] == s;
  }

  function Elements(s: seq<Tx>): set<Tx> {
    set tx | tx in s
  }

  lemma OneMore(s: seq<Tx>, i: nat)
    requires i < |s|
    ensures Elements(s[..i + 1]) == Elements(s[..i]) + {s[i]}
    ensures Distinct(s) ==> s[i] !in Elements(s[..i])
  {
    assert s[..i + 1] == s[..i] + [s[i]];
  }

  lemma {:induction false} ElementsAtMost(s: seq<Tx>)
    ensures |Elements(s)| <= |s|
  {
    if s != [] {
      var t := s[..|s| - 1];
      ElementsAtMost(t);
      assert s == t + [s[|s| - 1]];
      assert Elements(s) == Elements(t) + {s[|s| - 1]};
    }
  }

  lemma SubsetSize(a: set<Tx>, b: set<Tx>)
    requires a <= b
    ensures |a| <= |b|
  {
    assert b == a + (b - a);
  }

  /** Taking distinct transactions out frees exactly their slots. */
  lemma {:induction false} SlotsFreed(all: set<Tx>, drop: seq<Tx>)
    requires Distinct(drop) && Elements(drop) <= all
    ensures SlotSum(all) == SlotSum(all - Elements(drop)) + SlotsOf(drop)
    decreases |drop|
  {
    if drop == [] {
      assert all - Elements(drop) == all;
    } else {
      var k := |drop| - 1;
      OneMore(drop, k);
      assert drop[..k + 1] == drop;
      SlotsFreed(all, drop[..k]);
      SlotSumRemove(all - Elements(drop[..k]), drop[k]);
      assert all - Elements(drop[..k]) - {drop[k]} == all - Elements(drop);
    }
  }

  lemma {:induction false} SlotSumSubset(a: set<Tx>, b: set<Tx>)
    requires a <= b
    ensures SlotSum(a) <= SlotSum(b)
    decreases |b - a|
  {
    if b - a == {} {
      assert a == b;
    } else {
      var tx :| tx in b - a;
      SlotSumRemove(b, tx);
      assert b - {tx} - a == (b - a) - {tx};
      SlotSumSubset(a, b - {tx});
    }
  }

  /** Duplicates only add to the slots of a sequence. */
  lemma {:induction false} SlotsAtLeast(s: seq<Tx>)
    ensures SlotSum(Elements(s)) <= SlotsOf(s)
  {
    if s != [] {
      var k := |s| - 1;
      var was, tx := Elements(s[..k]), s[k];
      SlotsAtLeast(s[..k]);
      OneMore(s, k);
      assert s[..k + 1] == s;
      SlotSumRemove(was + {tx}, tx);
      SlotSumSubset(was + {tx} - {tx}, was);
    }
  }

  /** The slots of the live entries of a heap, each counted as often as it occurs. */
  ghost function LiveSlots(heap: multiset<Tx>, live: set<Tx>): nat {
    if heap == multiset{} then 0
    else
      var tx :| tx in heap;
      (if tx in live then NumSlots(tx) else 0) + LiveSlots(heap - multiset{tx}, live)
  }

  lemma {:induction false} LiveSlotsWithout(heap: multiset<Tx>, live: set<Tx>, tx: Tx)
    requires tx in heap
    ensures LiveSlots(heap, live) == (if tx in live then NumSlots(tx) else 0) + LiveSlots(heap - multiset{tx}, live)
    decreases |heap|
  {
    var t :| t in heap
      && LiveSlots(heap, live) == (if t in live then NumSlots(t) else 0) + LiveSlots(heap - multiset{t}, live);
    if t != tx {
      LiveSlotsWithout(heap - multiset{t}, live, tx);
      LiveSlotsWithout(heap - multiset{tx}, live, t);
      assert heap - multiset{t} - multiset{tx} == heap - multiset{tx} - multiset{t};
    }
  }

  /** Without duplicates the live entries are as good as the live transactions. */
  lemma {:induction false} LiveSlotsOnce(heap: multiset<Tx>, live: set<Tx>)
    requires forall tx :: tx in live ==> heap[tx] == 1
    ensures LiveSlots(heap, live) == SlotSum(live)
    decreases |heap|
  {
    if heap == multiset{} {
      assert live == {};
    } else {
      var tx :| tx in heap;
      var rest := live - {tx};
      LiveSlotsWithout(heap, live, tx);
      LiveSlotsOf(heap - multiset{tx}, live, rest);
      LiveSlotsOnce(heap - multiset{tx}, rest);
      if tx in live {
        SlotSumRemove(live, tx);
      } else {
        assert rest == live;
      }
    }
  }

  lemma {:induction false} LiveSlotsOf(heap: multiset<Tx>, live: set<Tx>, live': set<Tx>)
    requires forall tx :: tx in heap ==> (tx in live <==> tx in live')
    ensures LiveSlots(heap, live) == LiveSlots(heap, live')
    decreases |heap|
  {
    if heap != multiset{} {
      var tx :| tx in heap;
      LiveSlotsWithout(heap, live, tx);
      LiveSlotsWithout(heap, live', tx);
      LiveSlotsOf(heap - multiset{tx}, live, live');
    }
  }

  /** A heap that covers the live transactions has at least their slots, and without duplicates
      exactly those. */
  lemma LiveSlotsCover(heap: seq<Tx>, live: set<Tx>)
    requires Covered(live, [], heap) && NoDuplicates(live, heap)
    ensures LiveSlots(multiset(heap), live) == SlotSum(live)
  {
    forall tx | tx in live ensures multiset(heap)[tx] == 1 {
      assert tx in heap;
    }
    LiveSlotsOnce(multiset(heap), live);
  }

  lemma AscendingDistinct(l: List)
    requires Keyed(l)
    ensures Distinct(Ascending(l)) && Elements(Ascending(l)) == Txs(l)
  {
    forall i, j | 0 <= i < j < |l| ensures Ascending(l)[i] != Ascending(l)[j] {
      AscendingOrdered(l, i, j);
    }
    forall tx ensures tx in Ascending(l) <==> tx in Txs(l) {
      AscendingHolds(l, tx);
      TxsHolds(l, tx);
    }
  }

  /** Live transactions taken off a heap without duplicates are distinct. */
  lemma DistinctDrop(live: set<Tx>, heap: seq<Tx>, drop: seq<Tx>)
    requires NoDuplicates(live, heap) && multiset(drop) <= multiset(heap)
    requires forall tx :: tx in drop ==> tx in live
    ensures Distinct(drop)
  {
    forall i, j | 0 <= i < j < |drop| ensures drop[i] != drop[j] {
      if drop[i] == drop[j] {
        Twice(drop, i, j);
        assert false;
      }
    }
  }

  /** All transactions that were ever put on the heap, and whether none was put there twice. */
  datatype History = History(seen: set<Tx>, once: bool) {
    /** Local transactions are not put on the heap. */
    ghost function Put(tx: Tx, local: bool): History {
      if local then this else History(seen + {tx}, once && tx !in seen)
    }
  }

  /** The heap holds what was put there, and no more often. */
  ghost predicate InHistory(heap: seq<Tx>, h: History) {
    && (forall tx :: tx in heap ==> tx in h.seen)
    && (h.once ==> forall tx :: multiset(heap)[tx] <= 1)
  }

  lemma FewerInHistory(heap: seq<Tx>, heap': seq<Tx>, h: History)
    requires InHistory(heap, h) && multiset(heap') <= multiset(heap)
    ensures InHistory(heap', h)
  {
    forall tx | tx in heap' ensures tx in h.seen {
      assert tx in multiset(heap') && tx in multiset(heap);
    }
  }

  class TxPricedList {
    const all: TxLookup
    var remotes: seq<Tx>
    var stales: int
    ghost var history: History

    /** Entries and live transactions have been put on the heap, and if none was put there twice, there
        are no duplicates. */
    ghost predicate Recorded()
      reads this, all
    {
      all.remotes <= history.seen && InHistory(remotes, history)
    }

    /** The state once the transactions in `drop` have been taken off the heap but not yet out of
        the lookup: every other live remote transaction has an entry, and `stales` is at least the
        number of entries that cannot be live. */
    ghost predicate Popped(drop: seq<Tx>)
      reads this, all
    {
      && Heaps.IsHeap(remotes, PriceLess)
      && Covered(all.remotes, drop, remotes)
      && |remotes| + |drop| - |all.remotes| <= stales
    }

    /** The state after `owed` removals that `Removed` has not been told about. */
    ghost predicate Owing(owed: nat)
      reads this, all
    {
      && Heaps.IsHeap(remotes, PriceLess)
      && Covered(all.remotes, [], remotes)
      && |remotes| - |all.remotes| <= stales + owed
    }

    ghost predicate Valid()
      reads this, all
    {
      Popped([])
    }

    /** `stales` never goes negative. */
    lemma StalesNonnegative(drop: seq<Tx>)
      requires Popped(drop)
      ensures 0 <= stales
    {
      ElementsAtMost(drop);
      ElementsAtMost(remotes);
      assert all.remotes <= Elements(drop) + Elements(remotes);
      SubsetSize(all.remotes, Elements(drop) + Elements(remotes));
    }

    constructor (all: TxLookup)
      requires all.remotes == {}
      ensures Valid() && this.all == all && remotes == [] && stales == 0 && history == History({}, true)
    {
      this.all := all;
      remotes, stales, history := [], 0, History({}, true);
    }

    method Put(tx: Tx, local: bool)
      requires Heaps.IsHeap(remotes, PriceLess)
      modifies this
      ensures Heaps.IsHeap(remotes, PriceLess) && stales == old(stales)
      ensures multiset(remotes) == multiset(old(remotes)) + if local then multiset{} else multiset{tx}
      ensures history == old(history).Put(tx, local)
      ensures old(InHistory(remotes, history)) ==> InHistory(remotes, history)
    {
      if local { return; }
      PriceOrder();
      remotes := Heaps.Push(remotes, PriceLess, tx);
      history := history.Put(tx, false);
      forall t | t in remotes && old(InHistory(remotes, history)) ensures t in history.seen {
        assert t in multiset(remotes);
      }
    }

    /** Told of `count` removals. If that is what was owed, the books are straight afterwards and
        at most a quarter of the heap is not live. */
    method Removed(count: nat)
      modifies this`remotes, this`stales
      ensures old(Owing(count)) ==> Valid() && |remotes| - |all.remotes| <= stales <= |remotes| / 4
      ensures remotes == old(remotes) || multiset(remotes) == multiset(all.remotes)
      ensures old(Heaps.IsHeap(remotes, PriceLess)) ==> Heaps.IsHeap(remotes, PriceLess)
      ensures old(Recorded()) ==> Recorded()
      ensures forall k: nat :: old(Owing(count + k)) ==> Owing(k)
    {
      stales := stales + count;
      if stales <= |remotes| / 4 { return; }
      Reheap();
    }

    method Reheap()
      modifies this`remotes, this`stales
      ensures all.remotes <= history.seen ==> Recorded()
      ensures Valid() && stales == 0 && multiset(remotes) == multiset(all.remotes)
    {
      stales, remotes := 0, [];
      var todo := all.remotes;
      while todo != {}
        invariant todo <= all.remotes && stales == 0
        invariant multiset(remotes) == multiset(all.remotes - todo)
        decreases |todo|
      {
        var tx :| tx in todo;
        assert all.remotes - (todo - {tx}) == (all.remotes - todo) + {tx};
        todo := todo - {tx};
        remotes := remotes + [tx];
      }
      assert all.remotes - {} == all.remotes;
      PriceOrder();
      remotes := Heaps.Init(remotes, PriceLess);
      assert |multiset(remotes)| == |multiset(all.remotes)|;
      forall tx ensures tx in all.remotes <==> tx in remotes {
        assert tx in multiset(remotes) <==> tx in multiset(all.remotes);
      }
    }

    /** Nothing on the heap is cheaper than its root. */
    lemma RootIsCheapest()
      requires Heaps.IsHeap(remotes, PriceLess) && |remotes| > 0
      ensures forall tx :: tx in remotes ==> !PriceLess(tx, remotes[0])
    {
      PriceOrder();
      forall k | 0 <= k < |remotes| ensures !PriceLess(remotes[k], remotes[0]) {
        Heaps.RootIsLeast(remotes, PriceLess, k);
      }
    }

    /** How many slots discarding everything would free. */
    ghost function Room(): nat
      reads this`remotes, all`remotes
    {
      LiveSlots(multiset(remotes), all.remotes)
    }

    method PopCheapest() returns (tx: Tx)
      requires Heaps.IsHeap(remotes, PriceLess) && |remotes| > 0
      modifies this`remotes
      ensures Heaps.IsHeap(remotes, PriceLess) && |remotes| == |old(remotes)| - 1
      ensures tx == old(remotes)[0] && multiset(old(remotes)) == multiset(remotes) + multiset{tx}
      ensures forall t :: t in remotes ==> t in old(remotes) && !PriceLess(t, tx)
      ensures forall t :: t in old(remotes) ==> t in remotes || t == tx
      ensures old(Room()) == Room() + if tx in all.remotes then NumSlots(tx) else 0
    {
      PriceOrder();
      RootIsCheapest();
      tx, remotes := Heaps.Pop(remotes, PriceLess);
      assert multiset(old(remotes)) - multiset{tx} == multiset(remotes);
      LiveSlotsWithout(multiset(old(remotes)), all.remotes, tx);
      forall t | t in remotes ensures t in old(remotes) {
        assert t in multiset(remotes) && t in multiset(old(remotes));
      }
      forall t | t in old(remotes) ensures t in remotes || t == tx {
        assert t in multiset(old(remotes));
      }
    }

    /** Takes all live transactions cheaper than `threshold` off the heap. */
    method Cap(threshold: nat) returns (drop: seq<Tx>)
      requires Valid()
      modifies this`remotes, this`stales
      ensures Popped(drop) && (old(Recorded()) ==> Recorded())
      ensures forall tx :: tx in drop <==> tx in all.remotes && tx.price < threshold
    {
      drop := [];
      while |remotes| > 0
        invariant Popped(drop) && multiset(remotes) <= multiset(old(remotes))
        invariant forall tx :: tx in drop ==> tx in all.remotes && tx.price < threshold
        decreases |remotes|
      {
        var cheapest := remotes[0];
        if cheapest !in all.remotes {
          var _ := PopCheapest();
          stales := stales - 1;
          continue;
        }
        if cheapest.price >= threshold {
          RootIsCheapest();
          break;
        }
        var _ := PopCheapest();
        drop := drop + [cheapest];
      }
      if old(Recorded()) { FewerInHistory(old(remotes), remotes, history); }
    }

    /** Whether every live remote transaction pays at least as much as `tx`. */
    method Underpriced(tx: Tx) returns (r: bool)
      requires Valid()
      modifies this`remotes, this`stales
      ensures Valid() && multiset(remotes) <= multiset(old(remotes))
      ensures Room() == old(Room()) && (old(Recorded()) ==> Recorded())
      ensures r <==> all.remotes != {} && forall t :: t in all.remotes ==> t.price >= tx.price
    {
      while |remotes| > 0 && remotes[0] !in all.remotes
        invariant Valid() && multiset(remotes) <= multiset(old(remotes)) && Room() == old(Room())
        decreases |remotes|
      {
        stales := stales - 1;
        var _ := PopCheapest();
      }
      if old(Recorded()) { FewerInHistory(old(remotes), remotes, history); }
      if |remotes| == 0 { return false; }
      RootIsCheapest();
      r := remotes[0].price >= tx.price;
    }

    /** The loop of `Discard` that takes transactions off. */
    method TakeCheapest(slots: int) returns (drop: seq<Tx>, need: int)
      requires Valid()
      modifies this`remotes, this`stales
      ensures Popped(drop) && multiset(drop) + multiset(remotes) <= multiset(old(remotes))
      ensures need == slots - SlotsOf(drop) && Room() + SlotsOf(drop) == old(Room())
      ensures need <= 0 || remotes == []
      ensures forall tx :: tx in drop ==> tx in all.remotes
      ensures forall tx, t :: tx in drop && t in remotes ==> !PriceLess(t, tx)
      ensures drop != [] ==> SlotsOf(drop[..|drop| - 1]) < slots
    {
      hide Heaps.IsHeap, PriceLess, SlotSum, SlotsOf, NumSlots, Room, Elements, InHistory;
      drop := [];
      SlotsOfMore([], Tx(0, 0, 0, 0, 0, 0, 0));
      need := slots;
      while |remotes| > 0 && need > 0
        invariant Popped(drop)
        invariant multiset(drop) + multiset(remotes) <= multiset(old(remotes))
        invariant need == slots - SlotsOf(drop) && Room() + SlotsOf(drop) == old(Room())
        invariant forall tx :: tx in drop ==> tx in all.remotes
        invariant forall tx, t :: tx in drop && t in remotes ==> !PriceLess(t, tx)
        invariant drop != [] ==> SlotsOf(drop[..|drop| - 1]) < slots
        decreases |remotes|
      {
        var tx := PopCheapest();
        if tx !in all.remotes {
          stales := stales - 1;
          continue;
        }
        SlotsOfMore(drop, tx);
        drop := drop + [tx];
        need := need - NumSlots(tx);
      }
    }

    /** Takes the cheapest live transactions off the heap until they free `slots` slots, and no more
        than that takes. Without `force` it takes either enough or, when all are not enough, none. */
    method Discard(slots: int, force: bool) returns (drop: seq<Tx>, success: bool)
      requires Valid()
      modifies this`remotes, this`stales
      ensures Popped(drop) && (old(Recorded()) ==> Recorded())
      ensures multiset(drop) + multiset(remotes) <= multiset(old(remotes))
      ensures forall tx :: tx in drop ==> tx in all.remotes
      ensures forall tx, t :: tx in drop && t in all.remotes && t !in drop ==> !PriceLess(t, tx)
      ensures success <==> force || slots <= old(Room())
      ensures success ==> slots <= SlotsOf(drop) || (force && Elements(drop) == all.remotes)
      ensures !success ==> drop == [] && SlotSum(all.remotes) < slots
      ensures drop != [] ==> SlotsOf(drop[..|drop| - 1]) < slots
    {
      hide Heaps.IsHeap, PriceLess, SlotSum, SlotsOf, NumSlots, Room, Elements, InHistory;
      var need;
      drop, need := TakeCheapest(slots);
      if need > 0 { AllPopped(drop); }
      success := force || need <= 0;
      if !success {
        PutBack(drop);
        drop := [];
      }
      if old(Recorded()) { FewerInHistory(old(remotes), remotes, history); }
    }

    /** With the heap empty, all live transactions have been taken off. */
    lemma AllPopped(drop: seq<Tx>)
      requires Popped(drop) && remotes == [] && forall tx :: tx in drop ==> tx in all.remotes
      ensures Room() == 0 && Elements(drop) == all.remotes && SlotSum(all.remotes) <= SlotsOf(drop)
    {
      SlotsAtLeast(drop);
    }

    /** The loop of `Discard` that pushes everything back. */
    method PutBack(drop: seq<Tx>)
      requires Popped(drop)
      modifies this`remotes
      ensures Popped([]) && multiset(remotes) == multiset(old(remotes)) + multiset(drop)
    {
      PriceOrder();
      for i := 0 to |drop|
        invariant Popped(drop[i..])
        invariant multiset(remotes) == multiset(old(remotes)) + multiset(drop[..i])
      {
        ghost var was := remotes;
        assert drop[i..] == [drop[i]] + drop[i + 1..];
        assert drop[..i + 1] == drop[..i] + [drop[i]];
        remotes := Heaps.Push(remotes, PriceLess, drop[i]);
        forall tx | tx in all.remotes ensures tx in drop[i + 1..] || tx in remotes {
          assert tx in was ==> tx in multiset(was);
          assert tx in multiset(remotes) ==> tx in remotes;
        }
      }
      assert drop[..|drop|] == drop;
    }
  }
}
