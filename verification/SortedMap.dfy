/** `txSortedMap`: a nonce to transaction map with a heap of its nonces and a cache of its sorted
    content. The class refines the plain maps of module Lists. */
module SortedMap {
  import opened Types
  import opened Lists
  import Heaps
  import Sorting

  predicate NonceLess(a: nat, b: nat) {
    a < b
  }

  lemma NonceOrder()
    ensures Heaps.StrictWeak(NonceLess)
  {
  }

  /** `s` lists every transaction of `l` once, in any order. */
  ghost predicate ListingOf(s: seq<Tx>, l: List) {
    multiset(s) == multiset(Txs(l))
  }

  lemma FromSet<T>(s: set<T>, x: T)
    requires x !in s
    ensures multiset(s + {x}) == multiset(s) + multiset{x}
  {
  }

  lemma KeyAdded(l: List, tx: Tx)
    requires tx.nonce !in l
    ensures multiset(l[tx.nonce := tx].Keys) == multiset(l.Keys) + multiset{tx.nonce}
  {
    FromSet(l.Keys, tx.nonce);
    assert l[tx.nonce := tx].Keys == l.Keys + {tx.nonce};
  }

  lemma KeyRemoved(l: List, n: nat)
    requires n in l
    ensures multiset(l.Keys) == multiset((l - {n}).Keys) + multiset{n}
  {
    FromSet(l.Keys - {n}, n);
    assert l.Keys == l.Keys - {n} + {n};
    assert (l - {n}).Keys == l.Keys - {n};
  }

  lemma ListedOneMore(s: seq<Tx>, l: List, tx: Tx)
    requires Keyed(l) && tx.nonce !in l && ListingOf(s, l)
    ensures ListingOf(s + [tx], l[tx.nonce := tx])
  {
    assert tx !in Txs(l);
    FromSet(Txs(l), tx);
    var m := l[tx.nonce := tx];
    forall t ensures t in Txs(m) <==> t in Txs(l) + {tx} {
      if t in Txs(l) { assert Holds(m, t); }
      if t == tx { assert m[tx.nonce] == tx; }
    }
    assert Txs(m) == Txs(l) + {tx};
  }

  lemma Cancel<T>(a: multiset<T>, b: multiset<T>, x: T)
    requires a + multiset{x} == b + multiset{x}
    ensures a == b
  {
    forall y ensures a[y] == b[y] {
      assert (a + multiset{x})[y] == (b + multiset{x})[y];
    }
  }

  lemma Listed(s: seq<Tx>, l: List, tx: Tx)
    requires Keyed(l) && ListingOf(s, l)
    ensures tx in s <==> Holds(l, tx)
  {
    assert tx in s <==> tx in multiset(s);
    TxsHolds(l, tx);
  }

  /** A listing sorted by nonce is the ascending one. */
  lemma SortedListing(s: seq<Tx>, l: List)
    requires Keyed(l) && ListingOf(s, l)
    requires Sorting.SortedBy(s, (tx: Tx) => tx.nonce)
    ensures s == Ascending(l)
  {
    forall tx ensures tx in s <==> Holds(l, tx) {
      assert tx in s <==> tx in multiset(s);
      TxsHolds(l, tx);
    }
    var key := (tx: Tx) => tx.nonce;
    forall i, j | 0 <= i < j < |s| ensures s[i].nonce < s[j].nonce {
      assert key(s[i]) <= key(s[j]);
      if s[i].nonce == s[j].nonce {
        assert Holds(l, s[i]) && Holds(l, s[j]);
        Twice(s, i, j);
      }
    }
    AscendingUnique(l, s);
  }

  /** A filter that has yet to look at the nonces in `todo`: what is kept and what is gone. */
  ghost function Kept(l: List, todo: set<nat>, drop: Tx -> bool): List {
    map n | n in l && (n in todo || !drop(l[n])) :: l[n]
  }

  ghost function Gone(l: List, todo: set<nat>, drop: Tx -> bool): List {
    map n | n in l && n !in todo && drop(l[n]) :: l[n]
  }

  lemma FilterStep(l: List, todo: set<nat>, drop: Tx -> bool, n: nat)
    requires n in todo && todo <= l.Keys
    ensures n in Kept(l, todo, drop) && Kept(l, todo, drop)[n] == l[n]
    ensures n !in Gone(l, todo, drop)
    ensures Kept(l, todo - {n}, drop) == if drop(l[n]) then Kept(l, todo, drop) - {n} else Kept(l, todo, drop)
    ensures Gone(l, todo - {n}, drop) == if drop(l[n]) then Gone(l, todo, drop)[n := l[n]] else Gone(l, todo, drop)
  {
  }

  lemma NothingMatches(l: List, drop: Tx -> bool)
    requires Matching(l, drop) == map[]
    ensures Dropped(l, drop) == l
  {
    forall n | n in l ensures !drop(l[n]) {
      assert n !in Matching(l, drop);
    }
  }

  /** Halfway through `Cap`. */
  ghost predicate DroppedTop(l: List, k: nat, drops: seq<Tx>, rest: List) {
    drops + CapDrops(rest, k) == CapDrops(l, k) && Capped(rest, k) == Capped(l, k)
  }

  lemma DropStep(l: List, k: nat, drops: seq<Tx>, rest: List, n: nat)
    requires DroppedTop(l, k, drops, rest) && |rest| > k && n in rest && n == Greatest(rest.Keys)
    ensures DroppedTop(l, k, drops + [rest[n]], rest - {n})
  {
  }

  lemma DropDone(l: List, k: nat, drops: seq<Tx>, rest: List)
    requires DroppedTop(l, k, drops, rest) && |rest| <= k
    ensures drops == CapDrops(l, k) && rest == Capped(l, k)
  {
  }

  ghost predicate NoncesSorted(s: seq<nat>) {
    forall i, j :: 0 <= i < j < |s| ==> s[i] <= s[j]
  }

  lemma WithoutNone(l: List)
    ensures Without(l, []) == l
  {
  }

  /** Halfway through `Ready`: what has been popped, what is left, and the nonce to come. */
  ghost predicate PoppedRun(l: List, first: nat, ready: seq<Tx>, rest: List, next: nat) {
    && rest == Without(l, ready)
    && ready + Run(rest, next) == Run(l, first)
    && forall n :: n in rest ==> next <= n
  }

  lemma RunStep(l: List, first: nat, ready: seq<Tx>, rest: List, next: nat)
    requires Keyed(l) && PoppedRun(l, first, ready, rest, next) && next in rest
    ensures PoppedRun(l, first, ready + [rest[next]], rest - {next}, next + 1)
  {
    assert ready + Run(rest, next) == (ready + [rest[next]]) + Run(rest - {next}, next + 1);
  }

  lemma RunOver(l: List, first: nat, ready: seq<Tx>, rest: List, next: nat)
    requires PoppedRun(l, first, ready, rest, next) && next !in rest
    ensures ready == Run(l, first)
  {
  }

  /** Halfway through `Forward`. */
  ghost predicate PoppedBelow(l: List, t: nat, removed: seq<Tx>, rest: List) {
    && removed + Ascending(Below(rest, t)) == Ascending(Below(l, t))
    && AtLeast(rest, t) == AtLeast(l, t)
  }

  lemma ForwardStep(l: List, t: nat, removed: seq<Tx>, rest: List, n: nat)
    requires PoppedBelow(l, t, removed, rest) && n in rest && n < t && forall k :: k in rest ==> n <= k
    ensures PoppedBelow(l, t, removed + [rest[n]], rest - {n})
  {
    SplitStep(rest, n, t);
    AscendingStep(Below(rest, t), n);
  }

  lemma ForwardDone(l: List, t: nat, removed: seq<Tx>, rest: List)
    requires PoppedBelow(l, t, removed, rest) && forall n :: n in rest ==> t <= n
    ensures removed == Ascending(Below(l, t)) && rest == AtLeast(l, t)
  {
    assert Below(rest, t) == map[];
  }

  /** In a sorted index the last position in use holds the greatest nonce. */
  lemma LastIsGreatest(index: seq<nat>, items: List, size: nat)
    requires 0 < size == |items| <= |index|
    requires NoncesSorted(index) && multiset(index[..size]) == multiset(items.Keys)
    ensures index[size - 1] in items && index[size - 1] == Greatest(items.Keys)
    ensures multiset(index[..size - 1]) == multiset((items - {index[size - 1]}).Keys)
  {
    var s := index[..size];
    var nonce := index[size - 1];
    assert nonce in multiset(s);
    forall n | n in items ensures n <= nonce {
      assert n in multiset(s);
      var k :| 0 <= k < |s| && s[k] == n;
    }
    assert s == index[..size - 1] + [nonce];
    KeyRemoved(items, nonce);
    Cancel(multiset(index[..size - 1]), multiset((items - {nonce}).Keys), nonce);
  }

  method SortNonces(s: seq<nat>) returns (r: seq<nat>)
    ensures NoncesSorted(r) && multiset(r) == multiset(s)
  {
    var key := (n: nat) => n;
    r := Sorting.SortBy(s, key);
    forall i, j | 0 <= i < j < |r| ensures r[i] <= r[j] {
      assert key(r[i]) <= key(r[j]);
    }
  }

  class TxSortedMap {
    var items: List
    var index: seq<nat>
    var cache: Option<seq<Tx>>

    /** What every method but `FilterLoose` keeps: the index is a heap over exactly the keys, and the
        cache, when there is one, is the whole content by increasing nonce. */
    ghost predicate Valid()
      reads this
    {
      && Keyed(items)
      && Indexed()
      && (cache.Some? ==> cache.value == Ascending(items))
    }

    ghost predicate Indexed()
      reads this
    {
      Heaps.IsHeap(index, NonceLess) && multiset(index) == multiset(items.Keys)
    }

    constructor ()
      ensures Valid() && items == map[]
    {
      items, index, cache := map[], [], None;
    }

    method Get(nonce: nat) returns (r: Option<Tx>)
      ensures r == if nonce in items then Some(items[nonce]) else None
    {
      r := if nonce in items then Some(items[nonce]) else None;
    }

    method Put(tx: Tx)
      requires Valid()
      modifies this
      ensures Valid() && items == old(items)[tx.nonce := tx]
    {
      var nonce := tx.nonce;
      if nonce !in items {
        NonceOrder();
        KeyAdded(items, tx);
        index := Heaps.Push(index, NonceLess, nonce);
      } else {
        assert items[nonce := tx].Keys == items.Keys;
      }
      items, cache := items[nonce := tx], None;
    }

    /** The root of the index is the least nonce held. */
    lemma RootIsLeast()
      requires Keyed(items) && Indexed() && |index| > 0
      ensures index[0] in items && forall n :: n in items ==> index[0] <= n
    {
      NonceOrder();
      assert index[0] in multiset(index);
      forall n | n in items ensures index[0] <= n {
        assert n in multiset(index);
        var k :| 0 <= k < |index| && index[k] == n;
        Heaps.RootIsLeast(index, NonceLess, k);
      }
    }

    method PopLeast() returns (nonce: nat)
      requires Keyed(items) && Indexed() && |index| > 0
      modifies this`index, this`items
      ensures nonce == old(index)[0] && nonce in old(items)
      ensures |index| == |old(index)| - 1
      ensures items == old(items) - {nonce} && Keyed(items) && Indexed()
    {
      NonceOrder();
      RootIsLeast();
      KeyRemoved(items, index[0]);
      nonce, index := Heaps.Pop(index, NonceLess);
      items := items - {nonce};
      Cancel(multiset(index), multiset(items.Keys), nonce);
    }

    method Forward(threshold: nat) returns (removed: seq<Tx>)
      requires Valid()
      modifies this
      ensures Valid()
      ensures removed == Ascending(Below(old(items), threshold))
      ensures items == AtLeast(old(items), threshold)
    {
      removed := PopBelow(threshold);
      if cache.Some? {
        AscendingSplit(old(items), threshold);
        cache := Some(cache.value[|removed|..]);
      }
    }

    /** The popping loop of `Forward`. */
    method PopBelow(threshold: nat) returns (removed: seq<Tx>)
      requires Keyed(items) && Indexed()
      modifies this`index, this`items
      ensures Keyed(items) && Indexed()
      ensures removed == Ascending(Below(old(items), threshold))
      ensures items == AtLeast(old(items), threshold)
    {
      removed := [];
      ghost var l := items;
      while |index| > 0 && index[0] < threshold
        invariant Keyed(items) && Indexed()
        invariant PoppedBelow(l, threshold, removed, items)
        decreases |index|
      {
        RootIsLeast();
        ForwardStep(l, threshold, removed, items, index[0]);
        removed := removed + [items[index[0]]];
        var nonce := PopLeast();
      }
      if |index| > 0 { RootIsLeast(); } else { EmptyIndex(); }
      ForwardDone(l, threshold, removed, items);
    }

    lemma EmptyIndex()
      requires Keyed(items) && Indexed() && |index| == 0
      ensures items == map[]
    {
      assert |multiset(items.Keys)| == |multiset(index)| == 0;
      assert items.Keys == {} by {
        forall n ensures n !in items.Keys {
          assert n !in multiset(index);
        }
      }
    }

    /** Removes without repairing the index; the one method after which `Indexed` may fail. */
    method FilterLoose(drop: Tx -> bool) returns (removed: seq<Tx>)
      requires Keyed(items) && (cache.Some? ==> cache.value == Ascending(items))
      modifies this`items, this`cache
      ensures items == Dropped(old(items), drop) && Keyed(items)
      ensures ListingOf(removed, Matching(old(items), drop))
      ensures cache.Some? ==> cache.value == Ascending(items)
      ensures removed == [] ==> Matching(old(items), drop) == map[] && items == old(items)
      ensures removed != [] ==> cache.None?
    {
      removed := FilterItems(drop);
      if |removed| > 0 {
        cache := None;
      }
    }

    /** The deleting loop of `FilterLoose`. */
    method FilterItems(drop: Tx -> bool) returns (removed: seq<Tx>)
      requires Keyed(items)
      modifies this`items
      ensures items == Dropped(old(items), drop) && Keyed(items)
      ensures ListingOf(removed, Matching(old(items), drop))
      ensures removed == [] ==> Matching(old(items), drop) == map[] && items == old(items)
    {
      removed := [];
      var todo := items.Keys;
      ghost var l := items;
      ghost var out: List := map[];
      assert items == Kept(l, todo, drop);
      while todo != {}
        invariant todo <= l.Keys
        invariant items == Kept(l, todo, drop)
        invariant out == Gone(l, todo, drop)
        invariant ListingOf(removed, out)
        invariant removed == [] ==> out == map[]
        decreases |todo|
      {
        var nonce :| nonce in todo;
        FilterStep(l, todo, drop, nonce);
        todo := todo - {nonce};
        var tx := items[nonce];
        if drop(tx) {
          ListedOneMore(removed, out, tx);
          out := out[nonce := tx];
          removed := removed + [tx];
          items := items - {nonce};
        }
      }
      assert out == Matching(l, drop) && items == Dropped(l, drop);
      if |removed| == 0 {
        NothingMatches(l, drop);
      }
    }

    method Reheap()
      requires Keyed(items)
      modifies this
      ensures Valid() && items == old(items)
    {
      index := [];
      var todo := items.Keys;
      while todo != {}
        invariant items == old(items)
        invariant todo <= items.Keys
        invariant multiset(index) == multiset(items.Keys - todo)
        decreases |todo|
      {
        var nonce :| nonce in todo;
        assert items.Keys - (todo - {nonce}) == (items.Keys - todo) + {nonce};
        todo := todo - {nonce};
        index := index + [nonce];
      }
      assert items.Keys - {} == items.Keys;
      NonceOrder();
      index := Heaps.Init(index, NonceLess);
      cache := None;
    }

    method Filter(drop: Tx -> bool) returns (removed: seq<Tx>)
      requires Valid()
      modifies this
      ensures Valid()
      ensures items == Dropped(old(items), drop)
      ensures ListingOf(removed, Matching(old(items), drop))
      ensures removed == [] ==> Matching(old(items), drop) == map[]
    {
      removed := FilterLoose(drop);
      if |removed| > 0 {
        Reheap();
      }
    }

    method Cap(threshold: nat) returns (drops: seq<Tx>)
      requires Valid()
      modifies this
      ensures Valid()
      ensures drops == CapDrops(old(items), threshold)
      ensures items == Capped(old(items), threshold)
    {
      if |items| <= threshold { return []; }
      index := SortNonces(index);
      SortedIndex();
      drops := DropFromTop(threshold);
      index := index[..threshold];
      NonceOrder();
      index := Heaps.Init(index, NonceLess);
      if cache.Some? {
        CappedIsPrefix(old(items), threshold);
        cache := Some(cache.value[..|cache.value| - |drops|]);
      }
    }

    /** The dropping loop of `Cap`, on a sorted index. */
    method DropFromTop(threshold: nat) returns (drops: seq<Tx>)
      requires Keyed(items) && threshold < |items| == |index|
      requires NoncesSorted(index) && multiset(index[..|items|]) == multiset(items.Keys)
      modifies this`items
      ensures Keyed(items) && drops == CapDrops(old(items), threshold)
      ensures items == Capped(old(items), threshold)
      ensures multiset(index[..threshold]) == multiset(items.Keys)
    {
      drops := [];
      ghost var l := items;
      var size := |items|;
      while size > threshold
        invariant threshold <= size == |items| <= |index| && Keyed(items)
        invariant multiset(index[..size]) == multiset(items.Keys)
        invariant DroppedTop(l, threshold, drops, items)
      {
        var nonce := index[size - 1];
        LastIsGreatest(index, items, size);
        DropStep(l, threshold, drops, items, nonce);
        drops := drops + [items[nonce]];
        items := items - {nonce};
        size := size - 1;
      }
      DropDone(l, threshold, drops, items);
    }

    lemma SortedIndex()
      requires multiset(index) == multiset(items.Keys)
      ensures |index| == |items| && index[..|items|] == index
    {
      assert |multiset(index)| == |multiset(items.Keys)|;
    }

    method Remove(nonce: nat) returns (found: bool)
      requires Valid()
      modifies this
      ensures Valid()
      ensures found <==> nonce in old(items)
      ensures items == old(items) - {nonce}
    {
      if nonce !in items {
        assert items - {nonce} == items;
        return false;
      }
      NonceOrder();
      assert nonce in multiset(index);
      var i := 0;
      while index[i] != nonce
        invariant 0 <= i < |index| && nonce in index[i..]
        decreases |index| - i
      {
        assert index[i..] == [index[i]] + index[i + 1..];
        i := i + 1;
      }
      KeyRemoved(items, nonce);
      index := Heaps.Remove(index, NonceLess, i);
      items := items - {nonce};
      Cancel(multiset(index), multiset(items.Keys), nonce);
      cache := None;
      found := true;
    }

    method Ready(start: nat) returns (ready: seq<Tx>)
      requires Valid()
      modifies this
      ensures Valid()
      ensures ready == ReadyRun(old(items), start)
      ensures items == Without(old(items), ready)
    {
      if |index| > 0 { RootIsLeast(); } else { EmptyIndex(); }
      if |index| == 0 || index[0] > start {
        WithoutNone(items);
        return [];
      }
      assert index[0] == Least(items.Keys);
      ready := PopRun(index[0]);
      cache := None;
    }

    /** The popping loop of `Ready`. */
    method PopRun(first: nat) returns (ready: seq<Tx>)
      requires Keyed(items) && Indexed() && forall n :: n in items ==> first <= n
      modifies this`index, this`items
      ensures Keyed(items) && Indexed()
      ensures ready == Run(old(items), first)
      ensures items == Without(old(items), ready)
    {
      ready := [];
      ghost var l := items;
      var next := first;
      WithoutNone(l);
      while |index| > 0 && index[0] == next
        invariant Keyed(items) && Indexed()
        invariant PoppedRun(l, first, ready, items, next)
        decreases |index|
      {
        RootIsLeast();
        RunStep(l, first, ready, items, next);
        ready := ready + [items[next]];
        var nonce := PopLeast();
        next := next + 1;
      }
      if |index| > 0 { RootIsLeast(); } else { EmptyIndex(); }
      RunOver(l, first, ready, items, next);
    }

    method Len() returns (n: nat)
      ensures n == |items|
    {
      n := |items|;
    }

    method Sorted() returns (s: seq<Tx>)
      requires Valid()
      modifies this`cache
      ensures Valid() && s == Ascending(items) && cache == Some(s)
    {
      if cache.None? {
        s := [];
        var todo := items.Keys;
        ghost var done: List := map[];
        while todo != {}
          invariant todo <= items.Keys
          invariant done == map n | n in items && n !in todo :: items[n]
          invariant ListingOf(s, done)
          decreases |todo|
        {
          var nonce :| nonce in todo;
          todo := todo - {nonce};
          ListedOneMore(s, done, items[nonce]);
          done := done[nonce := items[nonce]];
          s := s + [items[nonce]];
        }
        assert done == items;
        s := Sorting.SortBy(s, (tx: Tx) => tx.nonce);
        SortedListing(s, items);
        cache := Some(s);
      }
      s := cache.value;
    }

    /** The transactions by increasing nonce; the cached slice is copied. */
    method Flatten() returns (txs: seq<Tx>)
      requires Valid()
      modifies this`cache
      ensures Valid() && txs == Ascending(items)
    {
      txs := Sorted();
    }

    method LastElement() returns (tx: Tx)
      requires Valid() && |items| > 0
      modifies this`cache
      ensures Valid() && tx == items[Greatest(items.Keys)]
    {
      var s := Sorted();
      AscendingTop(items, Greatest(items.Keys));
      tx := s[|s| - 1];
    }
  }
}
