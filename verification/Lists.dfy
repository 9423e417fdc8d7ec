/** What an account's transaction list means: a map from nonces to transactions, with the
    operations of `txSortedMap` and `txList` as functions on it. */
module Lists {
  import opened Types

  type List = map<nat, Tx>

  ghost predicate Keyed(l: List) {
    forall n :: n in l ==> l[n].nonce == n
  }

  ghost function Txs(l: List): set<Tx> {
    set n | n in l :: l[n]
  }

  ghost predicate Holds(l: List, tx: Tx) {
    tx.nonce in l && l[tx.nonce] == tx
  }

  lemma TxsHolds(l: List, tx: Tx)
    requires Keyed(l)
    ensures tx in Txs(l) <==> Holds(l, tx)
  {
  }

  ghost predicate IsLeast(n: nat, s: set<nat>) {
    n in s && forall k :: k in s ==> n <= k
  }

  ghost predicate IsGreatest(n: nat, s: set<nat>) {
    n in s && forall k :: k in s ==> k <= n
  }

  lemma {:induction false} FindLeast(s: set<nat>) returns (n: nat)
    requires s != {}
    ensures IsLeast(n, s)
    decreases |s|
  {
    n :| n in s;
    var t := s - {n};
    assert s == t + {n};
    if t != {} {
      var m := FindLeast(t);
      n := if n < m then n else m;
    }
  }

  lemma {:induction false} FindGreatest(s: set<nat>) returns (n: nat)
    requires s != {}
    ensures IsGreatest(n, s)
    decreases |s|
  {
    n :| n in s;
    var t := s - {n};
    assert s == t + {n};
    if t != {} {
      var m := FindGreatest(t);
      n := if n < m then m else n;
    }
  }

  lemma LeastExists(s: set<nat>)
    requires s != {}
    ensures exists n :: n in s && forall k :: k in s ==> n <= k
  {
    var n := FindLeast(s);
    assert n in s;
  }

  function Least(s: set<nat>): (n: nat)
    requires s != {}
    ensures n in s && forall k :: k in s ==> n <= k
  {
    LeastExists(s);
    var n :| n in s && forall k :: k in s ==> n <= k;
    n
  }

  lemma GreatestExists(s: set<nat>)
    requires s != {}
    ensures exists n :: n in s && forall k :: k in s ==> k <= n
  {
    var n := FindGreatest(s);
    assert n in s;
  }

  function Greatest(s: set<nat>): (n: nat)
    requires s != {}
    ensures n in s && forall k :: k in s ==> k <= n
  {
    GreatestExists(s);
    var n :| n in s && forall k :: k in s ==> k <= n;
    n
  }

  /** The transactions in increasing order of nonce. */
  function Ascending(l: List): (s: seq<Tx>)
    ensures |s| == |l|
    decreases |l|
  {
    if |l| == 0 then []
    else
      var n := Least(l.Keys);
      [l[n]] + Ascending(l - {n})
  }

  lemma {:induction false} AscendingHolds(l: List, tx: Tx)
    requires Keyed(l)
    ensures tx in Ascending(l) <==> Holds(l, tx)
    decreases |l|
  {
    if |l| > 0 {
      var n := Least(l.Keys);
      AscendingHolds(l - {n}, tx);
    }
  }

  lemma {:induction false} AscendingOrdered(l: List, i: nat, j: nat)
    requires Keyed(l) && i < j < |l|
    ensures Ascending(l)[i].nonce < Ascending(l)[j].nonce
    decreases |l|
  {
    var n := Least(l.Keys);
    if i > 0 {
      AscendingOrdered(l - {n}, i - 1, j - 1);
    } else {
      AscendingHolds(l - {n}, Ascending(l)[j]);
    }
  }

  /** Any listing of the same transactions by increasing nonce is the same sequence. */
  lemma {:induction false} AscendingUnique(l: List, s: seq<Tx>)
    requires Keyed(l)
    requires forall i, j :: 0 <= i < j < |s| ==> s[i].nonce < s[j].nonce
    requires forall tx :: tx in s <==> Holds(l, tx)
    ensures s == Ascending(l)
    decreases |l|
  {
    if |l| == 0 {
      forall tx ensures multiset(s)[tx] == 0 {
        assert tx !in s;
      }
      assert multiset(s) == multiset{};
      assert |multiset(s)| == 0;
    } else {
      var n := Least(l.Keys);
      assert Holds(l, l[n]);
      var i :| 0 <= i < |s| && s[i] == l[n];
      assert Holds(l, s[0]);
      assert i == 0;
      forall tx ensures tx in s[1..] <==> Holds(l - {n}, tx) {
        assert tx in s <==> tx == s[0] || tx in s[1..];
      }
      AscendingUnique(l - {n}, s[1..]);
      assert s == [s[0]] + s[1..];
    }
  }

  function Below(l: List, t: nat): List {
    map n | n in l && n < t :: l[n]
  }

  function AtLeast(l: List, t: nat): List {
    map n | n in l && t <= n :: l[n]
  }

  lemma AscendingStep(l: List, n: nat)
    requires n in l && forall k :: k in l ==> n <= k
    ensures Ascending(l) == [l[n]] + Ascending(l - {n})
  {
    assert n == Least(l.Keys);
  }

  lemma SplitStep(l: List, n: nat, t: nat)
    requires n in l && n < t
    ensures n in Below(l, t) && Below(l, t)[n] == l[n]
    ensures Below(l, t) - {n} == Below(l - {n}, t)
    ensures AtLeast(l, t) == AtLeast(l - {n}, t)
  {
  }

  lemma {:induction false} AscendingSplit(l: List, t: nat)
    ensures Ascending(l) == Ascending(Below(l, t)) + Ascending(AtLeast(l, t))
    decreases |l|
  {
    if |l| == 0 {
      assert Below(l, t) == map[] && AtLeast(l, t) == map[];
    } else {
      var n := Least(l.Keys);
      if n < t {
        SplitStep(l, n, t);
        AscendingStep(Below(l, t), n);
        AscendingSplit(l - {n}, t);
      } else {
        assert Below(l, t) == map[];
        assert AtLeast(l, t) == l;
      }
    }
  }

  /** What is left after dropping the highest nonces until at most `k` transactions remain. */
  function Capped(l: List, k: nat): List
    decreases |l|
  {
    if |l| <= k then l else Capped(l - {Greatest(l.Keys)}, k)
  }

  /** What `Capped` drops, highest nonce first. */
  function CapDrops(l: List, k: nat): seq<Tx>
    decreases |l|
  {
    if |l| <= k then []
    else
      var n := Greatest(l.Keys);
      [l[n]] + CapDrops(l - {n}, k)
  }

  lemma AscendingOne(n: nat, tx: Tx)
    ensures Ascending(map[n := tx]) == [tx]
  {
    assert map[n := tx] - {n} == map[];
  }

  lemma TopAlone(l: List, n: nat)
    requires n in l && forall k :: k in l ==> k <= n
    ensures Below(l, n) == l - {n}
    ensures AtLeast(l, n) == map[n := l[n]]
  {
  }

  lemma AscendingTop(l: List, n: nat)
    requires n in l && forall k :: k in l ==> k <= n
    ensures Ascending(l) == Ascending(l - {n}) + [l[n]]
  {
    assert Below(l, n) == l - {n} && AtLeast(l, n) == map[n := l[n]] by {
      TopAlone(l, n);
    }
    AscendingSplit(l, n);
    AscendingOne(n, l[n]);
  }

  /** Capping keeps exactly the lowest `k` nonces, and what it drops is the rest in reverse. */
  lemma {:induction false} CappedIsPrefix(l: List, k: nat)
    ensures |CapDrops(l, k)| == if k <= |l| then |l| - k else 0
    ensures Ascending(Capped(l, k)) == Ascending(l)[..|l| - |CapDrops(l, k)|]
    decreases |l|
  {
    if |l| > k {
      var n := Greatest(l.Keys);
      CappedIsPrefix(l - {n}, k);
      AscendingTop(l, n);
    }
  }

  /** A list splits into what capping keeps and what it drops. */
  lemma {:induction false} CappedSplits(l: List, k: nat, tx: Tx)
    requires Keyed(l)
    ensures Keyed(Capped(l, k))
    ensures Holds(l, tx) <==> Holds(Capped(l, k), tx) || tx in CapDrops(l, k)
    ensures !(Holds(Capped(l, k), tx) && tx in CapDrops(l, k))
    ensures tx in CapDrops(l, k) ==> forall n :: n in Capped(l, k) ==> n < tx.nonce
    decreases |l|
  {
    if |l| > k {
      var n := Greatest(l.Keys);
      CappedSplits(l - {n}, k, tx);
      CappedWithin(l - {n}, k);
    }
  }

  lemma {:induction false} CappedWithin(l: List, k: nat)
    ensures forall n :: n in Capped(l, k) ==> n in l && Capped(l, k)[n] == l[n]
    ensures |Capped(l, k)| == if k <= |l| then k else |l|
    decreases |l|
  {
    if |l| > k {
      CappedWithin(l - {Greatest(l.Keys)}, k);
    }
  }

  /** The transactions with nonces `n`, `n + 1`, and so on up to the first gap. */
  function Run(l: List, n: nat): (s: seq<Tx>)
    ensures |s| <= |l|
    decreases |l|
  {
    if n in l then [l[n]] + Run(l - {n}, n + 1) else []
  }

  lemma {:induction false} RunAt(l: List, n: nat, i: nat)
    requires i < |Run(l, n)|
    ensures n + i in l && Run(l, n)[i] == l[n + i]
    decreases |l|
  {
    if i > 0 {
      RunAt(l - {n}, n + 1, i - 1);
    }
  }

  lemma {:induction false} RunStops(l: List, n: nat)
    ensures n + |Run(l, n)| !in l
    decreases |l|
  {
    if n in l {
      RunStops(l - {n}, n + 1);
    }
  }

  /** The transactions ready for execution when `start` is the next nonce. */
  function ReadyRun(l: List, start: nat): seq<Tx> {
    if |l| == 0 || Least(l.Keys) > start then [] else Run(l, Least(l.Keys))
  }

  /** The ready run begins with the lowest nonce, unless that is above `start`, has no gaps, and could
      not be longer. */
  lemma ReadyExactly(l: List, start: nat)
    ensures ReadyRun(l, start) == [] <==> forall n :: n in l ==> n > start
    ensures ReadyRun(l, start) != [] ==>
      var least, r := Least(l.Keys), ReadyRun(l, start);
      && least <= start && (forall n :: n in l ==> least <= n)
      && (forall n :: least <= n < least + |r| ==> n in l && r[n - least] == l[n])
      && least + |r| !in l
  {
    hide Run;
    if |l| > 0 && Least(l.Keys) <= start {
      var least, r := Least(l.Keys), ReadyRun(l, start);
      RunStops(l, least);
      forall n | least <= n < least + |r| ensures n in l && r[n - least] == l[n] {
        RunAt(l, least, n - least);
      }
    }
  }

  /** What a filter removes and what it leaves. */
  ghost function Matching(l: List, drop: Tx -> bool): List {
    map n | n in l && drop(l[n]) :: l[n]
  }

  ghost function Dropped(l: List, drop: Tx -> bool): List {
    map n | n in l && !drop(l[n]) :: l[n]
  }

  function Without(l: List, txs: seq<Tx>): List {
    map n | n in l && l[n] !in txs :: l[n]
  }

  /** What a filter on balance and block gas keeps and drops. */
  predicate Affordable(tx: Tx, costLimit: nat, gasLimit: nat) {
    tx.gas <= gasLimit && tx.cost <= costLimit
  }

  function Payable(l: List, costLimit: nat, gasLimit: nat): List {
    map n | n in l && Affordable(l[n], costLimit, gasLimit) :: l[n]
  }

  function Unpayable(l: List, costLimit: nat, gasLimit: nat): List {
    map n | n in l && !Affordable(l[n], costLimit, gasLimit) :: l[n]
  }

  /** What a strict filter keeps: payable and not above a dropped nonce. */
  function StrictlyPayable(l: List, costLimit: nat, gasLimit: nat): List {
    var out := Unpayable(l, costLimit, gasLimit);
    if |out| == 0 then l else Below(l, Least(out.Keys))
  }

  /** What a strict filter hands back for the queue: payable but above a dropped nonce. */
  function Invalidated(l: List, costLimit: nat, gasLimit: nat): List {
    var out := Unpayable(l, costLimit, gasLimit);
    if |out| == 0 then map[] else AtLeast(Payable(l, costLimit, gasLimit), Least(out.Keys))
  }

  /** Whether `tx` may take the place of `old` at the same nonce: it must pay more, and at least
      `priceBump` percent more. */
  predicate Replaces(was: Tx, tx: Tx, priceBump: nat) {
    was.price < tx.price && (100 + priceBump) * was.price / 100 <= tx.price
  }

  /** What adding `tx` makes of a list. */
  function Added(l: List, tx: Tx, priceBump: nat): List {
    if tx.nonce in l && !Replaces(l[tx.nonce], tx, priceBump) then l else l[tx.nonce := tx]
  }

  ghost predicate Contiguous(l: List, start: nat) {
    forall n :: n in l <==> start <= n < start + |l|
  }

  /** A contiguous list cut at a nonce inside it is contiguous again. */
  lemma {:induction false} ContiguousBelow(l: List, start: nat, t: nat)
    requires Contiguous(l, start) && start <= t <= start + |l|
    ensures |Below(l, t)| == t - start && Contiguous(Below(l, t), start)
  {
    IntervalSize(Below(l, t).Keys, start, t);
    assert |Below(l, t)| == |Below(l, t).Keys|;
  }

  lemma {:induction false} IntervalSize(s: set<nat>, lo: nat, hi: nat)
    requires lo <= hi && forall n :: n in s <==> lo <= n < hi
    ensures |s| == hi - lo
    decreases hi
  {
    if lo < hi {
      IntervalSize(s - {hi - 1}, lo, hi - 1);
    } else {
      assert s == {};
    }
  }

  /** On a contiguous list a strict filter leaves exactly the prefix below the lowest nonce that
      cannot be paid for, and everything above that nonce is dropped or handed back. */
  lemma {:induction false} StrictFilterLeavesPrefix(l: List, start: nat, costLimit: nat, gasLimit: nat)
    requires Contiguous(l, start)
    ensures var kept := StrictlyPayable(l, costLimit, gasLimit);
      && Contiguous(kept, start)
      && (forall n :: n in kept ==> kept[n] == l[n] && Affordable(l[n], costLimit, gasLimit))
      && (|kept| < |l| ==> !Affordable(l[start + |kept|], costLimit, gasLimit))
  {
    var out := Unpayable(l, costLimit, gasLimit);
    if |out| == 0 {
      forall n | n in l ensures Affordable(l[n], costLimit, gasLimit) {
        assert n !in out;
      }
    } else {
      var t := Least(out.Keys);
      ContiguousBelow(l, start, t);
      forall n | n in Below(l, t) ensures Affordable(l[n], costLimit, gasLimit) {
        assert n !in out;
      }
    }
  }
}
