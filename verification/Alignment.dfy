/** How an account's pending nonces, its nonce in the chain state and its virtual nonce relate
    before, during and after a pool reorganisation. */
module Alignment {
  import opened Types
  import opened Lists
  import opened Accounts

  /** Between reorganisations: the pending nonces are the run from the state nonce on, and the
      virtual nonce is the one after. */
  ghost predicate InStep(l: List, stateNonce: nat, virtual: nat) {
    Contiguous(l, stateNonce) && virtual == stateNonce + |l|
  }

  /** After the state has moved on: the pending nonces still form a run, from a nonce that may lie
      behind, and the virtual nonce is reset. */
  ghost predicate Lagging(l: List, stateNonce: nat, virtual: nat) {
    virtual == stateNonce && exists s0: nat :: s0 <= stateNonce && Contiguous(l, s0)
  }

  /** After promotion: from the state nonce on there is no gap, and a raised virtual nonce is
      backed by a transaction that can be paid for. */
  ghost predicate Caught(l: List, stateNonce: nat, virtual: nat, balance: nat, maxGas: nat) {
    && Contiguous(AtLeast(l, stateNonce), stateNonce)
    && (virtual == stateNonce || (stateNonce in l && Affordable(l[stateNonce], balance, maxGas)))
  }

  /** After demotion: only the virtual nonce of a nonempty list may be off. */
  ghost predicate Aligned(l: List, stateNonce: nat, virtual: nat) {
    Contiguous(l, stateNonce) && (|l| == 0 ==> virtual == stateNonce)
  }

  lemma CutInStep(l: List, stateNonce: nat, virtual: nat, n: nat)
    requires InStep(l, stateNonce, virtual) && n in l
    ensures InStep(Below(l, n), stateNonce, n) && n < virtual
  {
    ContiguousBelow(l, stateNonce, n);
  }

  /** Replacing a transaction by another with the same nonce changes no nonces. */
  lemma ReplacedInStep(l: List, stateNonce: nat, virtual: nat, tx: Tx)
    requires InStep(l, stateNonce, virtual) && tx.nonce in l
    ensures InStep(l[tx.nonce := tx], stateNonce, virtual)
  {
    assert l[tx.nonce := tx].Keys == l.Keys;
    assert |l[tx.nonce := tx]| == |l[tx.nonce := tx].Keys|;
  }

  /** The virtual nonce after promoting `ready`. */
  function Raised(virtual: nat, ready: seq<Tx>): nat {
    if ready == [] then virtual else ready[|ready| - 1].nonce + 1
  }

  /** The nonces of what a run collects are consecutive. */
  lemma RunCollected(l: List, n: nat)
    requires Keyed(l)
    ensures var r := Run(l, n);
      && Contiguous(Collected(r), n) && |Collected(r)| == |r|
      && (forall k :: k in Collected(r) ==> k in l && Collected(r)[k] == l[k])
      && (r != [] ==> r[|r| - 1].nonce == n + |r| - 1)
      && (r == [] <==> n !in l)
  {
    var r := Run(l, n);
    RunNonces(l, n);
    forall k: nat ensures k in Collected(r) <==> n <= k < n + |r|
      ensures k in Collected(r) ==> k in l && Collected(r)[k] == l[k]
    {
      CollectedHolds(r, k);
      if n <= k < n + |r| { assert r[k - n] in r; }
      if k in Collected(r) {
        var i :| 0 <= i < |r| && r[i] == Collected(r)[k];
        RunAt(l, n, i);
      }
    }
    IntervalSize(Collected(r).Keys, n, n + |r|);
    assert |Collected(r)| == |Collected(r).Keys|;
  }

  /** Two runs that meet make one. */
  lemma JoinedRuns(l: List, m: List, start: nat)
    requires Contiguous(l, start) && Contiguous(m, start + |l|)
    ensures Contiguous(l + m, start) && |l + m| == |l| + |m|
  {
    IntervalSize((l + m).Keys, start, start + |l| + |m|);
    assert |l + m| == |(l + m).Keys|;
  }

  /** Promotion between reorganisations extends the run of pending nonces. */
  lemma PromotedInStep(l: List, q: List, stateNonce: nat, virtual: nat)
    requires InStep(l, stateNonce, virtual) && Keyed(q)
    requires forall n :: n in q ==> n !in l && stateNonce <= n
    ensures var ready := ReadyRun(q, virtual);
      InStep(l + Collected(ready), stateNonce, Raised(virtual, ready))
  {
    hide ReadyRun, Run, Collected;
    assert forall n :: n in q ==> virtual <= n;
    ReadyFrom(q, virtual);
    if virtual in q {
      RunCollected(q, virtual);
      JoinedRuns(l, Collected(ReadyRun(q, virtual)), stateNonce);
    } else {
      NothingCollected();
      assert l + map[] == l;
    }
  }

  /** When nothing is older than the virtual nonce, the run ready from there on is promoted. */
  lemma ReadyFrom(q: List, virtual: nat)
    requires forall n :: n in q ==> virtual <= n
    ensures ReadyRun(q, virtual) == if virtual in q then Run(q, virtual) else []
  {
    hide Run;
    if |q| > 0 { assert Least(q.Keys) in q; }
  }

  lemma NothingCollected()
    ensures Collected([]) == map[]
  {
  }

  lemma LaggingIsCaught(l: List, stateNonce: nat, virtual: nat, balance: nat, maxGas: nat)
    requires Lagging(l, stateNonce, virtual)
    ensures Caught(l, stateNonce, virtual, balance, maxGas)
  {
    var s0: nat :| s0 <= stateNonce && Contiguous(l, s0);
    TopContiguous(l, s0, stateNonce);
  }

  lemma TopContiguous(l: List, start: nat, t: nat)
    requires Contiguous(l, start) && start <= t
    ensures Contiguous(AtLeast(l, t), t)
  {
    var top := AtLeast(l, t);
    if t <= start + |l| {
      IntervalSize(top.Keys, t, start + |l|);
      assert |top| == |top.Keys|;
    } else {
      assert top == map[];
    }
  }

  /** Nothing is ready, or the first that is can be paid for. */
  ghost predicate FirstPayable(ready: seq<Tx>, balance: nat, maxGas: nat) {
    ready != [] ==> Affordable(ready[0], balance, maxGas)
  }

  /** When all of a queue list is payable, so is the first that is ready. */
  lemma FilteredFirst(q: List, virtual: nat, balance: nat, maxGas: nat)
    requires forall n :: n in q ==> Affordable(q[n], balance, maxGas)
    ensures FirstPayable(ReadyRun(q, virtual), balance, maxGas)
  {
  }

  /** Promotion after a reset, for an account whose first ready transaction is payable. */
  lemma PromotedCaught(l: List, q: List, stateNonce: nat, virtual: nat, balance: nat, maxGas: nat)
    requires Lagging(l, stateNonce, virtual) && Keyed(q)
    requires forall n :: n in q ==> n !in l && stateNonce <= n
    requires FirstPayable(ReadyRun(q, virtual), balance, maxGas)
    ensures var ready := ReadyRun(q, virtual);
      Caught(l + Collected(ready), stateNonce, Raised(virtual, ready), balance, maxGas)
  {
    var ready := ReadyRun(q, virtual);
    var s0: nat :| s0 <= stateNonce && Contiguous(l, s0);
    if ready == [] {
      assert l + Collected(ready) == l;
      TopContiguous(l, s0, stateNonce);
    } else {
      assert Least(q.Keys) == stateNonce;
      RunCollected(q, stateNonce);
      OnTop(l, s0, Collected(ready), stateNonce);
    }
  }

  /** With nothing of `l` at or above `t`, what is put on top is all there is from `t` on. */
  lemma OnTop(l: List, start: nat, m: List, t: nat)
    requires Contiguous(l, start) && start <= t && t !in l && t in m && Contiguous(m, t)
    ensures AtLeast(l + m, t) == m && t in l + m && (l + m)[t] == m[t]
  {
    assert forall n :: n in l ==> n < t;
    assert forall n :: n in m ==> t <= n;
  }

  /** What demotion keeps of a pending list before it looks for a gap in front. */
  ghost function Executing(l: List, stateNonce: nat, balance: nat, maxGas: nat): List {
    StrictlyPayable(AtLeast(l, stateNonce), balance, maxGas)
  }

  ghost predicate Gapped(l: List, stateNonce: nat, balance: nat, maxGas: nat) {
    |Executing(l, stateNonce, balance, maxGas)| > 0 && stateNonce !in Executing(l, stateNonce, balance, maxGas)
  }

  /** What becomes of an account's two lists when it is demoted. */
  ghost function DemotedPending(l: List, stateNonce: nat, balance: nat, maxGas: nat): List {
    if Gapped(l, stateNonce, balance, maxGas) then map[] else Executing(l, stateNonce, balance, maxGas)
  }

  ghost function DemotedQueue(l: List, q: List, stateNonce: nat, balance: nat, maxGas: nat): List {
    q + Invalidated(AtLeast(l, stateNonce), balance, maxGas)
    + if Gapped(l, stateNonce, balance, maxGas) then Executing(l, stateNonce, balance, maxGas) else map[]
  }

  lemma DemotedNothing(q: List, stateNonce: nat, balance: nat, maxGas: nat)
    ensures DemotedPending(map[], stateNonce, balance, maxGas) == map[]
    ensures DemotedQueue(map[], q, stateNonce, balance, maxGas) == q
  {
    assert AtLeast(map[], stateNonce) == map[];
    assert Unpayable(map[], balance, maxGas) == map[];
    assert q + map[] == q;
  }

  /** Demotion leaves a run from the state nonce on; there is never a gap in front. */
  lemma DemotedAligned(l: List, stateNonce: nat, virtual: nat, balance: nat, maxGas: nat)
    requires Caught(l, stateNonce, virtual, balance, maxGas)
    ensures var kept := Executing(l, stateNonce, balance, maxGas);
      Aligned(kept, stateNonce, virtual) && (|kept| > 0 ==> stateNonce in kept)
    ensures Aligned(DemotedPending(l, stateNonce, balance, maxGas), stateNonce, virtual)
  {
    var top := AtLeast(l, stateNonce);
    StrictFilterLeavesPrefix(top, stateNonce, balance, maxGas);
    var kept := StrictlyPayable(top, balance, maxGas);
    if |kept| == 0 && stateNonce in l {
      assert stateNonce in top;
      assert |top| > 0;
    }
  }

  /** Taking the top off a run leaves a run. */
  lemma CappedAligned(l: List, stateNonce: nat, virtual: nat, virtual': nat)
    requires Aligned(l, stateNonce, virtual) && |l| > 1
    ensures Aligned(Capped(l, |l| - 1), stateNonce, virtual')
  {
    var n := Greatest(l.Keys);
    var k := |l| - 1;
    assert stateNonce + k in l && n == stateNonce + k;
    assert |l - {n}| == k;
    assert Capped(l, k) == l - {n};
  }

  /** A list cut from `l0` to `l` has lowered the virtual nonce from `v0` to `v`, the lowest of its
      own value and the nonces cut. */
  ghost predicate LoweredTo(l0: List, l: List, v0: nat, v: nat) {
    && (forall n :: n in l ==> n in l0)
    && (forall n :: n in l0 && n !in l ==> v <= n)
    && (v == v0 || (v < v0 && v in l0 && v !in l))
  }

  lemma LoweredMore(l0: List, l: List, v0: nat, v: nat, n: nat)
    requires LoweredTo(l0, l, v0, v) && n in l
    ensures LoweredTo(l0, l - {n}, v0, Min(v, n))
  {
  }

  lemma LoweredCut(l0: List, l: List, v0: nat, v: nat, n: nat)
    requires LoweredTo(l0, l, v0, v) && n in l
    ensures LoweredTo(l0, Below(l, n), v0, Min(v, n))
  {
  }

  /** The same for all accounts. */
  ghost predicate LoweredAll(p0: Accounts, v0: Address -> nat, p: Accounts, v: Address -> nat) {
    forall a :: LoweredTo(At(p0, a), At(p, a), v0(a), v(a))
  }

  /** Removing one more transaction lowers the nonce of its account if it was pending. */
  lemma LoweredOnce(p0: Accounts, v0: Address -> nat, p: Accounts, v: Address -> nat, tx: Tx,
                    p': Accounts, v': Address -> nat)
    requires LoweredAll(p0, v0, p, v)
    requires p' == if Has(p, tx) then With(p, tx.sender, Below(At(p, tx.sender), tx.nonce)) else p
    requires forall a :: v'(a) == if Has(p, tx) && a == tx.sender then Min(v(a), tx.nonce) else v(a)
    ensures LoweredAll(p0, v0, p', v')
  {
    hide LoweredTo, With, Below;
    WithAts(p, tx.sender, Below(At(p, tx.sender), tx.nonce));
    forall a ensures LoweredTo(At(p0, a), At(p', a), v0(a), v'(a)) {
      assert LoweredTo(At(p0, a), At(p, a), v0(a), v(a));
      if Has(p, tx) && a == tx.sender { LoweredCut(At(p0, a), At(p, a), v0(a), v(a), tx.nonce); }
    }
  }

  /** Taking the top off a list lowers the nonce of its account. */
  lemma LoweredTop(p0: Accounts, v0: Address -> nat, p: Accounts, v: Address -> nat, a: Address, n: nat,
                   v': Address -> nat)
    requires LoweredAll(p0, v0, p, v) && n in At(p, a)
    requires forall b :: v'(b) == if b == a then Min(v(a), n) else v(b)
    ensures LoweredAll(p0, v0, p[a := At(p, a) - {n}], v')
  {
    hide LoweredTo;
    var p' := p[a := At(p, a) - {n}];
    forall b ensures LoweredTo(At(p0, b), At(p', b), v0(b), v'(b)) {
      assert LoweredTo(At(p0, b), At(p, b), v0(b), v(b));
      if b == a { LoweredMore(At(p0, a), At(p, a), v0(a), v(a), n); }
    }
  }

  lemma LoweredSame(p0: Accounts, v0: Address -> nat, p: Accounts, v: Address -> nat, v': Address -> nat)
    requires LoweredAll(p0, v0, p, v) && forall a :: v'(a) == v(a)
    ensures LoweredAll(p0, v0, p, v')
  {
  }

  /** The lowest of a nonce and those of some transactions. */
  function LowestOf(virtual: nat, txs: seq<Tx>): nat {
    if txs == [] then virtual else Min(LowestOf(virtual, txs[..|txs| - 1]), txs[|txs| - 1].nonce)
  }

  /** The virtual nonce after the last pending one, if there is one. */
  function NextNonce(l: List, virtual: nat): nat {
    if |l| == 0 then virtual else Greatest(l.Keys) + 1
  }

  /** Setting the virtual nonce after the last pending one mends what may be off. */
  lemma RaisedInStep(l: List, stateNonce: nat, virtual: nat)
    requires Aligned(l, stateNonce, virtual)
    ensures InStep(l, stateNonce, NextNonce(l, virtual))
  {
    if |l| > 0 {
      assert stateNonce + |l| - 1 in l;
      assert Greatest(l.Keys) in l;
    }
  }

  /** How an account stands when a reorganisation comes to it: its lists, its virtual nonce, what the
      chain state says of it, the gas limit, whether it is local and how many queued transactions it
      may keep if it is not. */
  datatype Standing = Standing(
    pending: List, queue: List, virtual: nat, nonce: nat, balance: nat, maxGas: nat, local: bool, limit: nat)
  {
    /** What is left of the queue once old and, if filtering is on, unpayable ones are gone. */
    ghost function Eligible(filtering: bool): List {
      Executable(queue, nonce, filtering, balance, maxGas)
    }

    /** What promotion makes pending. */
    ghost function Ready(filtering: bool): seq<Tx> {
      ReadyRun(Eligible(filtering), virtual)
    }

    ghost predicate FirstIsPayable(filtering: bool) {
      FirstPayable(Ready(filtering), balance, maxGas)
    }

    /** The lists and the virtual nonce after promotion. */
    ghost function Promoted(promote: bool, filtering: bool): List {
      if promote then pending + Collected(Ready(filtering)) else pending
    }

    ghost function Waiting(promote: bool, filtering: bool): List {
      if promote then LeftQueued(Eligible(filtering), Ready(filtering), local, limit) else queue
    }

    ghost function Lifted(promote: bool, filtering: bool): nat {
      if promote then Raised(virtual, Ready(filtering)) else virtual
    }

    /** What promotion drops from the queue because it is too much for a remote account. */
    ghost function Overflow(filtering: bool): seq<Tx> {
      if local then [] else CapDrops(Without(Eligible(filtering), Ready(filtering)), limit)
    }

    /** The lists after promotion and demotion. */
    ghost function Kept(promote: bool, demote: bool, filtering: bool): List {
      var l := Promoted(promote, filtering);
      if demote then DemotedPending(l, nonce, balance, maxGas) else l
    }

    ghost function Postponed(promote: bool, demote: bool, filtering: bool): List {
      var l, q := Promoted(promote, filtering), Waiting(promote, filtering);
      if demote then DemotedQueue(l, q, nonce, balance, maxGas) else q
    }

    ghost predicate Proper() {
      Keyed(pending) && Keyed(queue) && forall n :: n in queue ==> n !in pending
    }
  }

  /** Whether or not it is promoted, an account with nothing queued stays as it is. */
  lemma NothingWaiting(s: Standing, demote: bool, filtering: bool)
    requires s.queue == map[]
    ensures s.Ready(filtering) == [] && s.Lifted(true, filtering) == s.Lifted(false, filtering)
    ensures s.Kept(true, demote, filtering) == s.Kept(false, demote, filtering)
    ensures s.Postponed(true, demote, filtering) == s.Postponed(false, demote, filtering)
  {
    hide DemotedPending, DemotedQueue;
    assert s.Eligible(filtering) == map[];
    assert Without(map[], []) == map[];
    assert s.pending + map[] == s.pending;
  }

  /** Without the filter on the queue, an account's nonces come out right after a reset exactly
      when nothing was ready for it or the first that was can be paid for. Otherwise it loses all
      that was pending, and its nonce stays raised. */
  lemma AlignedExactlyWhen(s: Standing, filtering: bool)
    requires Lagging(s.pending, s.nonce, s.virtual) && s.Proper()
    ensures Aligned(s.Kept(true, true, filtering), s.nonce, s.Lifted(true, filtering)) <==> s.FirstIsPayable(filtering)
    ensures !s.FirstIsPayable(filtering) ==>
      s.Kept(true, true, filtering) == map[] && s.nonce < s.Lifted(true, filtering)
  {
    hide Aligned, DemotedPending, ReadyRun, Collected, FirstPayable, Lagging, Caught;
    var q, ready := s.Eligible(filtering), s.Ready(filtering);
    if s.FirstIsPayable(filtering) {
      PromotedCaught(s.pending, q, s.nonce, s.virtual, s.balance, s.maxGas);
      DemotedAligned(s.pending + Collected(ready), s.nonce, Raised(s.virtual, ready), s.balance, s.maxGas);
    } else {
      FirstUnpayable(s.pending, q, s.nonce, s.virtual, s.balance, s.maxGas);
      NotAligned(s.nonce, s.Lifted(true, filtering));
    }
  }

  lemma NotAligned(stateNonce: nat, virtual: nat)
    requires stateNonce < virtual
    ensures !Aligned(map[], stateNonce, virtual)
  {
  }

  /** Promotion and demotion after a reset, for an account whose first ready transaction is not
      payable. */
  lemma FirstUnpayable(l: List, q: List, stateNonce: nat, virtual: nat, balance: nat, maxGas: nat)
    requires Lagging(l, stateNonce, virtual) && Keyed(q)
    requires forall n :: n in q ==> n !in l && stateNonce <= n
    requires !FirstPayable(ReadyRun(q, virtual), balance, maxGas)
    ensures var ready := ReadyRun(q, virtual);
      && DemotedPending(l + Collected(ready), stateNonce, balance, maxGas) == map[]
      && stateNonce < Raised(virtual, ready)
  {
    hide Collected, Affordable, Raised;
    var ready := ReadyRun(q, virtual);
    var s0: nat :| s0 <= stateNonce && Contiguous(l, s0);
    assert Least(q.Keys) == stateNonce && ready == Run(q, stateNonce);
    RunCollected(q, stateNonce);
    RunRaises(q, stateNonce, virtual);
    RunAt(q, stateNonce, 0);
    var top := Collected(ready);
    OnTop(l, s0, top, stateNonce);
    NothingExecutes(top, stateNonce, balance, maxGas);
  }

  lemma RunRaises(l: List, n: nat, virtual: nat)
    requires Keyed(l) && n in l
    ensures n < Raised(virtual, Run(l, n))
  {
    RunCollected(l, n);
  }

  lemma NothingExecutes(top: List, stateNonce: nat, balance: nat, maxGas: nat)
    requires Contiguous(top, stateNonce) && stateNonce in top && !Affordable(top[stateNonce], balance, maxGas)
    ensures StrictlyPayable(top, balance, maxGas) == map[]
  {
    assert stateNonce in Unpayable(top, balance, maxGas);
    StrictFilterLeavesPrefix(top, stateNonce, balance, maxGas);
    assert stateNonce !in StrictlyPayable(top, balance, maxGas);
  }

  lemma PromotedHolds(s: Standing, filtering: bool, tx: Tx)
    requires s.Proper()
    ensures tx in s.Ready(filtering) ==> Holds(s.Eligible(filtering), tx)
    ensures Holds(s.Promoted(true, filtering), tx) <==> Holds(s.pending, tx) || tx in s.Ready(filtering)
    ensures tx.nonce in s.Promoted(true, filtering) ==> tx.nonce !in s.Waiting(true, filtering)
    ensures Holds(s.Waiting(true, filtering), tx) <==>
      Holds(s.Eligible(filtering), tx) && tx !in s.Ready(filtering) && tx !in s.Overflow(filtering)
    ensures tx in s.Overflow(filtering) ==> Holds(s.Eligible(filtering), tx) && tx !in s.Ready(filtering)
  {
    hide Collected, ReadyRun, Capped, CapDrops;
    var q, ready := s.Eligible(filtering), s.Ready(filtering);
    ReadyDivides(q, s.virtual);
    CollectedHolds(ready, tx.nonce);
    var rest := Without(q, ready);
    CappedSplits(rest, s.limit, tx);
    CappedWithin(rest, s.limit);
    if tx.nonce in Collected(ready) { assert Holds(q, Collected(ready)[tx.nonce]); }
  }

  /** Demotion drops exactly what is older than the state or cannot be paid for. */
  lemma DemotedHolds(l: List, q: List, stateNonce: nat, balance: nat, maxGas: nat, tx: Tx)
    requires Keyed(l) && forall n :: n in l ==> n !in q
    ensures Holds(DemotedPending(l, stateNonce, balance, maxGas), tx)
      || Holds(DemotedQueue(l, q, stateNonce, balance, maxGas), tx)
      <==> Holds(q, tx) || (Holds(l, tx) && stateNonce <= tx.nonce && Affordable(tx, balance, maxGas))
  {
    var top := AtLeast(l, stateNonce);
    var out, after := Unpayable(top, balance, maxGas), Invalidated(top, balance, maxGas);
    StrictDivides(top, balance, maxGas);
    TxsHolds(out, tx);
    TxsHolds(after, tx);
  }

  /** What a run after a reset keeps of an account before anything is truncated: all that it had at
      or above its state nonce and can pay for, and without the filter also what was not ready,
      except what is too much in the queue of a remote account. */
  lemma SurvivesExactlyWhen(s: Standing, filtering: bool, tx: Tx)
    requires s.Proper()
    ensures Holds(s.Kept(true, true, filtering), tx) || Holds(s.Postponed(true, true, filtering), tx) <==>
      && (Holds(s.pending, tx) || Holds(s.queue, tx))
      && s.nonce <= tx.nonce && tx !in s.Overflow(filtering)
      && ((tx.cost <= s.balance && tx.gas <= s.maxGas)
          || (!filtering && Holds(s.queue, tx) && tx !in s.Ready(filtering)))
  {
    hide Collected, ReadyRun, LeftQueued, CapDrops, DemotedPending, DemotedQueue;
    PromotedHolds(s, filtering, tx);
    var l, q := s.Promoted(true, filtering), s.Waiting(true, filtering);
    forall n: nat | n in l ensures l[n].nonce == n && n !in q {
      PromotedAt(s, filtering, n);
    }
    DemotedHolds(l, q, s.nonce, s.balance, s.maxGas, tx);
  }

  /** What promotion looks at: nothing old, and with the filter on nothing that cannot be paid for. */
  lemma EligibleExactly(s: Standing, filtering: bool, tx: Tx)
    ensures Holds(s.Eligible(filtering), tx) <==>
      && Holds(s.queue, tx) && s.nonce <= tx.nonce
      && (filtering ==> tx.cost <= s.balance && tx.gas <= s.maxGas)
  {
  }

  /** What is pending after a demotion is not old and can be paid for. */
  lemma KeptPays(s: Standing, promote: bool, filtering: bool, tx: Tx)
    requires Holds(s.Kept(promote, true, filtering), tx)
    ensures s.nonce <= tx.nonce && tx.cost <= s.balance && tx.gas <= s.maxGas
  {
    hide Standing.Promoted;
    var l := s.Promoted(promote, filtering);
    ExecutingPays(l, s.nonce, s.balance, s.maxGas, tx);
  }

  lemma FrontKept(s: Standing, promote: bool, filtering: bool)
    requires s.Kept(promote, true, filtering) != map[]
    ensures s.nonce in s.Kept(promote, true, filtering)
  {
    hide Standing.Promoted, Executing;
  }

  lemma ExecutingPays(l: List, stateNonce: nat, balance: nat, maxGas: nat, tx: Tx)
    requires Holds(Executing(l, stateNonce, balance, maxGas), tx)
    ensures stateNonce <= tx.nonce && tx.cost <= balance && tx.gas <= maxGas && Holds(l, tx)
  {
    assert tx.nonce !in Unpayable(AtLeast(l, stateNonce), balance, maxGas);
  }

  /** What is queued after promotion is not old, and with the filter on it can be paid for, postponed
      transactions included. */
  lemma PostponedPays(s: Standing, demote: bool, filtering: bool, tx: Tx)
    requires s.Proper() && Holds(s.Postponed(true, demote, filtering), tx)
    ensures s.nonce <= tx.nonce && (filtering ==> tx.cost <= s.balance && tx.gas <= s.maxGas)
  {
    hide Standing.Eligible, Standing.Promoted, Standing.Waiting, Executing;
    var l, q := s.Promoted(true, filtering), s.Waiting(true, filtering);
    PromotedHolds(s, filtering, tx);
    EligibleExactly(s, filtering, tx);
    if Holds(Executing(l, s.nonce, s.balance, s.maxGas), tx) { ExecutingPays(l, s.nonce, s.balance, s.maxGas, tx); }
  }

  lemma PromotedAt(s: Standing, filtering: bool, n: nat)
    requires s.Proper() && n in s.Promoted(true, filtering)
    ensures s.Promoted(true, filtering)[n].nonce == n && n !in s.Waiting(true, filtering)
  {
    hide ReadyRun, LeftQueued;
    CollectedHolds(s.Ready(filtering), n);
    PromotedHolds(s, filtering, s.Promoted(true, filtering)[n]);
  }
}
