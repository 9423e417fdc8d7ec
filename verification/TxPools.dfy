/** `TxPool`: pending and queued transactions by account, the lookup of all of them, the price
    heap and the virtual nonces, kept in agreement by every operation. */
module TxPools {
  import opened Types
  import opened Lists
  import opened Accounts
  import opened Alignment
  import opened Truncation
  import opened Chains
  import opened Reinjection
  import opened Lookup
  import opened Noncer
  import opened Priced
  import Heaps

  datatype UserConfig = UserConfig(
    priceLimit: nat, priceBump: nat, accountSlots: nat, globalSlots: nat, accountQueue: nat, globalQueue: nat)

  const DEFAULTS := UserConfig(1, 10, 16, 4096, 64, 1024)

  /** A configuration without zero limits. */
  type Config = c: UserConfig |
      && c.priceLimit > 0 && c.priceBump > 0 && c.accountSlots > 0 && c.globalSlots > 0
      && c.accountQueue > 0 && c.globalQueue > 0
    witness DEFAULTS

  function Sanitize(c: UserConfig): Config {
    UserConfig(
      if c.priceLimit < 1 then DEFAULTS.priceLimit else c.priceLimit,
      if c.priceBump < 1 then DEFAULTS.priceBump else c.priceBump,
      if c.accountSlots < 1 then DEFAULTS.accountSlots else c.accountSlots,
      if c.globalSlots < 1 then DEFAULTS.globalSlots else c.globalSlots,
      if c.accountQueue < 1 then DEFAULTS.accountQueue else c.accountQueue,
      if c.globalQueue < 1 then DEFAULTS.globalQueue else c.globalQueue)
  }

  /** A zero stands for the default; any other limit is taken as it is. */
  lemma SanitizedIs(c: UserConfig)
    ensures var d := Sanitize(c);
      && d.priceLimit == (if c.priceLimit == 0 then 1 else c.priceLimit)
      && d.priceBump == (if c.priceBump == 0 then 10 else c.priceBump)
      && d.accountSlots == (if c.accountSlots == 0 then 16 else c.accountSlots)
      && d.globalSlots == (if c.globalSlots == 0 then 4096 else c.globalSlots)
      && d.accountQueue == (if c.accountQueue == 0 then 64 else c.accountQueue)
      && d.globalQueue == (if c.globalQueue == 0 then 1024 else c.globalQueue)
  {
  }

  /** One of the transactions taken off the heap leaves the lookup. */
  lemma PoppedLess(was: set<Tx>, drop: seq<Tx>, i: nat, now: set<Tx>, heap: seq<Tx>, stales: int)
    requires i < |drop| && now == was - {drop[i]}
    requires Covered(was, drop[i..], heap) && |heap| + |drop[i..]| - |was| <= stales
    ensures Covered(now, drop[i + 1..], heap) && |heap| + |drop[i + 1..]| - |now| <= stales
  {
    assert drop[i..] == [drop[i]] + drop[i + 1..];
    SubsetSize(was, now + {drop[i]});
  }

  /** Lookup sets now and before `gone` was taken out. */
  ghost predicate Minus(locals: set<Tx>, remotes: set<Tx>, gone: set<Tx>, locals': set<Tx>, remotes': set<Tx>) {
    locals' == locals - gone && remotes' == remotes - gone
  }

  lemma MinusOne(locals: set<Tx>, remotes: set<Tx>, drop: seq<Tx>, i: nat,
                 locals': set<Tx>, remotes': set<Tx>, locals'': set<Tx>, remotes'': set<Tx>)
    requires i < |drop| && Minus(locals, remotes, Elements(drop[..i]), locals', remotes')
    requires locals'' == locals' - {drop[i]} && remotes'' == remotes' - {drop[i]}
    ensures Minus(locals, remotes, Elements(drop[..i + 1]), locals'', remotes'')
  {
    OneMore(drop, i);
  }

  lemma MinusNone(locals: set<Tx>, remotes: set<Tx>, drop: seq<Tx>)
    ensures drop[0..] == drop && Minus(locals, remotes, Elements(drop[..0]), locals, remotes)
    ensures Elements(drop[..0]) == {}
  {
  }

  lemma CutTransit(all: set<Tx>, tx: Tx, gone: set<Tx>, after: set<Tx>, txs: seq<Tx>)
    requires tx !in all && tx !in after && gone == Elements(txs) && forall t :: t in txs <==> t in after
    requires {tx} + after <= all + {tx}
    ensures gone == after && gone <= all && gone - gone == {} && all + {tx} - {tx} - after == all - gone
  {
  }

  lemma BackAgain(all: set<Tx>, tx: Tx)
    requires tx !in all
    ensures all + {tx} - {tx} == all - {}
  {
  }

  lemma PutCovers(live: set<Tx>, heap: seq<Tx>, tx: Tx, local: bool, live': set<Tx>, heap': seq<Tx>)
    requires Covered(live, [], heap) && tx !in live && live' == live + if local then {} else {tx}
    requires multiset(heap') == multiset(heap) + if local then multiset{} else multiset{tx}
    ensures Covered(live', [], heap') && |heap'| - |live'| == |heap| - |live|
  {
    assert |multiset(heap')| == |heap'| && |multiset(heap)| == |heap|;
    forall t | t in live' ensures t in heap' {
      assert t in multiset(heap') <==> t in heap';
      if t in live { assert t in multiset(heap); }
    }
  }

  lemma ShedPartition(p: Accounts, q: Accounts, locals: set<Tx>, remotes: set<Tx>, a: Address, kept: List,
                      gone: set<Tx>, txs: seq<Tx>)
    requires Partition(p, q, locals + remotes) && a in p && Divided(p[a], kept, gone) && gone == Elements(txs)
    ensures Partition(p[a := kept], q, (locals - gone) + (remotes - gone))
    ensures forall tx :: tx in txs ==> tx in locals + remotes
  {
    TakenOff(p, q, locals + remotes, a, kept, gone);
    assert locals + remotes - gone == (locals - gone) + (remotes - gone);
  }

  lemma PromoteNone(p: Accounts, a: Address, txs: seq<Tx>)
    ensures p == Merged(p, a, Collected(txs[..0])) && Elements(txs[..0]) == {}
  {
  }

  lemma NotSuperseding(m: Accounts, tx: Tx)
    requires tx.nonce !in At(m, tx.sender)
    ensures Superseded(m, tx) == {}
  {
  }

  lemma BelowDistinct(l: List, t: nat)
    requires Keyed(l)
    ensures Distinct(Ascending(Below(l, t))) && Elements(Ascending(Below(l, t))) == Txs(Below(l, t))
  {
    AscendingDistinct(Below(l, t));
  }

  lemma UnpayableDistinct(l: List, costLimit: nat, gasLimit: nat)
    requires Keyed(l)
    ensures var s := Ascending(Unpayable(l, costLimit, gasLimit));
      Distinct(s) && Elements(s) == Txs(Unpayable(l, costLimit, gasLimit))
  {
    AscendingDistinct(Unpayable(l, costLimit, gasLimit));
  }

  lemma CapsDistinct(l: List, k: nat)
    requires Keyed(l)
    ensures Distinct(CapDrops(l, k)) && Elements(CapDrops(l, k)) == set tx | tx in CapDrops(l, k)
  {
    forall i, j | 0 <= i < j < |CapDrops(l, k)| ensures CapDrops(l, k)[i] != CapDrops(l, k)[j] {
      CapDropsDistinct(l, k, i, j);
    }
  }

  function AddressesOf(s: seq<Address>): set<Address> {
    set a | a in s
  }

  lemma ListStep(accounts: seq<Address>, i: nat)
    requires i < |accounts| && Distinct(accounts)
    ensures accounts[i] in AddressesOf(accounts[i..]) && accounts[i] !in accounts[..i]
    ensures forall a :: a in accounts[..i + 1] <==> a in accounts[..i] || a == accounts[i]
    ensures forall a :: a in accounts[i..] <==> a == accounts[i] || a in accounts[i + 1..]
    ensures accounts[i] !in accounts[i + 1..] && accounts[i] !in AddressesOf(accounts[..i])
    ensures AddressesOf(accounts[..i + 1]) == AddressesOf(accounts[..i]) + {accounts[i]}
    ensures AddressesOf(accounts[i + 1..]) == AddressesOf(accounts[i..]) - {accounts[i]}
  {
    assert accounts[..i + 1] == accounts[..i] + [accounts[i]];
    assert accounts[i..] == [accounts[i]] + accounts[i + 1..];
  }

  lemma AddressesOfList(s: seq<Address>, keys: set<Address>)
    requires forall a :: a in s <==> a in keys
    ensures AddressesOf(s) == keys
  {
  }

  lemma NoAddresses()
    ensures AddressesOf([]) == {}
  {
  }

  /** Goes over a map's keys in some order. */
  method ListKeys(keys: set<Address>) returns (s: seq<Address>)
    ensures Distinct(s)
    ensures forall a :: a in s <==> a in keys
  {
    s := [];
    var todo := keys;
    while todo != {}
      invariant todo <= keys
      invariant Distinct(s)
      invariant forall a :: a in s <==> a in keys && a !in todo
      decreases |todo|
    {
      var a :| a in todo;
      todo := todo - {a};
      s := s + [a];
    }
  }

  lemma OnlyRemotes(locals: set<Tx>, remotes: set<Tx>, drop: seq<Tx>, locals': set<Tx>, remotes': set<Tx>)
    requires locals !! remotes && forall tx :: tx in drop ==> tx in remotes
    requires Minus(locals, remotes, Elements(drop), locals', remotes')
    ensures locals' == locals && remotes' == remotes - Elements(drop)
  {
  }

  lemma DistinctNonces(txs: seq<Tx>, i: nat)
    requires i < |txs| && forall i, j :: 0 <= i < j < |txs| ==> txs[i].nonce != txs[j].nonce
    ensures txs[i] in Elements(txs) - Elements(txs[..i])
  {
  }

  lemma OwedMore(was: set<Tx>, now: set<Tx>, txs: seq<Tx>)
    requires now == was - Elements(txs)
    ensures |was| <= |now| + |txs|
  {
    ElementsAtMost(txs);
    SubsetSize(was, now + Elements(txs));
  }

  lemma AllAfter(locals: set<Tx>, remotes: set<Tx>, gone: set<Tx>, tx: Tx, add: bool, local: bool,
                 locals': set<Tx>, remotes': set<Tx>)
    requires tx !in gone && (!add ==> tx in locals + remotes)
    requires locals' == locals - gone + if add && local then {tx} else {}
    requires remotes' == remotes - gone + if add && !local then {tx} else {}
    ensures locals' + remotes' == locals + remotes - gone + {tx}
  {
  }

  /** The loops that remove what a list operation returned. */
  method RemoveEach(all: TxLookup, txs: seq<Tx>)
    requires all.Valid() && Distinct(txs) && forall tx :: tx in txs ==> tx in all.All()
    modifies all
    ensures all.Valid() && all.misses == old(all.misses)
    ensures all.locals == old(all.locals) - Elements(txs) && all.remotes == old(all.remotes) - Elements(txs)
  {
    for i := 0 to |txs|
      invariant all.Valid() && all.misses == old(all.misses)
      invariant all.locals == old(all.locals) - Elements(txs[..i])
      invariant all.remotes == old(all.remotes) - Elements(txs[..i])
    {
      OneMore(txs, i);
      assert txs[i] in old(all.All()) - Elements(txs[..i]);
      all.Remove(txs[i]);
    }
    assert txs[..|txs|] == txs;
  }

  /** Why a transaction is turned away. */
  datatype Error =
    | AlreadyKnown | Underpriced | ReplaceUnderpriced | PoolOverflow | GasLimit | InvalidSender
    | NonceTooLow | InsufficientFunds | IntrinsicGas | Malformed | NotPermitted

  datatype Outcome = Accepted(replaced: bool) | Rejected(error: Error)

  /** The outcome of the checks that look at more than the pool knows: type, size and value;
      signature; Quorum's price, privacy and permission rules; intrinsic gas. */
  datatype Checks = Checks(wellFormed: bool, signed: bool, permitted: bool, gasSuffices: bool)

  /** Discarding `gone` to free `need` slots is fair: nothing cheaper stays, and not all of it could
      have been spared. */
  ghost predicate Fair(remotes: set<Tx>, gone: set<Tx>, need: int) {
    && gone <= remotes
    && (forall t, d :: t in remotes - gone && d in gone ==> !PriceLess(t, d))
    && (gone != {} ==> exists d :: d in gone && SlotSum(gone - {d}) < need)
  }

  lemma FairDrop(remotes: set<Tx>, drop: seq<Tx>, need: int)
    requires forall tx :: tx in drop ==> tx in remotes
    requires forall tx, t :: tx in drop && t in remotes && t !in drop ==> !PriceLess(t, tx)
    requires drop != [] ==> SlotsOf(drop[..|drop| - 1]) < need
    ensures Fair(remotes, Elements(drop), need)
  {
    hide PriceLess, SlotSum, SlotsOf;
    if drop != [] {
      var k := |drop| - 1;
      OneMore(drop, k);
      assert drop[..k + 1] == drop;
      SlotsAtLeast(drop[..k]);
      SlotSumSubset(Elements(drop) - {drop[k]}, Elements(drop[..k]));
      assert drop[k] in Elements(drop);
    }
  }

  lemma NoElements(drop: seq<Tx>)
    ensures Elements(drop) == {} ==> drop == []
  {
    if drop != [] { assert drop[0] in Elements(drop); }
  }

  lemma FairIs(remotes: set<Tx>, gone: set<Tx>, need: int)
    requires Fair(remotes, gone, need)
    ensures gone <= remotes
  {
  }

  /** Without duplicates on the heap, taking `drop` out of the lookup frees its slots. */
  lemma Evicted(locals: set<Tx>, remotes: set<Tx>, heap: seq<Tx>, drop: seq<Tx>)
    requires locals !! remotes && (forall tx :: tx in drop ==> tx in remotes) && multiset(drop) <= multiset(heap)
    ensures NoDuplicates(remotes, heap) ==>
      && SlotSum(locals + (remotes - Elements(drop))) == SlotSum(locals + remotes) - SlotsOf(drop)
      && SlotSum(Elements(drop)) == SlotsOf(drop)
  {
    if NoDuplicates(remotes, heap) {
      DistinctDrop(remotes, heap, drop);
      SlotsFreed(locals + remotes, drop);
      SlotsFreed(Elements(drop), drop);
      assert Elements(drop) - Elements(drop) == {};
      assert locals + remotes - Elements(drop) == locals + (remotes - Elements(drop));
    }
  }

  /** No virtual nonce has been raised, and with room none has been lowered. */
  ghost predicate NoHigher(v0: Address -> nat, v: Address -> nat, roomy: bool) {
    (forall a :: v(a) <= v0(a)) && (roomy ==> forall a :: v(a) == v0(a))
  }

  lemma NoHigherYet(v0: Address -> nat, v1: Address -> nat, v2: Address -> nat, roomy: bool)
    ensures NoHigher(v0, v0, roomy)
    ensures NoHigher(v0, v1, roomy) && NoHigher(v1, v2, roomy) ==> NoHigher(v0, v2, roomy)
  {
  }

  lemma LoweredDown(p0: Accounts, v0: Address -> nat, p: Accounts, v: Address -> nat, roomy: bool)
    requires LoweredAll(p0, v0, p, v) && (roomy ==> p == p0)
    ensures NoHigher(v0, v, roomy)
  {
    forall a ensures v(a) <= v0(a) && (roomy ==> v(a) == v0(a)) {
      assert LoweredTo(At(p0, a), At(p, a), v0(a), v(a));
    }
  }

  /** The transactions that `tx` competes with for its account nonce. */
  ghost function Rivals(all: set<Tx>, tx: Tx): set<Tx> {
    set t | t in all && t.sender == tx.sender && t.nonce == tx.nonce
  }

  /** What comes of that. */
  ghost function Contest(rivals: set<Tx>, tx: Tx, priceBump: nat): Outcome {
    if forall t :: t in rivals ==> Replaces(t, tx, priceBump) then Accepted(rivals != {})
    else Rejected(ReplaceUnderpriced)
  }

  /** What the pool holds, on values; `room` is how many slots discarding everything would free. */
  datatype Holdings = Holdings(
    pending: Accounts, queue: Accounts, nonces: Address -> nat, locals: set<Tx>, remotes: set<Tx>,
    accounts: set<Address>, room: nat)
  {
    function All(): set<Tx> {
      locals + remotes
    }
  }

  /** What an addition is judged by. */
  datatype Rules = Rules(
    config: UserConfig, gasPrice: nat, state: ChainState, maxGas: nat, gasPriceActive: bool)

  /** The first reason why a transaction is not valid. */
  function Invalid(rules: Rules, accounts: set<Address>, tx: Tx, local: bool, checks: Checks): Option<Error> {
    if !checks.wellFormed then Some(Malformed)
    else if rules.maxGas < tx.gas then Some(GasLimit)
    else if !checks.signed then Some(InvalidSender)
    else if !checks.permitted then Some(NotPermitted)
    else if rules.gasPriceActive && !local && tx.sender !in accounts && tx.price < rules.gasPrice then
      Some(Error.Underpriced)
    else if rules.state.Nonce(tx.sender) > tx.nonce then Some(NonceTooLow)
    else if rules.state.Balance(tx.sender) < tx.cost then Some(InsufficientFunds)
    else if !checks.gasSuffices then Some(IntrinsicGas)
    else None
  }

  /** With the new transaction the pool would not be within its limits. */
  ghost predicate Crowded(c: UserConfig, all: set<Tx>, tx: Tx) {
    |all| + NumSlots(tx) > c.globalSlots + c.globalQueue
  }

  /** How many slots the pool would then have too many. */
  ghost function Surplus(c: UserConfig, all: set<Tx>, tx: Tx): int {
    SlotSum(all) - (c.globalSlots + c.globalQueue) + NumSlots(tx)
  }

  /** Why there is no room for a transaction: the pool is full, and it is no better than any
      remote one, or all of those together do not take up as much as it needs. */
  ghost function NoRoomFor(rules: Rules, h: Holdings, tx: Tx, isLocal: bool): Option<Error> {
    if isLocal || !Crowded(rules.config, h.All(), tx) then None
    else if rules.gasPriceActive && h.remotes != {} && forall t :: t in h.remotes ==> tx.price <= t.price then
      Some(Error.Underpriced)
    else if h.room < Surplus(rules.config, h.All(), tx) then Some(PoolOverflow)
    else None
  }

  /** Why a transaction is turned away before anything is touched. */
  ghost function RefusalOf(rules: Rules, h: Holdings, tx: Tx, local: bool, checks: Checks): Option<Error> {
    var isLocal := local || tx.sender in h.accounts;
    var invalid := Invalid(rules, h.accounts, tx, isLocal, checks);
    if tx in h.All() then Some(AlreadyKnown)
    else if invalid.Some? then invalid
    else NoRoomFor(rules, h, tx, isLocal)
  }

  /** `tx` has taken its account nonce in the lists `p` and `q`: it is pending if the nonce was,
      and queued otherwise. */
  ghost predicate Placed(p: Accounts, q: Accounts, tx: Tx, p': Accounts, q': Accounts) {
    if tx.nonce in At(p, tx.sender) then p' == Inserted(p, tx) && q' == q
    else p' == p && q' == Inserted(q, tx)
  }

  lemma PlacedIs(p: Accounts, q: Accounts, tx: Tx, p': Accounts, q': Accounts)
    ensures Placed(p, q, tx, p', q') ==
      if tx.nonce in At(p, tx.sender) then p' == Inserted(p, tx) && q' == q
      else p' == p && q' == Inserted(q, tx)
  {
  }

  /** Discarding the remote transactions in `gone` has thinned out what the pool holds: pending lists
      are cut and their nonces lowered accordingly. */
  ghost predicate Thinned(was: Holdings, now: Holdings, gone: set<Tx>) {
    && now.locals == was.locals && now.remotes == was.remotes - gone && now.accounts == was.accounts
    && CutBy(was.pending, now.pending, gone)
    && LoweredAll(was.pending, was.nonces, now.pending, now.nonces)
    && (gone == {} ==> now.pending == was.pending && now.queue == was.queue)
  }

  lemma IsThinned(was: Holdings, now: Holdings, gone: set<Tx>)
    requires now.locals == was.locals && now.remotes == was.remotes - gone && now.accounts == was.accounts
    requires CutBy(was.pending, now.pending, gone)
    requires LoweredAll(was.pending, was.nonces, now.pending, now.nonces)
    requires gone == {} ==> now.pending == was.pending && now.queue == was.queue
    ensures Thinned(was, now, gone)
  {
  }

  /** The same, but for virtual nonces that are those of the state. */
  ghost predicate Renewed(was: Holdings, state: ChainState, now: Holdings) {
    && now.pending == was.pending && now.queue == was.queue && now.locals == was.locals && now.remotes == was.remotes
    && now.accounts == was.accounts && now.room == was.room && forall a :: now.nonces(a) == state.Nonce(a)
  }

  lemma SameContents(was: Holdings, now: Holdings)
    requires now == was.(room := now.room)
    ensures Thinned(was, now, {})
  {
    CutByNone(was.pending);
  }

  lemma NotThinned(was: Holdings)
    ensures Thinned(was, was, {})
  {
    CutByNone(was.pending);
  }

  lemma ThinnedAll(was: Holdings, now: Holdings, gone: set<Tx>)
    requires Thinned(was, now, gone) && gone <= was.remotes && was.locals !! was.remotes
    ensures now.All() == was.All() - gone && now.accounts == was.accounts && now.locals == was.locals
    ensures now.remotes == was.remotes - gone
    ensures LoweredAll(was.pending, was.nonces, now.pending, now.nonces)
    ensures gone == {} ==> now.pending == was.pending && now.queue == was.queue
  {
    hide CutBy, LoweredAll;
  }

  /** `tx` was turned away or took the place of its rivals. Its account becomes local if it is added
      as local, unless it replaces a pending transaction. */
  ghost predicate Entered(was: Holdings, now: Holdings, tx: Tx, local: bool, accepted: bool) {
    && now.nonces == was.nonces
    && (!accepted ==> now.pending == was.pending && now.queue == was.queue && now.All() == was.All())
    && (accepted ==>
          && Placed(was.pending, was.queue, tx, now.pending, now.queue)
          && now.All() == was.All() - Rivals(was.All(), tx) + {tx}
          && (tx in now.locals <==> local || tx.sender in was.accounts))
    && (forall t :: t in was.locals - now.locals ==> accepted && t in Rivals(was.All(), tx))
    && (forall t :: t in now.locals - was.locals ==> accepted && (t == tx || (local && t.sender == tx.sender)))
    && now.accounts ==
       was.accounts + if accepted && local && tx.nonce !in At(was.pending, tx.sender) then {tx.sender} else {}
  }

  /** The handling of `tx`, exactly: when it is not turned away at once, `gone` is discarded to make
      room, which leaves `mid`, and there `tx` meets its rivals. */
  ghost predicate Handled(rules: Rules, was: Holdings, tx: Tx, local: bool, checks: Checks, stage: Stage) {
    && (var refusal := RefusalOf(rules, was, tx, local, checks);
        && (refusal.Some? ==> stage.outcome == Rejected(refusal.value) && stage.gone == {})
        && (refusal.None? ==> stage.outcome == Contest(Rivals(stage.mid.All(), tx), tx, rules.config.priceBump)))
    && Thinned(was, stage.mid, stage.gone) && Fair(was.remotes, stage.gone, Surplus(rules.config, was.All(), tx))
    && Partition(stage.mid.pending, stage.mid.queue, stage.mid.All())
    && (!Crowded(rules.config, was.All(), tx) ==> stage.gone == {})
    && Entered(stage.mid, stage.now, tx, local, stage.outcome.Accepted?)
  }

  lemma IsHandled(rules: Rules, was: Holdings, tx: Tx, local: bool, checks: Checks, stage: Stage)
    requires RefusalOf(rules, was, tx, local, checks).Some? ==>
      stage.outcome == Rejected(RefusalOf(rules, was, tx, local, checks).value) && stage.gone == {}
    requires RefusalOf(rules, was, tx, local, checks).None? ==>
      stage.outcome == Contest(Rivals(stage.mid.All(), tx), tx, rules.config.priceBump)
    requires Thinned(was, stage.mid, stage.gone) && Fair(was.remotes, stage.gone, Surplus(rules.config, was.All(), tx))
    requires Partition(stage.mid.pending, stage.mid.queue, stage.mid.All())
    requires !Crowded(rules.config, was.All(), tx) ==> stage.gone == {}
    requires Entered(stage.mid, stage.now, tx, local, stage.outcome.Accepted?)
    ensures Handled(rules, was, tx, local, checks, stage)
  {
    hide RefusalOf, Contest, Thinned, Fair, Partition, Crowded, Entered, Surplus;
  }

  lemma HandledIs(rules: Rules, was: Holdings, tx: Tx, local: bool, checks: Checks, stage: Stage)
    requires Handled(rules, was, tx, local, checks, stage)
    ensures Thinned(was, stage.mid, stage.gone) && Fair(was.remotes, stage.gone, Surplus(rules.config, was.All(), tx))
    ensures !Crowded(rules.config, was.All(), tx) ==> stage.gone == {}
    ensures Entered(stage.mid, stage.now, tx, local, stage.outcome.Accepted?)
    ensures stage.outcome.Accepted? ==>
      stage.outcome == Contest(Rivals(stage.mid.All(), tx), tx, rules.config.priceBump)
  {
    hide RefusalOf, Thinned, Fair, Partition, Crowded, Entered, Surplus;
  }

  /** A transaction is refused at once for a reason that applies, the first that does, and for every
      reason there is. */
  lemma RefusedFor(rules: Rules, was: Holdings, tx: Tx, local: bool, checks: Checks)
    ensures
      var isLocal, gasPriceActive := local || tx.sender in was.accounts, rules.gasPriceActive;
      var limit := rules.config.globalSlots + rules.config.globalQueue;
      var full, excess := |was.All()| + NumSlots(tx) > limit, SlotSum(was.All()) + NumSlots(tx) - limit;
      var nonce, balance := rules.state.Nonce(tx.sender), rules.state.Balance(tx.sender);
      match RefusalOf(rules, was, tx, local, checks)
      case None =>
        && tx !in was.All() && checks.wellFormed && checks.signed && checks.permitted && checks.gasSuffices
        && tx.gas <= rules.maxGas && nonce <= tx.nonce && tx.cost <= balance
        && (gasPriceActive && !isLocal ==> rules.gasPrice <= tx.price)
      case Some(error) =>
        && !error.ReplaceUnderpriced?
        && (error.AlreadyKnown? <==> tx in was.All())
        && (!error.AlreadyKnown? ==> (error.Malformed? <==> !checks.wellFormed))
        && (!error.AlreadyKnown? && !error.Malformed? ==> (error.GasLimit? <==> rules.maxGas < tx.gas))
        && (error.InvalidSender? ==> !checks.signed)
        && (error.NotPermitted? ==> !checks.permitted && checks.signed)
        && (error.Underpriced? ==>
              && gasPriceActive && !isLocal && checks.permitted
              && (tx.price < rules.gasPrice
                  || (full && was.remotes != {} && forall t :: t in was.remotes ==> tx.price <= t.price)))
        && (error.NonceTooLow? ==> tx.nonce < nonce && checks.permitted)
        && (error.InsufficientFunds? ==> balance < tx.cost && nonce <= tx.nonce)
        && (error.IntrinsicGas? ==> !checks.gasSuffices && tx.cost <= balance)
        && (error.PoolOverflow? ==> full && !isLocal && was.room < excess && checks.gasSuffices)
  {
    hide SlotSum, NumSlots;
  }

  lemma ReplacesIs(was: Tx, tx: Tx, priceBump: nat)
    ensures Replaces(was, tx, priceBump) <==>
      was.price < tx.price && (100 + priceBump) * was.price < 100 * (tx.price + 1)
  {
  }

  /** A contest is won by a price that is higher than every rival's and reaches the bump. */
  lemma ContestIs(rivals: set<Tx>, tx: Tx, priceBump: nat)
    ensures match Contest(rivals, tx, priceBump)
      case Accepted(replaced) =>
        && (replaced <==> rivals != {})
        && forall t :: t in rivals ==> t.price < tx.price && (100 + priceBump) * t.price < 100 * (tx.price + 1)
      case Rejected(error) =>
        && error.ReplaceUnderpriced?
        && exists t :: t in rivals && (tx.price <= t.price || 100 * (tx.price + 1) <= (100 + priceBump) * t.price)
  {
    hide Replaces;
    forall t ensures Replaces(t, tx, priceBump) <==>
      t.price < tx.price && (100 + priceBump) * t.price < 100 * (tx.price + 1)
    {
      ReplacesIs(t, tx, priceBump);
    }
  }

  /** What an addition does to what is held: the cheapest remote transactions go, and among those as cheap
      the ones with higher nonces; an accepted transaction takes the place of its rivals, local if it is
      added as such or its account is; and an account becomes local unless its transaction replaced a
      pending one. */
  lemma HandledEffects(rules: Rules, was: Holdings, tx: Tx, local: bool, checks: Checks, stage: Stage)
    requires Handled(rules, was, tx, local, checks, stage) && was.locals !! was.remotes
    requires Partition(stage.now.pending, stage.now.queue, stage.now.All())
    ensures
      var rivals := Rivals(was.All(), tx) - stage.gone;
      var accepted, replacing := stage.outcome.Accepted?, tx.nonce in At(stage.mid.pending, tx.sender);
      && stage.gone <= was.remotes && (!Crowded(rules.config, was.All(), tx) ==> stage.gone == {})
      && (forall t, d :: t in was.remotes - stage.gone && d in stage.gone ==>
            d.price < t.price || (d.price == t.price && d.nonce >= t.nonce))
      && stage.now.All() ==
         was.All() - stage.gone - (if accepted then rivals else {}) + (if accepted then {tx} else {})
      && (accepted ==>
            && Has(if replacing then stage.now.pending else stage.now.queue, tx)
            && (tx in stage.now.locals <==> local || tx.sender in was.accounts))
      && stage.now.accounts == was.accounts + (if accepted && local && !replacing then {tx.sender} else {})
  {
    hide RefusalOf, CutBy, LoweredAll, Partition, Contest, Crowded, Surplus, SlotSum;
    ThinnedAll(was, stage.mid, stage.gone);
    var rivals := Rivals(was.All(), tx) - stage.gone;
    assert Rivals(stage.mid.All(), tx) == rivals;
  }

  /** With whom a transaction competes once there is room, and how that ends. */
  lemma HandledContest(rules: Rules, was: Holdings, tx: Tx, local: bool, checks: Checks, stage: Stage)
    requires Handled(rules, was, tx, local, checks, stage) && was.locals !! was.remotes
    ensures var refusal := RefusalOf(rules, was, tx, local, checks);
      var rivals := Rivals(was.All(), tx) - stage.gone;
      stage.outcome == if refusal.Some? then Rejected(refusal.value) else Contest(rivals, tx, rules.config.priceBump)
  {
    hide RefusalOf, CutBy, LoweredAll, Partition, Entered, Contest, Crowded, Surplus;
    ThinnedAll(was, stage.mid, stage.gone);
    var rivals := Rivals(was.All(), tx) - stage.gone;
    assert Rivals(stage.mid.All(), tx) == rivals;
  }

  /** One transaction of a batch: what was discarded for it, what that left, and how it ended. */
  datatype Stage = Stage(gone: set<Tx>, mid: Holdings, now: Holdings, outcome: Outcome)

  ghost function Before(start: Holdings, stages: seq<Stage>, i: nat): Holdings
    requires i <= |stages|
  {
    if i == 0 then start else stages[i - 1].now
  }

  /** A batch of transactions that are not local, exactly: each meets what the ones before it left. */
  ghost predicate Staged(rules: Rules, start: Holdings, txs: seq<Tx>, checks: Tx -> Checks, stages: seq<Stage>,
                         end: Holdings)
  {
    && |stages| == |txs| && Before(start, stages, |txs|) == end
    && forall i :: 0 <= i < |txs| ==> Handled(rules, Before(start, stages, i), txs[i], false, checks(txs[i]), stages[i])
  }

  lemma StagedNone(rules: Rules, start: Holdings, txs: seq<Tx>, checks: Tx -> Checks)
    ensures Staged(rules, start, txs[..0], checks, [], start)
  {
  }

  lemma StagedMore(rules: Rules, start: Holdings, txs: seq<Tx>, i: nat, checks: Tx -> Checks, stages: seq<Stage>,
                   was: Holdings, stage: Stage)
    requires i < |txs| && Staged(rules, start, txs[..i], checks, stages, was)
    requires Handled(rules, was, txs[i], false, checks(txs[i]), stage)
    ensures Staged(rules, start, txs[..i + 1], checks, stages + [stage], stage.now)
  {
    hide Handled;
    var stages' := stages + [stage];
    forall j | 0 <= j < i + 1
      ensures Handled(rules, Before(start, stages', j), txs[..i + 1][j], false, checks(txs[..i + 1][j]), stages'[j])
    {
      assert Before(start, stages', j) == Before(start, stages, j);
      if j < i { assert txs[..i][j] == txs[j]; }
    }
  }

  /** The account nonce of `tx` is held by `tx` or by one that it does not better. */
  ghost predicate Represented(all: set<Tx>, tx: Tx, priceBump: nat) {
    exists t :: t in all && t.sender == tx.sender && t.nonce == tx.nonce && (t == tx || !Replaces(t, tx, priceBump))
  }

  /** Whatever takes an account nonce over does so at a price that is harder to better. */
  lemma HarderToBetter(t: Tx, t': Tx, tx: Tx, priceBump: nat)
    requires Replaces(t, t', priceBump) && (t == tx || !Replaces(t, tx, priceBump))
    ensures !Replaces(t', tx, priceBump)
  {
    assert (100 + priceBump) * t.price <= (100 + priceBump) * t'.price;
  }

  lemma StaysRepresented(all: set<Tx>, t': Tx, tx: Tx, priceBump: nat)
    requires Represented(all, tx, priceBump) && Contest(Rivals(all, t'), t', priceBump).Accepted?
    ensures Represented(all - Rivals(all, t') + {t'}, tx, priceBump)
  {
    hide Replaces;
    var t :| t in all && t.sender == tx.sender && t.nonce == tx.nonce && (t == tx || !Replaces(t, tx, priceBump));
    if t in Rivals(all, t') {
      HarderToBetter(t, t', tx, priceBump);
      assert t' in all - Rivals(all, t') + {t'};
    } else {
      assert t in all - Rivals(all, t') + {t'};
    }
  }

  /** With room, the handling of a valid transaction leaves its account nonce with it or with one it
      does not better, and takes no other account nonce away. */
  lemma HandledRepresents(rules: Rules, was: Holdings, tx: Tx, checks: Checks, stage: Stage)
    requires Handled(rules, was, tx, false, checks, stage) && !Crowded(rules.config, was.All(), tx)
    ensures |stage.now.All()| <= |was.All()| + 1 && stage.now.accounts == was.accounts
    ensures tx in was.All() || Invalid(rules, was.accounts, tx, tx.sender in was.accounts, checks).None? ==>
      Represented(stage.now.All(), tx, rules.config.priceBump)
    ensures forall t :: Represented(was.All(), t, rules.config.priceBump) ==>
      Represented(stage.now.All(), t, rules.config.priceBump)
  {
    hide CutBy, LoweredAll, Partition, Fair, Placed, Invalid, Replaces, Crowded, Surplus;
    assert stage.mid.All() == was.All();
    EnteredAll(stage.mid, stage.now, tx, false, stage.outcome.Accepted?);
    if stage.outcome.Accepted? {
      assert stage.outcome == Contest(Rivals(was.All(), tx), tx, rules.config.priceBump);
      assert tx in stage.now.All();
      forall t | Represented(was.All(), t, rules.config.priceBump)
        ensures Represented(stage.now.All(), t, rules.config.priceBump)
      {
        StaysRepresented(was.All(), tx, t, rules.config.priceBump);
      }
    } else {
      assert stage.now.All() == was.All();
    }
  }

  /** With room for the whole batch, no valid transaction in it is lost: in the end its account nonce
      is held by it or by one that it does not better. */
  lemma {:induction false} OfferedStay(rules: Rules, start: Holdings, txs: seq<Tx>, checks: Tx -> Checks,
                                       stages: seq<Stage>, end: Holdings, k: nat)
    requires Staged(rules, start, txs, checks, stages, end) && k <= |txs|
    requires forall i :: 0 <= i < |txs| ==>
      |start.All()| + i + NumSlots(txs[i]) <= rules.config.globalSlots + rules.config.globalQueue
    ensures var h := Before(start, stages, k);
      && |h.All()| <= |start.All()| + k && h.accounts == start.accounts
      && (forall t :: t in start.All() ==> Represented(h.All(), t, rules.config.priceBump))
      && forall i :: 0 <= i < k && Valid(rules, start, txs[i], checks) ==>
           Represented(h.All(), txs[i], rules.config.priceBump)
  {
    hide Handled, Represented, Invalid, Valid, NumSlots;
    if k == 0 {
      forall t | t in start.All() ensures Represented(start.All(), t, rules.config.priceBump) {
        RepresentsItself(start.All(), t, rules.config.priceBump);
      }
    } else {
      OfferedStay(rules, start, txs, checks, stages, end, k - 1);
      var was := Before(start, stages, k - 1);
      assert Handled(rules, was, txs[k - 1], false, checks(txs[k - 1]), stages[k - 1]);
      ValidIs(rules, was, start, txs[k - 1], checks);
      HandledRepresents(rules, was, txs[k - 1], checks(txs[k - 1]), stages[k - 1]);
    }
  }

  lemma RepresentsItself(all: set<Tx>, tx: Tx, priceBump: nat)
    requires tx in all
    ensures Represented(all, tx, priceBump)
  {
  }

  lemma ValidIs(rules: Rules, h: Holdings, h': Holdings, tx: Tx, checks: Tx -> Checks)
    requires h.accounts == h'.accounts
    ensures Valid(rules, h', tx, checks) ==
      Invalid(rules, h.accounts, tx, tx.sender in h.accounts, checks(tx)).None?
  {
  }

  /** Every one of `txs` that was held or is valid has its account nonce held by it or by one that it
      does not better, and so has everything that was held. */
  ghost predicate Offered(rules: Rules, start: Holdings, txs: seq<Tx>, checks: Tx -> Checks, all: set<Tx>) {
    && (forall tx :: tx in start.All() ==> Represented(all, tx, rules.config.priceBump))
    && forall tx :: tx in txs && Valid(rules, start, tx, checks) ==> Represented(all, tx, rules.config.priceBump)
  }

  lemma IsOffered(rules: Rules, start: Holdings, txs: seq<Tx>, checks: Tx -> Checks, stages: seq<Stage>, end: Holdings)
    requires Staged(rules, start, txs, checks, stages, end)
    requires forall i :: 0 <= i < |txs| ==>
      |start.All()| + i + NumSlots(txs[i]) <= rules.config.globalSlots + rules.config.globalQueue
    ensures Offered(rules, start, txs, checks, end.All())
  {
    hide Handled, Represented, Valid, NumSlots;
    OfferedStay(rules, start, txs, checks, stages, end, |txs|);
  }

  lemma CrowdedIs(c: UserConfig, all: set<Tx>, tx: Tx)
    ensures Crowded(c, all, tx) <==> |all| + NumSlots(tx) > c.globalSlots + c.globalQueue
  {
  }

  ghost predicate Valid(rules: Rules, h: Holdings, tx: Tx, checks: Tx -> Checks) {
    Invalid(rules, h.accounts, tx, tx.sender in h.accounts, checks(tx)).None?
  }

  lemma NotEntered(was: Holdings, tx: Tx, local: bool)
    ensures Entered(was, was, tx, local, false)
  {
    assert was.accounts + {} == was.accounts;
  }

  lemma IsEntered(was: Holdings, now: Holdings, tx: Tx, local: bool, accepted: bool)
    requires now.nonces == was.nonces
    requires !accepted ==> now.pending == was.pending && now.queue == was.queue && now.All() == was.All()
    requires accepted ==>
      && Placed(was.pending, was.queue, tx, now.pending, now.queue)
      && now.All() == was.All() - Rivals(was.All(), tx) + {tx}
      && (tx in now.locals <==> local || tx.sender in was.accounts)
    requires forall t :: t in was.locals - now.locals ==> accepted && t in Rivals(was.All(), tx)
    requires forall t :: t in now.locals - was.locals ==> accepted && (t == tx || (local && t.sender == tx.sender))
    requires now.accounts ==
      was.accounts + if accepted && local && tx.nonce !in At(was.pending, tx.sender) then {tx.sender} else {}
    ensures Entered(was, now, tx, local, accepted)
  {
    hide Placed, Rivals;
  }

  lemma EnteredAll(was: Holdings, now: Holdings, tx: Tx, local: bool, accepted: bool)
    requires Entered(was, now, tx, local, accepted)
    ensures now.nonces == was.nonces && (accepted ==> tx in now.All())
    ensures now.All() == was.All() - (if accepted then Rivals(was.All(), tx) else {}) + if accepted then {tx} else {}
    ensures forall t :: t in was.locals - now.locals ==> accepted && t in Rivals(was.All(), tx)
    ensures !local ==> now.accounts == was.accounts && forall t :: t in now.locals - was.locals ==> t == tx
    ensures |now.All()| <= |was.All()| + 1
  {
    hide Placed, Rivals;
    OneMoreAtMost(was.All(), if accepted then Rivals(was.All(), tx) else {}, tx);
    OneMoreAtMost(was.All(), {}, tx);
    SubsetSize(now.All(), was.All() + {tx});
  }

  /** Promotion, and after a reset demotion, have made of how every account stood the lists `p` and
      `q`. After a reset every account is promoted, otherwise those in `accounts`. */
  ghost predicate Reorganised(was: Address -> Standing, reset: bool, accounts: set<Address>, filtering: bool,
                              promoted: seq<Tx>, p: Accounts, q: Accounts)
  {
    && (forall tx :: tx in promoted <==> (reset || tx.sender in accounts) && tx in was(tx.sender).Ready(filtering))
    && (forall a :: At(p, a) == was(a).Kept(reset || a in accounts, reset, filtering))
    && (forall a :: At(q, a) == was(a).Postponed(reset || a in accounts, reset, filtering))
  }

  /** Promotion and demotion leave no account with a gap, or without transactions and with a raised
      nonce. */
  ghost predicate EndsAligned(was: Address -> Standing, reset: bool, accounts: set<Address>, filtering: bool) {
    forall a ::
      var promote := reset || a in accounts;
      Aligned(was(a).Kept(promote, reset, filtering), was(a).nonce, was(a).Lifted(promote, filtering))
  }

  lemma IsReorganised(was: Address -> Standing, reset: bool, accounts: set<Address>, filtering: bool, promoted: seq<Tx>,
                      p1: Accounts, q1: Accounts, p: Accounts, q: Accounts)
    requires reset ==> forall a :: a !in accounts ==> was(a).queue == map[]
    requires forall a :: At(p1, a) == was(a).Promoted(a in accounts, filtering)
    requires forall a :: At(q1, a) == was(a).Waiting(a in accounts, filtering)
    requires forall a ::
      At(p, a) ==
      if reset then DemotedPending(At(p1, a), was(a).nonce, was(a).balance, was(a).maxGas) else At(p1, a)
    requires forall a ::
      At(q, a) ==
      if reset then DemotedQueue(At(p1, a), At(q1, a), was(a).nonce, was(a).balance, was(a).maxGas) else At(q1, a)
    requires forall tx :: tx in promoted <==> tx.sender in accounts && tx in was(tx.sender).Ready(filtering)
    ensures Reorganised(was, reset, accounts, filtering, promoted, p, q)
    ensures forall a :: was(a).Lifted(a in accounts, filtering) == was(a).Lifted(reset || a in accounts, filtering)
    ensures reset && (forall a :: a in accounts ==> was(a).FirstIsPayable(filtering)) ==>
      forall a :: was(a).FirstIsPayable(filtering)
  {
    hide At, DemotedPending, DemotedQueue, Standing.Promoted, Standing.Waiting, Standing.Lifted, Standing.Ready;
    forall a
      ensures At(p, a) == was(a).Kept(reset || a in accounts, reset, filtering)
      ensures At(q, a) == was(a).Postponed(reset || a in accounts, reset, filtering)
      ensures was(a).Lifted(a in accounts, filtering) == was(a).Lifted(reset || a in accounts, filtering)
      ensures reset && a !in accounts ==> was(a).Ready(filtering) == []
    {
      if reset && a !in accounts { NothingWaiting(was(a), reset, filtering); }
    }
  }

  lemma EveryAccount(was: Address -> Standing, accounts: set<Address>, others: set<Address>, filtering: bool,
                     promoted: seq<Tx>, p: Accounts, q: Accounts)
    requires Reorganised(was, true, accounts, filtering, promoted, p, q)
    ensures Reorganised(was, true, others, filtering, promoted, p, q)
    ensures EndsAligned(was, true, accounts, filtering) <==> EndsAligned(was, true, others, filtering)
  {
    hide Standing.Kept, Standing.Postponed, Standing.Ready, Standing.Lifted, Aligned;
  }

  ghost predicate Held(was: Address -> Standing, tx: Tx) {
    Holds(was(tx.sender).pending, tx) || Holds(was(tx.sender).queue, tx)
  }

  /** What the reinjection of `lost` made of `all0`, of which `remotes0` were remote: nothing else
      came in, and what went was bettered or, if there was too little room, remote and not dearer
      than what stayed. */
  ghost predicate Reinjected(all0: set<Tx>, remotes0: set<Tx>, was: Address -> Standing, lost: seq<Tx>, priceBump: nat,
                             roomy: bool)
  {
    && (forall tx :: Held(was, tx) ==> tx in all0 || tx in lost)
    && (forall tx :: tx in all0 && !Held(was, tx) ==> (tx in remotes0 && !roomy) || Bettered(tx, lost, priceBump))
    && (forall t, d :: t in remotes0 && Held(was, t) && t !in lost && d in all0 && !Held(was, d) ==>
          Bettered(d, lost, priceBump) || !PriceLess(t, d))
  }

  lemma AccountedHeld(all0: set<Tx>, remotes0: set<Tx>, all: set<Tx>, locals: set<Tx>, was: Address -> Standing,
                      lost: seq<Tx>, priceBump: nat, roomy: bool)
    requires forall tx :: Held(was, tx) <==> tx in all
    requires locals <= all && all <= all0 + Elements(lost)
    requires Accounted(all0, remotes0, all, locals, lost, priceBump, roomy)
    ensures Reinjected(all0, remotes0, was, lost, priceBump, roomy)
  {
    hide Held, Bettered, PriceLess;
    forall t, d | t in remotes0 && Held(was, t) && t !in lost && d in all0 && !Held(was, d)
      ensures Bettered(d, lost, priceBump) || !PriceLess(t, d)
    {
      assert t in remotes0 * all && d in all0 - all;
    }
    forall tx | tx in all0 && !Held(was, tx) ensures (tx in remotes0 && !roomy) || Bettered(tx, lost, priceBump) {
      assert tx in all0 - locals && tx in all0 - all;
    }
  }

  /** A run with a reset loses nothing else before truncation than what was outdated, could not be
      paid for, or was too much in the queue of a remote account. */
  lemma RunKeeps(course: Course, dirty: set<Address>, filtering: bool, promoted: seq<Tx>, tx: Tx)
    requires Reorganised(course.was, true, dirty, filtering, promoted, course.p, course.q)
    requires course.was(tx.sender).Proper()
    ensures var s := course.was(tx.sender);
      Has(course.p, tx) || Has(course.q, tx) <==>
      && Held(course.was, tx) && s.nonce <= tx.nonce && tx !in s.Overflow(filtering)
      && ((tx.cost <= s.balance && tx.gas <= s.maxGas)
          || (!filtering && Holds(s.queue, tx) && tx !in s.Ready(filtering)))
  {
    hide Standing.Kept, Standing.Postponed, Standing.Ready, Standing.Overflow, Standing.Proper;
    SurvivesExactlyWhen(course.was(tx.sender), filtering, tx);
  }

  lemma ContestOne(was: Tx, tx: Tx, priceBump: nat)
    ensures Contest({was}, tx, priceBump)
      == if Replaces(was, tx, priceBump) then Accepted(true) else Rejected(ReplaceUnderpriced)
  {
    assert was in {was};
  }

  lemma ContestQueued(q: Accounts, tx: Tx, priceBump: nat)
    ensures var l := At(q, tx.sender);
      Contest(Superseded(q, tx), tx, priceBump)
      == if tx.nonce in l && !Replaces(l[tx.nonce], tx, priceBump) then Rejected(ReplaceUnderpriced)
         else Accepted(tx.nonce in l)
  {
    var l: List := At(q, tx.sender);
    if tx.nonce in l {
      ContestOne(l[tx.nonce], tx, priceBump);
    }
  }

  /** The rival of a transaction is what its account nonce holds, in whichever list. */
  lemma RivalsAre(p: Accounts, q: Accounts, txs: set<Tx>, tx: Tx)
    requires Partition(p, q, txs)
    ensures var l := At(p, tx.sender);
      Rivals(txs, tx) == if tx.nonce in l then {l[tx.nonce]} else Superseded(q, tx)
    ensures tx !in txs ==> tx !in Rivals(txs, tx)
  {
    var l, m: List := At(p, tx.sender), At(q, tx.sender);
    if tx.nonce in l {
      ProperKeyed(p, tx.sender);
      assert Has(p, l[tx.nonce]);
    }
    if tx.nonce in m {
      ProperKeyed(q, tx.sender);
      assert Has(q, m[tx.nonce]);
    }
  }

  lemma SwappedAll(locals: set<Tx>, remotes: set<Tx>, gone: set<Tx>, tx: Tx, local: bool, locals': set<Tx>,
                   remotes': set<Tx>)
    requires locals' == locals - gone + if local then {tx} else {}
    requires remotes' == remotes - gone + if local then {} else {tx}
    requires tx !in gone && tx !in locals + remotes
    ensures locals' + remotes' == locals + remotes - gone + {tx} && (tx in locals' <==> local)
  {
  }

  lemma OneMoreAtMost(was: set<Tx>, gone: set<Tx>, tx: Tx)
    ensures |was - gone + {tx}| <= |was| + 1
  {
    SubsetSize(was - gone, was);
  }

  lemma ContestWon(rivals: set<Tx>, tx: Tx, priceBump: nat)
    ensures Contest(rivals, tx, priceBump).Accepted? ==> forall t :: t in rivals ==> Replaces(t, tx, priceBump)
  {
  }

  /** Some transaction in `txs` betters this one at its account nonce. */
  ghost predicate Bettered(t: Tx, txs: seq<Tx>, priceBump: nat) {
    exists tx :: tx in txs && tx.sender == t.sender && tx.nonce == t.nonce && Replaces(t, tx, priceBump)
  }

  /** What `txs` may have pushed out of `all0`: what they better, and, unless there was room, remote
      transactions, of which none that stayed all along is cheaper. */
  ghost predicate Accounted(all0: set<Tx>, remotes0: set<Tx>, all: set<Tx>, locals: set<Tx>, txs: seq<Tx>,
                            priceBump: nat, roomy: bool)
  {
    && (forall t :: t in all0 - locals ==> t in remotes0 || Bettered(t, txs, priceBump))
    && (forall t :: t in remotes0 && t !in txs ==> t !in locals)
    && (roomy ==> forall t :: t in all0 - all ==> Bettered(t, txs, priceBump))
    && (forall t, d :: t in remotes0 * all && t !in txs && d in all0 - all ==>
          Bettered(d, txs, priceBump) || !PriceLess(t, d))
  }

  lemma AccountedNone(locals: set<Tx>, remotes: set<Tx>, priceBump: nat, roomy: bool)
    requires locals !! remotes
    ensures forall txs: seq<Tx> ::
      Accounted(locals + remotes, remotes, locals + remotes, locals, txs[..0], priceBump, roomy)
  {
  }

  lemma AccountedMore(all0: set<Tx>, remotes0: set<Tx>, was: Holdings, now: Holdings, txs: seq<Tx>, i: nat,
                      gone: set<Tx>, need: int, accepted: bool, priceBump: nat, roomy: bool)
    requires i < |txs| && Accounted(all0, remotes0, was.All(), was.locals, txs[..i], priceBump, roomy)
    requires Fair(was.remotes, gone, need) && (roomy ==> gone == {})
    requires now.All() == was.All() - gone - (if accepted then Rivals(was.All() - gone, txs[i]) else {})
                          + if accepted then {txs[i]} else {}
    requires forall t :: t in was.locals - now.locals ==> accepted && t in Rivals(was.All() - gone, txs[i])
    requires forall t :: t in now.locals - was.locals ==> t == txs[i]
    requires accepted ==> forall t :: t in Rivals(was.All() - gone, txs[i]) ==> Replaces(t, txs[i], priceBump)
    ensures Accounted(all0, remotes0, now.All(), now.locals, txs[..i + 1], priceBump, roomy)
  {
    hide Replaces, PriceLess, SlotSum;
    assert txs[..i + 1] == txs[..i] + [txs[i]];
    assert txs[i] in txs[..i + 1];
    forall t | t in all0 - now.locals ensures t in remotes0 || Bettered(t, txs[..i + 1], priceBump) {
      if t in was.locals { assert t in Rivals(was.All() - gone, txs[i]); } else { assert t in all0 - was.locals; }
    }
    forall t | t in remotes0 && t !in txs[..i + 1] ensures t !in now.locals {
      assert t in now.locals <==> t in now.locals - was.locals;
    }
    forall d | d in all0 - now.All()
      ensures Bettered(d, txs[..i + 1], priceBump) || (d in gone && d in was.All()) || d in all0 - was.All()
    {
    }
    forall t | t in all0 - was.All() && Bettered(t, txs[..i], priceBump) ensures Bettered(t, txs[..i + 1], priceBump) {
    }
    forall t, d | t in remotes0 * now.All() && t !in txs[..i + 1] && d in all0 - now.All()
      ensures Bettered(d, txs[..i + 1], priceBump) || !PriceLess(t, d)
    {
      assert t in remotes0 * was.All() && t in was.remotes - gone;
    }
  }

  lemma FewerDuplicates(live: set<Tx>, heap: seq<Tx>, heap': seq<Tx>)
    requires NoDuplicates(live, heap) && multiset(heap') <= multiset(heap)
    ensures NoDuplicates(live, heap')
  {
  }

  lemma SizedSlots(tx: Tx)
    ensures 0 < tx.size ==> 0 < NumSlots(tx)
  {
  }

  /** As many slots as are free hold at least one more transaction. */
  lemma RoomForOne(all: set<Tx>, limit: nat, tx: Tx)
    requires SlotSum(all) + NumSlots(tx) <= limit && 0 < tx.size && forall t :: t in all ==> 0 < t.size
    ensures |all| < limit
  {
    CountWithinSlots(all);
  }

  /** Within the limit, and nothing was put on the price heap twice. */
  ghost predicate Limited(all: set<Tx>, once: bool, limit: nat) {
    once && |all| <= limit && forall tx :: tx in all ==> 0 < tx.size
  }

  /** A remote transaction that was not seen before. */
  ghost predicate Newcomer(tx: Tx, local: bool, seen: set<Tx>, accounts: set<Address>) {
    !local && tx.sender !in accounts && 0 < tx.size && tx !in seen
  }

  ghost predicate Newcomers(txs: seq<Tx>, seen: set<Tx>, accounts: set<Address>) {
    Distinct(txs) && forall tx :: tx in txs ==> Newcomer(tx, false, seen, accounts)
  }

  lemma NextNewcomer(txs: seq<Tx>, i: nat, seen0: set<Tx>, seen: set<Tx>, accounts: set<Address>)
    requires i < |txs| && seen <= seen0 + Elements(txs[..i])
    ensures Newcomers(txs, seen0, accounts) ==> Newcomer(txs[i], false, seen, accounts)
    ensures seen + {txs[i]} <= seen0 + Elements(txs[..i + 1])
  {
    OneMore(txs, i);
    if Newcomers(txs, seen0, accounts) {
      assert txs[i] in txs && Newcomer(txs[i], false, seen0, accounts);
    }
  }

  lemma PutSeen(history: History, tx: Tx, local: bool)
    ensures history.Put(tx, local).seen <= history.seen + {tx}
  {
  }

  lemma FewerLimited(all: set<Tx>, all': set<Tx>, once: bool, limit: nat)
    requires Limited(all, once, limit) && all' <= all
    ensures Limited(all', once, limit)
  {
    SubsetSize(all', all);
  }

  lemma JoinedLimited(all: set<Tx>, now: set<Tx>, tx: Tx, accepted: bool, history: History, accounts: set<Address>,
                      limit: nat)
    requires Limited(all, history.once, limit) && Newcomer(tx, false, history.seen, accounts)
    requires now <= all + (if accepted then {tx} else {}) && (accepted ==> |now| <= limit)
    ensures var history' := if accepted then history.Put(tx, false) else history;
      Limited(now, history'.once, limit) && history'.seen <= history.seen + {tx}
  {
    if !accepted { SubsetSize(now, all); }
  }

  /** An addition that keeps the count within the limit keeps the rest too. */
  lemma AddedLimited(rules: Rules, was: Holdings, tx: Tx, checks: Checks, stage: Stage, history: History,
                     accounts: set<Address>, limit: nat)
    requires Handled(rules, was, tx, false, checks, stage) && was.locals !! was.remotes
    requires Limited(was.All(), history.once, limit) && Newcomer(tx, false, history.seen, accounts)
    requires stage.outcome.Accepted? ==> |stage.now.All()| <= limit
    ensures var history' := if stage.outcome.Accepted? then history.Put(tx, false) else history;
      Limited(stage.now.All(), history'.once, limit) && history'.seen <= history.seen + {tx}
  {
    hide *;
    HandledIs(rules, was, tx, false, checks, stage);
    FairIs(was.remotes, stage.gone, Surplus(rules.config, was.All(), tx));
    ThinnedAll(was, stage.mid, stage.gone);
    EnteredAll(stage.mid, stage.now, tx, false, stage.outcome.Accepted?);
    JoinedLimited(was.All(), stage.now.All(), tx, stage.outcome.Accepted?, history, accounts, limit);
  }

  class TxPool {
    const config: Config
    const all: TxLookup
    const priced: TxPricedList
    var gasPrice: nat
    var currentState: ChainState
    var pendingNonces: TxNoncer
    var currentMaxGas: nat
    var locals: set<Address>
    var pending: Accounts
    var queue: Accounts
    var beats: map<Address, int>
    /** How often `EnqueueTx` has reported a transaction missing from the lookup. */
    var missing: nat

    /** The parts fit together: the lookup counts its slots, no remote transaction is from a local
        account, queued accounts have a heartbeat, and no inconsistency was ever reported. */
    ghost predicate Tidy()
      reads this, all, priced
    {
      && priced.all == all
      && all.Valid() && all.misses == 0 && missing == 0
      && (forall tx :: tx in all.remotes ==> tx.sender !in locals)
      && queue.Keys <= beats.Keys
      && Heaps.IsHeap(priced.remotes, PriceLess) && priced.Recorded()
    }

    /** Pending and queue share no account nonce, and the lookup is exactly their union, save for
        the transactions in `transit`, which some operation is moving between the lists. */
    ghost predicate Consistent(transit: set<Tx>)
      reads this, all, priced
    {
      Tidy() && transit <= all.All() && Partition(pending, queue, all.All() - transit)
    }

    /** `Consistent` with nothing in transit. */
    ghost predicate Settled()
      reads this, all, priced
    {
      Tidy() && Partition(pending, queue, all.locals + all.remotes)
    }

    lemma Settles()
      ensures Settled() <==> Consistent({})
    {
      assert all.All() - {} == all.locals + all.remotes;
    }

    /** Nothing is in transit and no account has an empty list. */
    ghost predicate Sound()
      reads this, all, priced
    {
      Consistent({}) && NoEmptyList(pending) && NoEmptyList(queue)
    }

    /** What holds whenever the pool lock is free. */
    ghost predicate Steady()
      reads this, all, priced
    {
      Sound() && priced.Valid()
    }

    /** Every account's pending nonces are exactly the run from its state nonce on, and its
        virtual nonce is the one after. */
    ghost predicate Synced()
      reads this, pendingNonces
    {
      forall a :: InStep(At(pending, a), currentState.Nonce(a), pendingNonces.Value(a))
    }

    /** During a reorganisation after a reset: every account has caught up with the state, and
        those in `todo` have not been promoted yet. */
    ghost predicate CatchingUp(todo: set<Address>)
      reads this, pendingNonces
    {
      forall a ::
        && Caught(At(pending, a), currentState.Nonce(a), pendingNonces.Value(a), currentState.Balance(a), currentMaxGas)
        && (a in todo ==> Lagging(At(pending, a), currentState.Nonce(a), pendingNonces.Value(a)))
    }

    /** Halfway through demotion after a reset. */
    ghost predicate Demoting(done: set<Address>)
      reads this, pendingNonces
    {
      forall a ::
        if a in done
        then Aligned(At(pending, a), currentState.Nonce(a), pendingNonces.Value(a))
        else
          Caught(At(pending, a), currentState.Nonce(a), pendingNonces.Value(a), currentState.Balance(a), currentMaxGas)
    }

    /** After demotion: no gaps, and nothing owed to the nonces of accounts without transactions. */
    ghost predicate AllAligned()
      reads this, pendingNonces
    {
      forall a :: Aligned(At(pending, a), currentState.Nonce(a), pendingNonces.Value(a))
    }

    constructor (config: UserConfig, localAccounts: set<Address>, state: ChainState, maxGas: nat)
      ensures Steady() && Synced() && pending == map[] && queue == map[]
      ensures fresh(all) && fresh(priced) && fresh(pendingNonces)
      ensures this.config == Sanitize(config) && gasPrice == this.config.priceLimit && locals == localAccounts
      ensures currentState == state && currentMaxGas == maxGas
      ensures Modest() && priced.history.seen == {}
    {
      this.config := Sanitize(config);
      gasPrice, locals := Sanitize(config).priceLimit, localAccounts;
      pending, queue, beats, missing := map[], map[], map[], 0;
      var lookup := new TxLookup();
      all := lookup;
      priced := new TxPricedList(lookup);
      currentState, currentMaxGas := state, maxGas;
      pendingNonces := new TxNoncer(state);
      new;
      assert all.locals == {} && all.remotes == {};
      assert forall a :: At(pending, a) == map[];
    }

    /** Takes a list of transactions out of the lookup. */
    method ForgetAll(txs: seq<Tx>, ghost owed: nat)
      requires priced.all == all && all.Valid() && priced.Owing(owed)
      requires forall tx :: tx in txs ==> tx in all.All()
      requires Distinct(txs)
      modifies all
      ensures all.Valid() && all.misses == old(all.misses)
      ensures all.locals == old(all.locals) - Elements(txs) && all.remotes == old(all.remotes) - Elements(txs)
      ensures priced.Owing(owed + |txs|)
    {
      RemoveEach(all, txs);
      OwedMore(old(all.remotes), all.remotes, txs);
    }

    /** Puts one transaction into the lookup and onto the price heap. */
    method Admit(tx: Tx, local: bool)
      requires priced.all == all && all.Valid() && tx !in all.All() && priced.Valid() && priced.Recorded()
      modifies all, priced
      ensures all.Valid() && all.misses == old(all.misses)
      ensures priced.Recorded() && priced.history == old(priced.history).Put(tx, local)
      ensures priced.Valid() && Heaps.IsHeap(priced.remotes, PriceLess)
      ensures all.locals == old(all.locals) + if local then {tx} else {}
      ensures all.remotes == old(all.remotes) + if local then {} else {tx}
    {
      hide TxLookup.Valid, Heaps.IsHeap, Covered;
      all.Add(tx, local);
      priced.Put(tx, local);
      PutCovers(old(all.remotes), old(priced.remotes), tx, local, all.remotes, priced.remotes);
    }

    /** An older transaction gave way to a better one. */
    method Supersede(tx: Tx)
      requires priced.all == all && all.Valid() && tx in all.All() && Heaps.IsHeap(priced.remotes, PriceLess)
      modifies all, priced`remotes, priced`stales
      ensures all.Valid() && all.misses == old(all.misses) && Heaps.IsHeap(priced.remotes, PriceLess)
      ensures all.locals == old(all.locals) - {tx} && all.remotes == old(all.remotes) - {tx}
      ensures (old(priced.Valid()) ==> priced.Valid()) && (old(priced.Recorded()) ==> priced.Recorded())
    {
      all.Remove(tx);
      SubsetSize(old(all.remotes), all.remotes + {tx});
      priced.Removed(1);
    }

    /** Inserts into the future queue. With `addAll` the transaction is new to the pool, without
        it is one of those in transit. */
    method EnqueueTx(tx: Tx, local: bool, addAll: bool, ghost transit: set<Tx>)
      returns (replaced: bool, err: bool)
      requires Consistent(transit) && tx.nonce !in At(pending, tx.sender)
      requires addAll ==> tx !in all.All() && priced.Valid() && transit == {} && (tx.sender in locals ==> local)
      requires !addAll ==> tx in transit
      modifies this`queue, this`beats, this`missing, all, priced`remotes, priced`stales, if addAll then {priced} else {}
      ensures var l := At(old(queue), tx.sender);
        && (err <==> tx.nonce in l && !Replaces(l[tx.nonce], tx, config.priceBump))
        && (replaced <==> tx.nonce in l && Replaces(l[tx.nonce], tx, config.priceBump))
      ensures err ==> Consistent(transit) && queue == old(queue)
      ensures !err ==> Consistent(transit - {tx}) && queue == Inserted(old(queue), tx)
      ensures !replaced && (err || !addAll) ==>
        && all.locals == old(all.locals) && all.remotes == old(all.remotes)
        && priced.remotes == old(priced.remotes) && priced.stales == old(priced.stales)
      ensures !err && addAll ==>
        && all.locals == old(all.locals) - Superseded(old(queue), tx) + (if local then {tx} else {})
        && all.remotes == old(all.remotes) - Superseded(old(queue), tx) + (if local then {} else {tx})
      ensures addAll ==>
        priced.Valid() && priced.history == if err then old(priced.history) else old(priced.history).Put(tx, local)
    {
      hide Partition, Inserted, Superseded, Replaces, TxLookup.Valid, Heaps.IsHeap, TxPricedList.Popped;
      var l: List := At(queue, tx.sender);
      if tx.nonce in l && !Replaces(l[tx.nonce], tx, config.priceBump) {
        return false, true;
      }
      InsertedKeys(queue, tx);
      if tx.nonce !in l { NotSuperseding(queue, tx); }
      replaced := Enqueue(tx, local, addAll, transit);
      err := false;
      if tx.sender !in beats {
        var time: int := *;
        beats := beats[tx.sender := time];
      }
    }

    /** `EnqueueTx` once the list has accepted the transaction. */
    method Enqueue(tx: Tx, local: bool, addAll: bool, ghost transit: set<Tx>) returns (replaced: bool)
      requires Consistent(transit) && tx.nonce !in At(pending, tx.sender)
      requires addAll ==> tx !in all.All() && priced.Valid() && transit == {}
      requires !addAll ==> tx in transit
      modifies this`queue, this`missing, all, priced`remotes, priced`stales, if addAll then {priced} else {}
      ensures queue == Inserted(old(queue), tx) && missing == 0
      ensures all.Valid() && all.misses == 0 && Heaps.IsHeap(priced.remotes, PriceLess)
      ensures transit - {tx} <= all.All() && Partition(pending, queue, all.All() - (transit - {tx}))
      ensures replaced <==> tx.nonce in At(old(queue), tx.sender)
      ensures all.locals == old(all.locals) - Superseded(old(queue), tx) + (if addAll && local then {tx} else {})
      ensures all.remotes == old(all.remotes) - Superseded(old(queue), tx) + (if addAll && !local then {tx} else {})
      ensures !replaced && !addAll ==> priced.remotes == old(priced.remotes) && priced.stales == old(priced.stales)
      ensures priced.Recorded()
      ensures addAll ==> priced.Valid() && priced.history == old(priced.history).Put(tx, local)
    {
      hide Partition, TxLookup.Valid, Heaps.IsHeap, TxPricedList.Popped;
      var l: List := At(queue, tx.sender);
      ghost var gone := Superseded(queue, tx);
      PutOverInTransit(pending, queue, all.All(), transit, tx, all.All() - gone + {tx});
      queue := Inserted(queue, tx);
      replaced := tx.nonce in l;
      if replaced {
        Supersede(l[tx.nonce]);
      }
      assert all.locals == old(all.locals) - gone && all.remotes == old(all.remotes) - gone;
      assert addAll <==> tx !in all.All();
      missing := missing + if tx !in all.locals && tx !in all.remotes && !addAll then 1 else 0;
      if addAll {
        Admit(tx, local);
      }
      AllAfter(old(all.locals), old(all.remotes), gone, tx, addAll, local, all.locals, all.remotes);
    }

    /** Postpones transactions of one account: the loops that move invalidated transactions back
        to the queue. None of them can be refused or can replace another. */
    method Requeue(a: Address, txs: seq<Tx>, ghost transit: set<Tx>)
      requires Consistent(transit) && Elements(txs) <= transit
      requires Movable(txs, a, At(queue, a)) && Movable(txs, a, At(pending, a))
      modifies this`queue, this`beats, this`missing, all, priced`remotes, priced`stales
      ensures Consistent(transit - Elements(txs))
      ensures queue == Merged(old(queue), a, Collected(txs))
      ensures all.locals == old(all.locals) && all.remotes == old(all.remotes)
      ensures priced.remotes == old(priced.remotes) && priced.stales == old(priced.stales)
      ensures old(priced.Valid()) ==> priced.Valid()
    {
      hide Partition, Tidy;
      assert transit - Elements(txs[..0]) == transit;
      for i := 0 to |txs|
        invariant Consistent(transit - Elements(txs[..i]))
        invariant queue == Merged(old(queue), a, Collected(txs[..i]))
        invariant all.locals == old(all.locals) && all.remotes == old(all.remotes)
        invariant priced.remotes == old(priced.remotes) && priced.stales == old(priced.stales)
      {
        OneMore(txs, i);
        StillMovable(old(queue), a, txs, i);
        InsertedMerges(old(queue), a, txs, i);
        DistinctNonces(txs, i);
        assert transit - Elements(txs[..i]) - {txs[i]} == transit - Elements(txs[..i + 1]);
        var replaced, err := EnqueueTx(txs[i], false, false, transit - Elements(txs[..i]));
      }
      assert txs[..|txs|] == txs;
    }

    /** The pending branch of `RemoveTx`: what comes after the removed transaction is postponed
        and the virtual nonce lowered. */
    method CutPending(tx: Tx)
      requires Tidy() && tx !in all.All() && Partition(pending, queue, all.All() + {tx}) && Has(pending, tx)
      requires NoEmptyList(pending) && NoEmptyList(queue)
      modifies this`pending, this`queue, this`beats, this`missing, all, priced`remotes, priced`stales, pendingNonces
      ensures Sound()
      ensures var l := At(old(pending), tx.sender);
        && pending == With(old(pending), tx.sender, Below(l, tx.nonce))
        && queue == Merged(old(queue), tx.sender, AtLeast(l, tx.nonce + 1))
      ensures all.locals == old(all.locals) && all.remotes == old(all.remotes)
      ensures priced.remotes == old(priced.remotes) && priced.stales == old(priced.stales)
      ensures forall a ::
        pendingNonces.Value(a) ==
        if a == tx.sender then Min(old(pendingNonces.Value(a)), tx.nonce) else old(pendingNonces.Value(a))
      ensures old(Synced()) ==> Synced()
    {
      hide Sound, With, Merged, Below, AtLeast, Partition, Tidy, NoEmptyList, Contiguous, InStep;
      var a, l: List := tx.sender, At(pending, tx.sender);
      PostponeAfter(tx);
      pendingNonces.SetIfLower(a, tx.nonce);
      if old(Synced()) {
        assert old(InStep(At(pending, a), currentState.Nonce(a), pendingNonces.Value(a)));
        CutInStep(l, currentState.Nonce(a), old(pendingNonces.Value(a)), tx.nonce);
        WithAts(old(pending), a, Below(l, tx.nonce));
        forall b ensures InStep(At(pending, b), currentState.Nonce(b), pendingNonces.Value(b)) {
          assert old(InStep(At(pending, b), currentState.Nonce(b), pendingNonces.Value(b)));
        }
      }
    }

    /** Cuts a pending list and moves what comes after the cut to the queue. */
    method PostponeAfter(tx: Tx)
      requires Tidy() && tx !in all.All() && Partition(pending, queue, all.All() + {tx}) && Has(pending, tx)
      requires NoEmptyList(pending) && NoEmptyList(queue)
      modifies this`pending, this`queue, this`beats, this`missing, all, priced`remotes, priced`stales
      ensures Sound()
      ensures var l := At(old(pending), tx.sender);
        && pending == With(old(pending), tx.sender, Below(l, tx.nonce))
        && queue == Merged(old(queue), tx.sender, AtLeast(l, tx.nonce + 1))
      ensures all.locals == old(all.locals) && all.remotes == old(all.remotes)
      ensures priced.remotes == old(priced.remotes) && priced.stales == old(priced.stales)
    {
      hide Partition, TxLookup.Valid, Heaps.IsHeap, Movable, With, Merged, Below, AtLeast, NoEmptyList, Collected,
        Ascending, Has, At, Elements;
      var a, l: List := tx.sender, At(pending, tx.sender);
      var invalids := Ascending(AtLeast(l, tx.nonce + 1));
      ghost var gone := Elements(invalids);
      CutAt(pending, queue, all.All() + {tx}, tx);
      CutTransit(all.All(), tx, gone, Txs(AtLeast(l, tx.nonce + 1)), invalids);
      WithNonempty(pending, a, Below(l, tx.nonce));
      MergedNonempty(queue, a, AtLeast(l, tx.nonce + 1));
      pending := With(pending, a, Below(l, tx.nonce));
      Requeue(a, invalids, gone);
    }

    /** The queue branch of `RemoveTx`. */
    method CutQueue(tx: Tx)
      requires Tidy() && tx !in all.All() && Partition(pending, queue, all.All() + {tx}) && Has(queue, tx)
      requires NoEmptyList(queue)
      modifies this`queue, this`beats
      ensures Consistent({}) && NoEmptyList(queue)
      ensures queue == With(old(queue), tx.sender, At(old(queue), tx.sender) - {tx.nonce})
    {
      hide Partition, TxLookup.Valid, Heaps.IsHeap, NoEmptyList, Has, At, With;
      var a, l: List := tx.sender, At(queue, tx.sender);
      CutOne(pending, queue, all.All() + {tx}, tx);
      BackAgain(all.All(), tx);
      WithNonempty(queue, a, l - {tx.nonce});
      WithKeys(queue, a, l - {tx.nonce});
      queue := With(queue, a, l - {tx.nonce});
      if a !in queue {
        beats := beats - {a};
      }
    }

    /** Removes one transaction from wherever it is. */
    method RemoveTx(tx: Tx, outofbound: bool)
      requires Sound()
      modifies this`pending, this`queue, this`beats, this`missing, all, priced`remotes, priced`stales, pendingNonces
      ensures Sound()
      ensures all.locals == old(all.locals) - {tx} && all.remotes == old(all.remotes) - {tx}
      ensures tx !in old(all.All()) ==> pending == old(pending) && queue == old(queue)
      ensures !Has(old(pending), tx) ==>
        pending == old(pending) && forall a :: pendingNonces.Value(a) == old(pendingNonces.Value(a))
      ensures Has(old(pending), tx) ==>
        var l := At(old(pending), tx.sender);
        && pending == With(old(pending), tx.sender, Below(l, tx.nonce))
        && queue == Merged(old(queue), tx.sender, AtLeast(l, tx.nonce + 1))
        && forall a ::
          pendingNonces.Value(a) ==
          if a == tx.sender then Min(old(pendingNonces.Value(a)), tx.nonce) else old(pendingNonces.Value(a))
      ensures Has(old(queue), tx) ==>
        && pending == old(pending)
        && queue == With(old(queue), tx.sender, At(old(queue), tx.sender) - {tx.nonce})
        && forall a :: pendingNonces.Value(a) == old(pendingNonces.Value(a))
      ensures outofbound && old(priced.Valid()) ==> priced.Valid()
      ensures !outofbound ==> priced.remotes == old(priced.remotes) && priced.stales == old(priced.stales)
      ensures old(Synced()) ==> Synced()
    {
      hide Partition, TxLookup.Valid, Heaps.IsHeap, Movable, InStep, Merged, With, NoEmptyList, Below, AtLeast;
      assert all.All() - {} == all.All();
      var known := all.Get(tx);
      if !known {
        NotHeld(tx);
        return;
      }
      OneOwner(pending, queue, all.All(), tx);
      Withdraw(tx, outofbound);
      assert all.All() + {tx} == old(all.All());
      if tx.nonce in At(pending, tx.sender) {
        CutPending(tx);
      } else {
        CutQueue(tx);
      }
    }

    lemma NotHeld(tx: Tx)
      requires Consistent({}) && tx !in all.All()
      ensures !Has(pending, tx) && !Has(queue, tx)
    {
    }

    /** Takes a transaction out of the lookup, telling the price list only if it has to be told. */
    method Withdraw(tx: Tx, outofbound: bool)
      requires priced.all == all && all.Valid() && tx in all.All() && Heaps.IsHeap(priced.remotes, PriceLess)
      modifies all, priced`remotes, priced`stales
      ensures all.Valid() && all.misses == old(all.misses) && Heaps.IsHeap(priced.remotes, PriceLess)
      ensures all.locals == old(all.locals) - {tx} && all.remotes == old(all.remotes) - {tx}
      ensures outofbound && old(priced.Valid()) ==> priced.Valid()
      ensures old(priced.Recorded()) ==> priced.Recorded()
      ensures !outofbound ==> priced.remotes == old(priced.remotes) && priced.stales == old(priced.stales)
    {
      all.Remove(tx);
      SubsetSize(old(all.remotes), all.remotes + {tx});
      if outofbound {
        priced.Removed(1);
      }
    }

    /** Against the lists `p0` and the virtual nonces `v0`: every nonce is as low as the lowest
        transaction cut from its account's pending list, and otherwise as it was. */
    ghost predicate NoncesCut(p0: Accounts, v0: Address -> nat)
      reads this`pending, this`pendingNonces, pendingNonces
    {
      LoweredAll(p0, v0, pending, pendingNonces.Values())
    }

    lemma NothingCut()
      ensures NoncesCut(pending, pendingNonces.Values())
    {
    }

    lemma CutNonces(p0: Accounts, v0: Address -> nat)
      ensures NoncesCut(p0, v0) <==> LoweredAll(p0, v0, pending, pendingNonces.Values())
    {
    }

    lemma ValuesAre()
      ensures forall a :: pendingNonces.Values()(a) == pendingNonces.Value(a)
    {
    }

    /** Removes the transactions that have been taken off the price heap. */
    method RemoveDropped(drop: seq<Tx>)
      requires Sound() && priced.Popped(drop)
      requires forall tx :: tx in drop ==> tx in all.remotes
      modifies this`pending, this`queue, this`beats, this`missing, all, priced`remotes, priced`stales, pendingNonces
      ensures Steady() && CutBy(old(pending), pending, Elements(drop))
      ensures NoncesCut(old(pending), old(pendingNonces.Values()))
      ensures all.locals == old(all.locals) && all.remotes == old(all.remotes) - Elements(drop)
      ensures priced.remotes == old(priced.remotes)
      ensures drop == [] ==> pending == old(pending) && queue == old(queue)
      ensures old(Synced()) ==> Synced()
    {
      hide *;
      SoundFacts();
      MinusNone(all.locals, all.remotes, drop);
      CutByNone(pending);
      NothingCut();
      for i := 0 to |drop|
        invariant Sound() && priced.Popped(drop[i..]) && priced.remotes == old(priced.remotes)
        invariant Minus(old(all.locals), old(all.remotes), Elements(drop[..i]), all.locals, all.remotes)
        invariant CutBy(old(pending), pending, Elements(drop[..i]))
        invariant NoncesCut(old(pending), old(pendingNonces.Values()))
        invariant i == 0 ==> pending == old(pending) && queue == old(queue)
        invariant old(Synced()) ==> Synced()
      {
        RemoveNext(drop, i, old(all.locals), old(all.remotes), old(pending), old(pendingNonces.Values()));
      }
      assert drop[..|drop|] == drop && drop[|drop|..] == [];
      OnlyRemotes(old(all.locals), old(all.remotes), drop, all.locals, all.remotes);
      SteadyAgain();
    }

    /** What other methods need of `Sound` without looking into it. */
    lemma SoundFacts()
      requires Sound()
      ensures priced.all == all && all.Valid() && all.locals !! all.remotes && all.slots == SlotSum(all.All())
      ensures all.All() == all.locals + all.remotes && Heaps.IsHeap(priced.remotes, PriceLess)
      ensures Partition(pending, queue, all.All()) && Proper(pending) && Proper(queue)
    {
      assert all.All() - {} == all.All();
    }

    lemma SteadyFacts()
      requires Steady()
      ensures Sound() && priced.Valid() && priced.all == all
    {
    }

    lemma SteadyAgain()
      requires Sound() && priced.Popped([])
      ensures Steady()
    {
    }

    /** One turn of the loop of `RemoveDropped`. */
    method RemoveNext(drop: seq<Tx>, i: nat, ghost locals0: set<Tx>, ghost remotes0: set<Tx>, ghost p0: Accounts,
                      ghost v0: Address -> nat)
      requires Sound() && i < |drop| && priced.Popped(drop[i..])
      requires Minus(locals0, remotes0, Elements(drop[..i]), all.locals, all.remotes)
      requires Proper(p0) && CutBy(p0, pending, Elements(drop[..i])) && NoncesCut(p0, v0)
      modifies this`pending, this`queue, this`beats, this`missing, all, priced`remotes, priced`stales, pendingNonces
      ensures Sound() && priced.Popped(drop[i + 1..]) && priced.remotes == old(priced.remotes)
      ensures Minus(locals0, remotes0, Elements(drop[..i + 1]), all.locals, all.remotes)
      ensures CutBy(p0, pending, Elements(drop[..i + 1])) && NoncesCut(p0, v0)
      ensures old(Synced()) ==> Synced()
    {
      hide Sound, Heaps.IsHeap, NoEmptyList, With, Merged, Below, AtLeast, Synced, Covered, Has, Minus, Elements, CutBy,
        Proper, LoweredAll, TxNoncer.Values;
      SoundFacts();
      ghost var v := pendingNonces.Values();
      ValuesAre();
      RemoveTx(drop[i], false);
      ValuesAre();
      LoweredOnce(p0, v0, old(pending), v, drop[i], pending, pendingNonces.Values());
      CutByMore(p0, old(pending), Elements(drop[..i]), drop[i], pending);
      OneMore(drop, i);
      MinusOne(locals0, remotes0, drop, i, old(all.locals), old(all.remotes), all.locals, all.remotes);
      PoppedLess(old(all.remotes), drop, i, all.remotes, priced.remotes, priced.stales);
    }

    method SetGasPrice(price: nat, gasPriceActive: bool)
      requires Steady()
      modifies this`gasPrice, this`pending, this`queue, this`beats, this`missing
      modifies all, priced`remotes, priced`stales, pendingNonces
      ensures Steady() && (old(Synced()) ==> Synced())
      ensures all.locals == old(all.locals) && all.remotes <= old(all.remotes)
      ensures !gasPriceActive ==> all.remotes == old(all.remotes) && gasPrice == old(gasPrice)
      ensures gasPriceActive ==>
        && gasPrice == price
        && all.remotes == (set tx | tx in old(all.remotes) && price <= tx.price)
        && CutBy(old(pending), pending, set tx | tx in old(all.remotes) && tx.price < price)
      ensures NoncesCut(old(pending), old(pendingNonces.Values()))
    {
      hide NoncesCut, TxNoncer.Values, Partition, TxLookup.Valid, Heaps.IsHeap, NoEmptyList, InStep, At, Covered, CutBy;
      NothingCut();
      if !gasPriceActive { return; }
      gasPrice := price;
      var drop := priced.Cap(price);
      assert Elements(drop) == set tx | tx in all.remotes && tx.price < price;
      RemoveDropped(drop);
    }

    /** What additions are judged by now. */
    function RulesNow(gasPriceActive: bool): Rules
      reads this
    {
      Rules(config, gasPrice, currentState, currentMaxGas, gasPriceActive)
    }

    function ValidateTx(tx: Tx, local: bool, gasPriceActive: bool, checks: Checks): Option<Error>
      reads this
    {
      Invalid(RulesNow(gasPriceActive), locals, tx, local, checks)
    }

    /** Discards the cheapest remote transactions to free `need` slots, no more than it takes;
        without `force`, nothing is touched when all of them are not enough. */
    method EvictCheapest(need: int, force: bool) returns (success: bool, ghost gone: set<Tx>)
      requires Steady()
      modifies this`pending, this`queue, this`beats, this`missing, all, priced`remotes, priced`stales, pendingNonces
      ensures Steady() && (old(Synced()) ==> Synced())
      ensures Thinned(old(Contents()), Contents(), gone) && Fair(old(all.remotes), gone, need)
      ensures success <==> force || need <= old(priced.Room())
      ensures !success ==> gone == {} && old(SlotSum(all.remotes)) < need
      ensures success && old(NoDuplicates(all.remotes, priced.remotes)) ==>
        && SlotSum(all.All()) == SlotSum(old(all.All())) - SlotSum(gone)
        && (need <= SlotSum(gone) || (force && gone == old(all.remotes)))
    {
      hide *;
      SteadyFacts();
      SoundFacts();
      AllIs();
      ContentsAre();
      FairNone(need);
      var drop;
      drop, success := TakeOff(need, force);
      if !success {
        gone := {};
        ContentsAre();
        SameContents(old(Contents()), Contents());
        return;
      }
      gone := Elements(drop);
      NoElements(drop);
      FairDrop(all.remotes, drop, need);
      Evicted(all.locals, all.remotes, old(priced.remotes), drop);
      RemoveDropped(drop);
      AllIs();
      ContentsAre();
      CutNonces(old(pending), old(pendingNonces.Values()));
      IsThinned(old(Contents()), Contents(), gone);
    }

    lemma FairNone(need: int)
      ensures Fair(all.remotes, {}, need)
    {
    }

    /** `Discard` of the price list. */
    method TakeOff(need: int, force: bool) returns (drop: seq<Tx>, success: bool)
      requires Steady()
      modifies priced`remotes, priced`stales
      ensures Sound() && priced.Popped(drop)
      ensures multiset(drop) <= multiset(old(priced.remotes)) && forall tx :: tx in drop ==> tx in all.remotes
      ensures forall tx, t :: tx in drop && t in all.remotes && t !in drop ==> !PriceLess(t, tx)
      ensures drop != [] ==> SlotsOf(drop[..|drop| - 1]) < need
      ensures success <==> force || need <= old(priced.Room())
      ensures success ==> need <= SlotsOf(drop) || (force && Elements(drop) == all.remotes)
      ensures !success ==> drop == [] && Steady() && SlotSum(all.remotes) < need
    {
      hide Partition, NoEmptyList, Heaps.IsHeap, Covered, PriceLess, TxLookup.Valid, SlotSum, TxPricedList.Room;
      drop, success := priced.Discard(need, force);
    }

    /** The new transaction does not fit within the limits. */
    ghost predicate Full(tx: Tx)
      reads all
    {
      Crowded(config, all.All(), tx)
    }

    ghost function Excess(tx: Tx): int
      reads all
    {
      Surplus(config, all.All(), tx)
    }

    ghost function NoRoom(tx: Tx, isLocal: bool, gasPriceActive: bool): Option<Error>
      reads this, all, priced, priced.all, pendingNonces
    {
      NoRoomFor(RulesNow(gasPriceActive), Contents(), tx, isLocal)
    }

    /** When the pool is full, discards the cheapest remote transactions, unless the new one is no
        better or, being remote, cannot be fitted in. */
    method MakeRoom(tx: Tx, isLocal: bool, gasPriceActive: bool) returns (err: Option<Error>, ghost gone: set<Tx>)
      requires Steady()
      modifies this`pending, this`queue, this`beats, this`missing, all, priced`remotes, priced`stales, pendingNonces
      ensures Steady() && (old(Synced()) ==> Synced())
      ensures err == old(NoRoom(tx, isLocal, gasPriceActive))
      ensures err == Some(PoolOverflow) ==> old(SlotSum(all.remotes) < Excess(tx))
      ensures Thinned(old(Contents()), Contents(), gone) && Fair(old(all.remotes), gone, old(Excess(tx)))
      ensures err.Some? || !old(Full(tx)) ==> gone == {}
      ensures err.None? && !isLocal && old(Sized(tx)) ==> |all.All()| < config.globalSlots + config.globalQueue
    {
      hide *;
      SteadyFacts();
      SoundFacts();
      AllIs();
      ContentsAre();
      FairNone(Excess(tx));
      NotThinned(Contents());
      RoomIs(tx, isLocal, gasPriceActive);
      SizedIs(tx);
      err, gone := None, {};
      var count := all.Count();
      if count + NumSlots(tx) > config.globalSlots + config.globalQueue {
        var underpriced := false;
        if gasPriceActive && !isLocal {
          underpriced := Underpriced(tx);
          RoomIs(tx, isLocal, gasPriceActive);
        }
        ContentsAre();
        SizedIs(tx);
        if underpriced {
          err := Some(Error.Underpriced);
        } else {
          err, gone := EvictFor(tx, isLocal);
        }
      }
    }

    /** No transaction is without size, and none has two entries on the price heap. */
    ghost predicate Sized(tx: Tx)
      reads this, all, priced
    {
      && NoDuplicates(all.remotes, priced.remotes)
      && forall t :: t in all.All() + {tx} ==> 0 < t.size
    }

    /** The pool is within its limits, holds transactions of positive size only, and never took the
        same remote one twice. */
    ghost predicate Modest()
      reads all, priced
    {
      Limited(all.All(), priced.history.once, config.globalSlots + config.globalQueue)
    }

    lemma ModestIs()
      ensures Modest() <==> Limited(all.All(), priced.history.once, config.globalSlots + config.globalQueue)
    {
    }

    /** A pool that never took the same transaction twice has no duplicates on its price heap. */
    lemma NeverTwice()
      requires Steady() && priced.history.once
      ensures NoDuplicates(all.remotes, priced.remotes) && priced.Room() == SlotSum(all.remotes)
    {
      hide SlotSum, LiveSlots, Heaps.IsHeap, Partition, NoEmptyList, TxLookup.Valid;
      RoomOnce();
    }

    /** A full pool has a positive number of slots to free, provided that no size is zero. */
    lemma FullIsOver(tx: Tx)
      requires Full(tx) && forall t :: t in all.All() ==> 0 < t.size
      ensures Excess(tx) > 0
    {
      CountWithinSlots(all.All());
    }

    lemma NewcomerSized(tx: Tx, local: bool)
      requires Steady()
      ensures Modest() <==> Limited(all.All(), priced.history.once, config.globalSlots + config.globalQueue)
      ensures Modest() && Newcomer(tx, local, priced.history.seen, locals) ==>
        Sized(tx) && !local && tx.sender !in locals
    {
      hide Steady, SlotSum;
      if Modest() { NeverTwice(); }
    }

    lemma SizedIs(tx: Tx)
      ensures Sized(tx) <==>
        NoDuplicates(all.remotes, priced.remotes) && forall t :: t in all.locals + all.remotes + {tx} ==> 0 < t.size
      ensures Sized(tx) && !Full(tx) ==> |all.All()| < config.globalSlots + config.globalQueue
    {
      SizedSlots(tx);
    }

    /** The eviction in `MakeRoom`. */
    method EvictFor(tx: Tx, isLocal: bool) returns (err: Option<Error>, ghost gone: set<Tx>)
      requires Steady()
      modifies this`pending, this`queue, this`beats, this`missing, all, priced`remotes, priced`stales, pendingNonces
      ensures Steady() && (old(Synced()) ==> Synced())
      ensures err == if !isLocal && old(priced.Room() < Excess(tx)) then Some(PoolOverflow) else None
      ensures err.Some? ==> gone == {} && old(SlotSum(all.remotes) < Excess(tx))
      ensures Thinned(old(Contents()), Contents(), gone) && Fair(old(all.remotes), gone, old(Excess(tx)))
      ensures err.None? && !isLocal && old(Sized(tx)) ==> |all.All()| < config.globalSlots + config.globalQueue
    {
      hide *;
      SteadyFacts();
      SoundFacts();
      AllIs();
      ContentsAre();
      RoomIs(tx, isLocal, true);
      SizedIs(tx);
      ghost var sized := Sized(tx);
      var limit := config.globalSlots + config.globalQueue;
      var success;
      success, gone := EvictCheapest(all.slots - limit + NumSlots(tx), isLocal);
      err := if !isLocal && !success then Some(PoolOverflow) else None;
      AllIs();
      ContentsAre();
      FairIs(old(all.remotes), gone, old(Excess(tx)));
      ThinnedAll(old(Contents()), Contents(), gone);
      if !isLocal && success && sized { RoomForOne(all.All(), limit, tx); }
    }

    lemma RoomIs(tx: Tx, isLocal: bool, gasPriceActive: bool)
      ensures Full(tx) <==> |all.All()| + NumSlots(tx) > config.globalSlots + config.globalQueue
      ensures Excess(tx) == SlotSum(all.All()) - (config.globalSlots + config.globalQueue) + NumSlots(tx)
      ensures NoRoom(tx, isLocal, gasPriceActive) ==
        if isLocal || !Full(tx) then None
        else if gasPriceActive && all.remotes != {} && forall t :: t in all.remotes ==> tx.price <= t.price then
          Some(Error.Underpriced)
        else if priced.Room() < Excess(tx) then Some(PoolOverflow)
        else None
    {
    }

    /** Without duplicates on the price heap, what decides is how many slots the remote transactions
        take. */
    lemma RoomOnce()
      requires Steady() && NoDuplicates(all.remotes, priced.remotes)
      ensures priced.Room() == SlotSum(all.remotes)
    {
      LiveSlotsCover(priced.remotes, all.remotes);
    }

    /** Whether no remote transaction is cheaper; clears stale entries off the top of the heap. */
    method Underpriced(tx: Tx) returns (r: bool)
      requires Steady()
      modifies priced`remotes, priced`stales
      ensures Steady() && (old(NoDuplicates(all.remotes, priced.remotes)) ==> NoDuplicates(all.remotes, priced.remotes))
      ensures priced.Room() == old(priced.Room())
      ensures r <==> all.remotes != {} && forall t :: t in all.remotes ==> t.price >= tx.price
    {
      hide TxPricedList.Room;
      r := priced.Underpriced(tx);
      if old(NoDuplicates(all.remotes, priced.remotes)) {
        FewerDuplicates(all.remotes, old(priced.remotes), priced.remotes);
      }
    }

    /** `Add` when the account nonce is already pending. */
    method ReplacePending(tx: Tx, isLocal: bool) returns (inserted: bool)
      requires Steady() && tx.nonce in At(pending, tx.sender) && tx !in all.All() && (tx.sender in locals ==> isLocal)
      modifies this`pending, this`beats, all, priced
      ensures Steady() && (old(Synced()) ==> Synced())
      ensures inserted <==> Replaces(At(old(pending), tx.sender)[tx.nonce], tx, config.priceBump)
      ensures priced.history == if inserted then old(priced.history).Put(tx, isLocal) else old(priced.history)
      ensures !inserted ==> pending == old(pending) && all.locals == old(all.locals) && all.remotes == old(all.remotes)
      ensures inserted ==>
        var was := At(old(pending), tx.sender)[tx.nonce];
        && pending == Inserted(old(pending), tx)
        && all.locals == old(all.locals) - {was} + (if isLocal then {tx} else {})
        && all.remotes == old(all.remotes) - {was} + (if isLocal then {} else {tx})
    {
      hide Sound, Partition, Inserted, TxLookup.Valid, TxPricedList.Valid;
      var was := At(pending, tx.sender)[tx.nonce];
      if !Replaces(was, tx, config.priceBump) { return false; }
      SteadyFacts();
      SoundFacts();
      ReplacedPartition(pending, queue, all.locals, all.remotes, tx, isLocal);
      InsertedNonempty(pending, tx);
      SwapEntry(was, tx, isLocal);
      inserted := true;
      if old(Synced()) { ReplacedSynced(old(pending), tx); }
    }

    /** Exchanges one transaction for another in its list, the lookup and the price heap. */
    method SwapEntry(was: Tx, tx: Tx, isLocal: bool)
      requires Steady() && NoEmptyList(Inserted(pending, tx))
      requires was in all.locals + all.remotes && tx !in all.All() && (tx.sender in locals ==> isLocal)
      requires Partition(Inserted(pending, tx), queue,
                 (all.locals - {was} + if isLocal then {tx} else {})
                 + (all.remotes - {was} + if isLocal then {} else {tx}))
      modifies this`pending, this`beats, all, priced
      ensures priced.history == old(priced.history).Put(tx, isLocal)
      ensures Steady() && pending == Inserted(old(pending), tx)
      ensures all.locals == old(all.locals) - {was} + (if isLocal then {tx} else {})
      ensures all.remotes == old(all.remotes) - {was} + (if isLocal then {} else {tx})
    {
      hide Partition, NoEmptyList, Inserted, TxLookup.Valid, Heaps.IsHeap, TxPricedList.Popped;
      pending := Inserted(pending, tx);
      Supersede(was);
      Admit(tx, isLocal);
      var time: int := *;
      beats := beats[tx.sender := time];
      assert all.All() - {} == all.All();
    }

    lemma ReplacedSynced(was: Accounts, tx: Tx)
      requires forall a :: InStep(At(was, a), currentState.Nonce(a), pendingNonces.Value(a))
      requires tx.nonce in At(was, tx.sender) && pending == Inserted(was, tx)
      ensures Synced()
    {
      ReplacedInStep(At(was, tx.sender), currentState.Nonce(tx.sender), pendingNonces.Value(tx.sender), tx);
      forall a ensures InStep(At(pending, a), currentState.Nonce(a), pendingNonces.Value(a)) {
        if a != tx.sender { assert At(pending, a) == At(was, a); }
      }
    }

    /** Marks an account as local for the first time and migrates its remote transactions. */
    method MarkLocal(addr: Address)
      requires Steady()
      modifies this`locals, all, priced`remotes, priced`stales
      ensures Steady() && (old(Synced()) ==> Synced()) && locals == old(locals) + {addr}
      ensures all.All() == old(all.All()) && all.remotes == set tx | tx in old(all.remotes) && tx.sender != addr
    {
      hide Partition, NoEmptyList, Heaps.IsHeap, InStep, At, InHistory, SlotSum, NumSlots;
      locals := locals + {addr};
      var migrated := all.RemoteToLocals(locals);
      priced.Removed(migrated);
    }

    /** All that the pool holds, and its local accounts. */
    ghost function Contents(): Holdings
      reads this, all, priced, priced.all, pendingNonces
    {
      Holdings(pending, queue, pendingNonces.Values(), all.locals, all.remotes, locals, priced.Room())
    }

    /** The work of `Add`. */
    method Handle(tx: Tx, local: bool, gasPriceActive: bool, checks: Checks) returns (r: Outcome, ghost stage: Stage)
      requires Steady()
      modifies this`locals, this`pending, this`queue, this`beats, this`missing, all, priced, pendingNonces
      ensures Steady() && (old(Synced()) ==> Synced())
      ensures priced.history ==
        if r.Accepted? then old(priced.history).Put(tx, local || tx.sender in old(locals)) else old(priced.history)
      ensures Handled(old(RulesNow(gasPriceActive)), old(Contents()), tx, local, checks, stage)
      ensures stage.outcome == r && stage.now == Contents()
      ensures r.Accepted? && !local && tx.sender !in old(locals) && old(Sized(tx)) ==>
        |all.All()| <= config.globalSlots + config.globalQueue
      ensures old(Modest()) && Newcomer(tx, local, old(priced.history.seen), old(locals)) ==> Modest()
    {
      hide *;
      SteadyFacts();
      SoundFacts();
      FairNone(Excess(tx));
      AllIs();
      ContentsAre();
      NotThinned(Contents());
      NotEntered(Contents(), tx, local);
      RefusalIs(tx, local, gasPriceActive, checks);
      ghost var rules, was := RulesNow(gasPriceActive), Contents();
      ghost var modest := Modest() && Newcomer(tx, local, priced.history.seen, locals);
      NewcomerSized(tx, local);
      ghost var gone: set<Tx>, mid := {}, Contents();
      r := Rejected(AlreadyKnown);
      var known := all.Get(tx);
      if !known {
        var isLocal := local || tx.sender in locals;
        var invalid := ValidateTx(tx, isLocal, gasPriceActive, checks);
        if invalid.Some? {
          r := Rejected(invalid.value);
        } else {
          r, gone, mid := Include(tx, local, isLocal, gasPriceActive);
        }
      }
      stage := Stage(gone, mid, Contents(), r);
      IsHandled(rules, was, tx, local, checks, stage);
      ModestIs();
      if modest {
        AllIs();
        ContentsAre();
        AddedLimited(rules, was, tx, checks, stage, old(priced.history), old(locals),
                     config.globalSlots + config.globalQueue);
      }
    }

    /** Validates a transaction and inserts it, replacing an older one or discarding cheaper remote
        ones where it must. Every outcome has its reason. */
    method Add(tx: Tx, local: bool, gasPriceActive: bool, checks: Checks) returns (r: Outcome, ghost stage: Stage)
      requires Steady()
      modifies this`locals, this`pending, this`queue, this`beats, this`missing, all, priced, pendingNonces
      ensures Steady() && (old(Synced()) ==> Synced())
      ensures priced.history ==
        if r.Accepted? then old(priced.history).Put(tx, local || tx.sender in old(locals)) else old(priced.history)
      ensures Handled(old(RulesNow(gasPriceActive)), old(Contents()), tx, local, checks, stage)
      ensures stage.outcome == r && stage.now == Contents()
      ensures r.Accepted? && !local && tx.sender !in old(locals) && old(Sized(tx)) ==>
        |all.All()| <= config.globalSlots + config.globalQueue
      ensures old(Modest()) && Newcomer(tx, local, old(priced.history.seen), old(locals)) ==> Modest()
      ensures
        var isLocal, limit := local || tx.sender in old(locals), config.globalSlots + config.globalQueue;
        var full := |old(all.All())| + NumSlots(tx) > limit;
        var excess := SlotSum(old(all.All())) + NumSlots(tx) - limit;
        var nonce, balance := currentState.Nonce(tx.sender), currentState.Balance(tx.sender);
        var rivals := Rivals(old(all.All()), tx) - stage.gone;
        match r
        case Accepted(replaced) =>
          && tx !in old(all.All()) && checks.wellFormed && checks.signed && checks.permitted && checks.gasSuffices
          && tx.gas <= currentMaxGas && nonce <= tx.nonce && tx.cost <= balance
          && (gasPriceActive && !isLocal ==> gasPrice <= tx.price)
          && (replaced <==> rivals != {})
          && (forall t :: t in rivals ==>
                t.price < tx.price && (100 + config.priceBump) * t.price < 100 * (tx.price + 1))
        case Rejected(error) =>
          && (error.ReplaceUnderpriced? ==>
                && tx !in old(all.All()) && checks.wellFormed && checks.signed && checks.permitted && checks.gasSuffices
                && tx.gas <= currentMaxGas && nonce <= tx.nonce && tx.cost <= balance
                && (gasPriceActive && !isLocal ==> gasPrice <= tx.price)
                && exists t ::
                     && t in rivals
                     && (tx.price <= t.price || 100 * (tx.price + 1) <= (100 + config.priceBump) * t.price))
          && (!error.ReplaceUnderpriced? ==>
                && (error.AlreadyKnown? <==> tx in old(all.All()))
                && (!error.AlreadyKnown? ==> (error.Malformed? <==> !checks.wellFormed))
                && (!error.AlreadyKnown? && !error.Malformed? ==> (error.GasLimit? <==> currentMaxGas < tx.gas))
                && (error.InvalidSender? ==> !checks.signed)
                && (error.NotPermitted? ==> !checks.permitted && checks.signed)
                && (error.Underpriced? ==>
                      && gasPriceActive && !isLocal && checks.permitted
                      && (tx.price < gasPrice
                          || (full && old(all.remotes) != {}
                          && forall t :: t in old(all.remotes) ==> tx.price <= t.price)))
                && (error.NonceTooLow? ==> tx.nonce < nonce && checks.permitted)
                && (error.InsufficientFunds? ==> balance < tx.cost && nonce <= tx.nonce)
                && (error.IntrinsicGas? ==> !checks.gasSuffices && tx.cost <= balance)
                && (error.PoolOverflow? ==> full && !isLocal && old(priced.Room()) < excess && checks.gasSuffices))
    {
      hide *;
      ghost var rules, was := RulesNow(gasPriceActive), Contents();
      ghost var rivals := Rivals(all.All(), tx);
      SteadyFacts();
      SoundFacts();
      AllIs();
      ContentsAre();
      RulesAre(gasPriceActive);
      RefusedFor(rules, was, tx, local, checks);
      r, stage := Handle(tx, local, gasPriceActive, checks);
      HandledContest(rules, was, tx, local, checks, stage);
      ContestIs(rivals - stage.gone, tx, config.priceBump);
    }

    /** The part of `Add` after validation. */
    method Include(tx: Tx, local: bool, isLocal: bool, gasPriceActive: bool)
      returns (r: Outcome, ghost gone: set<Tx>, ghost mid: Holdings)
      requires Steady() && tx !in all.All() && isLocal == (local || tx.sender in locals)
      modifies this`locals, this`pending, this`queue, this`beats, this`missing, all, priced, pendingNonces
      ensures Steady() && (old(Synced()) ==> Synced())
      ensures priced.history == if r.Accepted? then old(priced.history).Put(tx, isLocal) else old(priced.history)
      ensures old(NoRoom(tx, isLocal, gasPriceActive)).Some? ==>
        r == Rejected(old(NoRoom(tx, isLocal, gasPriceActive)).value) && gone == {}
      ensures old(NoRoom(tx, isLocal, gasPriceActive)).None? ==>
        r == Contest(Rivals(mid.All(), tx), tx, config.priceBump)
      ensures Thinned(old(Contents()), mid, gone) && Fair(old(all.remotes), gone, old(Excess(tx)))
      ensures Partition(mid.pending, mid.queue, mid.All()) && (!old(Full(tx)) ==> gone == {})
      ensures Entered(mid, Contents(), tx, local, r.Accepted?)
      ensures r.Accepted? && !isLocal && old(Sized(tx)) ==> |all.All()| <= config.globalSlots + config.globalQueue
    {
      hide *;
      SteadyFacts();
      SoundFacts();
      AllIs();
      ContentsAre();
      var full;
      full, gone := MakeRoom(tx, isLocal, gasPriceActive);
      mid := Contents();
      FairIs(old(all.remotes), gone, old(Excess(tx)));
      ThinnedAll(old(Contents()), mid, gone);
      SteadyFacts();
      SoundFacts();
      AllIs();
      ContentsAre();
      if full.Some? {
        r := Rejected(full.value);
        NotEntered(mid, tx, local);
      } else {
        r := Insert(tx, local, isLocal);
        EnteredAll(mid, Contents(), tx, local, r.Accepted?);
        AllIs();
        ContentsAre();
      }
    }

    lemma ContentsAre()
      ensures Contents() ==
        Holdings(pending, queue, pendingNonces.Values(), all.locals, all.remotes, locals, priced.Room())
      ensures Contents().All() == all.locals + all.remotes
    {
    }

    lemma RefusalIs(tx: Tx, local: bool, gasPriceActive: bool, checks: Checks)
      ensures var isLocal := local || tx.sender in locals;
        var invalid := ValidateTx(tx, isLocal, gasPriceActive, checks);
        RefusalOf(RulesNow(gasPriceActive), Contents(), tx, local, checks) ==
        if tx in all.All() then Some(AlreadyKnown)
        else if invalid.Some? then invalid
        else NoRoom(tx, isLocal, gasPriceActive)
      ensures RulesNow(gasPriceActive).config == config
      ensures Excess(tx) == Surplus(config, Contents().All(), tx)
      ensures Full(tx) <==> Crowded(config, Contents().All(), tx)
    {
    }

    /** The part of `Add` after validation, once there is room. */
    method Insert(tx: Tx, local: bool, isLocal: bool) returns (r: Outcome)
      requires Steady() && tx !in all.All() && isLocal == (local || tx.sender in locals)
      modifies this`locals, this`pending, this`queue, this`beats, this`missing, all, priced
      ensures Steady() && (old(Synced()) ==> Synced())
      ensures priced.history == if r.Accepted? then old(priced.history).Put(tx, isLocal) else old(priced.history)
      ensures r == Contest(Rivals(old(all.All()), tx), tx, config.priceBump)
      ensures Entered(old(Contents()), Contents(), tx, local, r.Accepted?)
    {
      hide *;
      assert locals + {} == locals;
      AllIs();
      ContentsAre();
      if tx.nonce in At(pending, tx.sender) {
        r := InsertPending(tx, isLocal);
      } else {
        r := InsertQueued(tx, isLocal);
        if r.Accepted? && local && tx.sender !in locals {
          ghost var locals0, remotes0 := all.locals, all.remotes;
          SteadyFacts();
          SoundFacts();
          AllIs();
          MarkLocal(tx.sender);
          SteadyFacts();
          SoundFacts();
          AllIs();
          StillLocal(locals0, remotes0, all.locals, all.remotes, tx.sender);
          assert forall t :: t in locals0 - old(all.locals) ==> t == tx;
          assert forall t :: t in all.locals - old(all.locals) ==> t in locals0 - old(all.locals) || t !in locals0;
        }
      }
      PlacedIs(old(pending), old(queue), tx, pending, queue);
      AllIs();
      ContentsAre();
      IsEntered(old(Contents()), Contents(), tx, local, r.Accepted?);
    }

    static lemma StillLocal(locals: set<Tx>, remotes: set<Tx>, locals': set<Tx>, remotes': set<Tx>, a: Address)
      requires locals' + remotes' == locals + remotes && locals !! remotes && locals' !! remotes'
      requires remotes' == set tx | tx in remotes && tx.sender != a
      ensures locals <= locals' && forall tx :: tx in locals' && tx !in locals ==> tx.sender == a
    {
      assert forall tx :: tx in locals ==> tx !in remotes';
    }

    method InsertPending(tx: Tx, isLocal: bool) returns (r: Outcome)
      requires Steady() && tx !in all.All() && (tx.sender in locals ==> isLocal) && tx.nonce in At(pending, tx.sender)
      modifies this`pending, this`beats, all, priced
      ensures Steady() && (old(Synced()) ==> Synced())
      ensures priced.history == if r.Accepted? then old(priced.history).Put(tx, isLocal) else old(priced.history)
      ensures r == Contest(Rivals(old(all.All()), tx), tx, config.priceBump)
      ensures forall t :: t in old(all.locals) - all.locals ==> r.Accepted? && t in Rivals(old(all.All()), tx)
      ensures forall t :: t in all.locals - old(all.locals) ==> r.Accepted? && t == tx
      ensures r.Rejected? ==> pending == old(pending) && all.All() == old(all.All())
      ensures r.Accepted? ==>
        && pending == Inserted(old(pending), tx) && all.All() == old(all.All()) - Rivals(old(all.All()), tx) + {tx}
        && (tx in all.locals <==> isLocal)
    {
      hide *;
      AllIs();
      SteadyFacts();
      SoundFacts();
      RivalsAre(pending, queue, all.All(), tx);
      ghost var was := At(pending, tx.sender)[tx.nonce];
      ContestOne(was, tx, config.priceBump);
      var inserted := ReplacePending(tx, isLocal);
      AllIs();
      if !inserted { return Rejected(ReplaceUnderpriced); }
      SwappedAll(old(all.locals), old(all.remotes), {was}, tx, isLocal, all.locals, all.remotes);
      r := Accepted(true);
    }

    method InsertQueued(tx: Tx, isLocal: bool) returns (r: Outcome)
      requires Steady() && tx !in all.All() && (tx.sender in locals ==> isLocal) && tx.nonce !in At(pending, tx.sender)
      modifies this`queue, this`beats, this`missing, all, priced
      ensures Steady() && (old(Synced()) ==> Synced())
      ensures priced.history == if r.Accepted? then old(priced.history).Put(tx, isLocal) else old(priced.history)
      ensures r == Contest(Rivals(old(all.All()), tx), tx, config.priceBump)
      ensures forall t :: t in old(all.locals) - all.locals ==> r.Accepted? && t in Rivals(old(all.All()), tx)
      ensures forall t :: t in all.locals - old(all.locals) ==> r.Accepted? && t == tx
      ensures r.Rejected? ==> queue == old(queue) && all.All() == old(all.All())
      ensures r.Accepted? ==>
        && queue == Inserted(old(queue), tx) && all.All() == old(all.All()) - Rivals(old(all.All()), tx) + {tx}
        && (tx in all.locals <==> isLocal)
    {
      hide *;
      AllIs();
      SteadyFacts();
      SoundFacts();
      RivalsAre(pending, queue, all.All(), tx);
      ContestQueued(queue, tx, config.priceBump);
      var replaced, err := EnqueueNew(tx, isLocal);
      AllIs();
      if err { return Rejected(ReplaceUnderpriced); }
      SwappedAll(old(all.locals), old(all.remotes), Superseded(old(queue), tx), tx, isLocal, all.locals, all.remotes);
      r := Accepted(replaced);
    }

    lemma AllIs()
      ensures all.All() == all.locals + all.remotes
    {
    }

    /** `EnqueueTx` for a transaction that is new to the pool. */
    method EnqueueNew(tx: Tx, isLocal: bool) returns (replaced: bool, err: bool)
      requires Steady() && tx.nonce !in At(pending, tx.sender) && tx !in all.All() && (tx.sender in locals ==> isLocal)
      modifies this`queue, this`beats, this`missing, all, priced
      ensures Steady() && (old(Synced()) ==> Synced())
      ensures priced.history == if err then old(priced.history) else old(priced.history).Put(tx, isLocal)
      ensures var l := At(old(queue), tx.sender);
        && (err <==> tx.nonce in l && !Replaces(l[tx.nonce], tx, config.priceBump))
        && (replaced <==> tx.nonce in l && Replaces(l[tx.nonce], tx, config.priceBump))
      ensures err ==> queue == old(queue) && all.locals == old(all.locals) && all.remotes == old(all.remotes)
      ensures !err ==> queue == Inserted(old(queue), tx)
      ensures !err ==>
        && all.locals == old(all.locals) - Superseded(old(queue), tx) + (if isLocal then {tx} else {})
        && all.remotes == old(all.remotes) - Superseded(old(queue), tx) + (if isLocal then {} else {tx})
    {
      hide Partition, TxLookup.Valid, Heaps.IsHeap, TxPricedList.Popped, NoEmptyList, Inserted, Superseded, InStep, At;
      InsertedNonempty(queue, tx);
      replaced, err := EnqueueTx(tx, isLocal, true, {});
      assert {} - {tx} == {};
    }

    /** Drops transactions from a queue list, which keeps `kept`. The price list is not told. */
    method ShedQueue(a: Address, kept: List, gone: seq<Tx>, ghost owed: nat)
      requires Settled() && a in queue && priced.Owing(owed)
      requires Divided(queue[a], kept, Elements(gone)) && Distinct(gone)
      modifies this`queue, all
      ensures Settled() && queue == old(queue)[a := kept] && priced.Owing(owed + |gone|)
      ensures all.locals == old(all.locals) - Elements(gone) && all.remotes == old(all.remotes) - Elements(gone)
    {
      hide Partition, TxLookup.Valid, Heaps.IsHeap, Divided, TxPricedList.Owing, Elements, Distinct;
      PartitionSym(pending, queue, all.locals + all.remotes);
      ShedPartition(queue, pending, all.locals, all.remotes, a, kept, Elements(gone), gone);
      PartitionSym(queue[a := kept], pending, (all.locals - Elements(gone)) + (all.remotes - Elements(gone)));
      queue := queue[a := kept];
      ForgetAll(gone, owed);
    }

    /** Drops transactions from a pending list, which keeps `kept`. The price list is not told. */
    method ShedPending(a: Address, kept: List, gone: seq<Tx>, ghost owed: nat)
      requires Settled() && a in pending && priced.Owing(owed)
      requires Divided(pending[a], kept, Elements(gone)) && Distinct(gone)
      modifies this`pending, all
      ensures Settled() && pending == old(pending)[a := kept] && priced.Owing(owed + |gone|)
      ensures all.locals == old(all.locals) - Elements(gone) && all.remotes == old(all.remotes) - Elements(gone)
    {
      hide Partition, TxLookup.Valid, Heaps.IsHeap, Divided, TxPricedList.Owing, Elements, Distinct;
      ShedPartition(pending, queue, all.locals, all.remotes, a, kept, Elements(gone), gone);
      pending := pending[a := kept];
      ForgetAll(gone, owed);
    }

    /** Moves one transaction from those in transit to its account's pending list, unless an
        older one there is as good. */
    method PromoteTx(tx: Tx, ghost transit: set<Tx>) returns (inserted: bool)
      requires Consistent(transit) && tx in transit && tx.nonce !in At(queue, tx.sender)
      modifies this`pending, this`beats, all, priced`remotes, priced`stales, pendingNonces
      ensures Consistent(transit - {tx})
      ensures var l := At(old(pending), tx.sender);
        inserted <==> (tx.nonce in l ==> Replaces(l[tx.nonce], tx, config.priceBump))
      ensures !inserted ==>
        && pending == old(pending)
        && all.locals == old(all.locals) - {tx} && all.remotes == old(all.remotes) - {tx}
      ensures inserted ==>
        && pending == Inserted(old(pending), tx)
        && all.locals == old(all.locals) - Superseded(old(pending), tx)
        && all.remotes == old(all.remotes) - Superseded(old(pending), tx)
      ensures forall a ::
        pendingNonces.Value(a) ==
        if inserted && a == tx.sender then tx.nonce + 1 else old(pendingNonces.Value(a))
      ensures tx.nonce !in At(old(pending), tx.sender) ==>
        priced.remotes == old(priced.remotes) && priced.stales == old(priced.stales)
    {
      hide Partition, TxLookup.Valid, Heaps.IsHeap, TxPricedList.Popped, TxPricedList.Owing, Inserted;
      var l: List := At(pending, tx.sender);
      PromotedPartition(pending, queue, all.locals, all.remotes, transit, tx);
      if tx.nonce in l && !Replaces(l[tx.nonce], tx, config.priceBump) {
        Supersede(tx);
        return false;
      }
      pending := Inserted(pending, tx);
      if tx.nonce in l {
        Supersede(l[tx.nonce]);
      }
      assert all.locals == old(all.locals) - Superseded(old(pending), tx);
      assert all.remotes == old(all.remotes) - Superseded(old(pending), tx);
      pendingNonces.Set(tx.sender, tx.nonce + 1);
      var time: int := *;
      beats := beats[tx.sender := time];
      inserted := true;
    }

    /** The promotion loop: none of these transactions is turned away. */
    method PromoteAll(a: Address, txs: seq<Tx>, ghost transit: set<Tx>) returns (promoted: seq<Tx>)
      requires Consistent(transit) && Elements(txs) == transit
      requires Movable(txs, a, At(queue, a)) && Movable(txs, a, At(pending, a))
      modifies this`pending, this`beats, all, priced`remotes, priced`stales, pendingNonces
      ensures Settled() && promoted == txs
      ensures pending == Merged(old(pending), a, Collected(txs))
      ensures all.locals == old(all.locals) && all.remotes == old(all.remotes)
      ensures priced.remotes == old(priced.remotes) && priced.stales == old(priced.stales)
      ensures forall b ::
        pendingNonces.Value(b) ==
        if b == a && txs != [] then txs[|txs| - 1].nonce + 1 else old(pendingNonces.Value(b))
    {
      hide Consistent, Inserted, Merged, Collected, Superseded;
      promoted := [];
      PromoteNone(pending, a, txs);
      assert transit - Elements(txs[..0]) == transit;
      for i := 0 to |txs|
        invariant Consistent(transit - Elements(txs[..i]))
        invariant pending == Merged(old(pending), a, Collected(txs[..i]))
        invariant all.locals == old(all.locals) && all.remotes == old(all.remotes)
        invariant priced.remotes == old(priced.remotes) && priced.stales == old(priced.stales)
        invariant promoted == txs[..i]
        invariant forall b ::
          pendingNonces.Value(b) ==
          if b == a && i > 0 then txs[i - 1].nonce + 1 else old(pendingNonces.Value(b))
      {
        OneMore(txs, i);
        StillMovable(old(pending), a, txs, i);
        InsertedMerges(old(pending), a, txs, i);
        DistinctNonces(txs, i);
        NotSuperseding(pending, txs[i]);
        assert transit - Elements(txs[..i]) - {txs[i]} == transit - Elements(txs[..i + 1]);
        var inserted := PromoteTx(txs[i], transit - Elements(txs[..i]));
        if inserted {
          promoted := promoted + [txs[i]];
        }
      }
      assert txs[..|txs|] == txs && transit - Elements(txs) == {};
      Settles();
    }

    /** The list of `addr` that promotion starts from. */
    ghost function ToPromote(addr: Address, filtering: bool): List
      reads this
    {
      Executable(At(queue, addr), currentState.Nonce(addr), filtering, currentState.Balance(addr), currentMaxGas)
    }

    /** The first half of promotion: drops old and unpayable transactions. */
    method DropStale(addr: Address, filtering: bool) returns (dropped: nat)
      requires Settled() && priced.Valid() && addr in queue
      modifies this`queue, all
      ensures Settled() && priced.Owing(dropped)
      ensures queue == old(queue)[addr := old(ToPromote(addr, filtering))]
      ensures all.locals <= old(all.locals) && all.remotes <= old(all.remotes)
    {
      hide Settled, Divided, TxPricedList.Owing, TxPricedList.Popped, Elements, Distinct, AtLeast, Payable;
      dropped := DropOld(addr);
      if filtering {
        var more := DropUnpayable(addr, dropped);
        dropped := dropped + more;
      }
    }

    method DropOld(addr: Address) returns (dropped: nat)
      requires Settled() && priced.Valid() && addr in queue
      modifies this`queue, all
      ensures Settled() && priced.Owing(dropped)
      ensures queue == old(queue)[addr := AtLeast(old(queue)[addr], currentState.Nonce(addr))]
      ensures all.locals <= old(all.locals) && all.remotes <= old(all.remotes)
    {
      hide Settled, Divided, TxPricedList.Owing, TxPricedList.Popped, Elements, Distinct, AtLeast, Below;
      var list: List := queue[addr];
      var forwards := Ascending(Below(list, currentState.Nonce(addr)));
      QueueListKeyed(addr);
      ForwardDivides(list, currentState.Nonce(addr));
      BelowDistinct(list, currentState.Nonce(addr));
      StraightBooks();
      ShedQueue(addr, AtLeast(list, currentState.Nonce(addr)), forwards, 0);
      dropped := |forwards|;
    }

    method DropUnpayable(addr: Address, ghost owed: nat) returns (dropped: nat)
      requires Settled() && priced.Owing(owed) && addr in queue
      modifies this`queue, all
      ensures Settled() && priced.Owing(owed + dropped)
      ensures queue == old(queue)[addr := Payable(old(queue)[addr], currentState.Balance(addr), currentMaxGas)]
      ensures all.locals <= old(all.locals) && all.remotes <= old(all.remotes)
    {
      hide Settled, Divided, TxPricedList.Owing, Elements, Distinct, Payable, Unpayable;
      var list: List := queue[addr];
      var drops := Ascending(Unpayable(list, currentState.Balance(addr), currentMaxGas));
      QueueListKeyed(addr);
      PayableDivides(list, currentState.Balance(addr), currentMaxGas);
      UnpayableDistinct(list, currentState.Balance(addr), currentMaxGas);
      ShedQueue(addr, Payable(list, currentState.Balance(addr), currentMaxGas), drops, owed);
      dropped := |drops|;
    }

    /** Caps the queue list of a remote account. */
    method DropExcess(addr: Address, ghost owed: nat) returns (dropped: nat)
      requires Settled() && priced.Owing(owed) && addr in queue
      modifies this`queue, all
      ensures Settled() && priced.Owing(owed + dropped)
      ensures queue == old(queue)[addr := Capped(old(queue)[addr], config.accountQueue)]
      ensures all.locals <= old(all.locals) && all.remotes <= old(all.remotes)
    {
      hide Settled, Divided, TxPricedList.Owing, Elements, Distinct, Capped, CapDrops;
      var list: List := queue[addr];
      var caps := CapDrops(list, config.accountQueue);
      QueueListKeyed(addr);
      CapDivides(list, config.accountQueue);
      CapsDistinct(list, config.accountQueue);
      ShedQueue(addr, Capped(list, config.accountQueue), caps, owed);
      dropped := |caps|;
    }

    lemma QueueListKeyed(addr: Address)
      requires Settled() && addr in queue
      ensures Keyed(queue[addr])
    {
      ProperKeyed(queue, addr);
    }

    lemma StraightBooks()
      requires priced.Valid()
      ensures priced.Owing(0)
    {
    }

    /** The second half: promotes what is ready. */
    method PromoteReady(addr: Address) returns (promoted: seq<Tx>)
      requires Settled() && addr in queue
      modifies this`pending, this`queue, this`beats, all, priced`remotes, priced`stales, pendingNonces
      ensures Settled()
      ensures promoted == ReadyRun(old(queue)[addr], old(pendingNonces.Value(addr)))
      ensures queue == old(queue)[addr := Without(old(queue)[addr], promoted)]
      ensures pending == Merged(old(pending), addr, Collected(promoted))
      ensures all.locals == old(all.locals) && all.remotes == old(all.remotes)
      ensures priced.remotes == old(priced.remotes) && priced.stales == old(priced.stales)
      ensures forall k: nat :: old(priced.Owing(k)) ==> priced.Owing(k)
      ensures forall b ::
        pendingNonces.Value(b) ==
        if b == addr && promoted != [] then promoted[|promoted| - 1].nonce + 1 else old(pendingNonces.Value(b))
    {
      hide Partition, Movable, Without, ReadyRun, Merged, Collected, TxLookup.Valid, Heaps.IsHeap;
      var list: List := queue[addr];
      var start := pendingNonces.Get(addr);
      var readies := ReadyRun(list, start);
      ReadyPartition(pending, queue, all.locals, all.remotes, addr, start, Elements(readies));
      queue := queue[addr := Without(list, readies)];
      promoted := PromoteAll(addr, readies, Elements(readies));
    }

    /** Deletes a queue entry, and the heartbeat with it, if the list has become empty. */
    method DeleteIfEmpty(addr: Address, ghost was: Accounts, ghost l: List)
      requires Settled() && queue == was[addr := l]
      modifies this`queue, this`beats
      ensures Settled() && queue == With(was, addr, l)
    {
      hide Partition, TxLookup.Valid, Heaps.IsHeap, With;
      TidiedQueue(pending, queue, all.locals + all.remotes, addr);
      WithIs(was, addr, l);
      if |queue[addr]| == 0 {
        queue := queue - {addr};
        beats := beats - {addr};
      }
    }

    /** Promotes and prunes one account's queue. */
    method PromoteAccount(addr: Address, filtering: bool) returns (promoted: seq<Tx>)
      requires Steady()
      modifies this`pending, this`queue, this`beats, all, priced`remotes, priced`stales, pendingNonces
      ensures Steady()
      ensures all.locals <= old(all.locals) && all.remotes <= old(all.remotes)
      ensures addr !in old(queue) ==>
        && promoted == [] && pending == old(pending) && queue == old(queue)
        && forall b :: pendingNonces.Value(b) == old(pendingNonces.Value(b))
      ensures addr in old(queue) ==>
        && promoted == ReadyRun(old(ToPromote(addr, filtering)), old(pendingNonces.Value(addr)))
        && pending == Merged(old(pending), addr, Collected(promoted))
        && queue == With(old(queue), addr,
                         LeftQueued(old(ToPromote(addr, filtering)), promoted, addr in locals, config.accountQueue))
        && forall b ::
          pendingNonces.Value(b) ==
          if b == addr && promoted != [] then promoted[|promoted| - 1].nonce + 1 else old(pendingNonces.Value(b))
    {
      hide Settled, Consistent, ToPromote, ReadyRun, Merged, Collected, With, Without, Capped, NoEmptyList,
        TxPricedList.Popped, TxPricedList.Owing;
      if addr !in queue { return []; }
      Settles();
      var dropped := DropStale(addr, filtering);
      promoted := PromoteReady(addr);
      if addr !in locals {
        var more := DropExcess(addr, dropped);
        dropped := dropped + more;
      }
      ghost var l := LeftQueued(old(ToPromote(addr, filtering)), promoted, addr in locals, config.accountQueue);
      assert queue == old(queue)[addr := l];
      TellRemoved(dropped);
      DeleteIfEmpty(addr, old(queue), l);
      WithNonempty(old(queue), addr, l);
      MergedNonempty(old(pending), addr, Collected(promoted));
      Settles();
    }

    method TellRemoved(count: nat)
      requires Settled() && priced.Owing(count)
      modifies priced`remotes, priced`stales
      ensures Settled() && priced.Valid()
    {
      hide Partition, TxLookup.Valid, Heaps.IsHeap, Covered;
      priced.Removed(count);
    }

    ghost predicate FirstIsPayable(addr: Address, filtering: bool)
      reads this, pendingNonces
    {
      FirstPayable(ReadyOf(addr, filtering), currentState.Balance(addr), currentMaxGas)
    }

    lemma ToPromoteFacts(addr: Address, filtering: bool)
      requires Steady()
      ensures var q := ToPromote(addr, filtering);
        && Keyed(q)
        && (forall n :: n in q ==> n !in At(pending, addr) && currentState.Nonce(addr) <= n)
      ensures filtering ==> FirstIsPayable(addr, filtering)
    {
      ProperKeyed(queue, addr);
      if filtering {
        FilteredFirst(ToPromote(addr, filtering), pendingNonces.Value(addr), currentState.Balance(addr), currentMaxGas);
      }
    }

    /** Promotion of one account keeps the nonces in step, or catches up after a reset. */
    method PromoteNext(addr: Address, filtering: bool, ghost todo: set<Address>) returns (promoted: seq<Tx>)
      requires Steady()
      modifies this`pending, this`queue, this`beats, all, priced`remotes, priced`stales, pendingNonces
      ensures Steady() && (old(Synced()) ==> Synced())
      ensures addr in todo && old(CatchingUp(todo)) && old(FirstIsPayable(addr, filtering)) ==>
        CatchingUp(todo - {addr})
      ensures all.locals <= old(all.locals) && all.remotes <= old(all.remotes)
      ensures forall b :: b != addr ==> At(pending, b) == old(At(pending, b)) && At(queue, b) == old(At(queue, b))
      ensures promoted == old(ReadyOf(addr, filtering))
      ensures At(pending, addr) == old(At(pending, addr)) + Collected(promoted)
      ensures At(queue, addr) ==
        LeftQueued(old(ToPromote(addr, filtering)), promoted, addr in locals, config.accountQueue)
      ensures pendingNonces.Value(addr) == Raised(old(pendingNonces.Value(addr)), promoted)
      ensures forall b :: b != addr ==>
        && pendingNonces.Value(b) == old(pendingNonces.Value(b))
        && ToPromote(b, filtering) == old(ToPromote(b, filtering))
        && ReadyOf(b, filtering) == old(ReadyOf(b, filtering))
        && FirstIsPayable(b, filtering) == old(FirstIsPayable(b, filtering))
    {
      hide Steady, ReadyRun, Collected, LeftQueued, InStep, Lagging, Caught, ToPromote, At, FirstPayable;
      ToPromoteFacts(addr, filtering);
      promoted := PromoteOne(addr, filtering);
      ghost var p, q := old(At(pending, addr)), old(ToPromote(addr, filtering));
      ghost var stateNonce, virtual := currentState.Nonce(addr), old(pendingNonces.Value(addr));
      if old(Synced()) {
        assert old(InStep(At(pending, addr), currentState.Nonce(addr), pendingNonces.Value(addr)));
        PromotedInStep(p, q, stateNonce, virtual);
      }
      if addr in todo && old(CatchingUp(todo)) && old(FirstIsPayable(addr, filtering)) {
        assert old(Lagging(At(pending, addr), currentState.Nonce(addr), pendingNonces.Value(addr)));
        PromotedCaught(p, q, stateNonce, virtual, currentState.Balance(addr), currentMaxGas);
      }
    }

    /** `PromoteAccount` whether or not the account has anything queued. */
    method PromoteOne(addr: Address, filtering: bool) returns (promoted: seq<Tx>)
      requires Steady()
      modifies this`pending, this`queue, this`beats, all, priced`remotes, priced`stales, pendingNonces
      ensures Steady()
      ensures all.locals <= old(all.locals) && all.remotes <= old(all.remotes)
      ensures forall b :: b != addr ==> At(pending, b) == old(At(pending, b)) && At(queue, b) == old(At(queue, b))
      ensures forall b ::
        pendingNonces.Value(b) ==
        if b == addr then Raised(old(pendingNonces.Value(addr)), promoted) else old(pendingNonces.Value(b))
      ensures promoted == ReadyRun(old(ToPromote(addr, filtering)), old(pendingNonces.Value(addr)))
      ensures At(pending, addr) == old(At(pending, addr)) + Collected(promoted)
      ensures At(queue, addr) ==
        LeftQueued(old(ToPromote(addr, filtering)), promoted, addr in locals, config.accountQueue)
      ensures forall b :: b != addr ==>
        && ToPromote(b, filtering) == old(ToPromote(b, filtering))
        && ReadyOf(b, filtering) == old(ReadyOf(b, filtering))
    {
      hide Steady, ReadyRun, Merged, Collected, With, LeftQueued, Executable, At;
      NothingToPromote(addr, filtering);
      promoted := PromoteAccount(addr, filtering);
      MergedAt(old(pending), addr, Collected(promoted));
      WithAts(old(queue), addr,
              LeftQueued(old(ToPromote(addr, filtering)), promoted, addr in locals, config.accountQueue));
    }

    lemma NothingToPromote(addr: Address, filtering: bool)
      requires Steady()
      ensures addr !in queue ==>
        var q := ToPromote(addr, filtering);
        && ReadyRun(q, pendingNonces.Value(addr)) == []
        && LeftQueued(q, [], addr in locals, config.accountQueue) == map[]
        && Collected([]) == map[] && At(queue, addr) == map[]
    {
      if addr !in queue {
        assert ToPromote(addr, filtering) == map[];
        assert Without(map[], []) == map[];
      }
    }

    /** What promotion would make pending for an account. */
    ghost function ReadyOf(addr: Address, filtering: bool): seq<Tx>
      reads this, pendingNonces
    {
      ReadyRun(ToPromote(addr, filtering), pendingNonces.Value(addr))
    }

    lemma ReadySender(addr: Address, filtering: bool)
      requires Steady()
      ensures forall tx :: tx in ReadyOf(addr, filtering) ==> tx.sender == addr
    {
      var q := ToPromote(addr, filtering);
      ProperKeyed(queue, addr);
      ToPromoteFacts(addr, filtering);
      ReadyDivides(q, pendingNonces.Value(addr));
      forall tx | tx in ReadyOf(addr, filtering) ensures tx.sender == addr {
        assert Holds(q, tx) && Holds(At(queue, addr), tx);
      }
    }

    /** Promotes the given accounts. Every one of them gets exactly what was ready for it, whatever
        the order, and no other account is touched. */
    method PromoteExecutables(accounts: seq<Address>, filtering: bool) returns (promoted: seq<Tx>)
      requires Steady()
      requires Distinct(accounts)
      modifies this`pending, this`queue, this`beats, all, priced`remotes, priced`stales, pendingNonces
      ensures Steady() && (old(Synced()) ==> Synced())
      ensures old(CatchingUp(AddressesOf(accounts)))
        && (forall a :: a in accounts ==> old(FirstIsPayable(a, filtering)))
        ==> CatchingUp({})
      ensures all.locals <= old(all.locals) && all.remotes <= old(all.remotes)
      ensures forall a ::
        At(pending, a) ==
        if a in accounts then old(At(pending, a)) + Collected(old(ReadyOf(a, filtering))) else old(At(pending, a))
      ensures forall a ::
        At(queue, a) ==
        if a in accounts
        then LeftQueued(old(ToPromote(a, filtering)), old(ReadyOf(a, filtering)), a in locals, config.accountQueue)
        else old(At(queue, a))
      ensures forall a ::
        pendingNonces.Value(a) ==
        if a in accounts then Raised(old(pendingNonces.Value(a)), old(ReadyOf(a, filtering)))
        else old(pendingNonces.Value(a))
      ensures forall tx :: tx in promoted <==> tx.sender in accounts && tx in old(ReadyOf(tx.sender, filtering))
    {
      hide Steady, Collected, LeftQueued, ToPromote, ReadyOf, At, Synced, CatchingUp, FirstIsPayable, AddressesOf,
        Raised;
      promoted := [];
      ghost var todo := AddressesOf(accounts);
      ghost var catching := CatchingUp(todo) && forall a :: a in accounts ==> FirstIsPayable(a, filtering);
      for i := 0 to |accounts|
        invariant Steady() && (old(Synced()) ==> Synced())
        invariant todo == AddressesOf(accounts[i..])
        invariant catching ==> CatchingUp(todo) && forall a :: a in accounts[i..] ==> FirstIsPayable(a, filtering)
        invariant all.locals <= old(all.locals) && all.remotes <= old(all.remotes)
        invariant forall a :: a !in accounts[..i] ==>
          && At(pending, a) == old(At(pending, a)) && At(queue, a) == old(At(queue, a))
          && pendingNonces.Value(a) == old(pendingNonces.Value(a))
          && ToPromote(a, filtering) == old(ToPromote(a, filtering))
          && ReadyOf(a, filtering) == old(ReadyOf(a, filtering))
        invariant forall a :: a in accounts[..i] ==>
          && At(pending, a) == old(At(pending, a)) + Collected(old(ReadyOf(a, filtering)))
          && pendingNonces.Value(a) == Raised(old(pendingNonces.Value(a)), old(ReadyOf(a, filtering)))
          && At(queue, a) ==
            LeftQueued(old(ToPromote(a, filtering)), old(ReadyOf(a, filtering)), a in locals, config.accountQueue)
        invariant forall tx ::
          tx in promoted <==> tx.sender in accounts[..i] && tx in old(ReadyOf(tx.sender, filtering))
      {
        ListStep(accounts, i);
        ReadySender(accounts[i], filtering);
        var more := PromoteNext(accounts[i], filtering, todo);
        promoted := promoted + more;
        todo := todo - {accounts[i]};
      }
      NoAddresses();
      assert accounts[..|accounts|] == accounts && accounts[|accounts|..] == [] && todo == {};
    }

    /** Filters a pending list: drops what cannot be paid for and hands back what has become
        unexecutable. The price list is not told. */
    method FilterPending(addr: Address, ghost owed: nat) returns (dropped: nat, invalids: seq<Tx>)
      requires Settled() && addr in pending && priced.Owing(owed)
      modifies this`pending, all
      ensures Consistent(Elements(invalids)) && priced.Owing(owed + dropped)
      ensures all.locals <= old(all.locals) && all.remotes <= old(all.remotes)
      ensures var l := old(pending)[addr];
        && pending == old(pending)[addr := StrictlyPayable(l, currentState.Balance(addr), currentMaxGas)]
        && Collected(invalids) == Invalidated(l, currentState.Balance(addr), currentMaxGas)
      ensures Movable(invalids, addr, At(queue, addr)) && Movable(invalids, addr, At(pending, addr))
    {
      hide Partition, TxLookup.Valid, Heaps.IsHeap, TxPricedList.Owing, Distinct, Elements, Unpayable,
        StrictlyPayable, Invalidated, Movable, Collected, Ascending, At;
      var list: List := pending[addr];
      var balance := currentState.Balance(addr);
      var drops := Ascending(Unpayable(list, balance, currentMaxGas));
      invalids := Ascending(Invalidated(list, balance, currentMaxGas));
      FilteredFacts(pending, queue, all.locals, all.remotes, addr, balance, currentMaxGas, drops, invalids);
      pending := pending[addr := StrictlyPayable(list, balance, currentMaxGas)];
      ForgetAll(drops, owed);
      dropped := |drops|;
    }

    lemma FilteredFacts(p: Accounts, q: Accounts, locals: set<Tx>, remotes: set<Tx>, a: Address,
                        balance: nat, maxGas: nat, drops: seq<Tx>, invalids: seq<Tx>)
      requires Partition(p, q, locals + remotes) && a in p
      requires drops == Ascending(Unpayable(p[a], balance, maxGas))
      requires invalids == Ascending(Invalidated(p[a], balance, maxGas))
      ensures var p' := p[a := StrictlyPayable(p[a], balance, maxGas)];
        && Elements(invalids) <= (locals - Elements(drops)) + (remotes - Elements(drops))
        && Partition(p', q, (locals - Elements(drops)) + (remotes - Elements(drops)) - Elements(invalids))
        && Movable(invalids, a, At(q, a)) && Movable(invalids, a, At(p', a))
      ensures Collected(invalids) == Invalidated(p[a], balance, maxGas)
      ensures Distinct(drops) && forall tx :: tx in drops ==> tx in locals + remotes
    {
      FilteredPartition(p, q, locals, remotes, a, balance, maxGas);
      AscendingDistinct(Unpayable(p[a], balance, maxGas));
      AscendingDistinct(Invalidated(p[a], balance, maxGas));
      assert forall tx :: tx in drops ==> tx in Elements(drops);
    }

    /** Drops what is older than the state from a pending list. */
    method DropOldPending(addr: Address) returns (dropped: nat)
      requires Settled() && priced.Valid() && addr in pending
      modifies this`pending, all
      ensures Settled() && priced.Owing(dropped)
      ensures pending == old(pending)[addr := AtLeast(old(pending)[addr], currentState.Nonce(addr))]
      ensures all.locals <= old(all.locals) && all.remotes <= old(all.remotes)
    {
      hide Settled, Divided, TxPricedList.Owing, TxPricedList.Popped, Elements, Distinct, AtLeast, Below;
      var list: List := pending[addr];
      var olds := Ascending(Below(list, currentState.Nonce(addr)));
      PendingListKeyed(addr);
      ForwardDivides(list, currentState.Nonce(addr));
      BelowDistinct(list, currentState.Nonce(addr));
      StraightBooks();
      ShedPending(addr, AtLeast(list, currentState.Nonce(addr)), olds, 0);
      dropped := |olds|;
    }

    lemma PendingListKeyed(addr: Address)
      requires Settled() && addr in pending
      ensures Keyed(pending[addr])
    {
      ProperKeyed(pending, addr);
    }

    /** Removes old and unpayable transactions of one account and postpones the invalidated. */
    method DemoteFilter(addr: Address)
      requires Steady() && addr in pending
      modifies this`pending, this`queue, this`beats, this`missing, all, priced`remotes, priced`stales
      ensures Settled() && priced.Valid() && NoEmptyList(queue)
      ensures all.locals <= old(all.locals) && all.remotes <= old(all.remotes)
      ensures var top := AtLeast(old(pending)[addr], currentState.Nonce(addr));
        && pending == old(pending)[addr := StrictlyPayable(top, currentState.Balance(addr), currentMaxGas)]
        && queue == Merged(old(queue), addr, Invalidated(top, currentState.Balance(addr), currentMaxGas))
    {
      hide Settled, Consistent, TxPricedList.Owing, TxPricedList.Popped, Elements, AtLeast, StrictlyPayable,
        Invalidated, Movable, Collected, Merged, NoEmptyList;
      Settles();
      var olds := DropOldPending(addr);
      var drops, invalids := FilterPending(addr, olds);
      TellRemovedInTransit(olds + drops, Elements(invalids));
      Requeue(addr, invalids, Elements(invalids));
      assert Elements(invalids) - Elements(invalids) == {};
      MergedNonempty(old(queue), addr, Collected(invalids));
      Settles();
    }

    method TellRemovedInTransit(count: nat, ghost transit: set<Tx>)
      requires Consistent(transit) && priced.Owing(count)
      modifies priced`remotes, priced`stales
      ensures Consistent(transit) && priced.Valid()
    {
      hide Partition, TxLookup.Valid, Heaps.IsHeap, Covered;
      priced.Removed(count);
    }

    /** Moves a whole pending list to the queue: the branch for a gap in front. */
    method PostponeGapped(addr: Address)
      requires Settled() && addr in pending && priced.Valid() && NoEmptyList(queue)
      modifies this`pending, this`queue, this`beats, this`missing, all, priced`remotes, priced`stales
      ensures Settled() && priced.Valid() && NoEmptyList(queue)
      ensures all.locals == old(all.locals) && all.remotes == old(all.remotes)
      ensures pending == old(pending)[addr := map[]]
      ensures queue == Merged(old(queue), addr, old(pending)[addr])
    {
      hide Partition, TxLookup.Valid, Heaps.IsHeap, Movable, Collected, Merged, NoEmptyList, CapDrops, At, Elements,
        TxPricedList.Popped;
      var gapped := CapDrops(pending[addr], 0);
      GappedFacts(addr, gapped);
      pending := pending[addr := map[]];
      Requeue(addr, gapped, Elements(gapped));
      assert Elements(gapped) - Elements(gapped) == {};
      MergedNonempty(old(queue), addr, Collected(gapped));
      Settles();
    }

    lemma GappedFacts(addr: Address, gapped: seq<Tx>)
      requires Settled() && addr in pending && gapped == CapDrops(pending[addr], 0)
      ensures Elements(gapped) <= all.All()
      ensures Partition(pending[addr := map[]], queue, all.All() - Elements(gapped))
      ensures Movable(gapped, addr, At(queue, addr)) && Movable(gapped, addr, At(pending[addr := map[]], addr))
      ensures Collected(gapped) == pending[addr]
    {
      GappedPartition(pending, queue, all.locals + all.remotes, addr, Elements(gapped));
    }

    method DeletePendingIfEmpty(addr: Address, ghost was: Accounts, ghost l: List)
      requires Settled() && pending == was[addr := l]
      modifies this`pending
      ensures Settled() && pending == With(was, addr, l)
    {
      hide Partition, TxLookup.Valid, Heaps.IsHeap, With;
      TidiedPending(pending, queue, all.locals + all.remotes, addr);
      WithIs(was, addr, l);
      if |pending[addr]| == 0 {
        pending := pending - {addr};
      }
    }

    /** Demotes one account: old and unpayable transactions go, what they invalidate is postponed,
        and if there is then a gap in front, so is all the rest. */
    method DemoteAccount(addr: Address)
      requires Steady() && addr in pending
      modifies this`pending, this`queue, this`beats, this`missing, all, priced`remotes, priced`stales
      ensures Steady()
      ensures all.locals <= old(all.locals) && all.remotes <= old(all.remotes)
      ensures var l, nonce, balance := old(pending)[addr], currentState.Nonce(addr), currentState.Balance(addr);
        var kept := Executing(l, nonce, balance, currentMaxGas);
        var after := Invalidated(AtLeast(l, nonce), balance, currentMaxGas);
        if Gapped(l, nonce, balance, currentMaxGas) then
          && pending == With(old(pending), addr, map[])
          && queue == Merged(Merged(old(queue), addr, after), addr, kept)
        else
          && pending == With(old(pending), addr, kept)
          && queue == Merged(old(queue), addr, after)
    {
      hide Settled, Consistent, TxPricedList.Popped, AtLeast, StrictlyPayable, Invalidated, Merged, With, NoEmptyList;
      DemoteFilter(addr);
      ghost var kept := pending[addr];
      WithNonempty(old(pending), addr, kept);
      WithNonempty(old(pending), addr, map[]);
      if |pending[addr]| > 0 && currentState.Nonce(addr) !in pending[addr] {
        PostponeGapped(addr);
        DeletePendingIfEmpty(addr, old(pending), map[]);
      } else {
        DeletePendingIfEmpty(addr, old(pending), kept);
      }
      Settles();
    }

    /** What becomes of an account's two lists when it is demoted. */
    ghost function PendingAfter(addr: Address): List
      reads this
    {
      DemotedPending(At(pending, addr), currentState.Nonce(addr), currentState.Balance(addr), currentMaxGas)
    }

    ghost function QueueAfter(addr: Address): List
      reads this
    {
      DemotedQueue(At(pending, addr), At(queue, addr), currentState.Nonce(addr), currentState.Balance(addr),
                   currentMaxGas)
    }

    method DemoteNext(addr: Address)
      requires Steady() && addr in pending
      modifies this`pending, this`queue, this`beats, this`missing, all, priced`remotes, priced`stales
      ensures Steady()
      ensures all.locals <= old(all.locals) && all.remotes <= old(all.remotes)
      ensures At(pending, addr) == old(PendingAfter(addr)) && At(queue, addr) == old(QueueAfter(addr))
      ensures forall b :: b != addr ==>
        && At(pending, b) == old(At(pending, b)) && At(queue, b) == old(At(queue, b))
        && (b in old(pending) ==> b in pending)
        && PendingAfter(b) == old(PendingAfter(b)) && QueueAfter(b) == old(QueueAfter(b))
    {
      hide Steady, AtLeast, Invalidated, Executing, Gapped, DemotedPending, DemotedQueue, Merged, With, At;
      ghost var l, nonce, balance := pending[addr], currentState.Nonce(addr), currentState.Balance(addr);
      PresentAt(pending, addr);
      DemoteAccount(addr);
      DemotedAts(old(pending), old(queue), pending, queue, addr, l, nonce, balance, currentMaxGas);
    }

    static lemma DemotedAts(p0: Accounts, q0: Accounts, p: Accounts, q: Accounts, a: Address,
                            l: List, nonce: nat, balance: nat, maxGas: nat)
      requires var kept, after := Executing(l, nonce, balance, maxGas), Invalidated(AtLeast(l, nonce), balance, maxGas);
        if Gapped(l, nonce, balance, maxGas)
        then p == With(p0, a, map[]) && q == Merged(Merged(q0, a, after), a, kept)
        else p == With(p0, a, kept) && q == Merged(q0, a, after)
      ensures At(p, a) == DemotedPending(l, nonce, balance, maxGas)
      ensures At(q, a) == DemotedQueue(l, At(q0, a), nonce, balance, maxGas)
      ensures forall b :: b != a ==> At(p, b) == At(p0, b) && At(q, b) == At(q0, b) && (b in p0 ==> b in p)
    {
      hide Merged, With, At, Executing, Gapped, AtLeast, Invalidated;
      var kept, after := Executing(l, nonce, balance, maxGas), Invalidated(AtLeast(l, nonce), balance, maxGas);
      MergedAt(q0, a, after);
      MergedAt(Merged(q0, a, after), a, kept);
      WithAts(p0, a, DemotedPending(l, nonce, balance, maxGas));
      WithOthers(p0, a, DemotedPending(l, nonce, balance, maxGas));
      assert At(q0, a) + after + map[] == At(q0, a) + after;
    }

    lemma InStepAgain(addr: Address)
      requires Caught(At(pending, addr), currentState.Nonce(addr), pendingNonces.Value(addr),
                      currentState.Balance(addr), currentMaxGas)
      ensures Aligned(PendingAfter(addr), currentState.Nonce(addr), pendingNonces.Value(addr))
    {
      hide Aligned, Caught, DemotedPending;
      DemotedAligned(At(pending, addr), currentState.Nonce(addr), pendingNonces.Value(addr),
                     currentState.Balance(addr), currentMaxGas);
    }

    method DemoteStep(addr: Address, ghost done: set<Address>)
      requires Steady() && addr in pending && addr !in done
      modifies this`pending, this`queue, this`beats, this`missing, all, priced`remotes, priced`stales
      ensures Steady() && (old(Demoting(done)) ==> Demoting(done + {addr}))
      ensures all.locals <= old(all.locals) && all.remotes <= old(all.remotes)
      ensures At(pending, addr) == old(PendingAfter(addr)) && At(queue, addr) == old(QueueAfter(addr))
      ensures forall b :: b != addr ==>
        && At(pending, b) == old(At(pending, b)) && At(queue, b) == old(At(queue, b))
        && (b in old(pending) ==> b in pending)
        && PendingAfter(b) == old(PendingAfter(b)) && QueueAfter(b) == old(QueueAfter(b))
    {
      hide Steady, At, PendingAfter, QueueAfter, Caught, Aligned, Lagging;
      if Demoting(done) {
        assert Caught(At(pending, addr), currentState.Nonce(addr), pendingNonces.Value(addr),
                      currentState.Balance(addr), currentMaxGas);
        InStepAgain(addr);
      }
      DemoteNext(addr);
    }

    lemma DemotingNone()
      ensures CatchingUp({}) ==> Demoting({})
    {
    }

    /** Demotes every account with pending transactions. After a reset to a state that extends the
        old one this leaves no gaps. */
    method DemoteUnexecutables()
      requires Steady()
      modifies this`pending, this`queue, this`beats, this`missing, all, priced`remotes, priced`stales
      ensures Steady() && (old(CatchingUp({})) ==> AllAligned())
      ensures all.locals <= old(all.locals) && all.remotes <= old(all.remotes)
      ensures forall a :: a in old(pending) ==>
        At(pending, a) == old(PendingAfter(a)) && At(queue, a) == old(QueueAfter(a))
      ensures forall a :: a !in old(pending) ==>
        At(pending, a) == old(At(pending, a)) && At(queue, a) == old(At(queue, a))
    {
      hide Steady, At, PendingAfter, QueueAfter, CatchingUp, Demoting, AllAligned, AddressesOf;
      NoAddresses();
      AbsentAt(pending);
      DemotingNone();
      var accounts := ListKeys(pending.Keys);
      ghost var done: set<Address> := {};
      for i := 0 to |accounts|
        invariant Steady() && done == AddressesOf(accounts[..i])
        invariant old(CatchingUp({})) ==> Demoting(done)
        invariant all.locals <= old(all.locals) && all.remotes <= old(all.remotes)
        invariant forall a :: a in accounts[i..] ==> a in pending
        invariant forall a :: a in accounts[..i] ==>
          At(pending, a) == old(PendingAfter(a)) && At(queue, a) == old(QueueAfter(a))
        invariant forall a :: a !in accounts[..i] ==>
          && At(pending, a) == old(At(pending, a)) && At(queue, a) == old(At(queue, a))
          && PendingAfter(a) == old(PendingAfter(a)) && QueueAfter(a) == old(QueueAfter(a))
      {
        ListStep(accounts, i);
        DemoteStep(accounts[i], done);
        done := done + {accounts[i]};
      }
      assert accounts[..|accounts|] == accounts;
      AddressesOfList(accounts, old(pending).Keys);
      if old(CatchingUp({})) { AlignedElsewhere(done); }
    }

    lemma AlignedElsewhere(done: set<Address>)
      requires Demoting(done) && forall a :: a !in done ==> At(pending, a) == map[]
      ensures AllAligned()
    {
    }

    /** Takes the top transaction off a pending list that has more than one. */
    method CapOne(addr: Address, ghost p0: Accounts, ghost v0: Address -> nat)
      requires Steady() && addr in pending && |pending[addr]| > 1 && NoncesCut(p0, v0)
      modifies this`pending, all, priced`remotes, priced`stales, pendingNonces
      ensures Steady() && (old(AllAligned()) ==> AllAligned())
      ensures pending == Shortened(old(pending), addr) && NoncesCut(p0, v0)
      ensures all.locals <= old(all.locals) && all.remotes <= old(all.remotes)
    {
      hide Settled, Consistent, TxPricedList.Owing, TxPricedList.Popped, Divided, Distinct, Elements, Capped, CapDrops,
        Aligned, NoEmptyList, LoweredAll, TxNoncer.Values;
      var l: List := pending[addr];
      var caps := CapDrops(l, |l| - 1);
      ghost var v := pendingNonces.Values();
      ValuesAre();
      Settles();
      PendingListKeyed(addr);
      CapDivides(l, |l| - 1);
      CapsDistinct(l, |l| - 1);
      CappedWithin(l, |l| - 1);
      StraightBooks();
      ShedPending(addr, Capped(l, |l| - 1), caps, 0);
      CapsTop(l);
      LowerNonce(addr, caps);
      ValuesAre();
      LoweredTop(p0, v0, old(pending), v, addr, Greatest(l.Keys), pendingNonces.Values());
      TellRemoved(|caps|);
      ReplacedNonempty(old(pending), addr, Capped(l, |l| - 1));
      Settles();
      if old(AllAligned()) {
        assert old(Aligned(At(pending, addr), currentState.Nonce(addr), pendingNonces.Value(addr)));
        CappedAligned(l, currentState.Nonce(addr), old(pendingNonces.Value(addr)), pendingNonces.Value(addr));
      }
    }

    method LowerNonce(addr: Address, txs: seq<Tx>)
      modifies pendingNonces
      ensures forall b :: b != addr ==> pendingNonces.Value(b) == old(pendingNonces.Value(b))
      ensures pendingNonces.Value(addr) == LowestOf(old(pendingNonces.Value(addr)), txs)
    {
      for i := 0 to |txs|
        invariant forall b :: b != addr ==> pendingNonces.Value(b) == old(pendingNonces.Value(b))
        invariant pendingNonces.Value(addr) == LowestOf(old(pendingNonces.Value(addr)), txs[..i])
      {
        assert txs[..i + 1][..i] == txs[..i];
        pendingNonces.SetIfLower(addr, txs[i].nonce);
      }
      assert txs[..|txs|] == txs;
    }

    /** One sweep over some offenders. */
    method SweepLists(addrs: seq<Address>, ghost p0: Accounts, ghost v0: Address -> nat)
      requires Steady() && Distinct(addrs) && NoncesCut(p0, v0)
      requires forall a :: a in addrs ==> a in pending && Len(pending, a) > 1
      modifies this`pending, all, priced`remotes, priced`stales, pendingNonces
      ensures Steady() && (old(AllAligned()) ==> AllAligned())
      ensures Swept(old(pending), pending, addrs, |addrs|) && NoncesCut(p0, v0)
      ensures all.locals <= old(all.locals) && all.remotes <= old(all.remotes)
    {
      hide Steady, NoncesCut, AllAligned, Swept, Shortened, Distinct;
      SweptNone(pending, addrs);
      for i := 0 to |addrs|
        invariant Steady() && (old(AllAligned()) ==> AllAligned())
        invariant Swept(old(pending), pending, addrs, i) && NoncesCut(p0, v0)
        invariant all.locals <= old(all.locals) && all.remotes <= old(all.remotes)
      {
        SweptOneMore(old(pending), pending, addrs, i);
        CapOne(addrs[i], p0, v0);
      }
    }

    /** Between two steps of the first loop of `TruncatePending`. */
    ghost predicate Truncating(p0: Accounts, v0: Address -> nat, offenders: seq<Address>, left: set<Address>,
                               level: nat)
      reads this, pendingNonces
    {
      && Popping(p0, pending, locals, config.accountSlots, offenders, left)
      && Levelled(p0, pending, config.accountSlots, offenders, left, level)
      && Close(p0, pending, config.globalSlots)
      && NoncesCut(p0, v0)
    }

    /** The equalising loop: brings the offenders before the last down to the length of the last,
        or until the limit is reached. */
    method Equalise(total: nat, offenders: seq<Address>, ghost p0: Accounts, ghost v0: Address -> nat,
                    ghost left: set<Address>, ghost level: nat)
      returns (total': nat, ghost level': nat)
      requires Steady() && total == Total(pending) && |offenders| > 1
      requires Truncating(p0, v0, offenders, left, level)
      modifies this`pending, all, priced`remotes, priced`stales, pendingNonces
      ensures Steady() && (old(AllAligned()) ==> AllAligned())
      ensures total' == Total(pending) && Truncating(p0, v0, offenders, left, level')
      ensures total' > config.globalSlots ==> level' == Len(pending, offenders[|offenders| - 1])
      ensures all.locals <= old(all.locals) && all.remotes <= old(all.remotes)
    {
      hide Steady, NoncesCut, AllAligned, CutFrom, Swept, Close, Capped, Total;
      total', level' := total, level;
      var threshold := Len(pending, offenders[|offenders| - 1]);
      while total' > config.globalSlots && Len(pending, offenders[|offenders| - 2]) > threshold
        invariant Steady() && (old(AllAligned()) ==> AllAligned()) && total' == Total(pending)
        invariant Truncating(p0, v0, offenders, left, level') && threshold == Len(pending, offenders[|offenders| - 1])
        invariant all.locals <= old(all.locals) && all.remotes <= old(all.remotes)
        decreases level'
      {
        ghost var was := pending;
        ghost var group := offenders[..|offenders| - 1];
        GroupCuttable(p0, pending, locals, config.accountSlots, offenders, left, level');
        SweepLists(offenders[..|offenders| - 1], p0, v0);
        SweptTotal(was, pending, group);
        SweptLevelled(p0, was, pending, locals, config.accountSlots, offenders, left, level');
        ClosePopping(p0, was, pending, locals, config.accountSlots, offenders, left, group, config.globalSlots);
        total', level' := total' - (|offenders| - 1), level' - 1;
      }
      assert Len(pending, offenders[|offenders| - 2]) == level';
    }

    /** One turn of the first loop: takes up the longest list left and brings those before it down
        to its length. */
    method PopAndEqualise(total: nat, offenders: seq<Address>, spammers: set<Address>,
                          ghost p0: Accounts, ghost v0: Address -> nat, ghost level: nat)
      returns (total': nat, offenders': seq<Address>, spammers': set<Address>, ghost level': nat)
      requires Steady() && total == Total(pending) && total > config.globalSlots && spammers != {}
      requires Truncating(p0, v0, offenders, spammers, level)
      requires |offenders| > 0 ==> level == Len(pending, offenders[|offenders| - 1])
      modifies this`pending, all, priced`remotes, priced`stales, pendingNonces
      ensures Steady() && (old(AllAligned()) ==> AllAligned()) && total' == Total(pending)
      ensures Truncating(p0, v0, offenders', spammers', level') && |offenders'| > 0 && |spammers'| < |spammers|
      ensures total' > config.globalSlots ==> level' == Len(pending, offenders'[|offenders'| - 1])
      ensures all.locals <= old(all.locals) && all.remotes <= old(all.remotes)
    {
      hide Steady, NoncesCut, AllAligned, CutFrom, Swept, Close, Capped, Total, Popping, Levelled;
      var offender := PopLongest(pending, spammers);
      PopStep(p0, pending, locals, config.accountSlots, offenders, spammers, level, offender);
      level' := if |offenders| > 0 then level else Len(pending, offender);
      total', offenders', spammers' := total, offenders + [offender], spammers - {offender};
      if |offenders'| > 1 {
        total', level' := Equalise(total', offenders', p0, v0, spammers', level');
      }
    }

    /** The last loop: brings all offenders down together, to the limit or the guaranteed slots. */
    method Reduce(total: nat, offenders: seq<Address>, ghost p0: Accounts, ghost v0: Address -> nat, ghost level: nat)
      requires Steady() && total == Total(pending) && |offenders| > 0
      requires Popping(p0, pending, locals, config.accountSlots, offenders, {}) && Flat(pending, offenders, level)
      requires config.accountSlots <= level && Close(p0, pending, config.globalSlots) && config.globalSlots < Total(p0)
      requires NoncesCut(p0, v0)
      modifies this`pending, all, priced`remotes, priced`stales, pendingNonces
      ensures Steady() && (old(AllAligned()) ==> AllAligned())
      ensures Truncated(p0, pending, locals, config.accountSlots, config.globalSlots) && NoncesCut(p0, v0)
      ensures all.locals <= old(all.locals) && all.remotes <= old(all.remotes)
    {
      hide Steady, NoncesCut, AllAligned, CutFrom, Swept, Close, Capped, Total, Truncated, Flat;
      var total' := total;
      ghost var level' := level;
      FlatLast(pending, offenders, level');
      while total' > config.globalSlots && Len(pending, offenders[|offenders| - 1]) > config.accountSlots
        invariant Steady() && (old(AllAligned()) ==> AllAligned()) && total' == Total(pending)
        invariant Popping(p0, pending, locals, config.accountSlots, offenders, {}) && Flat(pending, offenders, level')
        invariant Len(pending, offenders[|offenders| - 1]) == level' && config.accountSlots <= level'
        invariant Close(p0, pending, config.globalSlots) && NoncesCut(p0, v0)
        invariant all.locals <= old(all.locals) && all.remotes <= old(all.remotes)
        decreases level'
      {
        ghost var was := pending;
        FlatCuttable(pending, offenders, level');
        SweepLists(offenders, p0, v0);
        SweptTotal(was, pending, offenders);
        SweptFlat(p0, was, pending, locals, config.accountSlots, offenders, level');
        ClosePopping(p0, was, pending, locals, config.accountSlots, offenders, {}, offenders, config.globalSlots);
        total', level' := total' - |offenders|, level' - 1;
        FlatLast(pending, offenders, level');
      }
      TruncatedFlat(p0, pending, locals, config.accountSlots, config.globalSlots, offenders, level');
    }

    /** Cuts pending lists until the pool is within its global slots: the longest lists of remote
        accounts first, evenly, and never below the slots guaranteed to an account. */
    method TruncatePending()
      requires Steady()
      modifies this`pending, all, priced`remotes, priced`stales, pendingNonces
      ensures Steady() && (old(AllAligned()) ==> AllAligned())
      ensures Truncated(old(pending), pending, locals, config.accountSlots, config.globalSlots)
      ensures NoncesCut(old(pending), old(pendingNonces.Values()))
      ensures all.locals <= old(all.locals) && all.remotes <= old(all.remotes)
    {
      hide Steady, NoncesCut, AllAligned, CutFrom, Swept, Close, Capped, Total, Truncated, Popping, Levelled;
      ghost var p0, v0 := pending, pendingNonces.Values();
      NothingCut();
      var total := CountAll(pending);
      if total <= config.globalSlots {
        NotTruncated(pending, locals, config.accountSlots, config.globalSlots);
        return;
      }
      var spammers := set a | a in pending && a !in locals && |pending[a]| > config.accountSlots;
      var offenders: seq<Address> := [];
      ghost var level: nat := 0;
      TruncationStart(pending, locals, config.accountSlots, config.globalSlots, spammers);
      while total > config.globalSlots && spammers != {}
        invariant Steady() && (old(AllAligned()) ==> AllAligned()) && total == Total(pending)
        invariant Truncating(p0, v0, offenders, spammers, level)
        invariant total > config.globalSlots && |offenders| > 0 ==> level == Len(pending, offenders[|offenders| - 1])
        invariant all.locals <= old(all.locals) && all.remotes <= old(all.remotes)
        decreases |spammers|
      {
        total, offenders, spammers, level := PopAndEqualise(total, offenders, spammers, p0, v0, level);
      }
      if total <= config.globalSlots {
        TruncatedEarly(p0, pending, locals, config.accountSlots, config.globalSlots, offenders, spammers, level);
      } else if |offenders| > 0 {
        LevelIsFlat(p0, pending, locals, config.accountSlots, offenders, level);
        Reduce(total, offenders, p0, v0, level);
      } else {
        TruncatedFlat(p0, pending, locals, config.accountSlots, config.globalSlots, offenders, config.accountSlots);
      }
    }

    /** Removes one queued transaction. */
    method RemoveQueued(tx: Tx)
      requires Steady() && Has(queue, tx)
      modifies this`pending, this`queue, this`beats, this`missing, all, priced`remotes, priced`stales, pendingNonces
      ensures Steady() && pending == old(pending)
      ensures queue == With(old(queue), tx.sender, At(old(queue), tx.sender) - {tx.nonce})
      ensures forall a :: pendingNonces.Value(a) == old(pendingNonces.Value(a))
      ensures all.locals <= old(all.locals) && all.remotes <= old(all.remotes)
    {
      hide Sound, With, Has, TxPricedList.Popped;
      RemoveTx(tx, true);
    }

    /** Drops all of an account's queued transactions, lowest nonce first. */
    method DropWhole(addr: Address)
      requires Steady() && addr in queue
      modifies this`pending, this`queue, this`beats, this`missing, all, priced`remotes, priced`stales, pendingNonces
      ensures Steady() && pending == old(pending)
      ensures queue == With(old(queue), addr, map[])
      ensures forall a :: pendingNonces.Value(a) == old(pendingNonces.Value(a))
      ensures all.locals <= old(all.locals) && all.remotes <= old(all.remotes)
    {
      hide Steady, With, Has, Ascending, AfterFirst;
      ghost var l := At(queue, addr);
      var txs := Ascending(At(queue, addr));
      QueueKeyed(addr);
      NothingDropped(queue, addr);
      for i := 0 to |txs|
        invariant Steady() && pending == old(pending)
        invariant queue == With(old(queue), addr, AfterFirst(l, i))
        invariant forall a :: pendingNonces.Value(a) == old(pendingNonces.Value(a))
        invariant all.locals <= old(all.locals) && all.remotes <= old(all.remotes)
      {
        FirstOf(old(queue), addr, i, queue);
        RemoveQueued(txs[i]);
      }
      AllDropped(l);
    }

    /** Drops the last `n` of an account's queued transactions, highest nonce first. */
    method DropLast(addr: Address, n: nat)
      requires Steady() && addr in queue && n <= Len(queue, addr)
      modifies this`pending, this`queue, this`beats, this`missing, all, priced`remotes, priced`stales, pendingNonces
      ensures Steady() && pending == old(pending)
      ensures queue == With(old(queue), addr, Capped(At(old(queue), addr), Len(old(queue), addr) - n))
      ensures forall a :: pendingNonces.Value(a) == old(pendingNonces.Value(a))
      ensures all.locals <= old(all.locals) && all.remotes <= old(all.remotes)
    {
      hide Steady, With, Has, Ascending, Capped;
      ghost var l := At(queue, addr);
      var txs := Ascending(At(queue, addr));
      QueueKeyed(addr);
      NothingCapped(queue, addr);
      var i := |txs|;
      while |txs| - i < n
        invariant |txs| - n <= i <= |txs| == |l|
        invariant Steady() && pending == old(pending)
        invariant queue == With(old(queue), addr, Capped(l, i))
        invariant forall a :: pendingNonces.Value(a) == old(pendingNonces.Value(a))
        invariant all.locals <= old(all.locals) && all.remotes <= old(all.remotes)
      {
        i := i - 1;
        LastOf(old(queue), addr, i, queue);
        RemoveQueued(txs[i]);
      }
    }

    lemma QueueKeyed(addr: Address)
      requires Steady()
      ensures Proper(queue) && Keyed(At(queue, addr)) && (addr in queue ==> |queue[addr]| > 0)
    {
      ProperKeyed(queue, addr);
    }

    /** Drops queued transactions of remote accounts until the queue is within its limit. Pending
        transactions and virtual nonces are untouched. */
    method TruncateQueue()
      requires Steady()
      modifies this`pending, this`queue, this`beats, this`missing, all, priced`remotes, priced`stales, pendingNonces
      ensures Steady() && pending == old(pending)
      ensures forall a :: pendingNonces.Value(a) == old(pendingNonces.Value(a))
      ensures QueueTruncated(old(queue), queue, locals, config.globalQueue, old(beats))
      ensures all.locals <= old(all.locals) && all.remotes <= old(all.remotes)
    {
      hide Steady, With, Emptying, QueueTruncated, Capped, Total, Distinct;
      var queued := CountAll(queue);
      ghost var beats0 := beats;
      if queued <= config.globalQueue {
        QueueFits(queue, locals, config.globalQueue, beats0);
        return;
      }
      var addresses := ByHeartbeat(queue, locals, beats);
      var drop: nat := queued - config.globalQueue;
      EmptyingStart(queue, locals, addresses, drop, beats0);
      while drop > 0 && |addresses| > 0
        invariant Steady() && pending == old(pending)
        invariant forall a :: pendingNonces.Value(a) == old(pendingNonces.Value(a))
        invariant Emptying(old(queue), queue, locals, addresses, drop, queued - config.globalQueue, beats0)
        invariant all.locals <= old(all.locals) && all.remotes <= old(all.remotes)
        decreases |addresses|
      {
        var addr := addresses[|addresses| - 1];
        LastInLine(old(queue), queue, locals, addresses, drop, queued - config.globalQueue, beats0);
        var size := |queue[addr]|;
        if size <= drop {
          EmptyingStep(old(queue), queue, locals, addresses, drop, queued - config.globalQueue, beats0, 0);
          CappedNone(queue[addr]);
          DropWhole(addr);
          drop := drop - size;
        } else {
          EmptyingStep(old(queue), queue, locals, addresses, drop, queued - config.globalQueue, beats0, size - drop);
          DropLast(addr, drop);
          drop := 0;
        }
        addresses := addresses[..|addresses| - 1];
      }
      EmptyingDone(old(queue), queue, locals, addresses, drop, beats0, config.globalQueue);
    }

    /** Sets every account with pending transactions to the nonce after its last. */
    method RaiseNonces()
      requires NoEmptyList(pending)
      modifies pendingNonces
      ensures forall a :: a !in pending ==> pendingNonces.Value(a) == old(pendingNonces.Value(a))
      ensures forall a :: pendingNonces.Value(a) == NextNonce(At(pending, a), old(pendingNonces.Value(a)))
      ensures old(AllAligned()) ==> Synced()
    {
      hide Aligned, InStep;
      var accounts := ListKeys(pending.Keys);
      for i := 0 to |accounts|
        invariant forall a :: a in accounts[..i] ==> pendingNonces.Value(a) == Greatest(pending[a].Keys) + 1
        invariant forall a :: a !in accounts[..i] ==> pendingNonces.Value(a) == old(pendingNonces.Value(a))
      {
        ListStep(accounts, i);
        pendingNonces.Set(accounts[i], Greatest(pending[accounts[i]].Keys) + 1);
      }
      assert accounts[..|accounts|] == accounts;
      if old(AllAligned()) {
        forall a ensures InStep(At(pending, a), currentState.Nonce(a), pendingNonces.Value(a)) {
          assert old(Aligned(At(pending, a), currentState.Nonce(a), pendingNonces.Value(a)));
          RaisedInStep(At(pending, a), currentState.Nonce(a), old(pendingNonces.Value(a)));
        }
      }
    }

    /** Just after a reset to a later state: the pending runs may start too early. */
    ghost predicate AllLagging()
      reads this, pendingNonces
    {
      forall a :: Lagging(At(pending, a), currentState.Nonce(a), pendingNonces.Value(a))
    }

    lemma LaggingCatchesUp(todo: set<Address>)
      ensures AllLagging() ==> CatchingUp(todo)
    {
      hide Lagging, Caught, At;
      if AllLagging() {
        forall a ensures
          Caught(At(pending, a), currentState.Nonce(a), pendingNonces.Value(a), currentState.Balance(a), currentMaxGas)
        {
          LaggingIsCaught(At(pending, a), currentState.Nonce(a), pendingNonces.Value(a), currentState.Balance(a),
                          currentMaxGas);
        }
      }
    }

    lemma SyncedIsAligned()
      ensures Synced() ==> AllAligned()
    {
    }

    /** Takes up a new chain state, forgetting the virtual nonces. */
    method SwitchState(state: ChainState, maxGas: nat)
      requires Steady()
      modifies this`currentState, this`currentMaxGas, this`pendingNonces
      ensures Steady() && currentState == state && currentMaxGas == maxGas
      ensures fresh(pendingNonces) && forall a :: pendingNonces.Value(a) == state.Nonce(a)
      ensures Renewed(old(Contents()), state, Contents())
      ensures old(Synced()) && (forall a :: old(currentState).Nonce(a) <= state.Nonce(a)) ==> AllLagging()
    {
      hide At, Partition, NoEmptyList, TxLookup.Valid, Heaps.IsHeap, TxPricedList.Popped;
      ghost var was := currentState;
      currentState, currentMaxGas := state, maxGas;
      pendingNonces := new TxNoncer(state);
      if old(Synced()) && forall a :: was.Nonce(a) <= state.Nonce(a) {
        forall a ensures Lagging(At(pending, a), state.Nonce(a), state.Nonce(a)) {
          assert old(InStep(At(pending, a), currentState.Nonce(a), pendingNonces.Value(a)));
          assert was.Nonce(a) <= state.Nonce(a) && Contiguous(At(pending, a), was.Nonce(a));
        }
      }
    }

    /** Adds transactions that are not local. They can push out remote transactions, though none
        while there is room for all of them, and otherwise only ones that they better. */
    method AddAll(txs: seq<Tx>, gasPriceActive: bool, checks: Tx -> Checks)
      returns (outcomes: seq<Outcome>, ghost stages: seq<Stage>)
      requires Steady()
      modifies this`locals, this`pending, this`queue, this`beats, this`missing, all, priced, pendingNonces
      ensures Steady() && (old(Synced()) ==> Synced()) && locals == old(locals)
      ensures Staged(old(RulesNow(gasPriceActive)), old(Contents()), txs, checks, stages, Contents())
      ensures |outcomes| == |txs| == |stages| && forall i :: 0 <= i < |txs| ==> outcomes[i] == stages[i].outcome
      ensures all.All() <= old(all.All()) + Elements(txs)
      ensures NoHigher(old(pendingNonces.Values()), pendingNonces.Values(), old(Roomy(txs)))
      ensures forall tx :: tx in all.All() - old(all.All()) ==> Taken(tx, txs, outcomes)
      ensures Accounted(old(all.All()), old(all.remotes), all.All(), all.locals, txs, config.priceBump,
                        old(Roomy(txs)))
      ensures old(Roomy(txs)) ==>
        Offered(old(RulesNow(gasPriceActive)), old(Contents()), txs, checks, all.All())
      ensures txs == [] ==> pending == old(pending) && queue == old(queue) && all.All() == old(all.All())
      ensures txs == [] ==> priced.history == old(priced.history)
      ensures priced.history.seen <= old(priced.history.seen) + Elements(txs)
      ensures old(Modest()) && Newcomers(txs, old(priced.history.seen), old(locals)) ==> Modest()
      ensures txs == [] && old(AllLagging()) ==> AllLagging()
    {
      hide *;
      outcomes, stages := [], [];
      ghost var all0, remotes0, roomy := all.All(), all.remotes, Roomy(txs);
      ghost var rules, start := RulesNow(gasPriceActive), Contents();
      ghost var modest := Modest() && Newcomers(txs, priced.history.seen, locals);
      SteadyFacts();
      SoundFacts();
      RoomyIs(txs);
      AccountedNone(all.locals, remotes0, config.priceBump, roomy);
      NoHigherYet(pendingNonces.Values(), pendingNonces.Values(), pendingNonces.Values(), roomy);
      StagedNone(rules, start, txs, checks);
      RulesAre(gasPriceActive);
      AllIs();
      ContentsAre();
      for i := 0 to |txs|
        invariant Steady() && (old(Synced()) ==> Synced()) && locals == old(locals)
        invariant |outcomes| == |stages| == i && |all.All()| <= |all0| + i
        invariant priced.history.seen <= old(priced.history.seen) + Elements(txs[..i]) && (modest ==> Modest())
        invariant forall j :: 0 <= j < i ==> outcomes[j] == stages[j].outcome
        invariant Staged(rules, start, txs[..i], checks, stages, Contents()) && RulesNow(gasPriceActive) == rules
        invariant NoHigher(old(pendingNonces.Values()), pendingNonces.Values(), roomy)
        invariant forall tx :: tx in all.All() - all0 ==> Taken(tx, txs, outcomes)
        invariant Accounted(all0, remotes0, all.All(), all.locals, txs[..i], config.priceBump, roomy)
        invariant i == 0 ==>
          && pending == old(pending) && queue == old(queue) && all.All() == old(all.All())
          && priced.history == old(priced.history) && (old(AllLagging()) ==> AllLagging())
      {
        ghost var v, was := pendingNonces.Values(), Contents();
        ghost var stage;
        NextNewcomer(txs, i, old(priced.history.seen), priced.history.seen, locals);
        var r;
        r, stage := AddNext(txs, i, gasPriceActive, checks, all0, remotes0, roomy, outcomes);
        NoHigherYet(old(pendingNonces.Values()), v, pendingNonces.Values(), roomy);
        StagedMore(rules, start, txs, i, checks, stages, was, stage);
        RulesAre(gasPriceActive);
        outcomes, stages := outcomes + [r], stages + [stage];
      }
      assert txs[..|txs|] == txs;
      TakenFrom(txs, outcomes, all.All(), all0);
      AllIs();
      ContentsAre();
      if roomy { IsOffered(rules, start, txs, checks, stages, Contents()); }
    }

    /** One turn of the loop of `AddAll`. */
    method AddNext(txs: seq<Tx>, i: nat, gasPriceActive: bool, checks: Tx -> Checks, ghost all0: set<Tx>,
                   ghost remotes0: set<Tx>, ghost roomy: bool, ghost outcomes: seq<Outcome>)
      returns (r: Outcome, ghost stage: Stage)
      requires Steady() && i < |txs| && |outcomes| == i && |all.All()| <= |all0| + i
      requires forall tx :: tx in all.All() - all0 ==> Taken(tx, txs, outcomes)
      requires Accounted(all0, remotes0, all.All(), all.locals, txs[..i], config.priceBump, roomy)
      requires roomy ==> |all0| + i + NumSlots(txs[i]) <= config.globalSlots + config.globalQueue
      modifies this`locals, this`pending, this`queue, this`beats, this`missing
      modifies all, priced, pendingNonces
      ensures Steady() && (old(Synced()) ==> Synced()) && locals == old(locals)
      ensures Handled(old(RulesNow(gasPriceActive)), old(Contents()), txs[i], false, checks(txs[i]), stage)
      ensures stage.outcome == r && stage.now == Contents() && |all.All()| <= |all0| + i + 1
      ensures priced.history.seen <= old(priced.history.seen) + {txs[i]}
      ensures old(Modest()) && Newcomer(txs[i], false, old(priced.history.seen), old(locals)) ==> Modest()
      ensures NoHigher(old(pendingNonces.Values()), pendingNonces.Values(), roomy)
      ensures forall tx :: tx in all.All() - all0 ==> Taken(tx, txs, outcomes + [r])
      ensures Accounted(all0, remotes0, all.All(), all.locals, txs[..i + 1], config.priceBump, roomy)
    {
      hide *;
      ghost var was, rules := Contents(), RulesNow(gasPriceActive);
      SteadyFacts();
      SoundFacts();
      AllIs();
      ContentsAre();
      RulesAre(gasPriceActive);
      PutSeen(priced.history, txs[i], txs[i].sender in locals);
      CrowdedIs(config, was.All(), txs[i]);
      r, stage := Add(txs[i], false, gasPriceActive, checks(txs[i]));
      AllIs();
      ContentsAre();
      HandledIs(rules, was, txs[i], false, checks(txs[i]), stage);
      FairIs(was.remotes, stage.gone, Surplus(config, was.All(), txs[i]));
      ThinnedAll(was, stage.mid, stage.gone);
      EnteredAll(stage.mid, stage.now, txs[i], false, r.Accepted?);
      SubsetSize(stage.mid.All(), was.All());
      ContestWon(Rivals(stage.mid.All(), txs[i]), txs[i], config.priceBump);
      LoweredDown(was.pending, was.nonces, stage.mid.pending, stage.mid.nonces, roomy);
      OneMoreTaken(txs, outcomes, r, was.All(), all.All(), all0);
      AccountedMore(all0, remotes0, was, Contents(), txs, i, stage.gone, Surplus(config, was.All(), txs[i]),
                    r.Accepted?, config.priceBump, roomy);
    }

    lemma RulesAre(gasPriceActive: bool)
      ensures RulesNow(gasPriceActive) == Rules(config, gasPrice, currentState, currentMaxGas, gasPriceActive)
    {
    }

    /** There is room for all these transactions, one after the other. */
    ghost predicate Roomy(txs: seq<Tx>)
      reads all
    {
      forall i :: 0 <= i < |txs| ==> |all.All()| + i + NumSlots(txs[i]) <= config.globalSlots + config.globalQueue
    }

    lemma RoomyIs(txs: seq<Tx>)
      ensures Roomy(txs) <==>
        forall i :: 0 <= i < |txs| ==> |all.All()| + i + NumSlots(txs[i]) <= config.globalSlots + config.globalQueue
    {
    }

    /** The transaction is one of those accepted. */
    static ghost predicate Taken(tx: Tx, txs: seq<Tx>, outcomes: seq<Outcome>) {
      exists i :: 0 <= i < |outcomes| && i < |txs| && txs[i] == tx && outcomes[i].Accepted?
    }

    static lemma OneMoreTaken(txs: seq<Tx>, outcomes: seq<Outcome>, r: Outcome, was: set<Tx>, now: set<Tx>,
                              was0: set<Tx>)
      requires |outcomes| < |txs| && now <= was + if r.Accepted? then {txs[|outcomes|]} else {}
      requires forall tx :: tx in was - was0 ==> Taken(tx, txs, outcomes)
      ensures forall tx :: tx in now - was0 ==> Taken(tx, txs, outcomes + [r])
    {
      forall tx | tx in now - was0 ensures Taken(tx, txs, outcomes + [r]) {
        if tx in was {
          assert tx in was - was0;
          var i :| 0 <= i < |outcomes| && i < |txs| && txs[i] == tx && outcomes[i].Accepted?;
          assert (outcomes + [r])[i] == outcomes[i];
        } else {
          assert (outcomes + [r])[|outcomes|] == r;
        }
      }
    }

    static lemma TakenFrom(txs: seq<Tx>, outcomes: seq<Outcome>, now: set<Tx>, was0: set<Tx>)
      requires forall tx :: tx in now - was0 ==> Taken(tx, txs, outcomes)
      ensures now <= was0 + Elements(txs)
    {
      forall tx | tx in now - was0 ensures tx in Elements(txs) {
        assert Taken(tx, txs, outcomes);
      }
    }

    /** Takes up the state of a new head and reinjects what has left the chain. */
    method Reset(request: ResetRequest, view: ChainView)
      returns (ok: bool, ghost lost: seq<Tx>, ghost start: Holdings, ghost stages: seq<Stage>)
      requires Steady() && Named(view.blocks) && HasBlock(view.blocks, request.newHead)
      modifies this`currentState, this`currentMaxGas, this`pendingNonces
      modifies this`locals, this`pending, this`queue, this`beats, this`missing, all, priced
      ensures Steady() && locals == old(locals)
      ensures pendingNonces == old(pendingNonces) || fresh(pendingNonces)
      ensures !ok ==> lost == [] && pendingNonces == old(pendingNonces) && unchanged(this, all, priced, pendingNonces)
      ensures ok ==>
        view.stateAt(request.newHead) == Some(currentState) && currentMaxGas == view.gasLimit(request.newHead)
      ensures ok ==>
        && Renewed(old(Contents()), currentState, start)
        && Staged(RulesNow(view.gasPriceActive), start, lost, view.checks, stages, Contents())
      ensures ok && old(Roomy(lost)) ==>
        Offered(RulesNow(view.gasPriceActive), start, lost, view.checks, all.All())
      ensures all.All() <= old(all.All()) + Elements(lost)
      ensures priced.history.seen <= old(priced.history.seen) + Elements(lost)
      ensures old(Modest()) && Newcomers(lost, old(priced.history.seen), locals) ==> Modest()
      ensures Accounted(old(all.All()), old(all.remotes), all.All(), all.locals, lost, config.priceBump,
                        old(Roomy(lost)))
      ensures Traced(request, view) ==>
        ok && lost == Lost(view.blocks, request.oldHead.value, request.newHead)
      ensures ok ==> forall a :: pendingNonces.Value(a) <= currentState.Nonce(a)
      ensures ok && (lost == [] || old(Roomy(lost))) ==> forall a :: pendingNonces.Value(a) == currentState.Nonce(a)
      ensures lost == [] ==> pending == old(pending) && queue == old(queue)
      ensures GivenUp(request, view) ==> !ok
      ensures Unsearched(request, view) ==> lost == [] && (!GivenUp(request, view) ==> ok)
      ensures request.Extends(view.blocks) ==>
        && (ok <==> view.stateAt(request.newHead).Some?) && lost == []
        && (ok && old(Synced()) && (forall a :: old(currentState).Nonce(a) <= currentState.Nonce(a)) ==> AllLagging())
    {
      hide *;
      start, stages := Contents(), [];
      var reinject := Some([]);
      if request.oldHead.Some? {
        reinject := Reinject(view.blocks, request.oldHead.value, request.newHead);
      }
      Searched(request, view, reinject);
      var state := view.stateAt(request.newHead);
      if reinject.None? || state.None? {
        NothingPushedOut();
        lost := [];
        return false, [], start, [];
      }
      SwitchState(state.value, view.gasLimit(request.newHead));
      lost, start := reinject.value, Contents();
      RoomyNone();
      ghost var nonces := pendingNonces.Values();
      ghost var rules := RulesNow(view.gasPriceActive);
      ValuesAre();
      RulesAre(view.gasPriceActive);
      var outcomes;
      outcomes, stages := AddAll(reinject.value, view.gasPriceActive, view.checks);
      RulesAre(view.gasPriceActive);
      NotRaised(nonces, lost == [] || old(Roomy(lost)));
      ok := true;
    }

    lemma RoomyNone()
      ensures Roomy([])
    {
    }

    lemma NotRaised(nonces: Address -> nat, roomy: bool)
      requires NoHigher(nonces, pendingNonces.Values(), roomy)
      ensures forall a :: pendingNonces.Value(a) <= nonces(a)
      ensures roomy ==> forall a :: pendingNonces.Value(a) == nonces(a)
    {
    }

    lemma NothingPushedOut()
      requires Steady()
      ensures Accounted(all.All(), all.remotes, all.All(), all.locals, [], config.priceBump, Roomy([]))
    {
      hide Steady;
      SteadyFacts();
      SoundFacts();
    }

    /** Pending and queue are within their limits, as far as they may be cut. */
    ghost predicate WithinLimits()
      reads this
    {
      && (Total(pending) <= config.globalSlots
          || forall a :: a in pending && a !in locals ==> Len(pending, a) <= config.accountSlots)
      && (Total(queue) <= config.globalQueue || forall a :: a in queue ==> a in locals)
    }

    /** Brings both maps of lists within their limits. */
    method TruncateBoth()
      requires Steady()
      modifies this`pending, this`queue, this`beats, this`missing, all, priced`remotes, priced`stales, pendingNonces
      ensures Steady() && WithinLimits() && (old(AllAligned()) ==> AllAligned())
      ensures Truncated(old(pending), pending, locals, config.accountSlots, config.globalSlots)
      ensures QueueTruncated(old(queue), queue, locals, config.globalQueue, old(beats))
      ensures NoncesCut(old(pending), old(pendingNonces.Values()))
      ensures all.locals <= old(all.locals) && all.remotes <= old(all.remotes)
    {
      hide Steady, Aligned, Total, At, CutFrom, Trimmed, Capped, LoweredAll, TxNoncer.Values;
      TruncatePending();
      ghost var v := pendingNonces.Values();
      ValuesAre();
      TruncateQueue();
      ValuesAre();
      LoweredSame(old(pending), old(pendingNonces.Values()), pending, v, pendingNonces.Values());
    }

    /** How every account stands. */
    ghost function Standings(): Address -> Standing
      reads this, pendingNonces
    {
      var p, q, nonces, state, maxGas := pending, queue, pendingNonces.Values(), currentState, currentMaxGas;
      var accounts, limit := locals, config.accountQueue;
      (a: Address) =>
        Standing(At(p, a), At(q, a), nonces(a), state.Nonce(a), state.Balance(a), maxGas, a in accounts, limit)
    }

    /** How every account will stand after a reset that finds no lost transactions. */
    ghost function Anticipated(state: ChainState, maxGas: nat): Address -> Standing
      reads this
    {
      var p, q, accounts, limit := pending, queue, locals, config.accountQueue;
      (a: Address) =>
        Standing(At(p, a), At(q, a), state.Nonce(a), state.Nonce(a), state.Balance(a), maxGas, a in accounts, limit)
    }

    lemma AnticipatedAre(state: ChainState, maxGas: nat)
      ensures forall a ::
        Anticipated(state, maxGas)(a) ==
        Standing(At(pending, a), At(queue, a), state.Nonce(a), state.Nonce(a), state.Balance(a), maxGas, a in locals,
                 config.accountQueue)
    {
    }

    lemma StandingFacts(a: Address, promote: bool, filtering: bool)
      ensures var s := Standings()(a);
        && s.pending == At(pending, a) && s.queue == At(queue, a) && s.virtual == pendingNonces.Value(a)
        && s.nonce == currentState.Nonce(a) && s.balance == currentState.Balance(a) && s.maxGas == currentMaxGas
        && (s.local <==> a in locals) && s.limit == config.accountQueue
        && s.Ready(filtering) == ReadyOf(a, filtering)
        && (s.FirstIsPayable(filtering) <==> FirstIsPayable(a, filtering))
        && s.Promoted(promote, filtering) == (
             if promote then At(pending, a) + Collected(ReadyOf(a, filtering)) else At(pending, a))
        && s.Waiting(promote, filtering) == (
             if promote
             then LeftQueued(ToPromote(a, filtering), ReadyOf(a, filtering), a in locals, config.accountQueue)
             else At(queue, a))
        && s.Lifted(promote, filtering) == (
             if promote then Raised(pendingNonces.Value(a), ReadyOf(a, filtering)) else pendingNonces.Value(a))
    {
      hide ReadyRun, Collected, LeftQueued, Raised, Executable, FirstPayable;
    }

    lemma AllStandings(accounts: set<Address>, filtering: bool)
      ensures forall a ::
        var s := Standings()(a);
        && s.Promoted(a in accounts, filtering) == (
             if a in accounts then At(pending, a) + Collected(ReadyOf(a, filtering)) else At(pending, a))
        && s.Waiting(a in accounts, filtering) == (
             if a in accounts
             then LeftQueued(ToPromote(a, filtering), ReadyOf(a, filtering), a in locals, config.accountQueue)
             else At(queue, a))
        && s.Lifted(a in accounts, filtering) == (
             if a in accounts then Raised(pendingNonces.Value(a), ReadyOf(a, filtering)) else pendingNonces.Value(a))
      ensures forall a ::
        && Standings()(a).Ready(filtering) == ReadyOf(a, filtering)
        && (Standings()(a).FirstIsPayable(filtering) <==> FirstIsPayable(a, filtering))
    {
      hide *;
      forall a
        ensures var s := Standings()(a);
          && s.Ready(filtering) == ReadyOf(a, filtering)
          && (s.FirstIsPayable(filtering) <==> FirstIsPayable(a, filtering))
          && s.Promoted(a in accounts, filtering) == (
               if a in accounts then At(pending, a) + Collected(ReadyOf(a, filtering)) else At(pending, a))
          && s.Waiting(a in accounts, filtering) == (
               if a in accounts
               then LeftQueued(ToPromote(a, filtering), ReadyOf(a, filtering), a in locals, config.accountQueue)
               else At(queue, a))
          && s.Lifted(a in accounts, filtering) == (
               if a in accounts then Raised(pendingNonces.Value(a), ReadyOf(a, filtering)) else pendingNonces.Value(a))
      {
        StandingFacts(a, a in accounts, filtering);
      }
    }

    lemma StandingProper(a: Address)
      requires Steady()
      ensures Standings()(a).Proper()
    {
      ProperKeyed(pending, a);
      ProperKeyed(queue, a);
    }

    /** Promotes a set of accounts. */
    method PromoteSet(accounts: set<Address>, filtering: bool) returns (promoted: seq<Tx>)
      requires Steady()
      modifies this`pending, this`queue, this`beats, all, priced`remotes, priced`stales, pendingNonces
      ensures Steady() && (old(Synced()) ==> Synced())
      ensures old(CatchingUp(accounts)) && (forall a :: a in accounts ==> old(Standings())(a).FirstIsPayable(filtering))
        ==> CatchingUp({})
      ensures all.locals <= old(all.locals) && all.remotes <= old(all.remotes)
      ensures forall a :: At(pending, a) == old(Standings())(a).Promoted(a in accounts, filtering)
      ensures forall a :: At(queue, a) == old(Standings())(a).Waiting(a in accounts, filtering)
      ensures forall a :: pendingNonces.Value(a) == old(Standings())(a).Lifted(a in accounts, filtering)
      ensures forall tx ::
        tx in promoted <==> tx.sender in accounts && tx in old(Standings())(tx.sender).Ready(filtering)
    {
      hide Steady, Synced, CatchingUp, FirstIsPayable, ToPromote, ReadyOf, LeftQueued, Collected, At, AddressesOf,
        Raised, Standings, Standing.Promoted, Standing.Waiting, Standing.Lifted, Standing.Ready,
        Standing.FirstIsPayable;
      AllStandings(accounts, filtering);
      var list := ListKeys(accounts);
      AddressesOfList(list, accounts);
      promoted := PromoteExecutables(list, filtering);
    }

    /** Demotes all accounts, if there was a reset. */
    method DemoteAfterReset(demote: bool)
      requires Steady()
      modifies this`pending, this`queue, this`beats, this`missing, all, priced`remotes, priced`stales
      ensures Steady() && (demote && old(CatchingUp({})) ==> AllAligned())
      ensures !demote && old(AllAligned()) ==> AllAligned()
      ensures all.locals <= old(all.locals) && all.remotes <= old(all.remotes)
      ensures forall a ::
        At(pending, a) ==
        if demote
        then DemotedPending(old(At(pending, a)), currentState.Nonce(a), currentState.Balance(a), currentMaxGas)
        else old(At(pending, a))
      ensures forall a ::
        At(queue, a) ==
        if demote
        then DemotedQueue(old(At(pending, a)), old(At(queue, a)), currentState.Nonce(a), currentState.Balance(a),
                          currentMaxGas)
        else old(At(queue, a))
    {
      hide Steady, CatchingUp, AllAligned, DemotedPending, DemotedQueue, At;
      if demote {
        NothingToDemote();
        DemoteUnexecutables();
      }
    }

    lemma NothingToDemote()
      ensures forall a :: a !in pending ==> PendingAfter(a) == At(pending, a) && QueueAfter(a) == At(queue, a)
    {
      forall a | a !in pending ensures PendingAfter(a) == At(pending, a) && QueueAfter(a) == At(queue, a) {
        DemotedNothing(At(queue, a), currentState.Nonce(a), currentState.Balance(a), currentMaxGas);
      }
    }

    lemma SteadyNonempty()
      requires Steady()
      ensures NoEmptyList(pending)
    {
    }

    /** The end of a reorganisation: truncation, and the virtual nonces brought up to date. */
    method Conclude()
      requires Steady()
      modifies this`pending, this`queue, this`beats, this`missing, all, priced`remotes, priced`stales, pendingNonces
      ensures Steady() && WithinLimits() && (old(AllAligned()) ==> Synced())
      ensures Truncated(old(pending), pending, locals, config.accountSlots, config.globalSlots)
      ensures QueueTruncated(old(queue), queue, locals, config.globalQueue, old(beats))
      ensures forall a :: pendingNonces.Value(a) == NextNonce(At(pending, a), old(pendingNonces.Value(a)))
      ensures all.locals <= old(all.locals) && all.remotes <= old(all.remotes)
    {
      hide *;
      TruncateBoth();
      SteadyNonempty();
      NoneCut(old(pending), old(pendingNonces.Values()));
      OldValues();
      RaiseNonces();
    }

    twostate lemma OldValues()
      ensures forall a :: old(pendingNonces.Values())(a) == old(pendingNonces.Value(a))
    {
    }

    /** Truncation leaves alone the virtual nonces of accounts without pending transactions. */
    lemma NoneCut(p: Accounts, nonces: Address -> nat)
      requires NoncesCut(p, nonces) && Truncated(p, pending, locals, config.accountSlots, config.globalSlots)
      requires NoEmptyList(pending)
      ensures forall a :: NextNonce(At(pending, a), pendingNonces.Value(a)) == NextNonce(At(pending, a), nonces(a))
    {
      hide Total, Capped;
      forall a ensures NextNonce(At(pending, a), pendingNonces.Value(a)) == NextNonce(At(pending, a), nonces(a)) {
        assert LoweredTo(At(p, a), At(pending, a), nonces(a), pendingNonces.Value(a));
      }
    }

    /** The part of `RunReorg` after the reset. Every account's lists become `p` and `q` by
        promotion and demotion, and then those are truncated. */
    method Reorganise(accounts: set<Address>, reset: bool, filtering: bool)
      returns (promoted: seq<Tx>, ghost p: Accounts, ghost q: Accounts, ghost heartbeats: map<Address, int>)
      requires Steady() && (reset ==> accounts == queue.Keys)
      modifies this`pending, this`queue, this`beats, this`missing, all, priced`remotes, priced`stales, pendingNonces
      ensures Steady() && WithinLimits()
      ensures all.locals <= old(all.locals) && all.remotes <= old(all.remotes)
      ensures Reorganised(old(Standings()), reset, accounts, filtering, promoted, p, q)
      ensures Truncated(p, pending, locals, config.accountSlots, config.globalSlots)
      ensures QueueTruncated(q, queue, locals, config.globalQueue, heartbeats)
      ensures forall a ::
        pendingNonces.Value(a) ==
        NextNonce(At(pending, a), old(Standings())(a).Lifted(reset || a in accounts, filtering))
      ensures !reset && old(Synced()) ==> Synced()
      ensures EndsAligned(old(Standings()), reset, accounts, filtering) ==> Synced()
      ensures Synced() && Total(p) <= config.globalSlots ==> EndsAligned(old(Standings()), reset, accounts, filtering)
      ensures reset && old(AllLagging()) ==> (Synced() <==> forall a :: old(Standings())(a).FirstIsPayable(filtering))
    {
      hide *;
      ghost var was, lagging := Standings(), AllLagging();
      LaggingCatchesUp(accounts);
      StandingsAre(accounts, filtering);
      promoted := PromoteSet(accounts, filtering);
      ghost var p1, q1 := pending, queue;
      SyncedIsAligned();
      DemoteAfterReset(reset);
      p, q, heartbeats := pending, queue, beats;
      IsReorganised(was, reset, accounts, filtering, promoted, p1, q1, p, q);
      AlignedNow(was, reset, accounts, filtering, promoted);
      Conclude();
      SyncedThen(was, reset, accounts, filtering, promoted, p, q);
      if reset && lagging && exists a :: !was(a).FirstIsPayable(filtering) {
        var a :| !was(a).FirstIsPayable(filtering);
        StaysBehind(was, a, accounts, filtering, promoted, p, q);
      }
    }

    lemma AlignedNow(was: Address -> Standing, reset: bool, accounts: set<Address>, filtering: bool, promoted: seq<Tx>)
      requires Reorganised(was, reset, accounts, filtering, promoted, pending, queue)
      requires forall a ::
        && was(a).nonce == currentState.Nonce(a)
        && pendingNonces.Value(a) == was(a).Lifted(reset || a in accounts, filtering)
      ensures EndsAligned(was, reset, accounts, filtering) ==> AllAligned()
    {
      hide Aligned, Standing.Kept, Standing.Lifted;
    }

    /** When nothing had to be truncated, nonces in step come from aligned accounts only. */
    lemma SyncedThen(was: Address -> Standing, reset: bool, accounts: set<Address>, filtering: bool, promoted: seq<Tx>,
                     p: Accounts, q: Accounts)
      requires Reorganised(was, reset, accounts, filtering, promoted, p, q)
      requires Truncated(p, pending, locals, config.accountSlots, config.globalSlots)
      requires forall a ::
        && was(a).nonce == currentState.Nonce(a)
        && pendingNonces.Value(a) == NextNonce(At(pending, a), was(a).Lifted(reset || a in accounts, filtering))
      ensures Synced() && Total(p) <= config.globalSlots ==> EndsAligned(was, reset, accounts, filtering)
    {
      hide Standing.Kept, Standing.Lifted, Contiguous, Total, Capped;
      if Synced() && Total(p) <= config.globalSlots {
        forall a
          ensures var promote := reset || a in accounts;
            Aligned(was(a).Kept(promote, reset, filtering), was(a).nonce, was(a).Lifted(promote, filtering))
        {
          assert InStep(At(pending, a), currentState.Nonce(a), pendingNonces.Value(a));
        }
      }
    }

    lemma StandingsAre(accounts: set<Address>, filtering: bool)
      requires Steady()
      ensures forall a ::
        && Standings()(a).Proper() && Standings()(a).nonce == currentState.Nonce(a)
        && Standings()(a).balance == currentState.Balance(a) && Standings()(a).maxGas == currentMaxGas
        && Standings()(a).pending == At(pending, a) && Standings()(a).queue == At(queue, a)
        && Standings()(a).virtual == pendingNonces.Value(a)
        && (Standings()(a).local <==> a in locals) && Standings()(a).limit == config.accountQueue
      ensures AllLagging() ==> forall a ::
        Lagging(Standings()(a).pending, Standings()(a).nonce, Standings()(a).virtual)
      ensures accounts == queue.Keys ==> forall a :: a !in accounts ==> Standings()(a).queue == map[]
    {
      hide Steady, Lagging, Standing.Proper;
      forall a
        ensures var s := Standings()(a);
          && s.Proper() && s.nonce == currentState.Nonce(a) && s.balance == currentState.Balance(a)
          && s.maxGas == currentMaxGas && s.pending == At(pending, a) && s.queue == At(queue, a)
          && s.virtual == pendingNonces.Value(a) && (s.local <==> a in locals) && s.limit == config.accountQueue
          && (AllLagging() ==> Lagging(s.pending, s.nonce, s.virtual))
      {
        StandingFacts(a, true, filtering);
        StandingProper(a);
        if AllLagging() { assert Lagging(At(pending, a), currentState.Nonce(a), pendingNonces.Value(a)); }
      }
    }

    /** An account whose first ready transaction was not payable is left with a raised nonce and
        nothing pending. */
    lemma StaysBehind(was: Address -> Standing, a: Address, accounts: set<Address>, filtering: bool,
                      promoted: seq<Tx>, p: Accounts, q: Accounts)
      requires var s := was(a);
        && Lagging(s.pending, s.nonce, s.virtual) && s.Proper() && s.nonce == currentState.Nonce(a)
        && !s.FirstIsPayable(filtering)
        && pendingNonces.Value(a) == NextNonce(At(pending, a), s.Lifted(true, filtering))
      requires Reorganised(was, true, accounts, filtering, promoted, p, q)
      requires Truncated(p, pending, locals, config.accountSlots, config.globalSlots)
      ensures !Synced()
    {
      hide Standing.Proper, Lagging, Standing.FirstIsPayable, Standing.Kept, Standing.Lifted, Total, Capped;
      AlignedExactlyWhen(was(a), filtering);
      assert At(p, a) == was(a).Kept(true, true, filtering);
      assert |At(pending, a)| == 0;
      assert !InStep(At(pending, a), currentState.Nonce(a), pendingNonces.Value(a));
    }

    /** The part of `RunReorg` before promotion: a new state is taken up if that was requested. */
    method Prepare(reset: Option<ResetRequest>, dirty: set<Address>, view: ChainView)
      returns (accounts: set<Address>, ghost course: Course)
      requires Steady() && (reset.Some? ==> Named(view.blocks) && HasBlock(view.blocks, reset.value.newHead))
      modifies this`currentState, this`currentMaxGas, this`pendingNonces
      modifies this`locals, this`pending, this`queue, this`beats, this`missing, all, priced
      ensures Steady() && locals == old(locals) && (pendingNonces == old(pendingNonces) || fresh(pendingNonces))
      ensures accounts == if reset.Some? then queue.Keys else dirty
      ensures course.was == Standings() && (reset.None? ==> !course.taken)
      ensures Begun(reset, view, course, currentState, currentMaxGas)
      ensures course.taken ==> Rejoined(RulesNow(view.gasPriceActive), old(Contents()), view.checks, course)
      ensures course.taken && old(Roomy(course.lost)) ==>
        Rescued(RulesNow(view.gasPriceActive), locals, old(all.All()), view.checks, course)
      ensures !course.taken ==>
        && course.lost == [] && course.was == old(Standings())
        && currentState == old(currentState) && currentMaxGas == old(currentMaxGas)
      ensures all.All() <= old(all.All()) + Elements(course.lost)
      ensures priced.history.seen <= old(priced.history.seen) + Elements(course.lost)
      ensures old(Modest()) && Newcomers(course.lost, old(priced.history.seen), locals) ==> Modest()
      ensures Reinjected(old(all.All()), old(all.remotes), course.was, course.lost, config.priceBump,
                         old(Roomy(course.lost)))
      ensures course.taken ==> forall a :: course.was(a).virtual <= course.was(a).nonce
      ensures course.taken && (course.lost == [] || old(Roomy(course.lost))) ==>
        forall a :: course.was(a).virtual == course.was(a).nonce
      ensures course.lost == [] ==> forall a ::
        course.was(a).pending == At(old(pending), a) && course.was(a).queue == At(old(queue), a)
      ensures reset.None? && old(Synced()) ==> Synced()
      ensures view.filtering ==> forall a :: course.was(a).FirstIsPayable(true)
      ensures reset.Some? && Later(old(currentState), reset.value, view) ==>
        var state, maxGas := view.stateAt(reset.value.newHead).value, view.gasLimit(reset.value.newHead);
        && course.taken && course.lost == [] && currentState == state && currentMaxGas == maxGas
        && (forall a :: course.was(a) == old(Anticipated(state, maxGas))(a))
        && (old(Synced()) ==> AllLagging())
    {
      hide *;
      accounts := dirty;
      var taken := false;
      ghost var lost: seq<Tx>, start, stages: seq<Stage> := [], Contents(), [];
      AllIs();
      ContentsAre();
      NothingPushedOut();
      if reset.Some? {
        LaterExtends(currentState, reset.value, view);
        if view.stateAt(reset.value.newHead).Some? {
          AnticipatedAre(view.stateAt(reset.value.newHead).value, view.gasLimit(reset.value.newHead));
        }
        taken, lost, start, stages := Reset(reset.value, view);
        accounts := queue.Keys;
      }
      course := Course(taken, lost, start, stages, Standings(), pending, queue, beats);
      ValuesAre();
      ContentsAre();
      AllIs();
      RulesAre(view.gasPriceActive);
      StandingsAre(accounts, view.filtering);
      IsReinjected(old(all.All()), old(all.remotes), lost, old(Roomy(lost)));
      if view.filtering { AllFirstsPayable(); }
      HeldAlls();
      IsBegun(reset, view, course, currentState, currentMaxGas);
      if taken { IsRejoined(RulesNow(view.gasPriceActive), old(Contents()), view.checks, course, Contents()); }
      if taken && old(Roomy(lost)) {
        IsRescued(RulesNow(view.gasPriceActive), old(Contents()), view.checks, course, all.All());
      }
    }

    /** One background run: a reset if one was requested, and then promotion, demotion and
        truncation. */
    method RunReorg(reset: Option<ResetRequest>, dirty: set<Address>, view: ChainView)
      returns (promoted: seq<Tx>, ghost course: Course)
      requires Steady() && (reset.Some? ==> Named(view.blocks) && HasBlock(view.blocks, reset.value.newHead))
      modifies this`currentState, this`currentMaxGas, this`pendingNonces
      modifies this`locals, this`pending, this`queue, this`beats, this`missing, all, priced, pendingNonces
      ensures Steady() && WithinLimits()
      ensures pendingNonces == old(pendingNonces) || fresh(pendingNonces)
      ensures Reorganised(course.was, reset.Some?, dirty, view.filtering, promoted, course.p, course.q)
      ensures Truncated(course.p, pending, locals, config.accountSlots, config.globalSlots)
      ensures QueueTruncated(course.q, queue, locals, config.globalQueue, course.beats)
      ensures forall a ::
        pendingNonces.Value(a) ==
        NextNonce(At(pending, a), course.was(a).Lifted(reset.Some? || a in dirty, view.filtering))
      ensures Informed(course.was, currentState, currentMaxGas, locals, config.accountQueue)
      ensures locals == old(locals) && (reset.None? ==> !course.taken)
      ensures Begun(reset, view, course, currentState, currentMaxGas)
      ensures course.taken ==> Rejoined(RulesNow(view.gasPriceActive), old(Contents()), view.checks, course)
      ensures course.taken && old(Roomy(course.lost)) ==>
        Rescued(RulesNow(view.gasPriceActive), locals, old(all.All()), view.checks, course)
      ensures !course.taken ==>
        && course.lost == [] && course.was == old(Standings())
        && currentState == old(currentState) && currentMaxGas == old(currentMaxGas)
      ensures all.All() <= old(all.All()) + Elements(course.lost)
      ensures priced.history.seen <= old(priced.history.seen) + Elements(course.lost)
      ensures old(Modest()) && Newcomers(course.lost, old(priced.history.seen), locals) ==> Modest()
      ensures Reinjected(old(all.All()), old(all.remotes), course.was, course.lost, config.priceBump,
                         old(Roomy(course.lost)))
      ensures course.taken ==> forall a :: course.was(a).virtual <= course.was(a).nonce
      ensures course.taken && (course.lost == [] || old(Roomy(course.lost))) ==>
        forall a :: course.was(a).virtual == course.was(a).nonce
      ensures course.lost == [] ==> forall a ::
        course.was(a).pending == At(old(pending), a) && course.was(a).queue == At(old(queue), a)
      ensures reset.Some? ==> forall tx :: Has(course.p, tx) || Has(pending, tx) ==>
        && currentState.Nonce(tx.sender) <= tx.nonce
        && tx.cost <= currentState.Balance(tx.sender) && tx.gas <= currentMaxGas
      ensures reset.Some? ==> forall a :: At(course.p, a) != map[] ==> currentState.Nonce(a) in At(course.p, a)
      ensures forall tx :: (Has(course.q, tx) || Has(queue, tx)) && (reset.Some? || tx.sender in dirty) ==>
        && currentState.Nonce(tx.sender) <= tx.nonce
        && (view.filtering ==> tx.cost <= currentState.Balance(tx.sender) && tx.gas <= currentMaxGas)
      ensures reset.None? && old(Synced()) ==> Synced()
      ensures EndsAligned(course.was, reset.Some?, dirty, view.filtering) ==> Synced()
      ensures Synced() && Total(course.p) <= config.globalSlots ==>
        EndsAligned(course.was, reset.Some?, dirty, view.filtering)
      ensures reset.Some? && Later(old(currentState), reset.value, view) ==>
        var state, maxGas := view.stateAt(reset.value.newHead).value, view.gasLimit(reset.value.newHead);
        && course.taken && course.lost == [] && currentState == state && currentMaxGas == maxGas
        && (forall a :: course.was(a) == old(Anticipated(state, maxGas))(a))
        && (old(Synced()) ==>
              (Synced() <==> forall a :: old(Anticipated(state, maxGas))(a).FirstIsPayable(view.filtering)))
        && (old(Synced()) && view.filtering ==> Synced())
    {
      hide *;
      var accounts;
      ghost var begun;
      accounts, begun := Prepare(reset, dirty, view);
      ghost var p, q, heartbeats;
      StandingsAre(accounts, view.filtering);
      RulesAre(view.gasPriceActive);
      ghost var all1 := all.All();
      AllIs();
      ModestIs();
      promoted, p, q, heartbeats := Reorganise(accounts, reset.Some?, view.filtering);
      if reset.Some? { EveryAccount(begun.was, accounts, dirty, view.filtering, promoted, p, q); }
      AllIs();
      ModestIs();
      if Limited(all1, priced.history.once, config.globalSlots + config.globalQueue) {
        FewerLimited(all1, all.All(), priced.history.once, config.globalSlots + config.globalQueue);
      }
      course := begun.(p := p, q := q, beats := heartbeats);
      SameBeginning(begun, course);
      RulesAre(view.gasPriceActive);
      EndsPayable(course, reset.Some?, dirty, view.filtering, promoted);
      IsInformed(course.was, currentState, currentMaxGas, locals, config.accountQueue);
    }

    /** What is left can be paid for, is not old, and has no gap in front. */
    lemma EndsPayable(course: Course, reset: bool, accounts: set<Address>, filtering: bool, promoted: seq<Tx>)
      requires Reorganised(course.was, reset, accounts, filtering, promoted, course.p, course.q)
      requires Truncated(course.p, pending, locals, config.accountSlots, config.globalSlots)
      requires QueueTruncated(course.q, queue, locals, config.globalQueue, course.beats)
      requires forall a ::
        && course.was(a).Proper() && course.was(a).nonce == currentState.Nonce(a)
        && course.was(a).balance == currentState.Balance(a) && course.was(a).maxGas == currentMaxGas
      ensures reset ==> forall tx :: Has(course.p, tx) || Has(pending, tx) ==>
        && currentState.Nonce(tx.sender) <= tx.nonce
        && tx.cost <= currentState.Balance(tx.sender) && tx.gas <= currentMaxGas
      ensures reset ==> forall a :: At(course.p, a) != map[] ==> currentState.Nonce(a) in At(course.p, a)
      ensures forall tx :: (Has(course.q, tx) || Has(queue, tx)) && (reset || tx.sender in accounts) ==>
        && currentState.Nonce(tx.sender) <= tx.nonce
        && (filtering ==> tx.cost <= currentState.Balance(tx.sender) && tx.gas <= currentMaxGas)
    {
      hide Standing.Kept, Standing.Postponed, Standing.Ready, Standing.Proper, Truncated, QueueTruncated;
      forall tx ensures (Has(pending, tx) ==> Has(course.p, tx)) && (Has(queue, tx) ==> Has(course.q, tx)) {
        TruncatedWithin(course.p, pending, course.q, queue, course.beats, tx);
      }
      forall tx | reset && Has(course.p, tx)
        ensures currentState.Nonce(tx.sender) <= tx.nonce
        ensures tx.cost <= currentState.Balance(tx.sender) && tx.gas <= currentMaxGas
      {
        KeptPays(course.was(tx.sender), true, filtering, tx);
      }
      forall a | reset && At(course.p, a) != map[] ensures currentState.Nonce(a) in At(course.p, a) {
        FrontKept(course.was(a), true, filtering);
      }
      forall tx | Has(course.q, tx) && (reset || tx.sender in accounts)
        ensures currentState.Nonce(tx.sender) <= tx.nonce
        ensures filtering ==> tx.cost <= currentState.Balance(tx.sender) && tx.gas <= currentMaxGas
      {
        PostponedPays(course.was(tx.sender), reset, filtering, tx);
      }
    }

    lemma TruncatedWithin(p0: Accounts, p: Accounts, q0: Accounts, q: Accounts, beats: map<Address, int>, tx: Tx)
      requires Truncated(p0, p, locals, config.accountSlots, config.globalSlots)
      requires QueueTruncated(q0, q, locals, config.globalQueue, beats)
      ensures Has(p, tx) ==> Has(p0, tx)
      ensures Has(q, tx) ==> Has(q0, tx)
    {
      hide Total, Capped, Trimmed;
      CappedWithin(At(p0, tx.sender), Len(p, tx.sender));
      CappedWithin(At(q0, tx.sender), Len(q, tx.sender));
    }

    lemma HeldAlls()
      requires Steady()
      ensures forall tx :: Held(Standings(), tx) <==> tx in all.All()
    {
      hide *;
      forall tx ensures Held(Standings(), tx) <==> tx in all.All() {
        HeldAll(tx);
      }
    }

    lemma AllFirstsPayable()
      requires Steady()
      ensures forall a :: Standings()(a).FirstIsPayable(true)
    {
      hide Steady, FirstIsPayable;
      forall a ensures Standings()(a).FirstIsPayable(true) {
        ToPromoteFacts(a, true);
        StandingFacts(a, true, true);
      }
    }

    lemma IsReinjected(all0: set<Tx>, remotes0: set<Tx>, lost: seq<Tx>, roomy: bool)
      requires Steady() && all.All() <= all0 + Elements(lost)
      requires Accounted(all0, remotes0, all.All(), all.locals, lost, config.priceBump, roomy)
      ensures Reinjected(all0, remotes0, Standings(), lost, config.priceBump, roomy)
    {
      hide *;
      forall tx ensures Held(Standings(), tx) <==> tx in all.All() {
        HeldAll(tx);
      }
      AllIs();
      AccountedHeld(all0, remotes0, all.All(), all.locals, Standings(), lost, config.priceBump, roomy);
    }

    lemma HeldAll(tx: Tx)
      requires Steady()
      ensures Held(Standings(), tx) <==> tx in all.All()
    {
      hide Steady, Standings;
      SteadyFacts();
      SoundFacts();
      StandingFacts(tx.sender, true, true);
    }

    /** Drops the queued transactions of remote accounts whose heartbeat has expired. */
    method EvictExpired(expired: set<Address>)
      requires Steady()
      modifies this`pending, this`queue, this`beats, this`missing, all, priced`remotes, priced`stales, pendingNonces
      ensures Steady() && pending == old(pending) && (old(Synced()) ==> Synced())
      ensures forall a :: At(queue, a) == if a in expired && a !in locals then map[] else old(At(queue, a))
      ensures all.locals <= old(all.locals) && all.remotes <= old(all.remotes)
    {
      hide Steady, With, At, InStep;
      AbsentAt(queue);
      var accounts := ListKeys(queue.Keys);
      for i := 0 to |accounts|
        invariant Steady() && pending == old(pending)
        invariant forall a :: pendingNonces.Value(a) == old(pendingNonces.Value(a))
        invariant forall a :: a in accounts[i..] ==> a in queue
        invariant forall a ::
          At(queue, a) == if a in accounts[..i] && a in expired && a !in locals then map[] else old(At(queue, a))
        invariant all.locals <= old(all.locals) && all.remotes <= old(all.remotes)
      {
        ListStep(accounts, i);
        if accounts[i] !in locals && accounts[i] in expired {
          WithAts(queue, accounts[i], map[]);
          WithOthers(queue, accounts[i], map[]);
          DropWhole(accounts[i]);
        }
      }
      assert accounts[..|accounts|] == accounts;
    }

    /** `seen` is what the pool may have been given before. */
    method Do(step: Step, ghost seen: set<Tx>)
      requires Steady() && Fit(step)
      modifies this`currentState, this`currentMaxGas, this`pendingNonces, this`gasPrice
      modifies this`locals, this`pending, this`queue, this`beats, this`missing, all, priced, pendingNonces
      ensures Steady() && (pendingNonces == old(pendingNonces) || fresh(pendingNonces))
      ensures Smooth(old(currentState), step) ==>
        && currentState == StateAfter(old(currentState), step)
        && (old(Synced()) ==> Synced())
      ensures old(Modest()) && old(priced.history.seen) <= seen && Fresh(step, seen, old(locals)) ==>
        Modest() && priced.history.seen <= seen + Elements(Joining(step)) && locals == old(locals)
    {
      hide *;
      StepIs(currentState, step);
      FreshIs(step, seen, priced.history.seen, locals);
      ModestIs();
      AllIs();
      match step {
        case Submit(tx, local, gasPriceActive, checks) =>
          ghost var rules, was := RulesNow(gasPriceActive), Contents();
          SteadyFacts();
          SoundFacts();
          ContentsAre();
          PutSeen(priced.history, tx, local || tx.sender in locals);
          ghost var stage;
          var outcome;
          outcome, stage := Add(tx, local, gasPriceActive, checks);
          ContentsAre();
          if !local { AccountsStay(rules, was, tx, checks, stage); }
        case Reorg(reset, dirty, view) =>
          var promoted;
          ghost var course;
          promoted, course := RunReorg(reset, dirty, view);
          JoiningIs(step, seen, old(locals), course, currentState, currentMaxGas);
        case SetPrice(price, gasPriceActive) =>
          SetGasPrice(price, gasPriceActive);
          AllIs();
          StillModest(old(all.All()), priced.history.once);
        case Evict(expired) =>
          EvictExpired(expired);
          AllIs();
          StillModest(old(all.All()), priced.history.once);
      }
    }

    lemma StillModest(was: set<Tx>, once: bool)
      requires once == priced.history.once && all.All() <= was
      ensures Limited(was, once, config.globalSlots + config.globalQueue) ==> Modest()
    {
      if Limited(was, once, config.globalSlots + config.globalQueue) {
        FewerLimited(was, all.All(), once, config.globalSlots + config.globalQueue);
      }
    }

    /** Any run of steps leaves the pool consistent; one in which every new head extends the last
        and Quorum's filter is active leaves every account's nonces in step as well, and one in which only
        remote transactions come in, and none twice, leaves the pool within its limits. */
    method Run(steps: seq<Step>)
      requires Steady() && forall step :: step in steps ==> Fit(step)
      modifies this`currentState, this`currentMaxGas, this`pendingNonces, this`gasPrice
      modifies this`locals, this`pending, this`queue, this`beats, this`missing, all, priced, pendingNonces
      ensures Steady()
      ensures AllSmooth(old(currentState), steps) && old(Synced()) ==> Synced()
      ensures AllFresh(steps, old(priced.history.seen), old(locals)) && old(Modest()) ==>
        Modest() && |all.All()| <= config.globalSlots + config.globalQueue
    {
      hide Steady, Synced, Smooth, Fit, StateAfter, Fresh, Modest, Joining;
      assert steps[0..] == steps;
      ghost var seen, fresh0 := priced.history.seen, AllFresh(steps, priced.history.seen, locals) && Modest();
      for i := 0 to |steps|
        invariant Steady() && (pendingNonces == old(pendingNonces) || fresh(pendingNonces))
        invariant AllSmooth(old(currentState), steps) && old(Synced()) ==>
          Synced() && AllSmooth(currentState, steps[i..])
        invariant fresh0 ==> Modest() && priced.history.seen <= seen && AllFresh(steps[i..], seen, locals)
      {
        assert steps[i..][0] == steps[i] && steps[i..][1..] == steps[i + 1..];
        Do(steps[i], seen);
        seen := seen + Elements(Joining(steps[i]));
      }
      ModestIs();
      if Modest() { LimitedSize(all.All(), priced.history.once, config.globalSlots + config.globalQueue); }
    }
  }

  /** The blocks of both heads and the new state can be found. */
  ghost predicate Traced(request: ResetRequest, view: ChainView) {
    && request.oldHead.Some? && Closed(view.blocks) && HasBlock(view.blocks, request.oldHead.value)
    && view.stateAt(request.newHead).Some?
  }

  /** The block of the old head is gone, though its transactions were to be compared. */
  ghost predicate Missing(request: ResetRequest, view: ChainView) {
    && request.oldHead.Some? && request.oldHead.value.hash != request.newHead.parent
    && Distance(request.oldHead.value.number, request.newHead.number) <= MAX_DEPTH
    && Read(view.blocks, request.oldHead.value.hash, request.oldHead.value.number).None?
  }

  /** No transactions are looked for: there is no old head, the new one is its child or too far off,
      or its block is gone. */
  ghost predicate Unsearched(request: ResetRequest, view: ChainView) {
    || request.oldHead.None? || request.oldHead.value.hash == request.newHead.parent
    || Distance(request.oldHead.value.number, request.newHead.number) > MAX_DEPTH
    || Missing(request, view)
  }

  /** The reset is given up: there is no state, or the old head is gone though the chain did not go
      back. */
  ghost predicate GivenUp(request: ResetRequest, view: ChainView) {
    || view.stateAt(request.newHead).None?
    || (Missing(request, view) && request.newHead.number >= request.oldHead.value.number)
  }

  /** What the search for lost transactions comes to. */
  lemma Searched(request: ResetRequest, view: ChainView, reinject: Option<seq<Tx>>)
    requires HasBlock(view.blocks, request.newHead)
    requires request.oldHead.None? ==> reinject == Some([])
    requires request.oldHead.Some? ==>
      var oldHead, newHead := request.oldHead.value, request.newHead;
      && (Closed(view.blocks) && HasBlock(view.blocks, oldHead) ==>
            reinject == Some(Lost(view.blocks, oldHead, newHead)))
      && (oldHead.hash == newHead.parent || Distance(oldHead.number, newHead.number) > MAX_DEPTH ==>
            reinject == Some([]))
      && (oldHead.hash != newHead.parent && Distance(oldHead.number, newHead.number) <= MAX_DEPTH
          && Read(view.blocks, oldHead.hash, oldHead.number).None?
          ==> reinject == if newHead.number >= oldHead.number then None else Some([]))
    ensures GivenUp(request, view) ==> reinject.None? || view.stateAt(request.newHead).None?
    ensures Unsearched(request, view) ==>
      && (reinject == Some([]) || GivenUp(request, view))
      && (view.stateAt(request.newHead).None? ==> GivenUp(request, view))
    ensures Traced(request, view) ==>
      && view.stateAt(request.newHead).Some?
      && reinject == Some(Lost(view.blocks, request.oldHead.value, request.newHead))
    ensures request.Extends(view.blocks) ==> reinject == Some([])
  {
    hide Closed, Lost, Read, Distance, Ancestor;
    if request.Extends(view.blocks) && request.oldHead.Some? {
      NothingLost(view.blocks, request.oldHead.value, request.newHead);
    }
  }

  lemma LaterExtends(was: ChainState, request: ResetRequest, view: ChainView)
    ensures Later(was, request, view) <==>
      && request.Extends(view.blocks) && view.stateAt(request.newHead).Some?
      && forall a :: was.Nonce(a) <= view.stateAt(request.newHead).value.Nonce(a)
  {
  }

  /** The new head extends the old one, its state is there and has no lower nonces. */
  ghost predicate Later(was: ChainState, request: ResetRequest, view: ChainView) {
    && request.Extends(view.blocks) && view.stateAt(request.newHead).Some?
    && forall a :: was.Nonce(a) <= view.stateAt(request.newHead).value.Nonce(a)
  }

  /** The course of a background run: what it reinjected, how every account stood then, and the
      lists and heartbeats before truncation. */
  datatype Course = Course(
    taken: bool, lost: seq<Tx>, start: Holdings, stages: seq<Stage>,
    was: Address -> Standing, p: Accounts, q: Accounts, beats: map<Address, int>)

  /** Accounts are seen as the state and the rest of the pool have them. */
  ghost predicate Informed(was: Address -> Standing, state: ChainState, maxGas: nat, locals: set<Address>, limit: nat) {
    forall a ::
      && was(a).Proper() && was(a).nonce == state.Nonce(a) && was(a).balance == state.Balance(a)
      && was(a).maxGas == maxGas && (was(a).local <==> a in locals) && was(a).limit == limit
  }

  lemma IsInformed(was: Address -> Standing, state: ChainState, maxGas: nat, locals: set<Address>, limit: nat)
    requires forall a ::
      && was(a).Proper() && was(a).nonce == state.Nonce(a) && was(a).balance == state.Balance(a)
      && was(a).maxGas == maxGas
    requires forall a :: (was(a).local <==> a in locals) && was(a).limit == limit
    ensures Informed(was, state, maxGas, locals, limit)
  {
    hide Standing.Proper;
  }

  lemma InformedAt(was: Address -> Standing, state: ChainState, maxGas: nat, locals: set<Address>, limit: nat,
                   a: Address)
    requires Informed(was, state, maxGas, locals, limit)
    ensures was(a).Proper() && was(a).nonce == state.Nonce(a) && was(a).balance == state.Balance(a)
    ensures was(a).maxGas == maxGas && (was(a).local <==> a in locals) && was(a).limit == limit
  {
    hide Standing.Proper;
  }

  /** Whether a run took up a new state, and which transactions it then found to be lost. */
  ghost predicate Begun(reset: Option<ResetRequest>, view: ChainView, course: Course, state: ChainState, maxGas: nat)
    requires reset.Some? ==> HasBlock(view.blocks, reset.value.newHead)
  {
    match reset
    case None => !course.taken
    case Some(request) =>
      && (course.taken ==> view.stateAt(request.newHead) == Some(state) && maxGas == view.gasLimit(request.newHead))
      && (GivenUp(request, view) ==> !course.taken)
      && (Unsearched(request, view) && !GivenUp(request, view) ==> course.taken && course.lost == [])
      && (Traced(request, view) ==>
            course.taken && course.lost == Lost(view.blocks, request.oldHead.value, request.newHead))
  }

  lemma IsBegun(reset: Option<ResetRequest>, view: ChainView, course: Course, state: ChainState, maxGas: nat)
    requires reset.Some? ==> HasBlock(view.blocks, reset.value.newHead)
    requires reset.None? ==> !course.taken
    requires reset.Some? && course.taken ==>
      view.stateAt(reset.value.newHead) == Some(state) && maxGas == view.gasLimit(reset.value.newHead)
    requires reset.Some? && GivenUp(reset.value, view) ==> !course.taken
    requires reset.Some? && Unsearched(reset.value, view) && !GivenUp(reset.value, view) ==>
      course.taken && course.lost == []
    requires reset.Some? && Traced(reset.value, view) ==>
      course.taken && course.lost == Lost(view.blocks, reset.value.oldHead.value, reset.value.newHead)
    ensures Begun(reset, view, course, state, maxGas)
  {
    hide GivenUp, Unsearched, Lost;
  }

  /** A run that can find the blocks and states it needs takes the new state up. */
  lemma BegunWhenTraced(request: ResetRequest, view: ChainView, course: Course, state: ChainState, maxGas: nat)
    requires HasBlock(view.blocks, request.newHead) && Traced(request, view)
    requires Begun(Some(request), view, course, state, maxGas)
    ensures course.taken && view.stateAt(request.newHead) == Some(state) && maxGas == view.gasLimit(request.newHead)
    ensures course.lost == Lost(view.blocks, request.oldHead.value, request.newHead)
  {
    hide GivenUp, Unsearched, Lost;
  }

  /** The reset took up the new state, which left `start`, offered the lost transactions one after
      the other, and this is how every account then stood. */
  ghost predicate Rejoined(rules: Rules, before: Holdings, checks: Tx -> Checks, course: Course) {
    && Renewed(before, rules.state, course.start)
    && |course.stages| == |course.lost|
    && var end := Before(course.start, course.stages, |course.lost|);
    && Staged(rules, course.start, course.lost, checks, course.stages, end)
    && forall a ::
      && course.was(a).pending == At(end.pending, a) && course.was(a).queue == At(end.queue, a)
      && course.was(a).virtual == end.nonces(a)
  }

  lemma IsRejoined(rules: Rules, before: Holdings, checks: Tx -> Checks, course: Course, end: Holdings)
    requires Renewed(before, rules.state, course.start)
    requires Staged(rules, course.start, course.lost, checks, course.stages, end)
    requires forall a ::
      && course.was(a).pending == At(end.pending, a) && course.was(a).queue == At(end.queue, a)
      && course.was(a).virtual == end.nonces(a)
    ensures Rejoined(rules, before, checks, course)
  {
    hide Renewed, Handled;
  }

  /** Every lost transaction that was held or is valid is back, unless its account nonce is held by one
      that it does not better; and so is everything that was held. */
  ghost predicate Rescued(rules: Rules, accounts: set<Address>, all0: set<Tx>, checks: Tx -> Checks, course: Course) {
    && (forall tx :: tx in all0 ==> StillHeld(course.was, tx, rules.config.priceBump))
    && forall tx ::
      tx in course.lost && Invalid(rules, accounts, tx, tx.sender in accounts, checks(tx)).None? ==>
      StillHeld(course.was, tx, rules.config.priceBump)
  }

  ghost predicate StillHeld(was: Address -> Standing, tx: Tx, priceBump: nat) {
    exists t ::
      && Held(was, t) && t.sender == tx.sender && t.nonce == tx.nonce
      && (t == tx || !Replaces(t, tx, priceBump))
  }

  lemma IsRescued(rules: Rules, before: Holdings, checks: Tx -> Checks, course: Course, all: set<Tx>)
    requires Renewed(before, rules.state, course.start)
    requires Offered(rules, course.start, course.lost, checks, all)
    requires forall tx :: Held(course.was, tx) <==> tx in all
    ensures Rescued(rules, before.accounts, before.All(), checks, course)
  {
    hide Invalid, Replaces, Held;
    forall tx | Represented(all, tx, rules.config.priceBump)
      ensures StillHeld(course.was, tx, rules.config.priceBump)
    {
      var t :| t in all && t.sender == tx.sender && t.nonce == tx.nonce
        && (t == tx || !Replaces(t, tx, rules.config.priceBump));
      assert Held(course.was, t);
    }
    forall tx | tx in course.lost && Invalid(rules, before.accounts, tx, tx.sender in before.accounts, checks(tx)).None?
      ensures StillHeld(course.was, tx, rules.config.priceBump)
    {
      assert Valid(rules, course.start, tx, checks);
    }
  }

  /** What the reset of a run did does not depend on what promotion then did. */
  lemma SameBeginning(c: Course, d: Course)
    requires d == c.(p := d.p, q := d.q, beats := d.beats)
    ensures forall reset: Option<ResetRequest>, view: ChainView, state, maxGas |
      reset.Some? ==> HasBlock(view.blocks, reset.value.newHead) ::
      Begun(reset, view, c, state, maxGas) <==> Begun(reset, view, d, state, maxGas)
    ensures forall rules, before, checks :: Rejoined(rules, before, checks, c) <==> Rejoined(rules, before, checks, d)
    ensures forall rules, accounts, all, checks ::
      Rescued(rules, accounts, all, checks, c) <==> Rescued(rules, accounts, all, checks, d)
  {
    hide GivenUp, Unsearched, Traced, Lost, Renewed, Staged, Before, StillHeld, Invalid, HasBlock;
  }

  /** The operations that take the pool lock. */
  datatype Step =
    | Submit(tx: Tx, local: bool, gasPriceActive: bool, checks: Checks)
    | Reorg(reset: Option<ResetRequest>, dirty: set<Address>, view: ChainView)
    | SetPrice(price: nat, gasPriceActive: bool)
    | Evict(expired: set<Address>)

  /** What one step of a run asks of its arguments. */
  ghost predicate Fit(step: Step) {
    step.Reorg? && step.reset.Some? ==>
      Named(step.view.blocks) && HasBlock(step.view.blocks, step.reset.value.newHead)
  }

  lemma StepIs(was: ChainState, step: Step)
    ensures !step.Reorg? ==> Fit(step) && Smooth(was, step) && StateAfter(was, step) == was
    ensures step.Reorg? && step.reset.None? ==> Fit(step) && Smooth(was, step) && StateAfter(was, step) == was
    ensures step.Reorg? && step.reset.Some? && Fit(step) ==>
      Named(step.view.blocks) && HasBlock(step.view.blocks, step.reset.value.newHead)
    ensures step.Reorg? && step.reset.Some? && Smooth(was, step) ==>
      && step.view.filtering && Later(was, step.reset.value, step.view)
      && step.view.stateAt(step.reset.value.newHead) == Some(StateAfter(was, step))
  {
    hide ResetRequest.Extends, Named;
  }

  ghost predicate Smooth(was: ChainState, step: Step) {
    step.Reorg? && step.reset.Some? ==> step.view.filtering && Later(was, step.reset.value, step.view)
  }

  ghost function StateAfter(was: ChainState, step: Step): ChainState
    requires Smooth(was, step)
  {
    if step.Reorg? && step.reset.Some? then step.view.stateAt(step.reset.value.newHead).value else was
  }

  ghost predicate AllSmooth(was: ChainState, steps: seq<Step>)
    decreases |steps|
  {
    steps == [] || (Smooth(was, steps[0]) && AllSmooth(StateAfter(was, steps[0]), steps[1..]))
  }

  /** The transactions that a step brings. */
  ghost function Joining(step: Step): seq<Tx>
    requires Fit(step)
  {
    if step.Submit? then [step.tx]
    else if step.Reorg? && step.reset.Some? && Traced(step.reset.value, step.view) then
      Lost(step.view.blocks, step.reset.value.oldHead.value, step.reset.value.newHead)
    else []
  }

  /** The step brings only remote transactions that were not seen before, and if it is a reset, its
      search for lost transactions is not broken off. */
  ghost predicate Fresh(step: Step, seen: set<Tx>, accounts: set<Address>)
    requires Fit(step)
  {
    && (step.Submit? ==> !step.local)
    && (step.Reorg? && step.reset.Some? ==>
          || GivenUp(step.reset.value, step.view) || Unsearched(step.reset.value, step.view)
          || Traced(step.reset.value, step.view))
    && Newcomers(Joining(step), seen, accounts)
  }

  ghost predicate AllFresh(steps: seq<Step>, seen: set<Tx>, accounts: set<Address>)
    requires forall step :: step in steps ==> Fit(step)
    decreases |steps|
  {
    steps == []
    || (Fresh(steps[0], seen, accounts) && AllFresh(steps[1..], seen + Elements(Joining(steps[0])), accounts))
  }

  lemma FreshIs(step: Step, seen: set<Tx>, seen': set<Tx>, accounts: set<Address>)
    requires Fit(step)
    ensures Fresh(step, seen, accounts) && seen' <= seen ==> Newcomers(Joining(step), seen', accounts)
    ensures step.Submit? ==> Joining(step) == [step.tx] && Elements(Joining(step)) == {step.tx}
    ensures step.Submit? && Fresh(step, seen, accounts) && seen' <= seen ==>
      !step.local && Newcomer(step.tx, step.local, seen', accounts)
    ensures !step.Submit? && !step.Reorg? ==> Joining(step) == []
  {
    hide Fit, GivenUp, Unsearched, Traced, Lost;
    if step.Submit? && Fresh(step, seen, accounts) {
      assert step.tx in Joining(step);
    }
  }

  lemma AccountsStay(rules: Rules, was: Holdings, tx: Tx, checks: Checks, stage: Stage)
    requires Handled(rules, was, tx, false, checks, stage) && was.locals !! was.remotes
    ensures stage.now.accounts == was.accounts
  {
    hide *;
    HandledIs(rules, was, tx, false, checks, stage);
    FairIs(was.remotes, stage.gone, Surplus(rules.config, was.All(), tx));
    ThinnedAll(was, stage.mid, stage.gone);
    EnteredAll(stage.mid, stage.now, tx, false, stage.outcome.Accepted?);
  }

  /** What a run finds to be lost is what the step brings. */
  lemma JoiningIs(step: Step, seen: set<Tx>, accounts: set<Address>, course: Course, state: ChainState, maxGas: nat)
    requires step.Reorg? && Fit(step) && Begun(step.reset, step.view, course, state, maxGas)
    requires !course.taken ==> course.lost == []
    ensures Fresh(step, seen, accounts) ==> course.lost == Joining(step)
  {
    hide Named, Lost, Newcomers;
  }

  lemma LimitedSize(all: set<Tx>, once: bool, limit: nat)
    requires Limited(all, once, limit)
    ensures |all| <= limit
  {
  }

  /** What the pool asks the chain: its blocks, the state and gas limit at a block, and what
      Quorum's price rule and the checks of a transaction say now. */
  datatype ChainView = ChainView(
    blocks: Store, stateAt: Block -> Option<ChainState>, gasLimit: Block -> nat,
    gasPriceActive: bool, filtering: bool, checks: Tx -> Checks)

  const MINED := Tx(1, 7, 0, 0, 60, 21000, 200)
  const QUEUED := Tx(2, 7, 1, 0, 60, 21000, 200)
  const OLD_HEAD := Block(1, NO_HASH, 0, 1, [])
  const NEW_HEAD := Block(2, 1, 1, 1, [MINED])
  const STATE_BEFORE := ChainState(map[], map[7 := 100])
  const STATE_AFTER := ChainState(map[7 := 1], map[7 := 40])

  /** With gas prices disabled the pool does not filter its queue. Account 7 has sent this node its
      second transaction only; the first comes with the next block, and what it leaves does not pay
      for the second. That is promoted all the same, and the demotion that drops it leaves behind the
      nonce that its promotion raised. */
  method NonceLeftBehind() returns (pool: TxPool)
    ensures fresh(pool) && pool.Steady() && !pool.Synced()
    ensures At(pool.pending, 7) == map[] && pool.currentState.Nonce(7) == 1 && pool.pendingNonces.Value(7) == 2
  {
    hide *;
    pool := new TxPool(DEFAULTS, {}, STATE_BEFORE, 30000);
    var checks := Checks(true, true, true, true);
    Welcome(pool, checks);
    ghost var was := pool.Contents();
    ghost var rules := pool.RulesNow(false);
    var r, stage := pool.Add(QUEUED, false, false, checks);
    OnlyQueued(rules, was, checks, stage);
    pool.ContentsAre();
    var view := ChainView(
      map[1 := OLD_HEAD, 2 := NEW_HEAD], (b: Block) => if b == NEW_HEAD then Some(STATE_AFTER) else None,
      (b: Block) => 30000, false, false, (tx: Tx) => checks);
    NextHead(view);
    var promoted, course := pool.RunReorg(Some(ResetRequest(Some(OLD_HEAD), NEW_HEAD)), {}, view);
    InformedAt(course.was, pool.currentState, pool.currentMaxGas, pool.locals, pool.config.accountQueue, 7);
    SecondUnpayable(course.was(7));
    LeftEmpty(pool, course, promoted);
  }

  lemma Welcome(pool: TxPool, checks: Checks)
    requires pool.Steady() && pool.pending == map[] && pool.queue == map[] && pool.locals == {}
    requires pool.currentState == STATE_BEFORE && pool.currentMaxGas == 30000 && pool.config == Sanitize(DEFAULTS)
    requires checks == Checks(true, true, true, true)
    ensures var rules, was := pool.RulesNow(false), pool.Contents();
      && RefusalOf(rules, was, QUEUED, false, checks).None? && !Crowded(rules.config, was.All(), QUEUED)
      && was.pending == map[] && was.queue == map[] && was.All() == {}
  {
    hide Heaps.IsHeap, TxPricedList.Popped, TxPricedList.Room;
    pool.SoundFacts();
    forall tx ensures tx !in pool.all.All() {
      assert !Has(pool.pending, tx) && !Has(pool.queue, tx);
    }
    assert pool.all.All() == {};
  }

  lemma OnlyQueued(rules: Rules, was: Holdings, checks: Checks, stage: Stage)
    requires was.pending == map[] && was.queue == map[] && was.All() == {}
    requires RefusalOf(rules, was, QUEUED, false, checks).None? && !Crowded(rules.config, was.All(), QUEUED)
    requires Handled(rules, was, QUEUED, false, checks, stage)
    ensures At(stage.now.pending, 7) == map[] && At(stage.now.queue, 7) == map[1 := QUEUED]
  {
    hide CutBy, LoweredAll, RefusalOf, Crowded, Fair, Surplus, Partition;
    assert was.locals == {} && was.remotes == {} && stage.mid.All() == {};
  }

  lemma NextHead(view: ChainView)
    requires view.blocks == map[1 := OLD_HEAD, 2 := NEW_HEAD] && view.stateAt(NEW_HEAD) == Some(STATE_AFTER)
    ensures var request := ResetRequest(Some(OLD_HEAD), NEW_HEAD);
      Named(view.blocks) && HasBlock(view.blocks, NEW_HEAD) && Later(STATE_BEFORE, request, view)
    ensures STATE_AFTER.Nonce(7) == 1 && STATE_AFTER.Balance(7) == 40
  {
    assert Closed(view.blocks);
    assert Ancestor(view.blocks, 2, 0) == Ancestor(view.blocks, 1, 0) == 1;
  }

  lemma SecondUnpayable(s: Standing)
    requires s.pending == map[] && s.queue == map[1 := QUEUED] && s.virtual == s.nonce == 1 && s.balance == 40
    ensures !s.FirstIsPayable(false) && s.Kept(true, true, false) == map[] && s.Lifted(true, false) == 2
  {
    hide Collected, DemotedPending;
    assert s.Eligible(false) == s.queue;
    assert Least({1}) == 1;
    assert s.queue - {1} == map[];
    assert s.Ready(false) == [QUEUED];
    var s0: nat := 1;
    assert Contiguous(s.pending, s0);
    AlignedExactlyWhen(s, false);
  }

  lemma LeftEmpty(pool: TxPool, course: Course, promoted: seq<Tx>)
    requires Reorganised(course.was, true, {}, false, promoted, course.p, course.q)
    requires Truncated(course.p, pool.pending, pool.locals, pool.config.accountSlots, pool.config.globalSlots)
    requires course.was(7).Kept(true, true, false) == map[]
    ensures At(pool.pending, 7) == map[] && forall n: nat :: NextNonce(At(pool.pending, 7), n) == n
  {
    hide Standing.Kept, Capped, Total;
    assert At(course.p, 7) == map[];
  }
}
