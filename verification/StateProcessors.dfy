/** `StateProcessor`: the transactions of a block share one gas pool and one count of gas used. */
module StateProcessors {
  import opened Types
  import opened GasPools
  import opened StateTransitions

  /** A transaction of a block: its message, the oracles it meets, whether its sender is permitted to
      send it, and, for a private one on a node with several private states, what is run on those. */
  datatype TxRun = TxRun(msg: Msg, env: Env, permitted: bool, mps: Option<Delivery>)

  /** Whether the payload was received and its parties resolved, and the message and the oracles for
      each private state. */
  datatype Delivery = Delivery(received: bool, states: seq<StateRun>)

  datatype StateRun = StateRun(msg: Msg, env: Env, party: bool)

  datatype Receipt = Receipt(cumulativeGasUsed: nat, gasUsed: nat, successful: bool)

  datatype BlockError = NotReceived | NotPermitted | InvalidGasPrice | Rejected(error: Error)

  datatype Processed = Invalid(error: BlockError) | Valid(receipts: seq<Receipt>, usedGas: nat)

  ghost predicate Proper(run: TxRun) {
    && Frugal(run.env) && |run.msg.data| <= MAX_UINT64 && !run.msg.isInnerPrivate
    && (run.mps.Some? ==> AllPrivate(run.mps.value.states))
  }

  function GasOf(receipts: seq<Receipt>): nat {
    if receipts == [] then 0 else GasOf(receipts[..|receipts| - 1]) + receipts[|receipts| - 1].gasUsed
  }

  /** Receipts count up the gas used. */
  ghost predicate CountUp(receipts: seq<Receipt>) {
    forall i :: 0 <= i < |receipts| ==> receipts[i].cumulativeGasUsed == GasOf(receipts[..i + 1])
  }

  lemma OneMoreReceipt(receipts: seq<Receipt>, r: Receipt)
    requires CountUp(receipts) && r.cumulativeGasUsed == GasOf(receipts) + r.gasUsed
    ensures CountUp(receipts + [r]) && GasOf(receipts + [r]) == r.cumulativeGasUsed
  {
    var all := receipts + [r];
    assert all[..|receipts|] == receipts && all[..|all|] == all;
    forall i | 0 <= i < |all| ensures all[i].cumulativeGasUsed == GasOf(all[..i + 1]) {
      if i < |receipts| { assert all[..i + 1] == receipts[..i + 1]; }
    }
  }

  /** Applies one message and adds the gas it reports to the block's count. */
  method ApplyToState(env: Env, msg: Msg, gp: GasPool, state: StateDB, usedGas: nat)
    returns (err: Option<Error>, receipt: Receipt)
    requires Frugal(env) && |msg.data| <= MAX_UINT64
    modifies gp, state
    ensures var f := Transition(env, msg, old(state.Now()), old(gp.gas));
      && state.Now() == (if f.result.Failed? then f.world else f.world.(refund := 0)) && gp.gas == f.pool
      && (err == if f.result.Failed? then Some(f.result.error) else None)
      && (err.None? ==>
            && receipt.gasUsed == f.result.usedGas && receipt.cumulativeGasUsed == usedGas + f.result.usedGas
            && (receipt.successful <==> Private(env, msg) || !f.result.failed))
  {
    hide Transition;
    var st := new StateTransition(env, msg, gp, state);
    var result := st.TransitionDb();
    if result.Failed? { return Some(result.error), Receipt(usedGas, 0, false); }
    state.Finalise();
    err := None;
    receipt := Receipt(usedGas + result.usedGas, result.usedGas, (env.isQuorum && msg.isPrivate) || !result.failed);
  }

  /** Why a transaction is not even tried. */
  function Barred(env: Env, msg: Msg, permitted: bool, gasPriceEnabled: bool): Option<BlockError> {
    if !permitted then Some(NotPermitted)
    else if env.isQuorum && !gasPriceEnabled && msg.gasPrice > 0 then Some(InvalidGasPrice)
    else None
  }

  /** The error of a transaction on a state, if it has one. */
  ghost function ErrorOn(env: Env, msg: Msg, permitted: bool, gasPriceEnabled: bool, w: World,
                         pool: nat): Option<BlockError>
    requires Frugal(env)
  {
    var barred, result := Barred(env, msg, permitted, gasPriceEnabled), Transition(env, msg, w, pool).result;
    if barred.Some? then barred else if result.Failed? then Some(Rejected(result.error)) else None
  }

  /** Checks permission and gas price before applying a message. */
  method ApplyTransaction(env: Env, msg: Msg, permitted: bool, gasPriceEnabled: bool, gp: GasPool, state: StateDB,
                          usedGas: nat)
    returns (err: Option<BlockError>, receipt: Receipt)
    requires Frugal(env) && |msg.data| <= MAX_UINT64
    modifies gp, state
    ensures err == ErrorOn(env, msg, permitted, gasPriceEnabled, old(state.Now()), old(gp.gas))
    ensures err == Some(NotPermitted) <==> !permitted
    ensures err == Some(InvalidGasPrice) <==> permitted && env.isQuorum && !gasPriceEnabled && msg.gasPrice > 0
    ensures Barred(env, msg, permitted, gasPriceEnabled).Some? ==>
      state.Now() == old(state.Now()) && gp.gas == old(gp.gas)
    ensures Barred(env, msg, permitted, gasPriceEnabled).None? ==>
      var f := Transition(env, msg, old(state.Now()), old(gp.gas));
      && state.Now() == (if f.result.Failed? then f.world else f.world.(refund := 0)) && gp.gas == f.pool
      && (err.None? ==>
            && receipt.gasUsed == f.result.usedGas && receipt.cumulativeGasUsed == usedGas + f.result.usedGas
            && (receipt.successful <==> Private(env, msg) || !f.result.failed))
  {
    hide Transition;
    receipt := Receipt(usedGas, 0, false);
    if !permitted { return Some(NotPermitted), receipt; }
    if env.isQuorum && !gasPriceEnabled && msg.gasPrice > 0 { return Some(InvalidGasPrice), receipt; }
    var rejected;
    rejected, receipt := ApplyToState(env, msg, gp, state, usedGas);
    err := if rejected.Some? then Some(Rejected(rejected.value)) else None;
  }

  /** The first error that a transaction meets on its private states, which all see the same public
      state and the same pool. */
  ghost function FirstError(states: seq<StateRun>, permitted: bool, gasPriceEnabled: bool, w: World, pool: nat,
                            onPartiesOnly: bool): Option<BlockError>
    requires AllPrivate(states)
  {
    if states == [] then None
    else
      var init, last := states[..|states| - 1], states[|states| - 1];
      var before := FirstError(init, permitted, gasPriceEnabled, w, pool, onPartiesOnly);
      if before.Some? || (onPartiesOnly && !last.party) then before
      else ErrorOn(last.env, last.msg, permitted, gasPriceEnabled, w, pool)
  }

  /** Why a transaction fails on a node with several private states. */
  ghost function Failure(mps: Delivery, permitted: bool, gasPriceEnabled: bool, w: World, pool: nat,
                         onPartiesOnly: bool): Option<BlockError>
    requires AllPrivate(mps.states)
  {
    if !mps.received then Some(NotReceived)
    else FirstError(mps.states, permitted, gasPriceEnabled, w, pool, onPartiesOnly)
  }

  ghost predicate AllPrivate(states: seq<StateRun>) {
    forall i :: 0 <= i < |states| ==>
      Frugal(states[i].env) && |states[i].msg.data| <= MAX_UINT64 && Private(states[i].env, states[i].msg)
  }

  /** A transaction passes if it passes on every private state, or on every one whose node is a party, and
      otherwise the first of them decides. */
  lemma {:induction false} FirstErrorIs(states: seq<StateRun>, permitted: bool, gasPriceEnabled: bool, w: World,
                                        pool: nat, onPartiesOnly: bool)
    requires AllPrivate(states)
    ensures match FirstError(states, permitted, gasPriceEnabled, w, pool, onPartiesOnly)
      case None => forall i :: 0 <= i < |states| && (states[i].party || !onPartiesOnly) ==>
        ErrorOn(states[i].env, states[i].msg, permitted, gasPriceEnabled, w, pool).None?
      case Some(e) => exists i ::
        && 0 <= i < |states| && (states[i].party || !onPartiesOnly)
        && ErrorOn(states[i].env, states[i].msg, permitted, gasPriceEnabled, w, pool) == Some(e)
        && forall j :: 0 <= j < i && (states[j].party || !onPartiesOnly) ==>
             ErrorOn(states[j].env, states[j].msg, permitted, gasPriceEnabled, w, pool).None?
  {
    hide ErrorOn, Frugal;
    if states != [] {
      var k := |states| - 1;
      FirstErrorIs(states[..k], permitted, gasPriceEnabled, w, pool, onPartiesOnly);
      if FirstError(states[..k], permitted, gasPriceEnabled, w, pool, onPartiesOnly).Some? {
        var e := FirstError(states[..k], permitted, gasPriceEnabled, w, pool, onPartiesOnly).value;
        var i :| 0 <= i < k && (states[..k][i].party || !onPartiesOnly)
          && ErrorOn(states[..k][i].env, states[..k][i].msg, permitted, gasPriceEnabled, w, pool) == Some(e)
          && forall j :: 0 <= j < i && (states[..k][j].party || !onPartiesOnly) ==>
               ErrorOn(states[..k][j].env, states[..k][j].msg, permitted, gasPriceEnabled, w, pool).None?;
        assert states[i] == states[..k][i];
        assert forall j :: 0 <= j < i ==> states[j] == states[..k][j];
      } else {
        assert forall j :: 0 <= j < k ==> states[j] == states[..k][j];
      }
    }
  }

  lemma {:induction false} ErrorStays(states: seq<StateRun>, permitted: bool, gasPriceEnabled: bool, w: World,
                                      pool: nat, onPartiesOnly: bool, i: nat)
    requires AllPrivate(states) && i <= |states|
    requires FirstError(states[..i], permitted, gasPriceEnabled, w, pool, onPartiesOnly).Some?
    ensures FirstError(states, permitted, gasPriceEnabled, w, pool, onPartiesOnly)
      == FirstError(states[..i], permitted, gasPriceEnabled, w, pool, onPartiesOnly)
    decreases |states|
  {
    hide ErrorOn, Frugal;
    if i < |states| {
      assert states[..|states| - 1][..i] == states[..i];
      ErrorStays(states[..|states| - 1], permitted, gasPriceEnabled, w, pool, onPartiesOnly, i);
    } else {
      assert states[..i] == states;
    }
  }

  /** Runs a private transaction on every private state, each time on a copy of the pool and of the
      public state, so that neither shows a trace of it; the first error fails the transaction. */
  method ApplyTransactionOnMPS(mps: Delivery, permitted: bool, gasPriceEnabled: bool, originalGP: GasPool,
                               statedb: StateDB, usedGas: nat, onPartiesOnly: bool)
    returns (err: Option<BlockError>, usedGas': nat)
    requires AllPrivate(mps.states)
    ensures err == Failure(mps, permitted, gasPriceEnabled, statedb.Now(), originalGP.gas, onPartiesOnly)
    ensures usedGas' == usedGas
  {
    hide ErrorOn, Transition, Frugal;
    usedGas' := usedGas;
    if !mps.received { return Some(NotReceived), usedGas; }
    var states := mps.states;
    for i := 0 to |states|
      invariant usedGas' == usedGas
      invariant FirstError(states[..i], permitted, gasPriceEnabled, statedb.Now(), originalGP.gas, onPartiesOnly).None?
    {
      assert states[..i + 1][..i] == states[..i];
      if states[i].party || !onPartiesOnly {
        var publicStateDB := new StateDB(statedb.Now());
        var gp := new GasPool();
        gp.AddGas(originalGP.gas);
        ReportsNothing(states[i].env, states[i].msg, permitted, gasPriceEnabled, publicStateDB.Now(), gp.gas);
        var e, receipt :=
          ApplyTransaction(states[i].env, states[i].msg, permitted, gasPriceEnabled, gp, publicStateDB, usedGas');
        if e.Some? {
          ErrorStays(states, permitted, gasPriceEnabled, statedb.Now(), originalGP.gas, onPartiesOnly, i + 1);
          return e, usedGas';
        }
        usedGas' := receipt.cumulativeGasUsed;
      }
    }
    assert states[..|states|] == states;
    err := None;
  }

  lemma ReportsNothing(env: Env, msg: Msg, permitted: bool, gasPriceEnabled: bool, w: World, pool: nat)
    requires Frugal(env) && Private(env, msg)
    ensures ErrorOn(env, msg, permitted, gasPriceEnabled, w, pool).None? ==>
      && Barred(env, msg, permitted, gasPriceEnabled).None?
      && Transition(env, msg, w, pool).result.Done? && Transition(env, msg, w, pool).result.usedGas == 0
  {
    hide Transition;
    if Transition(env, msg, w, pool).result.Done? { PrivateAccounts(env, msg, w, pool); }
  }

  /** The inner transaction of a privacy marker runs on a pool of its own, which never runs out and
      leaves that of the block alone. */
  method ApplyInnerTransaction(inner: Msg, env: Env, permitted: bool, gasPriceEnabled: bool, state: StateDB,
                               mps: Option<Delivery>, usedGas: nat)
    returns (err: Option<BlockError>, usedGas': nat)
    requires Frugal(env) && |inner.data| <= MAX_UINT64 && inner.isInnerPrivate && env.isQuorum
    requires mps.Some? ==> AllPrivate(mps.value.states)
    modifies state
    ensures usedGas' == usedGas && (!inner.isPrivate ==> err == Some(Rejected(InnerNotPrivate)))
    ensures !inner.isPrivate || mps.Some? ==> state.Now() == old(state.Now())
    ensures inner.isPrivate && mps.Some? ==>
      err == Failure(mps.value, permitted, gasPriceEnabled, state.Now(), inner.gas, true)
    ensures inner.isPrivate && mps.None? ==>
      && err == ErrorOn(env, inner, permitted, gasPriceEnabled, old(state.Now()), inner.gas)
      && err != Some(Rejected(GasLimitReached))
    ensures inner.isPrivate && mps.None? ==>
      if Barred(env, inner, permitted, gasPriceEnabled).Some? then state.Now() == old(state.Now())
      else
        var f := Transition(env, inner, old(state.Now()), inner.gas);
        state.Now() == if f.result.Failed? then f.world else f.world.(refund := 0)
  {
    hide Frugal, Transition, Failure, AllPrivate;
    OwnPoolSuffices(env, inner, state.Now());
    usedGas' := usedGas;
    if !inner.isPrivate { return Some(Rejected(InnerNotPrivate)), usedGas; }
    var singleUse := new GasPool();
    singleUse.AddGas(inner.gas);
    if mps.Some? {
      err, usedGas' := ApplyTransactionOnMPS(mps.value, permitted, gasPriceEnabled, singleUse, state, usedGas, true);
      return;
    }
    var receipt;
    err, receipt := ApplyTransaction(env, inner, permitted, gasPriceEnabled, singleUse, state, 0);
  }

  lemma OwnPoolSuffices(env: Env, msg: Msg, w: World)
    requires Frugal(env)
    ensures Transition(env, msg, w, msg.gas).result != Result.Failed(GasLimitReached)
  {
    hide Intrinsic, Frugal, Paid;
  }

  /** A private transaction that costs the pool something: its gas limit is not zero and the cost
      of its access list does not wrap around. */
  ghost predicate Burns(run: TxRun) {
    && Private(run.env, run.msg) && run.msg.gas > 0
    && DataCost(run.msg.data, run.msg.to.None?, run.env.homestead, run.env.istanbul) + AccessCost(run.msg.access)
         <= MAX_UINT64
  }

  /** Between two transactions of a block: how the pool, the count and the money stand. */
  ghost predicate Balanced(txs: seq<TxRun>, i: nat, gasLimit: nat, pool: nat, usedGas: nat, wealth: nat, wealth0: nat)
    requires i <= |txs|
  {
    && pool + usedGas <= gasLimit
    && ((forall j :: 0 <= j < i ==> !Private(txs[j].env, txs[j].msg)) ==> pool + usedGas == gasLimit)
    && ((exists j :: 0 <= j < i && Burns(txs[j])) ==> pool + usedGas < gasLimit)
    && ((forall j :: 0 <= j < i ==> Conserving(txs[j].env)) ==> wealth <= wealth0)
    && ((forall j :: 0 <= j < i ==> Conserving(txs[j].env) && !Private(txs[j].env, txs[j].msg)) ==> wealth == wealth0)
  }

  lemma StillBalanced(txs: seq<TxRun>, i: nat, gasLimit: nat, pool: nat, usedGas: nat, w: World, wealth0: nat)
    requires i < |txs| && Proper(txs[i]) && Balanced(txs, i, gasLimit, pool, usedGas, Wealth(w.balances), wealth0)
    requires Transition(txs[i].env, txs[i].msg, w, pool).result.Done?
    ensures var f := Transition(txs[i].env, txs[i].msg, w, pool);
      Balanced(txs, i + 1, gasLimit, f.pool, usedGas + f.result.usedGas, Wealth(f.world.balances), wealth0)
  {
    hide Transition, Frugal, Conserving, Wealth, Burns;
    OneTransaction(txs[i], w, pool);
  }

  lemma OneTransaction(run: TxRun, w: World, pool: nat)
    requires Proper(run) && Transition(run.env, run.msg, w, pool).result.Done?
    ensures var env, msg, f := run.env, run.msg, Transition(run.env, run.msg, w, pool);
      && f.pool + f.result.usedGas <= pool
      && (!Private(env, msg) ==> f.pool + f.result.usedGas == pool)
      && (Burns(run) ==> f.pool + f.result.usedGas < pool)
      && (Conserving(env) ==> Wealth(f.world.balances) <= Wealth(w.balances))
      && (Conserving(env) && !Private(env, msg) ==> Wealth(f.world.balances) == Wealth(w.balances))
  {
    hide Transition, Wealth, Conserving, Frugal, DataCost;
    var env, msg := run.env, run.msg;
    if Private(env, msg) {
      PrivateAccounts(env, msg, w, pool);
      if Burns(run) {
        IntrinsicExact(msg.data, msg.access, msg.to.None?, env.homestead, env.istanbul);
        AtLeastBase(msg.data, msg.to.None?, env.homestead, env.istanbul);
      }
    } else {
      PublicAccounts(env, msg, w, pool);
    }
    if Conserving(env) { MoneyConserved(env, msg, w, pool); }
  }

  lemma AtLeastBase(data: seq<Byte>, creation: bool, homestead: bool, eip2028: bool)
    ensures DataCost(data, creation, homestead, eip2028) >= TX_GAS
  {
    NonZeroAtMost(data);
  }

  /** How a block stands after some of its transactions. */
  datatype BlockRun = Broken(error: BlockError) | Standing(world: World, pool: nat, receipts: seq<Receipt>)

  /** A block on values: every transaction meets the state, the pool and the count as the one
      before it left them. */
  ghost function Ran(txs: seq<TxRun>, gasPriceEnabled: bool, w: World, gasLimit: nat): BlockRun
    requires forall i :: 0 <= i < |txs| ==> Proper(txs[i])
  {
    if txs == [] then Standing(w, gasLimit, [])
    else
      match Ran(txs[..|txs| - 1], gasPriceEnabled, w, gasLimit)
      case Broken(e) => Broken(e)
      case Standing(world, pool, receipts) => Next(txs[|txs| - 1], gasPriceEnabled, world, pool, receipts)
  }

  ghost function Next(tx: TxRun, gasPriceEnabled: bool, w: World, pool: nat, receipts: seq<Receipt>): BlockRun
    requires Proper(tx)
  {
    var mps := if tx.mps.Some? then Failure(tx.mps.value, tx.permitted, gasPriceEnabled, w, pool, false) else None;
    var err := ErrorOn(tx.env, tx.msg, tx.permitted, gasPriceEnabled, w, pool);
    var f := Transition(tx.env, tx.msg, w, pool);
    if mps.Some? then Broken(mps.value)
    else if err.Some? then Broken(err.value)
    else
      var receipt := Receipt(
        GasOf(receipts) + f.result.usedGas, f.result.usedGas, Private(tx.env, tx.msg) || !f.result.failed);
      Standing(f.world.(refund := 0), f.pool, receipts + [receipt])
  }

  lemma {:induction false} BrokenStays(txs: seq<TxRun>, gasPriceEnabled: bool, w: World, gasLimit: nat, i: nat)
    requires (forall j :: 0 <= j < |txs| ==> Proper(txs[j])) && i <= |txs|
    requires Ran(txs[..i], gasPriceEnabled, w, gasLimit).Broken?
    ensures Ran(txs, gasPriceEnabled, w, gasLimit) == Ran(txs[..i], gasPriceEnabled, w, gasLimit)
    decreases |txs|
  {
    hide Next, Proper;
    if i < |txs| {
      assert txs[..|txs| - 1][..i] == txs[..i];
      BrokenStays(txs[..|txs| - 1], gasPriceEnabled, w, gasLimit, i);
    } else {
      assert txs[..i] == txs;
    }
  }

  /** A transaction that a block carries out is permitted, obeys Quorum's rule on gas prices, has the nonce
      that its sender has at that point, and can be paid for from what the sender and the pool have left. */
  ghost predicate Met(tx: TxRun, gasPriceEnabled: bool, before: BlockRun) {
    && before.Standing? && tx.permitted
    && (tx.env.isQuorum && !gasPriceEnabled ==> tx.msg.gasPrice == 0)
    && (tx.msg.checkNonce ==> before.world.Nonce(tx.msg.from) == tx.msg.nonce)
    && tx.msg.gas * tx.msg.gasPrice <= before.world.Balance(tx.msg.from) && tx.msg.gas <= before.pool
    && (tx.mps.Some? ==> tx.mps.value.received)
  }

  lemma NextMet(tx: TxRun, gasPriceEnabled: bool, w: World, pool: nat, receipts: seq<Receipt>)
    requires Proper(tx) && Next(tx, gasPriceEnabled, w, pool, receipts).Standing?
    ensures Met(tx, gasPriceEnabled, Standing(w, pool, receipts))
    ensures forall a :: Advancing(tx.env) ==>
      w.Nonce(a) + (if a == tx.msg.from && tx.msg.to.Some? then 1 else 0)
        <= Next(tx, gasPriceEnabled, w, pool, receipts).world.Nonce(a)
  {
    hide Transition, FirstError, Advancing, Frugal, AllPrivate;
    ChecksDecide(tx.env, tx.msg, w, pool);
    if Advancing(tx.env) {
      forall a
        ensures w.Nonce(a) + (if a == tx.msg.from && tx.msg.to.Some? then 1 else 0)
          <= Next(tx, gasPriceEnabled, w, pool, receipts).world.Nonce(a)
      {
        NoncesAdvance(tx.env, tx.msg, w, pool, a);
      }
    }
  }

  /** In a valid block all transactions are met where they should be. */
  lemma {:induction false} AllMet(txs: seq<TxRun>, gasPriceEnabled: bool, w: World, gasLimit: nat, i: nat)
    requires (forall j :: 0 <= j < |txs| ==> Proper(txs[j])) && i < |txs|
    requires Ran(txs, gasPriceEnabled, w, gasLimit).Standing?
    ensures Met(txs[i], gasPriceEnabled, Ran(txs[..i], gasPriceEnabled, w, gasLimit))
    decreases |txs|
  {
    hide Next, Met, Proper;
    var init := txs[..|txs| - 1];
    var before := Ran(init, gasPriceEnabled, w, gasLimit);
    if i < |init| {
      assert init[..i] == txs[..i];
      AllMet(init, gasPriceEnabled, w, gasLimit, i);
    } else {
      assert txs[..i] == init;
      NextMet(txs[i], gasPriceEnabled, before.world, before.pool, before.receipts);
    }
  }

  /** Over a part of a valid block the nonce of an account never goes down. */
  lemma {:induction false} NoncesKeep(txs: seq<TxRun>, gasPriceEnabled: bool, w: World, gasLimit: nat, i: nat,
                                      a: Address)
    requires (forall j :: 0 <= j < |txs| ==> Proper(txs[j]) && Advancing(txs[j].env)) && i <= |txs|
    requires Ran(txs, gasPriceEnabled, w, gasLimit).Standing?
    ensures Ran(txs[..i], gasPriceEnabled, w, gasLimit).Standing?
    ensures Ran(txs[..i], gasPriceEnabled, w, gasLimit).world.Nonce(a)
      <= Ran(txs, gasPriceEnabled, w, gasLimit).world.Nonce(a)
    decreases |txs|
  {
    hide Next, Proper, Advancing;
    if i == |txs| {
      assert txs[..i] == txs;
    } else {
      var init := txs[..|txs| - 1];
      var before := Ran(init, gasPriceEnabled, w, gasLimit);
      assert init[..i] == txs[..i];
      NoncesKeep(init, gasPriceEnabled, w, gasLimit, i, a);
      NextMet(txs[|txs| - 1], gasPriceEnabled, before.world, before.pool, before.receipts);
    }
  }

  /** No message is carried out twice: of two nonce-checked messages of one sender in a valid block the
      first of which is a call, the second has a higher nonce. */
  lemma NoReplay(txs: seq<TxRun>, gasPriceEnabled: bool, w: World, gasLimit: nat, i: nat, j: nat)
    requires forall k :: 0 <= k < |txs| ==> Proper(txs[k]) && Advancing(txs[k].env)
    requires Ran(txs, gasPriceEnabled, w, gasLimit).Standing? && i < j < |txs|
    requires txs[i].msg.from == txs[j].msg.from && txs[i].msg.checkNonce && txs[j].msg.checkNonce
    requires txs[i].msg.to.Some?
    ensures txs[i].msg.nonce < txs[j].msg.nonce
  {
    hide Next, Proper, Advancing;
    var a := txs[i].msg.from;
    AllMet(txs, gasPriceEnabled, w, gasLimit, i);
    AllMet(txs, gasPriceEnabled, w, gasLimit, j);
    NoncesKeep(txs, gasPriceEnabled, w, gasLimit, i + 1, a);
    NoncesKeep(txs, gasPriceEnabled, w, gasLimit, j, a);
    assert txs[..j][..i + 1] == txs[..i + 1];
    NoncesKeep(txs[..j], gasPriceEnabled, w, gasLimit, i + 1, a);
    var before := Ran(txs[..i], gasPriceEnabled, w, gasLimit);
    assert txs[..i + 1][..i] == txs[..i];
    NextMet(txs[i], gasPriceEnabled, before.world, before.pool, before.receipts);
  }

  /** Processes a block exactly as its transactions one after the other. Whatever they do, the gas
      left in the pool and the gas counted as used do not exceed the limit; they make it up when no
      transaction is private and fall short when one is that burns gas; the receipts count up; and
      money is only ever lost, and only by private transactions. */
  method Process(txs: seq<TxRun>, gasLimit: Uint64, gasPriceEnabled: bool, state: StateDB)
    returns (r: Processed, gp: GasPool)
    requires forall i :: 0 <= i < |txs| ==> Proper(txs[i])
    modifies state
    ensures match Ran(txs, gasPriceEnabled, old(state.Now()), gasLimit)
      case Broken(e) => r == Invalid(e)
      case Standing(world, pool, receipts) =>
        state.Now() == world && gp.gas == pool && r == Valid(receipts, GasOf(receipts))
    ensures r.Valid? ==>
      && gp.gas + r.usedGas <= gasLimit
      && ((forall i :: 0 <= i < |txs| ==> !Private(txs[i].env, txs[i].msg)) ==> gp.gas + r.usedGas == gasLimit)
      && ((exists i :: 0 <= i < |txs| && Burns(txs[i])) ==> gp.gas + r.usedGas < gasLimit)
      && |r.receipts| == |txs| && CountUp(r.receipts)
    ensures r.Valid? ==> forall i :: 0 <= i < |txs| ==>
      var before := Ran(txs[..i], gasPriceEnabled, old(state.Now()), gasLimit);
      && before.Standing? && txs[i].permitted
      && (txs[i].env.isQuorum && !gasPriceEnabled ==> txs[i].msg.gasPrice == 0)
      && (txs[i].msg.checkNonce ==> before.world.Nonce(txs[i].msg.from) == txs[i].msg.nonce)
      && txs[i].msg.gas * txs[i].msg.gasPrice <= before.world.Balance(txs[i].msg.from)
      && txs[i].msg.gas <= before.pool
    ensures r.Valid? && (forall i :: 0 <= i < |txs| ==> Advancing(txs[i].env)) ==>
      forall i, j | 0 <= i < j < |txs| && txs[i].msg.from == txs[j].msg.from && txs[i].msg.to.Some? ::
        txs[i].msg.checkNonce && txs[j].msg.checkNonce ==> txs[i].msg.nonce < txs[j].msg.nonce
    ensures r.Valid? && (forall i :: 0 <= i < |txs| ==> Conserving(txs[i].env)) ==>
      && Wealth(state.Now().balances) <= Wealth(old(state.Now()).balances)
      && ((forall i :: 0 <= i < |txs| ==> !Private(txs[i].env, txs[i].msg)) ==>
            Wealth(state.Now().balances) == Wealth(old(state.Now()).balances))
  {
    hide Transition, Wealth, Frugal, Conserving, CountUp, GasOf, Burns, Failure, AllPrivate, Advancing, Next;
    var receipts: seq<Receipt> := [];
    var usedGas := 0;
    gp := new GasPool();
    gp.AddGas(gasLimit);
    NoReceipts();
    ghost var w0 := state.Now();
    for i := 0 to |txs|
      invariant fresh(gp) && |receipts| == i && CountUp(receipts) && usedGas == GasOf(receipts)
      invariant Ran(txs[..i], gasPriceEnabled, w0, gasLimit) == Standing(state.Now(), gp.gas, receipts)
      invariant Balanced(txs, i, gasLimit, gp.gas, usedGas, Wealth(state.Now().balances), Wealth(w0.balances))
    {
      assert txs[..i + 1][..i] == txs[..i];
      var bad;
      bad, receipts, usedGas := ProcessNext(txs, i, gasLimit, gasPriceEnabled, gp, state, receipts, usedGas, w0);
      if bad.Some? {
        BrokenStays(txs, gasPriceEnabled, w0, gasLimit, i + 1);
        return Invalid(bad.value), gp;
      }
    }
    assert txs[..|txs|] == txs;
    r := Valid(receipts, usedGas);
    forall i | 0 <= i < |txs| ensures Met(txs[i], gasPriceEnabled, Ran(txs[..i], gasPriceEnabled, w0, gasLimit)) {
      AllMet(txs, gasPriceEnabled, w0, gasLimit, i);
    }
    if forall i :: 0 <= i < |txs| ==> Advancing(txs[i].env) {
      forall i, j | 0 <= i < j < |txs| && txs[i].msg.from == txs[j].msg.from && txs[i].msg.to.Some?
        && txs[i].msg.checkNonce && txs[j].msg.checkNonce
        ensures txs[i].msg.nonce < txs[j].msg.nonce
      {
        NoReplay(txs, gasPriceEnabled, w0, gasLimit, i, j);
      }
    }
  }

  /** One turn of the loop of `Process`. */
  method ProcessNext(txs: seq<TxRun>, i: nat, ghost gasLimit: Uint64, gasPriceEnabled: bool, gp: GasPool,
                     state: StateDB, receipts: seq<Receipt>, usedGas: nat, ghost w0: World)
    returns (bad: Option<BlockError>, receipts': seq<Receipt>, usedGas': nat)
    requires i < |txs| && Proper(txs[i]) && CountUp(receipts) && usedGas == GasOf(receipts)
    requires Balanced(txs, i, gasLimit, gp.gas, usedGas, Wealth(state.Now().balances), Wealth(w0.balances))
    modifies gp, state
    ensures Next(txs[i], gasPriceEnabled, old(state.Now()), old(gp.gas), receipts) ==
      if bad.Some? then Broken(bad.value) else Standing(state.Now(), gp.gas, receipts')
    ensures bad.None? ==>
      && |receipts'| == |receipts| + 1 && CountUp(receipts') && usedGas' == GasOf(receipts')
      && Balanced(txs, i + 1, gasLimit, gp.gas, usedGas', Wealth(state.Now().balances), Wealth(w0.balances))
  {
    hide Transition, Wealth, Frugal, Conserving, CountUp, GasOf, Burns, Failure, Balanced;
    var tx := txs[i];
    receipts', usedGas' := receipts, usedGas;
    if tx.mps.Some? {
      var mpsErr;
      mpsErr, usedGas' :=
        ApplyTransactionOnMPS(tx.mps.value, tx.permitted, gasPriceEnabled, gp, state, usedGas', false);
      if mpsErr.Some? { return mpsErr, receipts', usedGas'; }
    }
    if !tx.permitted { return Some(NotPermitted), receipts', usedGas'; }
    if tx.env.isQuorum && !gasPriceEnabled && tx.msg.gasPrice > 0 { return Some(InvalidGasPrice), receipts', usedGas'; }
    ghost var w, pool := state.Now(), gp.gas;
    var err, receipt := ApplyToState(tx.env, tx.msg, gp, state, usedGas');
    if err.Some? { return Some(Rejected(err.value)), receipts', usedGas'; }
    StillBalanced(txs, i, gasLimit, pool, usedGas', w, Wealth(w0.balances));
    OneMoreReceipt(receipts, receipt);
    usedGas', receipts' := receipt.cumulativeGasUsed, receipts' + [receipt];
    bad := None;
  }

  lemma NoReceipts()
    ensures CountUp([]) && GasOf([]) == 0
  {
  }
}
