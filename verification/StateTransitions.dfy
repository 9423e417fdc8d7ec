/** `StateTransition`: one message is paid for, executed and settled. The EVM and the privacy
    manager are oracles. */
module StateTransitions {
  import opened Types
  import opened GasPools

  type Byte = n: nat | n < 256

  const TX_GAS: nat := 21000
  const TX_GAS_CONTRACT_CREATION: nat := 53000
  const TX_DATA_ZERO_GAS: nat := 4
  const TX_DATA_NON_ZERO_GAS_FRONTIER: nat := 68
  const TX_DATA_NON_ZERO_GAS_EIP2028: nat := 16
  const TX_ACCESS_LIST_ADDRESS_GAS: nat := 2400
  const TX_ACCESS_LIST_STORAGE_KEY_GAS: nat := 1900

  const WORD: nat := MAX_UINT64 + 1

  /** How many addresses and storage keys an access list names. */
  datatype AccessList = AccessList(addresses: Uint64, storageKeys: Uint64)

  function NonZero(data: seq<Byte>): nat {
    if data == [] then 0 else NonZero(data[..|data| - 1]) + if data[|data| - 1] != 0 then 1 else 0
  }

  lemma {:induction false} NonZeroAtMost(data: seq<Byte>)
    ensures NonZero(data) <= |data|
  {
    if data != [] { NonZeroAtMost(data[..|data| - 1]); }
  }

  function BaseGas(creation: bool, homestead: bool): nat {
    if creation && homestead then TX_GAS_CONTRACT_CREATION else TX_GAS
  }

  function NonZeroGas(eip2028: bool): nat {
    if eip2028 then TX_DATA_NON_ZERO_GAS_EIP2028 else TX_DATA_NON_ZERO_GAS_FRONTIER
  }

  /** What a message costs before its access list, in unbounded arithmetic. */
  function DataCost(data: seq<Byte>, creation: bool, homestead: bool, eip2028: bool): nat {
    NonZeroAtMost(data);
    BaseGas(creation, homestead) + NonZero(data) * NonZeroGas(eip2028) + (|data| - NonZero(data)) * TX_DATA_ZERO_GAS
  }

  function AccessCost(access: Option<AccessList>): nat {
    match access
    case None => 0
    case Some(l) => l.addresses * TX_ACCESS_LIST_ADDRESS_GAS + l.storageKeys * TX_ACCESS_LIST_STORAGE_KEY_GAS
  }

  /** The cost in 64 bits: an overflow is noticed in the data, but not in the access list. */
  function Intrinsic(data: seq<Byte>, access: Option<AccessList>, creation: bool, homestead: bool,
                     eip2028: bool): Option<nat>
  {
    var cost := DataCost(data, creation, homestead, eip2028);
    if cost > MAX_UINT64 then None else Some((cost + AccessCost(access)) % WORD)
  }

  lemma OverflowCheck(gas: nat, n: nat, price: nat)
    requires gas <= MAX_UINT64 && price > 0
    ensures (MAX_UINT64 - gas) / price < n <==> gas + n * price > MAX_UINT64
  {
    var room := MAX_UINT64 - gas;
    var q := room / price;
    assert room == q * price + room % price;
    if q < n {
      assert (q + 1) * price <= n * price;
    } else {
      assert n * price <= q * price;
    }
  }

  lemma {:induction false} WholeWords(a: nat, q: nat)
    ensures (a + q * WORD) % WORD == a % WORD
    decreases q
  {
    if q > 0 {
      WholeWords(a + WORD, q - 1);
      assert a + q * WORD == a + WORD + (q - 1) * WORD;
    }
  }

  /** Wrapping one summand first makes no difference. */
  lemma WrappedSum(a: nat, b: nat)
    ensures (a + b % WORD) % WORD == (a + b) % WORD
  {
    WholeWords(a + b % WORD, b / WORD);
    assert b == b / WORD * WORD + b % WORD;
  }

  /** 64-bit addition of a product that may be too large itself. */
  method AddWrapped(gas: nat, cost: nat) returns (sum: nat)
    ensures sum == (gas + cost) % WORD
  {
    WrappedSum(gas, cost);
    sum := (gas + cost % WORD) % WORD;
  }

  method CountNonZero(data: seq<Byte>) returns (nz: nat)
    ensures nz == NonZero(data) && nz <= |data|
  {
    nz := 0;
    for i := 0 to |data|
      invariant nz == NonZero(data[..i])
    {
      assert data[..i + 1][..i] == data[..i];
      if data[i] != 0 {
        nz := nz + 1;
      }
    }
    assert data[..|data|] == data;
    NonZeroAtMost(data);
  }

  /** The part of the intrinsic gas that the data decides, with its overflow checks. */
  method DataGas(data: seq<Byte>, creation: bool, homestead: bool, eip2028: bool) returns (r: Option<nat>)
    requires |data| <= MAX_UINT64
    ensures var cost := DataCost(data, creation, homestead, eip2028);
      r == if cost > MAX_UINT64 then None else Some(cost)
  {
    hide NonZero;
    var gas := if creation && homestead then TX_GAS_CONTRACT_CREATION else TX_GAS;
    if |data| > 0 {
      var nz := CountNonZero(data);
      var nonZeroGas := if eip2028 then TX_DATA_NON_ZERO_GAS_EIP2028 else TX_DATA_NON_ZERO_GAS_FRONTIER;
      OverflowCheck(gas, nz, nonZeroGas);
      if (MAX_UINT64 - gas) / nonZeroGas < nz { return None; }
      gas := gas + nz * nonZeroGas;
      var z := |data| - nz;
      OverflowCheck(gas, z, TX_DATA_ZERO_GAS);
      if (MAX_UINT64 - gas) / TX_DATA_ZERO_GAS < z { return None; }
      gas := gas + z * TX_DATA_ZERO_GAS;
    } else {
      NonZeroAtMost(data);
    }
    r := Some(gas);
  }

  /** The intrinsic gas of a message. */
  method IntrinsicGas(data: seq<Byte>, access: Option<AccessList>, creation: bool, homestead: bool, eip2028: bool)
    returns (r: Option<nat>)
    requires |data| <= MAX_UINT64
    ensures r == Intrinsic(data, access, creation, homestead, eip2028)
  {
    hide DataCost;
    r := DataGas(data, creation, homestead, eip2028);
    if r.Some? && access.Some? {
      var l, gas := access.value, r.value;
      gas := AddWrapped(gas, l.addresses * TX_ACCESS_LIST_ADDRESS_GAS);
      gas := AddWrapped(gas, l.storageKeys * TX_ACCESS_LIST_STORAGE_KEY_GAS);
      WrappedSum(l.storageKeys * TX_ACCESS_LIST_STORAGE_KEY_GAS, r.value + l.addresses * TX_ACCESS_LIST_ADDRESS_GAS);
      r := Some(gas);
    }
  }

  /** A message costs 21000, or 53000 to create a contract since Homestead, and 4 more for every zero
      byte, 68 for any other, or 16 since Istanbul. */
  lemma ByteByByte(data: seq<Byte>, b: Byte, creation: bool, homestead: bool, eip2028: bool)
    ensures DataCost([], creation, homestead, eip2028) == if creation && homestead then 53000 else 21000
    ensures DataCost(data + [b], creation, homestead, eip2028) ==
      DataCost(data, creation, homestead, eip2028) + if b == 0 then 4 else if eip2028 then 16 else 68
  {
    assert (data + [b])[..|data|] == data;
  }

  /** An access list adds 2400 for every address and 1900 for every storage key. */
  lemma EntryByEntry(addresses: nat, keys: nat)
    requires addresses <= MAX_UINT64 && keys <= MAX_UINT64
    ensures AccessCost(None) == 0 && AccessCost(Some(AccessList(addresses, keys))) == 2400 * addresses + 1900 * keys
  {
  }

  /** The answer is the true cost exactly when that fits 64 bits. */
  lemma IntrinsicExact(data: seq<Byte>, access: Option<AccessList>, creation: bool, homestead: bool, eip2028: bool)
    ensures var cost := DataCost(data, creation, homestead, eip2028) + AccessCost(access);
      Intrinsic(data, access, creation, homestead, eip2028) == Some(cost) <==> cost <= MAX_UINT64
  {
  }

  /** The sum with the access list can wrap around, but only when data bytes and entries are more than
      seven quadrillion together. */
  lemma AccessListWraps(data: seq<Byte>, access: Option<AccessList>, creation: bool, homestead: bool, eip2028: bool)
    requires var cost := DataCost(data, creation, homestead, eip2028);
      cost <= MAX_UINT64 < cost + AccessCost(access)
    ensures access.Some? && |data| + access.value.addresses + access.value.storageKeys > 7686143364045624
    ensures Intrinsic([], Some(AccessList(7686143364045647, 0)), false, true, true) == Some(22184)
  {
    NonZeroAtMost(data);
    var nz, z := NonZero(data), |data| - NonZero(data);
    assert nz * NonZeroGas(eip2028) <= nz * 2400 && z * TX_DATA_ZERO_GAS <= z * 2400;
  }

  /** What the pool, the gas price and the EVM can see of the public state. */
  datatype World = World(balances: map<Address, nat>, nonces: map<Address, nat>, refund: nat) {
    function Balance(a: Address): nat {
      if a in balances then balances[a] else 0
    }

    function Nonce(a: Address): nat {
      if a in nonces then nonces[a] else 0
    }

    function Credit(a: Address, amount: nat): World {
      this.(balances := balances[a := Balance(a) + amount])
    }

    function Debit(a: Address, amount: nat): World
      requires amount <= Balance(a)
    {
      this.(balances := balances[a := Balance(a) - amount])
    }

    function Bump(a: Address): World {
      this.(nonces := nonces[a := Nonce(a) + 1])
    }
  }

  datatype VmError = NoError | ExecutionFailed | InsufficientBalance | NotAuthorized

  datatype Outcome = Outcome(world: World, leftover: nat, err: VmError)

  /** What the privacy manager has for a payload hash: a node that is no party gets no data. */
  datatype Received = ReceiveFailed | Payload(data: seq<Byte>)

  datatype Preparation = Prepared | PrepareFailed | PrepareRefused

  datatype Verification = Verified | ExitEarly(world: World) | VerifyRefused

  /** The rules in force, the block's coinbase, the privacy manager and the EVM. */
  datatype Env = Env(
    isQuorum: bool, homestead: bool, istanbul: bool, coinbase: Address, receive: Received, prepare: Preparation,
    exec: (World, seq<Byte>, nat) -> Outcome, verify: Outcome -> Verification)

  /** The EVM never returns more gas than it is given. */
  ghost predicate Frugal(env: Env) {
    forall w, data, gas: nat :: env.exec(w, data, gas).leftover <= gas
  }

  datatype Msg = Msg(
    from: Address, to: Option<Address>, nonce: nat, checkNonce: bool, gas: Uint64, gasPrice: nat, value: nat,
    data: seq<Byte>, access: Option<AccessList>, isPrivate: bool, isInnerPrivate: bool)

  datatype Error =
    | NonceTooHigh | NonceTooLow | InsufficientFunds | GasLimitReached | GasUintOverflow | IntrinsicGasTooLow
    | InsufficientFundsForTransfer | VmInsufficientBalance | VmNotAuthorized | PrivacyRefused | InnerNotPrivate

  /** A consensus error, or what was used and whether execution failed. */
  datatype Result = Failed(error: Error) | Done(usedGas: nat, failed: bool)

  datatype Final = Final(world: World, pool: nat, result: Result)

  /** The gas kept back from the sender once the refund counter is applied. */
  function GasKept(msg: Msg, left: nat, refund: nat): nat
    requires left <= msg.gas
  {
    var used := msg.gas - left;
    if msg.isInnerPrivate then 0
    else used - if used / 2 > refund then refund else used / 2
  }

  /** The sender is paid back for the gas not kept, and the coinbase paid for the rest. */
  function Paid(w: World, msg: Msg, coinbase: Address, kept: nat): World
    requires kept <= msg.gas
  {
    w.Credit(msg.from, (msg.gas - kept) * msg.gasPrice).Credit(coinbase, kept * msg.gasPrice)
  }

  /** Settles a message of which `left` gas is left: refund, sender, pool and coinbase. */
  function Settle(msg: Msg, coinbase: Address, w: World, pool: nat, left: nat, failed: bool, report: bool): Final
    requires left <= msg.gas
  {
    var kept := GasKept(msg, left, w.refund);
    KeptWithin(msg, left, w.refund);
    Final(Paid(w, msg, coinbase, kept), pool + (msg.gas - kept), Done(if report then kept else 0, failed))
  }

  function PreCheck(msg: Msg, w: World, pool: nat): Option<Error> {
    if msg.checkNonce && w.Nonce(msg.from) < msg.nonce then Some(NonceTooHigh)
    else if msg.checkNonce && w.Nonce(msg.from) > msg.nonce then Some(NonceTooLow)
    else if w.Balance(msg.from) < msg.gas * msg.gasPrice then Some(InsufficientFunds)
    else if pool < msg.gas then Some(GasLimitReached)
    else None
  }

  predicate Private(env: Env, msg: Msg) {
    env.isQuorum && msg.isPrivate
  }

  /** The whole transition, on values. */
  ghost function Transition(env: Env, msg: Msg, w: World, pool: nat): Final
    requires Frugal(env)
  {
    var err := PreCheck(msg, w, pool);
    if err.Some? then Final(w, pool, Failed(err.value))
    else Bought(env, msg, w.Debit(msg.from, msg.gas * msg.gasPrice), pool - msg.gas)
  }

  /** The transition once the gas is bought. */
  ghost function Bought(env: Env, msg: Msg, w: World, pool: nat): Final
    requires Frugal(env)
  {
    if Private(env, msg) then
      var w' := if env.receive.ReceiveFailed? || msg.to.Some? then w.Bump(msg.from) else w;
      if env.receive.ReceiveFailed? then Final(w', pool, Done(0, false))
      else if env.prepare.PrepareRefused? then Final(w', pool, Failed(PrivacyRefused))
      else if env.prepare.PrepareFailed? then Final(w', pool, Done(0, true))
      else Executed(env, msg, w', pool, env.receive.data)
    else Executed(env, msg, w, pool, msg.data)
  }

  /** Intrinsic gas, execution and settlement. */
  ghost function Executed(env: Env, msg: Msg, w: World, pool: nat, data: seq<Byte>): Final
    requires Frugal(env)
  {
    var gas := Intrinsic(msg.data, msg.access, msg.to.None?, env.homestead, env.istanbul);
    if gas.None? then Final(w, pool, Failed(GasUintOverflow))
    else if msg.gas < gas.value then Final(w, pool, Failed(IntrinsicGasTooLow))
    else if msg.value > 0 && w.Balance(msg.from) < msg.value then Final(w, pool, Failed(InsufficientFundsForTransfer))
    else
      var left := msg.gas - gas.value;
      var w' := if msg.to.Some? && !Private(env, msg) then w.Bump(msg.from) else w;
      if msg.to.Some? && data == [] && Private(env, msg) then Settle(msg, env.coinbase, w', pool, left, false, false)
      else
        var o := env.exec(w', data, left);
        if o.err.InsufficientBalance? then Final(o.world, pool, Failed(VmInsufficientBalance))
        else if o.err.NotAuthorized? then Final(o.world, pool, Failed(VmNotAuthorized))
        else Verifying(env, msg, pool, left, o)
  }

  ghost function Verifying(env: Env, msg: Msg, pool: nat, left: nat, o: Outcome): Final
    requires o.leftover <= left <= msg.gas
  {
    var v := if Private(env, msg) then env.verify(o) else Verified;
    match v
    case VerifyRefused => Final(o.world, pool, Failed(PrivacyRefused))
    case ExitEarly(world) => Final(world, pool, Done(0, true))
    case Verified =>
      var left' := if Private(env, msg) then left else o.leftover;
      Settle(msg, env.coinbase, o.world, pool, left', o.err.ExecutionFailed?, !Private(env, msg))
  }

  /** A message is refused for its nonce, for want of funds or for want of gas in the pool exactly when it
      has to be, in this order, and then nothing has changed. */
  lemma ChecksDecide(env: Env, msg: Msg, w: World, pool: nat)
    requires Frugal(env)
    ensures
      var f := Transition(env, msg, w, pool);
      var nonce, balance := w.Nonce(msg.from), w.Balance(msg.from);
      && (f.result == Failed(NonceTooHigh) <==> msg.checkNonce && nonce < msg.nonce)
      && (f.result == Failed(NonceTooLow) <==> msg.checkNonce && nonce > msg.nonce)
      && (f.result == Failed(Error.InsufficientFunds) <==>
            (msg.checkNonce ==> nonce == msg.nonce) && balance < msg.gas * msg.gasPrice)
      && (f.result == Failed(GasLimitReached) <==>
            (msg.checkNonce ==> nonce == msg.nonce) && msg.gas * msg.gasPrice <= balance && pool < msg.gas)
      && (f.result.Failed?
          && f.result.error in {NonceTooHigh, NonceTooLow, Error.InsufficientFunds, GasLimitReached} ==>
            f.world == w && f.pool == pool)
  {
    hide Intrinsic, Paid, GasKept;
  }

  /** The public state database. */
  class StateDB {
    var balances: map<Address, nat>
    var nonces: map<Address, nat>
    var refund: nat

    function Now(): World
      reads this
    {
      World(balances, nonces, refund)
    }

    constructor (w: World)
      ensures Now() == w
    {
      balances, nonces, refund := w.balances, w.nonces, w.refund;
    }

    method AddBalance(a: Address, amount: nat)
      modifies this
      ensures Now() == old(Now()).Credit(a, amount)
    {
      balances := balances[a := (if a in balances then balances[a] else 0) + amount];
    }

    method SubBalance(a: Address, amount: nat)
      requires amount <= Now().Balance(a)
      modifies this
      ensures Now() == old(Now()).Debit(a, amount)
    {
      balances := balances[a := (if a in balances then balances[a] else 0) - amount];
    }

    method SetNonce(a: Address, nonce: nat)
      modifies this
      ensures Now() == old(Now()).(nonces := old(nonces)[a := nonce])
    {
      nonces := nonces[a := nonce];
    }

    /** Ends a transaction: the refund counter starts anew. */
    method Finalise()
      modifies this
      ensures Now() == old(Now()).(refund := 0)
    {
      refund := 0;
    }

    /** What the EVM, or a revert, makes of the state. */
    method Become(w: World)
      modifies this
      ensures Now() == w
    {
      balances, nonces, refund := w.balances, w.nonces, w.refund;
    }
  }

  class StateTransition {
    const gp: GasPool
    const msg: Msg
    const env: Env
    const state: StateDB
    var gas: nat
    var initialGas: nat

    constructor (env: Env, msg: Msg, gp: GasPool, state: StateDB)
      ensures this.env == env && this.msg == msg && this.gp == gp && this.state == state
      ensures gas == 0 && initialGas == 0
    {
      this.env, this.msg, this.gp, this.state := env, msg, gp, state;
      gas, initialGas := 0, 0;
    }

    /** Takes the price of all the message's gas from the sender and the gas from the pool. */
    method BuyGas() returns (err: Option<Error>)
      requires gas == 0
      modifies this, gp, state
      ensures err == if old(state.Now()).Balance(msg.from) < msg.gas * msg.gasPrice then Some(InsufficientFunds)
        else if old(gp.gas) < msg.gas then Some(GasLimitReached) else None
      ensures err.Some? ==> gp.gas == old(gp.gas) && state.Now() == old(state.Now())
      ensures err.None? ==>
        && gas == msg.gas && initialGas == msg.gas && gp.gas == old(gp.gas) - msg.gas
        && state.Now() == old(state.Now()).Debit(msg.from, msg.gas * msg.gasPrice)
    {
      var mgval := msg.gas * msg.gasPrice;
      if state.Now().Balance(msg.from) < mgval { return Some(InsufficientFunds); }
      var ok := gp.SubGas(msg.gas);
      if !ok { return Some(GasLimitReached); }
      gas := gas + msg.gas;
      initialGas := msg.gas;
      state.SubBalance(msg.from, mgval);
      err := None;
    }

    method Check() returns (err: Option<Error>)
      requires gas == 0
      modifies this, gp, state
      ensures err == PreCheck(msg, old(state.Now()), old(gp.gas))
      ensures err == Some(NonceTooHigh) <==> msg.checkNonce && old(state.Now()).Nonce(msg.from) < msg.nonce
      ensures err == Some(NonceTooLow) <==> msg.checkNonce && old(state.Now()).Nonce(msg.from) > msg.nonce
      ensures err.Some? ==> gp.gas == old(gp.gas) && state.Now() == old(state.Now())
      ensures err.None? ==>
        && gas == msg.gas && initialGas == msg.gas && gp.gas == old(gp.gas) - msg.gas
        && state.Now() == old(state.Now()).Debit(msg.from, msg.gas * msg.gasPrice)
    {
      if msg.checkNonce {
        var stNonce := state.Now().Nonce(msg.from);
        if stNonce < msg.nonce { return Some(NonceTooHigh); }
        if stNonce > msg.nonce { return Some(NonceTooLow); }
      }
      err := BuyGas();
    }

    function GasUsed(): nat
      requires gas <= initialGas
      reads this
    {
      initialGas - gas
    }

    /** Applies the refund counter, pays the sender back and returns the gas to the pool, which
        never takes it beyond 64 bits. */
    method RefundGas()
      requires gas <= initialGas == msg.gas && gp.gas + msg.gas <= MAX_UINT64
      modifies this, gp, state
      ensures initialGas == msg.gas && gas == msg.gas - GasKept(msg, old(gas), old(state.refund))
      ensures gp.gas == old(gp.gas) + gas
      ensures state.Now() == old(state.Now()).Credit(msg.from, gas * msg.gasPrice)
    {
      if msg.isInnerPrivate {
        gas := gas + GasUsed();
      } else {
        var refund := GasUsed() / 2;
        if refund > state.refund {
          refund := state.refund;
        }
        gas := gas + refund;
      }
      state.AddBalance(msg.from, gas * msg.gasPrice);
      gp.AddGas(gas);
    }

    /** The end of a transition: refund, and the coinbase's share. */
    method Finish(failed: bool, report: bool) returns (r: Result)
      requires gas <= initialGas == msg.gas && gp.gas + msg.gas <= MAX_UINT64
      modifies this, gp, state
      ensures Final(state.Now(), gp.gas, r) ==
        Settle(msg, env.coinbase, old(state.Now()), old(gp.gas), old(gas), failed, report)
    {
      RefundGas();
      state.AddBalance(env.coinbase, GasUsed() * msg.gasPrice);
      r := Done(if report then GasUsed() else 0, failed);
    }

    /** Performs the message. */
    method TransitionDb() returns (r: Result)
      requires Frugal(env) && gas == 0 && |msg.data| <= MAX_UINT64
      modifies this, gp, state
      ensures Final(state.Now(), gp.gas, r) == Transition(env, msg, old(state.Now()), old(gp.gas))
      ensures
        var nonce, balance := old(state.Now()).Nonce(msg.from), old(state.Now()).Balance(msg.from);
        && (r == Failed(NonceTooHigh) <==> msg.checkNonce && nonce < msg.nonce)
        && (r == Failed(NonceTooLow) <==> msg.checkNonce && nonce > msg.nonce)
        && (r == Failed(Error.InsufficientFunds) <==>
              (msg.checkNonce ==> nonce == msg.nonce) && balance < msg.gas * msg.gasPrice)
        && (r == Failed(GasLimitReached) <==>
              (msg.checkNonce ==> nonce == msg.nonce) && msg.gas * msg.gasPrice <= balance && old(gp.gas) < msg.gas)
      ensures r.Failed? && r.error in {NonceTooHigh, NonceTooLow, Error.InsufficientFunds, GasLimitReached} ==>
        state.Now() == old(state.Now()) && gp.gas == old(gp.gas)
    {
      hide GasKept, Intrinsic, Settle;
      ChecksDecide(env, msg, state.Now(), gp.gas);
      var err := Check();
      if err.Some? { return Failed(err.value); }
      var contractCreation := msg.to.None?;
      var isPrivate := false;
      var data := msg.data;
      if msg.isPrivate && env.isQuorum {
        isPrivate := true;
        if env.receive.ReceiveFailed? || !contractCreation {
          state.SetNonce(msg.from, state.Now().Nonce(msg.from) + 1);
        }
        if env.receive.ReceiveFailed? { return Done(0, false); }
        data := env.receive.data;
        if env.prepare.PrepareRefused? { return Failed(PrivacyRefused); }
        if env.prepare.PrepareFailed? { return Done(0, true); }
      }
      r := Execute(data, isPrivate);
    }

    /** The transition from the intrinsic gas on. */
    method Execute(data: seq<Byte>, isPrivate: bool) returns (r: Result)
      requires Frugal(env) && gas == initialGas == msg.gas && |msg.data| <= MAX_UINT64 && isPrivate == Private(env, msg)
      requires gp.gas + msg.gas <= MAX_UINT64
      modifies this, gp, state
      ensures Final(state.Now(), gp.gas, r) == Executed(env, msg, old(state.Now()), old(gp.gas), data)
    {
      hide GasKept, Intrinsic, Settle;
      var intrinsic := IntrinsicGas(msg.data, msg.access, msg.to.None?, env.homestead, env.istanbul);
      if intrinsic.None? { return Failed(GasUintOverflow); }
      if gas < intrinsic.value { return Failed(IntrinsicGasTooLow); }
      gas := gas - intrinsic.value;
      if msg.value > 0 && state.Now().Balance(msg.from) < msg.value { return Failed(InsufficientFundsForTransfer); }
      if msg.to.Some? {
        if !isPrivate {
          state.SetNonce(msg.from, state.Now().Nonce(msg.from) + 1);
        }
        if |data| == 0 && isPrivate {
          r := Finish(false, false);
          return;
        }
      }
      var o := env.exec(state.Now(), data, gas);
      state.Become(o.world);
      if o.err.InsufficientBalance? { return Failed(VmInsufficientBalance); }
      if o.err.NotAuthorized? { return Failed(VmNotAuthorized); }
      if isPrivate {
        var v := env.verify(o);
        if v.VerifyRefused? { return Failed(PrivacyRefused); }
        if v.ExitEarly? {
          state.Become(v.world);
          return Done(0, true);
        }
      } else {
        gas := o.leftover;
      }
      r := Finish(o.err.ExecutionFailed?, !isPrivate);
    }
  }

  /** All the money there is. */
  ghost function Wealth(balances: map<Address, nat>): nat {
    if balances == map[] then 0
    else
      var a :| a in balances;
      balances[a] + Wealth(balances - {a})
  }

  lemma {:induction false} WealthWithout(balances: map<Address, nat>, a: Address)
    requires a in balances
    ensures Wealth(balances) == balances[a] + Wealth(balances - {a})
    decreases |balances|
  {
    var b :| b in balances && Wealth(balances) == balances[b] + Wealth(balances - {b});
    if b != a {
      WealthWithout(balances - {b}, a);
      WealthWithout(balances - {a}, b);
      assert balances - {a} - {b} == balances - {b} - {a};
    }
  }

  lemma WealthOf(w: World, a: Address, amount: nat)
    ensures Wealth(w.Credit(a, amount).balances) == Wealth(w.balances) + amount
    ensures amount <= w.Balance(a) ==> Wealth(w.Debit(a, amount).balances) + amount == Wealth(w.balances)
  {
    WealthSet(w.balances, a, w.Balance(a) + amount);
    if amount <= w.Balance(a) { WealthSet(w.balances, a, w.Balance(a) - amount); }
  }

  lemma WealthSet(balances: map<Address, nat>, a: Address, v: nat)
    ensures Wealth(balances[a := v]) + (if a in balances then balances[a] else 0) == Wealth(balances) + v
  {
    WealthWithout(balances[a := v], a);
    assert balances[a := v] - {a} == balances - {a};
    if a in balances {
      WealthWithout(balances, a);
    } else {
      assert balances - {a} == balances;
    }
  }

  /** Neither execution nor a revert makes or destroys money. */
  ghost predicate Conserving(env: Env) {
    && (forall w, data, gas: nat :: Wealth(env.exec(w, data, gas).world.balances) == Wealth(w.balances))
    && forall o :: env.verify(o).ExitEarly? ==> Wealth(env.verify(o).world.balances) == Wealth(o.world.balances)
  }

  lemma Shared(whole: nat, part: nat, price: nat)
    requires part <= whole
    ensures (whole - part) * price + part * price == whole * price
  {
  }

  lemma SettleConserves(msg: Msg, coinbase: Address, w: World, pool: nat, left: nat, failed: bool, report: bool)
    requires left <= msg.gas
    ensures Wealth(Settle(msg, coinbase, w, pool, left, failed, report).world.balances)
      == Wealth(w.balances) + msg.gas * msg.gasPrice
  {
    hide GasKept, Wealth;
    KeptWithin(msg, left, w.refund);
    var kept := GasKept(msg, left, w.refund);
    WealthOf(w, msg.from, (msg.gas - kept) * msg.gasPrice);
    WealthOf(w.Credit(msg.from, (msg.gas - kept) * msg.gasPrice), coinbase, kept * msg.gasPrice);
    Shared(msg.gas, kept, msg.gasPrice);
  }

  lemma KeptWithin(msg: Msg, left: nat, refund: nat)
    requires left <= msg.gas
    ensures GasKept(msg, left, refund) <= msg.gas - left
  {
  }

  /** The state a message is executed on. */
  ghost function Before(env: Env, msg: Msg, w: World): World
    requires msg.gas * msg.gasPrice <= w.Balance(msg.from)
  {
    var bought := w.Debit(msg.from, msg.gas * msg.gasPrice);
    if msg.to.Some? then bought.Bump(msg.from) else bought
  }

  /** The EVM starts from a state in which the sender has paid for the gas and, for a call, has the next
      nonce. */
  lemma BeforeIs(env: Env, msg: Msg, w: World)
    requires msg.gas * msg.gasPrice <= w.Balance(msg.from)
    ensures var v := Before(env, msg, w);
      && v.refund == w.refund
      && (forall a :: v.Nonce(a) == w.Nonce(a) + if a == msg.from && msg.to.Some? then 1 else 0)
      && (forall a :: v.Balance(a) == w.Balance(a) - if a == msg.from then msg.gas * msg.gasPrice else 0)
  {
  }

  /** A message that gets past the checks and the privacy manager still fails for want of gas for its
      data, or of funds for its value, exactly when it has to. */
  lemma ExecutionDecides(env: Env, msg: Msg, w: World, pool: nat)
    requires Frugal(env) && (Private(env, msg) ==> env.receive.Payload? && env.prepare.Prepared?)
    requires msg.checkNonce ==> w.Nonce(msg.from) == msg.nonce
    requires msg.gas * msg.gasPrice <= w.Balance(msg.from) && msg.gas <= pool
    ensures
      var f, funds := Transition(env, msg, w, pool), w.Balance(msg.from) - msg.gas * msg.gasPrice;
      var cost := DataCost(msg.data, msg.to.None?, env.homestead, env.istanbul);
      var gas := (cost + AccessCost(msg.access)) % WORD;
      && (f.result == Failed(GasUintOverflow) <==> cost > MAX_UINT64)
      && (f.result == Failed(IntrinsicGasTooLow) <==> cost <= MAX_UINT64 && msg.gas < gas)
      && (f.result == Failed(InsufficientFundsForTransfer) <==>
            cost <= MAX_UINT64 && gas <= msg.gas && funds < msg.value)
  {
    hide DataCost, AccessCost, Paid, GasKept;
  }

  /** What execution and verification can make of a message that gets so far: the two errors of the EVM
      that are no matter of the message's own, a refusal, and an early end at the sender's cost. */
  lemma OutcomeDecides(env: Env, msg: Msg, w: World, pool: nat, data: seq<Byte>)
    requires Frugal(env) && (Private(env, msg) ==> env.receive.Payload? && env.prepare.Prepared?)
    requires data == if Private(env, msg) then env.receive.data else msg.data
    requires (msg.checkNonce ==> w.Nonce(msg.from) == msg.nonce) && msg.gas <= pool
    requires msg.gas * msg.gasPrice + msg.value <= w.Balance(msg.from)
    requires !Private(env, msg) || msg.to.None? || data != []
    ensures
      var f, gas := Transition(env, msg, w, pool),
        Intrinsic(msg.data, msg.access, msg.to.None?, env.homestead, env.istanbul);
      gas.Some? && gas.value <= msg.gas ==>
        var o := env.exec(Before(env, msg, w), data, msg.gas - gas.value);
        && (f.result == Failed(VmInsufficientBalance) <==> o.err.InsufficientBalance?)
        && (f.result == Failed(VmNotAuthorized) <==> o.err.NotAuthorized?)
        && (o.err.NoError? || o.err.ExecutionFailed? ==>
              && (f.result == Failed(PrivacyRefused) <==> Private(env, msg) && env.verify(o).VerifyRefused?)
              && (Private(env, msg) && env.verify(o).ExitEarly? ==>
                    f == Final(env.verify(o).world, pool - msg.gas, Done(0, true))))
  {
    hide Intrinsic, Paid, GasKept;
  }

  /** What the privacy manager can make of a private message before it is executed: without its payload
      the sender has still paid, and used a nonce up. */
  lemma PrivacyDecides(env: Env, msg: Msg, w: World, pool: nat)
    requires Frugal(env) && Private(env, msg) && (msg.checkNonce ==> w.Nonce(msg.from) == msg.nonce)
    requires msg.gas * msg.gasPrice <= w.Balance(msg.from) && msg.gas <= pool
    ensures
      var f, called := Transition(env, msg, w, pool), if msg.to.Some? then 1 else 0;
      && (env.receive.ReceiveFailed? ==>
            && f.result == Done(0, false) && f.pool == pool - msg.gas
            && f.world.Nonce(msg.from) == w.Nonce(msg.from) + 1
            && f.world.Balance(msg.from) == w.Balance(msg.from) - msg.gas * msg.gasPrice)
      && (env.receive.Payload? && env.prepare.PrepareRefused? ==> f.result == Failed(PrivacyRefused))
      && (env.receive.Payload? && env.prepare.PrepareFailed? ==>
            && f.result == Done(0, true) && f.pool == pool - msg.gas
            && f.world.Nonce(msg.from) == w.Nonce(msg.from) + called
            && f.world.Balance(msg.from) == w.Balance(msg.from) - msg.gas * msg.gasPrice)
  {
    hide Executed;
  }

  /** Nonces never go down, in the EVM or when verification takes back what it did. */
  ghost predicate Advancing(env: Env) {
    forall w, data, gas: nat, a ::
      var o := env.exec(w, data, gas);
      && w.Nonce(a) <= o.world.Nonce(a)
      && (env.verify(o).ExitEarly? ==> w.Nonce(a) <= env.verify(o).world.Nonce(a))
  }

  /** A transition takes no nonce back, and a call that is carried out uses one of its sender's up. */
  lemma NoncesAdvance(env: Env, msg: Msg, w: World, pool: nat, a: Address)
    requires Frugal(env) && Advancing(env) && Transition(env, msg, w, pool).result.Done?
    ensures var v := Transition(env, msg, w, pool).world;
      w.Nonce(a) + (if a == msg.from && msg.to.Some? then 1 else 0) <= v.Nonce(a)
  {
    hide Executed, Frugal, Advancing;
    var bought := w.Debit(msg.from, msg.gas * msg.gasPrice);
    if !Private(env, msg) {
      ExecutedAdvances(env, msg, bought, pool - msg.gas, msg.data, a);
    } else if env.receive.Payload? && env.prepare.Prepared? {
      ExecutedAdvances(env, msg, if msg.to.Some? then bought.Bump(msg.from) else bought, pool - msg.gas,
                       env.receive.data, a);
    }
  }

  lemma ExecutedAdvances(env: Env, msg: Msg, w: World, pool: nat, data: seq<Byte>, a: Address)
    requires Frugal(env) && Advancing(env) && Executed(env, msg, w, pool, data).result.Done?
    ensures var v := Executed(env, msg, w, pool, data).world;
      w.Nonce(a) + (if a == msg.from && msg.to.Some? && !Private(env, msg) then 1 else 0) <= v.Nonce(a)
  {
    hide Intrinsic, GasKept, Advancing;
    var gas := Intrinsic(msg.data, msg.access, msg.to.None?, env.homestead, env.istanbul);
    var left: nat := msg.gas - gas.value;
    var w' := if msg.to.Some? && !Private(env, msg) then w.Bump(msg.from) else w;
    Advances(env, w', data, left, a);
  }

  lemma Advances(env: Env, w: World, data: seq<Byte>, gas: nat, a: Address)
    requires Advancing(env)
    ensures var o := env.exec(w, data, gas);
      && w.Nonce(a) <= o.world.Nonce(a)
      && (env.verify(o).ExitEarly? ==> w.Nonce(a) <= env.verify(o).world.Nonce(a))
  {
  }

  /** Verification breaks off an execution on `w`. */
  ghost predicate ExitsEarly(env: Env, msg: Msg, w: World, data: seq<Byte>) {
    && Private(env, msg) && (msg.to.None? || data != [])
    && var gas := Intrinsic(msg.data, msg.access, msg.to.None?, env.homestead, env.istanbul);
    && gas.Some? && gas.value <= msg.gas && env.verify(env.exec(w, data, msg.gas - gas.value)).ExitEarly?
  }

  /** The privacy manager breaks the transition off once the gas is bought: nothing is paid back. */
  ghost predicate BrokenOff(env: Env, msg: Msg, w: World)
    requires msg.gas * msg.gasPrice <= w.Balance(msg.from)
  {
    && Private(env, msg)
    && (env.receive.ReceiveFailed? || env.prepare.PrepareFailed?
        || ExitsEarly(env, msg, Before(env, msg, w), env.receive.data))
  }

  lemma VerifyingConserves(env: Env, msg: Msg, pool: nat, left: nat, o: Outcome)
    requires o.leftover <= left <= msg.gas && Conserving(env) && Verifying(env, msg, pool, left, o).result.Done?
    ensures Wealth(Verifying(env, msg, pool, left, o).world.balances)
      == Wealth(o.world.balances) + if Private(env, msg) && env.verify(o).ExitEarly? then 0 else msg.gas * msg.gasPrice
  {
    hide Settle, Wealth;
    var left' := if Private(env, msg) then left else o.leftover;
    SettleConserves(msg, env.coinbase, o.world, pool, left', o.err.ExecutionFailed?, !Private(env, msg));
  }

  lemma ExecutedConserves(env: Env, msg: Msg, w: World, pool: nat, data: seq<Byte>)
    requires Frugal(env) && Conserving(env) && Executed(env, msg, w, pool, data).result.Done?
    ensures Wealth(Executed(env, msg, w, pool, data).world.balances)
      == Wealth(w.balances) + if ExitsEarly(env, msg, w, data) then 0 else msg.gas * msg.gasPrice
  {
    hide Settle, Wealth, Intrinsic, Verifying;
    var gas := Intrinsic(msg.data, msg.access, msg.to.None?, env.homestead, env.istanbul);
    var left := msg.gas - gas.value;
    var w' := if msg.to.Some? && !Private(env, msg) then w.Bump(msg.from) else w;
    if msg.to.Some? && data == [] && Private(env, msg) {
      SettleConserves(msg, env.coinbase, w', pool, left, false, false);
    } else {
      VerifyingConserves(env, msg, pool, left, env.exec(w', data, left));
    }
  }

  /** Money is conserved by every transition that is carried out, except that one broken off by
      the privacy manager destroys what was paid for its gas. */
  lemma MoneyConserved(env: Env, msg: Msg, w: World, pool: nat)
    requires Frugal(env) && Conserving(env) && Transition(env, msg, w, pool).result.Done?
    ensures msg.gas * msg.gasPrice <= w.Balance(msg.from)
    ensures Wealth(Transition(env, msg, w, pool).world.balances)
      + (if BrokenOff(env, msg, w) then msg.gas * msg.gasPrice else 0) == Wealth(w.balances)
  {
    hide Wealth, Executed, ExitsEarly, Frugal, Conserving;
    WealthOf(w, msg.from, msg.gas * msg.gasPrice);
    var bought := w.Debit(msg.from, msg.gas * msg.gasPrice);
    if !Private(env, msg) {
      ExecutedConserves(env, msg, bought, pool - msg.gas, msg.data);
      PublicStays(env, msg, bought);
    } else if env.receive.Payload? && env.prepare.Prepared? {
      ExecutedConserves(env, msg, Before(env, msg, w), pool - msg.gas, env.receive.data);
    }
  }

  lemma PublicStays(env: Env, msg: Msg, w: World)
    requires !Private(env, msg)
    ensures !ExitsEarly(env, msg, w, msg.data)
  {
  }

  /** What a public transaction that is carried out leaves behind: the pool loses exactly what is
      reported as used, the sender has paid and the coinbase received exactly its price, and the
      refund is the refund counter or half of what was consumed, whichever is less. */
  ghost predicate PublicSettlement(env: Env, msg: Msg, w: World, pool: nat, f: Final)
    requires Frugal(env)
  {
    var gas := Intrinsic(msg.data, msg.access, msg.to.None?, env.homestead, env.istanbul);
    && f.result.Done? && msg.gas * msg.gasPrice <= w.Balance(msg.from) && msg.gas <= pool
    && gas.Some? && gas.value <= msg.gas
    && var o := env.exec(Before(env, msg, w), msg.data, msg.gas - gas.value);
    && var used, consumed: int := f.result.usedGas, msg.gas - o.leftover;
    && f.pool == pool - used && gas.value <= consumed
    && used <= consumed <= 2 * used
    && (consumed - used == o.world.refund || (consumed - used == consumed / 2 && consumed / 2 <= o.world.refund))
    && f.world.nonces == o.world.nonces && f.world.refund == o.world.refund
    && (forall a ::
          f.world.Balance(a) == o.world.Balance(a)
            + (if a == msg.from then (msg.gas - used) * msg.gasPrice else 0)
            + (if a == env.coinbase then used * msg.gasPrice else 0))
    && (f.result.failed <==> o.err.ExecutionFailed?)
  }

  lemma PublicAccounts(env: Env, msg: Msg, w: World, pool: nat)
    requires Frugal(env) && !Private(env, msg) && !msg.isInnerPrivate
    requires Transition(env, msg, w, pool).result.Done?
    ensures PublicSettlement(env, msg, w, pool, Transition(env, msg, w, pool))
  {
    hide Intrinsic;
  }

  /** A party runs the payload, not the hash, on what the intrinsic gas has left, and that gas is kept
      whatever the payload uses. */
  lemma PrivateSettlement(env: Env, msg: Msg, w: World, pool: nat)
    requires Frugal(env) && Private(env, msg) && env.receive.Payload? && env.prepare.Prepared?
    requires msg.to.None? || env.receive.data != []
    requires Transition(env, msg, w, pool).result.Done? && !BrokenOff(env, msg, w)
    ensures var f := Transition(env, msg, w, pool);
      var gas := Intrinsic(msg.data, msg.access, msg.to.None?, env.homestead, env.istanbul);
      && gas.Some? && gas.value <= msg.gas
      && var o := env.exec(Before(env, msg, w), env.receive.data, msg.gas - gas.value);
      && env.verify(o).Verified? && f.result == Done(0, o.err.ExecutionFailed?)
      && f.world.nonces == o.world.nonces && f.world.refund == o.world.refund
      && var kept: int := pool - f.pool;
      && 0 <= kept <= gas.value
      && forall a ::
        f.world.Balance(a) == o.world.Balance(a)
          + (if a == msg.from then (msg.gas - kept) * msg.gasPrice else 0)
          + (if a == env.coinbase then kept * msg.gasPrice else 0)
  {
    hide Intrinsic;
  }

  /** A private transaction reports no gas. The pool loses its intrinsic gas, less the refund: what
      the private payload costs does not show. */
  lemma PrivateAccounts(env: Env, msg: Msg, w: World, pool: nat)
    requires Frugal(env) && Private(env, msg) && Transition(env, msg, w, pool).result.Done?
    ensures Transition(env, msg, w, pool).result.usedGas == 0 && Transition(env, msg, w, pool).pool <= pool
    ensures msg.gas * msg.gasPrice <= w.Balance(msg.from)
    ensures BrokenOff(env, msg, w) ==> Transition(env, msg, w, pool).pool == pool - msg.gas
    ensures !BrokenOff(env, msg, w) ==>
      var gas := Intrinsic(msg.data, msg.access, msg.to.None?, env.homestead, env.istanbul);
      var kept := pool - Transition(env, msg, w, pool).pool;
      && gas.Some? && gas.value <= msg.gas
      && (if msg.isInnerPrivate then kept == 0 else kept <= gas.value <= 2 * kept)
  {
    hide Intrinsic, Paid, Frugal;
  }

  /** The inner transaction of a privacy marker costs no gas: the pool is as full as before, the
      sender gets all the price back and the coinbase nothing. */
  lemma InnerCostsNothing(env: Env, msg: Msg, w: World, pool: nat)
    requires Frugal(env) && Private(env, msg) && msg.isInnerPrivate && msg.to.Some? && env.receive == Payload([])
    requires Transition(env, msg, w, pool).result.Done? && env.prepare.Prepared?
    ensures Transition(env, msg, w, pool).pool == pool && Transition(env, msg, w, pool).result.usedGas == 0
    ensures forall a :: Transition(env, msg, w, pool).world.Balance(a) == w.Balance(a)
  {
    hide Intrinsic;
  }

  /** No transition gives the pool more than it had, or takes more than the message's gas. */
  lemma PoolShrinks(env: Env, msg: Msg, w: World, pool: nat)
    requires Frugal(env)
    ensures pool - msg.gas <= Transition(env, msg, w, pool).pool <= pool
  {
    hide Intrinsic, Paid;
  }

  /** Private execution leaves the public balances, the public refund counter and the sender's
      nonce alone, meets no consensus error and passes verification. */
  ghost predicate Quiet(env: Env, msg: Msg) {
    && (forall w, data, gas: nat ::
          var o := env.exec(w, data, gas);
          && o.world.balances == w.balances && o.world.refund == w.refund
          && o.world.Nonce(msg.from) == w.Nonce(msg.from)
          && !o.err.InsufficientBalance? && !o.err.NotAuthorized?)
    && forall o :: env.verify(o) == Verified
  }

  /** The same for the pool, the balances, the refund counter, the sender's nonce and the report. */
  ghost predicate Agree(msg: Msg, f: Final, g: Final) {
    && f.pool == g.pool && f.world.balances == g.world.balances && f.world.refund == g.world.refund
    && f.world.Nonce(msg.from) == g.world.Nonce(msg.from)
    && (f.result.Failed? || g.result.Failed? ==> f.result == g.result)
    && (f.result.Done? ==> f.result.usedGas == g.result.usedGas == 0)
  }

  lemma SettledAgree(msg: Msg, coinbase: Address, w: World, v: World, pool: nat, left: nat, failed: bool)
    requires left <= msg.gas && w.balances == v.balances && w.refund == v.refund
    requires w.Nonce(msg.from) == v.Nonce(msg.from)
    ensures Agree(msg, Settle(msg, coinbase, w, pool, left, failed, false),
                  Settle(msg, coinbase, v, pool, left, false, false))
  {
    hide GasKept;
  }

  /** A party to a private message call and a node that is none end up with the same pool, the
      same gas reported, the same public balances and the same nonce of the sender. */
  lemma PartyAgreesWithNonParty(party: Env, other: Env, msg: Msg, w: World, pool: nat)
    requires Frugal(party) && Frugal(other) && Quiet(party, msg)
    requires party.isQuorum && other.isQuorum && msg.isPrivate && msg.to.Some?
    requires party.homestead == other.homestead && party.istanbul == other.istanbul && party.coinbase == other.coinbase
    requires party.receive.Payload? && other.receive == Payload([]) && party.prepare.Prepared?
    requires other.prepare.Prepared?
    ensures Agree(msg, Transition(party, msg, w, pool), Transition(other, msg, w, pool))
  {
    hide Intrinsic, Settle;
    var gas := Intrinsic(msg.data, msg.access, false, party.homestead, party.istanbul);
    if msg.gas * msg.gasPrice <= w.Balance(msg.from) && msg.gas <= pool && gas.Some? && gas.value <= msg.gas {
      var left, v := msg.gas - gas.value, Before(party, msg, w);
      var o := party.exec(v, party.receive.data, left);
      SettledAgree(msg, party.coinbase, v, v, pool - msg.gas, left, false);
      SettledAgree(msg, party.coinbase, o.world, v, pool - msg.gas, left, o.err.ExecutionFailed?);
    }
  }

  /** A private transaction that is carried out quietly, with nothing to refund, takes exactly its
      intrinsic gas from the pool, and the price of that from its sender. */
  lemma PrivatePays(env: Env, msg: Msg, w: World, pool: nat)
    requires Frugal(env) && Private(env, msg) && !msg.isInnerPrivate && Quiet(env, msg) && w.refund == 0
    requires env.receive.Payload? && env.prepare.Prepared? && Transition(env, msg, w, pool).result.Done?
    ensures var gas := Intrinsic(msg.data, msg.access, msg.to.None?, env.homestead, env.istanbul);
      && gas.Some? && gas.value <= msg.gas && Transition(env, msg, w, pool).pool == pool - gas.value
      && (msg.from != env.coinbase ==>
            Transition(env, msg, w, pool).world.Balance(msg.from) == w.Balance(msg.from) - gas.value * msg.gasPrice)
  {
    hide Intrinsic, Frugal;
    var gas := Intrinsic(msg.data, msg.access, msg.to.None?, env.homestead, env.istanbul);
    Shared(msg.gas, gas.value, msg.gasPrice);
  }

  /** A node with several private states runs a private transaction once more with its payload hash
      blanked. That makes its intrinsic gas, and with it the pool and the sender's payment, differ
      from another node's whenever the hash has a byte that is not zero. */
  lemma BlankedIsCheaper(env: Env, other: Env, msg: Msg, blank: seq<Byte>, w: World, pool: nat)
    requires Frugal(env) && Frugal(other) && Quiet(env, msg) && Quiet(other, msg)
    requires env.isQuorum && other.isQuorum && msg.isPrivate && !msg.isInnerPrivate && w.refund == 0
    requires env.homestead == other.homestead && env.istanbul == other.istanbul && env.coinbase == other.coinbase
    requires env.receive.Payload? && other.receive.Payload? && env.prepare.Prepared? && other.prepare.Prepared?
    requires |blank| == |msg.data| && forall i :: 0 <= i < |blank| ==> blank[i] == 0
    requires DataCost(msg.data, msg.to.None?, env.homestead, env.istanbul) + AccessCost(msg.access) <= MAX_UINT64
    requires Transition(env, msg, w, pool).result.Done?
    requires Transition(other, msg.(data := blank), w, pool).result.Done?
    ensures var f, g := Transition(env, msg, w, pool), Transition(other, msg.(data := blank), w, pool);
      && f.pool <= g.pool
      && (f.pool == g.pool <==> forall i :: 0 <= i < |msg.data| ==> msg.data[i] == 0)
      && (msg.from != env.coinbase && msg.gasPrice > 0 ==>
            (f.world.Balance(msg.from) == g.world.Balance(msg.from) <==> f.pool == g.pool))
  {
    hide Transition, Frugal, Quiet, DataCost;
    SameSender(other, msg, blank);
    PrivatePays(env, msg, w, pool);
    PrivatePays(other, msg.(data := blank), w, pool);
    BlankedCosts(msg.data, blank, msg.to.None?, env.homestead, env.istanbul);
    IntrinsicExact(msg.data, msg.access, msg.to.None?, env.homestead, env.istanbul);
    IntrinsicExact(blank, msg.access, msg.to.None?, env.homestead, env.istanbul);
    SamePrice(pool - Transition(env, msg, w, pool).pool,
              pool - Transition(other, msg.(data := blank), w, pool).pool, msg.gasPrice);
  }

  lemma SamePrice(m: int, n: int, price: nat)
    ensures price > 0 ==> (m * price == n * price <==> m == n)
  {
    if price > 0 && m != n {
      var k: nat := if m < n then n - m else m - n;
      CostsSomething(k, price);
      assert k * price == if m < n then n * price - m * price else m * price - n * price;
    }
  }

  lemma {:induction false} CostsSomething(n: nat, price: nat)
    requires price > 0
    ensures n * price >= n
  {
    if n > 0 {
      CostsSomething(n - 1, price);
      assert n * price == (n - 1) * price + price;
    }
  }

  lemma SameSender(env: Env, msg: Msg, data: seq<Byte>)
    ensures Quiet(env, msg) <==> Quiet(env, msg.(data := data))
  {
  }

  lemma BlankedCosts(data: seq<Byte>, blank: seq<Byte>, creation: bool, homestead: bool, eip2028: bool)
    requires |blank| == |data| && forall i :: 0 <= i < |blank| ==> blank[i] == 0
    ensures DataCost(blank, creation, homestead, eip2028) <= DataCost(data, creation, homestead, eip2028)
    ensures DataCost(blank, creation, homestead, eip2028) == DataCost(data, creation, homestead, eip2028)
      <==> forall i :: 0 <= i < |data| ==> data[i] == 0
  {
    NoneNonZero(blank);
    NoneNonZero(data);
    NonZeroAtMost(data);
  }

  lemma {:induction false} NoneNonZero(data: seq<Byte>)
    ensures NonZero(data) == 0 <==> forall i :: 0 <= i < |data| ==> data[i] == 0
  {
    if data != [] { NoneNonZero(data[..|data| - 1]); }
  }
}