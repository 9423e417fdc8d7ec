/** What a requester may rely on once the background run that answers it is done: the scheduler's runs
    carried out on the pool. */
module Requests {
  import opened Types
  import opened Lists
  import opened Accounts
  import opened Alignment
  import opened Chains
  import opened Noncer
  import opened Reinjection
  import opened Schedulers
  import opened TxPools

  /** The pool has done what was asked: it is on a head at or after the one of the change, or has
      promoted all that was ready for the accounts. */
  ghost predicate Honoured(a: Asked, run: Run, s: Scheduler, state: ChainState, stateOf: Block -> ChainState,
                           filtering: bool, promoted: seq<Tx>, course: Course)
    reads s
  {
    match a
    case AskedReset(_, change) =>
      exists m :: change < m < |s.heads| && state == stateOf(s.heads[m])
    case AskedPromotion(_, accounts) =>
      forall x :: x in accounts ==> Attended(x, run.reset.Some?, filtering, promoted, course)
  }

  /** Everything that was ready for the account has been promoted, and its lists are what promotion
      and, after a reset, demotion make of them. */
  ghost predicate Attended(x: Address, demoted: bool, filtering: bool, promoted: seq<Tx>, course: Course) {
    && (forall tx :: tx in course.was(x).Ready(filtering) && tx.sender == x ==> tx in promoted)
    && (forall tx :: tx in promoted && tx.sender == x ==> tx in course.was(x).Ready(filtering))
    && At(course.p, x) == course.was(x).Kept(true, demoted, filtering)
    && At(course.q, x) == course.was(x).Postponed(true, demoted, filtering)
  }

  /** The blocks and states that a run asks for can be found. */
  ghost predicate Supplied(run: Run, view: ChainView, stateOf: Block -> ChainState) {
    run.reset.Some? ==>
      && HasBlock(view.blocks, run.reset.value.newHead) && Traced(run.reset.value, view)
      && view.stateAt(run.reset.value.newHead) == Some(stateOf(run.reset.value.newHead))
  }

  /** Carries out the run numbered `i`. Whoever waits for its channel gets what was asked for. */
  method CarryOut(ghost s: Scheduler, i: nat, run: Run, pool: TxPool, view: ChainView,
                  ghost stateOf: Block -> ChainState)
    returns (promoted: seq<Tx>, ghost course: Course)
    requires s.Valid() && i < |s.runs| && run == s.runs[i] && pool.Steady() && Supplied(run, view, stateOf)
    requires |s.marks| == |s.runs| + 1 && s.marks[i] < |s.heads| && pool.currentState == stateOf(s.heads[s.marks[i]])
    modifies pool`currentState, pool`currentMaxGas, pool`pendingNonces, pool`locals, pool`pending, pool`queue
    modifies pool`beats, pool`missing, pool.all, pool.priced, pool.pendingNonces
    ensures s.Valid() && pool.Steady() && pool.WithinLimits()
    ensures pool.pendingNonces == old(pool.pendingNonces) || fresh(pool.pendingNonces)
    ensures |s.marks| == |s.runs| + 1 && s.marks[i + 1] < |s.heads|
    ensures pool.currentState == stateOf(s.heads[s.marks[i + 1]])
    ensures forall a :: a in s.asked && a.done == i ==>
      Honoured(a, run, s, pool.currentState, stateOf, view.filtering, promoted, course)
    ensures run.reset.Some? ==>
      && course.taken && pool.currentMaxGas == view.gasLimit(run.reset.value.newHead)
      && Rejoined(pool.RulesNow(view.gasPriceActive), old(pool.Contents()), view.checks, course)
    ensures run.reset.None? ==>
      && !course.taken && course.was == old(pool.Standings()) && pool.currentMaxGas == old(pool.currentMaxGas)
    ensures Informed(course.was, pool.currentState, pool.currentMaxGas, pool.locals, pool.config.accountQueue)
    ensures (run.reset.Some? ==> view.filtering && Later(old(pool.currentState), run.reset.value, view)) ==>
      old(pool.Synced()) ==> pool.Synced()
  {
    hide *;
    s.RunSpans(i);
    if run.reset.Some? { SuppliedIs(run, view, stateOf); }
    var dirty := if run.dirty.Some? then run.dirty.value else {};
    promoted, course := pool.RunReorg(run.reset, dirty, view);
    if run.reset.Some? {
      BegunWhenTraced(run.reset.value, view, course, pool.currentState, pool.currentMaxGas);
    }
    forall a | a in s.asked && a.done == i
      ensures Honoured(a, run, s, pool.currentState, stateOf, view.filtering, promoted, course)
    {
      s.RunServes(a);
      IsHonoured(s, a, i, pool.currentState, stateOf, view.filtering, dirty, promoted, course);
    }
  }

  lemma SuppliedIs(run: Run, view: ChainView, stateOf: Block -> ChainState)
    requires Supplied(run, view, stateOf) && run.reset.Some?
    ensures Named(view.blocks) && HasBlock(view.blocks, run.reset.value.newHead) && Traced(run.reset.value, view)
    ensures view.stateAt(run.reset.value.newHead) == Some(stateOf(run.reset.value.newHead))
  {
    hide OneGenesis, Named;
  }

  lemma IsHonoured(s: Scheduler, a: Asked, i: nat, state: ChainState, stateOf: Block -> ChainState, filtering: bool,
                   dirty: set<Address>, promoted: seq<Tx>, course: Course)
    requires |s.marks| == |s.runs| + 1 && i < |s.runs| && a.done == i && s.Serves(a, s.runs[i])
    requires s.marks[i + 1] < |s.heads| && state == stateOf(s.heads[s.marks[i + 1]])
    requires dirty == if s.runs[i].dirty.Some? then s.runs[i].dirty.value else {}
    requires Reorganised(course.was, s.runs[i].reset.Some?, dirty, filtering, promoted, course.p, course.q)
    ensures Honoured(a, s.runs[i], s, state, stateOf, filtering, promoted, course)
  {
    hide Standing.Ready, Standing.Kept, Standing.Postponed;
    match a {
      case AskedReset(done, change) =>
      case AskedPromotion(done, accounts) =>
        forall x | x in accounts ensures Attended(x, s.runs[i].reset.Some?, filtering, promoted, course) {
          assert s.runs[i].Covers(x);
        }
    }
  }

  /** Carries out all runs in order. In the end the pool is on the last head, if no reset is pending. */
  method CarryOutAll(ghost s: Scheduler, runs: seq<Run>, pool: TxPool, views: seq<ChainView>,
                     ghost stateOf: Block -> ChainState)
    requires s.Valid() && runs == s.runs && |views| == |runs| && pool.Steady()
    requires forall i :: 0 <= i < |runs| ==> Supplied(runs[i], views[i], stateOf)
    requires 0 < |s.heads| && pool.currentState == stateOf(s.heads[0])
    modifies pool`currentState, pool`currentMaxGas, pool`pendingNonces, pool`locals, pool`pending, pool`queue
    modifies pool`beats, pool`missing, pool.all, pool.priced, pool.pendingNonces
    ensures pool.Steady() && 0 < |s.heads|
    ensures s.reset.None? ==> pool.currentState == stateOf(s.heads[|s.heads| - 1])
  {
    hide *;
    s.MarksEnd();
    for i := 0 to |runs|
      invariant s.Valid() && pool.Steady() && |s.marks| == |s.runs| + 1
      invariant pool.pendingNonces == old(pool.pendingNonces) || fresh(pool.pendingNonces)
      invariant s.marks[i] < |s.heads| && pool.currentState == stateOf(s.heads[s.marks[i]])
    {
      s.RunSpans(i);
      var promoted, course := CarryOut(s, i, runs[i], pool, views[i], stateOf);
    }
    s.MarksEnd();
  }
}
