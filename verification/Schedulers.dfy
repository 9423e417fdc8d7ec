/** `scheduleReorgLoop`: requests for pool reorganisations are merged while a run is under way, and
    each run answers for all that was asked since the run before it was launched. */
module Schedulers {
  import opened Types
  import opened Lists
  import opened Accounts
  import opened Chains
  import opened Reinjection

  /** A background run and the channel it closes when it is done. */
  datatype Run = Run(done: nat, reset: Option<ResetRequest>, dirty: Option<set<Address>>, events: Accounts) {
    /** The run promotes what the account has queued: after a reset every account is looked at, and
        otherwise those that asked for it. */
    predicate Covers(a: Address) {
      reset.Some? || (dirty.Some? && a in dirty.value)
    }
  }

  /** What was asked for, and the channel given in return. The head changes are numbered. */
  datatype Asked =
    | AskedReset(done: nat, change: nat)
    | AskedPromotion(done: nat, accounts: set<Address>)

  /** What the loop may receive, and the end of the run in the background. */
  datatype Event =
    | ResetRequested(newHead: Block)
    | PromotionRequested(accounts: set<Address>)
    | TxEvent(tx: Tx)
    | RunEnds
    | DoneSeen

  /** The events queued for announcement: for each account nonce the last transaction. */
  ghost function Gathered(txs: seq<Tx>): Accounts {
    if txs == [] then map[] else Inserted(Gathered(txs[..|txs| - 1]), txs[|txs| - 1])
  }

  /** A run ends, that is seen, and the next run ends; `progress` counts how much of this has happened. */
  function Further(progress: nat, event: Event): nat {
    match event
    case RunEnds => if progress == 0 then 1 else if progress == 2 then 3 else progress
    case DoneSeen => if progress == 1 then 2 else progress
    case _ => progress
  }

  ghost function Progress(events: seq<Event>): nat {
    if events == [] then 0 else Further(Progress(events[..|events| - 1]), events[|events| - 1])
  }

  ghost function Joined(parts: seq<seq<Tx>>): seq<Tx> {
    if parts == [] then [] else Joined(parts[..|parts| - 1]) + parts[|parts| - 1]
  }

  class Scheduler {
    var curDone: Option<nat>
    var nextDone: nat
    var launchNextRun: bool
    var reset: Option<ResetRequest>
    var dirtyAccounts: Option<set<Address>>
    var queuedEvents: Accounts
    var stopped: bool
    /** The channels that have been closed. */
    var closed: set<nat>

    /** The runs launched, all that was asked for, the heads of the chain in order, how far each run's reset reached
        in them, and the transaction events by the run that announces them. */
    ghost var runs: seq<Run>
    ghost var asked: seq<Asked>
    ghost var heads: seq<Block>
    ghost var marks: seq<nat>
    ghost var announced: seq<seq<Tx>>
    ghost var waiting: seq<Tx>

    /** The channels count the runs; only the last run may not have ended, and then the loop waits
        for it. */
    ghost predicate OneInFlight()
      reads this`nextDone, this`runs, this`curDone, this`closed, this`stopped
    {
      && nextDone == |runs| && (forall i :: 0 <= i < |runs| ==> runs[i].done == i)
      && (curDone.Some? ==> 0 < |runs| && curDone.value == |runs| - 1)
      && (forall i :: 0 <= i < |runs| ==> i in closed || curDone == Some(i))
      && (!stopped ==> forall c :: c in closed ==> c < |runs|)
    }

    /** The resets of the runs, and the one that waits, tile the history of heads. */
    ghost predicate Tiled()
      reads this`heads, this`marks, this`runs, this`reset
    {
      && 0 < |heads| && |marks| == |runs| + 1 && marks[0] == 0
      && (forall i :: 0 <= i < |runs| ==> TiledAt(i))
      && marks[|runs|] < |heads| && reset == Span(marks[|runs|], |heads| - 1)
    }

    ghost predicate TiledAt(i: nat)
      requires i < |runs| && |marks| == |runs| + 1
      reads this`heads, this`marks, this`runs
    {
      marks[i] <= marks[i + 1] < |heads| && runs[i].reset == Span(marks[i], marks[i + 1])
    }

    /** The reset from one head to a later one; none when they are the same. */
    ghost function Span(lo: nat, hi: nat): Option<ResetRequest>
      requires lo <= hi < |heads|
      reads this`heads
    {
      if lo == hi then None else Some(ResetRequest(Some(heads[lo]), heads[hi]))
    }

    /** Every request is answered by its channel's run, or by the run that will get that channel. */
    ghost predicate Answered()
      requires |marks| == |runs| + 1
      reads this`heads, this`marks, this`runs, this`asked, this`reset, this`dirtyAccounts, this`launchNextRun
    {
      && (launchNextRun <==> reset.Some? || dirtyAccounts.Some?)
      && (forall a :: a in asked ==> a.done <= |runs|)
      && (forall a :: a in asked && a.done < |runs| ==> Serves(a, runs[a.done]))
      && forall a :: a in asked && a.done == |runs| ==> Awaited(a)
    }

    /** A run does what was asked: its reset spans the head change, or it covers the accounts
        named. */
    ghost predicate Serves(a: Asked, run: Run)
      requires |marks| == |runs| + 1 && a.done < |runs|
      reads this`marks, this`runs
    {
      match a
      case AskedReset(done, change) => marks[done] <= change < marks[done + 1]
      case AskedPromotion(done, accounts) => forall x :: x in accounts ==> run.Covers(x)
    }

    ghost predicate Awaited(a: Asked)
      requires |marks| == |runs| + 1
      reads this`marks, this`runs, this`heads, this`dirtyAccounts
    {
      match a
      case AskedReset(done, change) => marks[|runs|] <= change < |heads| - 1
      case AskedPromotion(done, accounts) => dirtyAccounts.Some? && accounts <= dirtyAccounts.value
    }

    /** Transaction events are announced with the next run, in order, none twice. */
    ghost predicate Announcing()
      reads this`runs, this`announced, this`waiting, this`queuedEvents
    {
      && |announced| == |runs| && queuedEvents == Gathered(waiting)
      && forall i :: 0 <= i < |runs| ==> runs[i].events == Gathered(announced[i])
    }

    ghost predicate Valid()
      reads this
    {
      OneInFlight() && Tiled() && Answered() && Announcing()
    }

    constructor (head: Block)
      ensures Valid() && !stopped && runs == [] && asked == [] && heads == [head] && Joined(announced) + waiting == []
    {
      curDone, nextDone, launchNextRun, stopped := None, 0, false, false;
      reset, dirtyAccounts, queuedEvents := None, None, map[];
      runs, closed, asked, heads, marks, announced, waiting := [], {}, [], [head], [0], [], [];
    }

    /** Launches a run with all that was merged, if one is due and none is under way. */
    method Launch()
      requires Valid() && !stopped
      modifies this`curDone, this`nextDone, this`launchNextRun, this`reset, this`dirtyAccounts, this`queuedEvents
      modifies this`runs, this`marks, this`announced, this`waiting
      ensures Valid() && (curDone.Some? || !launchNextRun)
      ensures launchNextRun == (old(launchNextRun) && old(curDone).Some?)
      ensures if old(curDone.None? && launchNextRun)
        then |runs| == |old(runs)| + 1 && runs[..|old(runs)|] == old(runs) && curDone == Some(|old(runs)|)
        else runs == old(runs) && curDone == old(curDone)
      ensures Joined(announced) + waiting == old(Joined(announced) + waiting)
    {
      hide *;
      if curDone.None? && launchNextRun {
        Facts();
        Appended(announced, waiting);
        NoteRun();
        curDone, nextDone := Some(nextDone), nextDone + 1;
        launchNextRun := false;
        reset, dirtyAccounts := None, None;
        queuedEvents := map[];
        RunStarted();
      }
    }

    /** The history with the run that is about to start. */
    ghost method NoteRun()
      requires 0 < |heads|
      modifies this`runs, this`marks, this`announced, this`waiting
      ensures runs == old(runs) + [Run(nextDone, reset, dirtyAccounts, queuedEvents)]
      ensures marks == old(marks) + [|heads| - 1]
      ensures announced == old(announced) + [old(waiting)] && waiting == []
    {
      runs := runs + [Run(nextDone, reset, dirtyAccounts, queuedEvents)];
      marks, announced, waiting := marks + [|heads| - 1], announced + [waiting], [];
    }

    /** The new run takes over all that was waiting. */
    twostate lemma RunStarted()
      requires old(Valid()) && old(curDone).None? && !stopped && stopped == old(stopped)
      requires runs == old(runs) + [Run(old(nextDone), old(reset), old(dirtyAccounts), old(queuedEvents))]
      requires marks == old(marks) + [|heads| - 1] && announced == old(announced) + [old(waiting)] && waiting == []
      requires curDone == Some(old(nextDone)) && nextDone == old(nextDone) + 1 && closed == old(closed)
      requires !launchNextRun && reset.None? && dirtyAccounts.None? && queuedEvents == map[]
      requires heads == old(heads) && asked == old(asked)
      ensures Valid()
    {
      hide Gathered;
      forall i | 0 <= i < |runs| ensures TiledAt(i) {
        if i < |old(runs)| { assert old(TiledAt(i)); }
      }
      forall a | a in asked && a.done < |runs| ensures Serves(a, runs[a.done]) {
        if a.done < |old(runs)| { assert old(Serves(a, runs[a.done])); } else { assert old(Awaited(a)); }
      }
      NoneGathered();
    }

    lemma Facts()
      requires Valid()
      ensures 0 < |heads| && nextDone == |runs|
    {
    }

    lemma NoneGathered()
      ensures Gathered([]) == map[]
    {
    }

    lemma Appended(parts: seq<seq<Tx>>, last: seq<Tx>)
      ensures Joined(parts + [last]) == Joined(parts) + last
    {
      assert (parts + [last])[..|parts|] == parts;
    }

    /** Receives a request to move on from the last head. */
    method ReceiveReset(request: ResetRequest) returns (done: nat)
      requires Valid() && !stopped && request.oldHead == Some(heads[|heads| - 1])
      modifies this`reset, this`launchNextRun, this`asked, this`heads
      ensures Valid() && !stopped && runs == old(runs) && closed == old(closed) && curDone == old(curDone)
      ensures asked == old(asked) + [AskedReset(done, |old(heads)| - 1)] && done == |runs|
      ensures heads == old(heads) + [request.newHead] && launchNextRun
      ensures Joined(announced) + waiting == old(Joined(announced) + waiting)
    {
      hide OneInFlight, Announcing, Joined;
      Facts();
      reset := if reset.None? then Some(request) else Some(reset.value.(newHead := request.newHead));
      launchNextRun := true;
      done := nextDone;
      asked, heads := asked + [AskedReset(done, |heads| - 1)], heads + [request.newHead];
      forall i | 0 <= i < |runs| ensures TiledAt(i) {
        assert old(TiledAt(i));
      }
      forall a | a in asked && a.done == |runs| ensures Awaited(a) {
        if a in old(asked) { assert old(Awaited(a)); }
      }
    }

    /** Receives a request to look at some accounts. */
    method ReceivePromotion(accounts: set<Address>) returns (done: nat)
      requires Valid() && !stopped
      modifies this`dirtyAccounts, this`launchNextRun, this`asked
      ensures Valid() && !stopped && runs == old(runs) && closed == old(closed) && curDone == old(curDone)
      ensures asked == old(asked) + [AskedPromotion(done, accounts)] && done == |runs|
      ensures heads == old(heads) && launchNextRun
      ensures Joined(announced) + waiting == old(Joined(announced) + waiting)
    {
      hide OneInFlight, TiledAt, Announcing, Joined;
      Facts();
      dirtyAccounts := if dirtyAccounts.None? then Some(accounts) else Some(dirtyAccounts.value + accounts);
      launchNextRun := true;
      done := nextDone;
      asked := asked + [AskedPromotion(done, accounts)];
      forall a | a in asked && a.done == |runs| ensures Awaited(a) {
        if a in old(asked) { assert old(Awaited(a)); }
      }
    }

    /** Receives a transaction to announce with the next run; does not ask for one. */
    method ReceiveTx(tx: Tx)
      requires Valid() && !stopped
      modifies this`queuedEvents, this`waiting
      ensures Valid() && !stopped && runs == old(runs) && closed == old(closed) && curDone == old(curDone)
      ensures asked == old(asked) && heads == old(heads) && launchNextRun == old(launchNextRun)
      ensures Joined(announced) + waiting == old(Joined(announced) + waiting) + [tx]
    {
      hide OneInFlight, Tiled, Answered, Inserted, Joined;
      assert (waiting + [tx])[..|waiting|] == waiting;
      queuedEvents := Inserted(queuedEvents, tx);
      waiting := waiting + [tx];
    }

    /** The run in the background ends and closes its channel. */
    method EndRun()
      requires Valid() && curDone.Some?
      modifies this`closed
      ensures Valid() && closed == old(closed) + {curDone.value}
    {
      hide Tiled, Answered, Announcing, Joined;
      closed := closed + {curDone.value};
    }

    /** The loop sees that the run has ended. */
    method SeeDone()
      requires Valid() && !stopped && curDone.Some? && curDone.value in closed
      modifies this`curDone
      ensures Valid() && !stopped && curDone.None? && runs == old(runs) && closed == old(closed)
      ensures asked == old(asked) && heads == old(heads) && launchNextRun == old(launchNextRun)
      ensures Joined(announced) + waiting == old(Joined(announced) + waiting)
    {
      hide Tiled, Answered, Announcing, Joined;
      curDone := None;
    }

    /** Shuts down once the run under way has ended, releasing those who wait for the next. */
    method Shutdown()
      requires Valid() && !stopped && (curDone.Some? ==> curDone.value in closed)
      modifies this`closed, this`stopped
      ensures Valid() && stopped && runs == old(runs) && asked == old(asked)
      ensures closed == old(closed) + {nextDone} && nextDone == |runs|
    {
      hide Tiled, Answered, Announcing, Joined;
      closed := closed + {nextDone};
      stopped := true;
    }

    /** A requester whose channel is closed has been served, unless the loop was shut down. */
    lemma ClosedMeansServed(a: Asked)
      requires Valid() && a in asked && a.done in closed && !stopped
      ensures a.done < |runs| && runs[a.done].done == a.done && Serves(a, runs[a.done])
    {
    }

    /** After a shutdown only those can have been left out who were waiting for the next run. */
    lemma ShutdownLeavesOut(a: Asked)
      requires Valid() && a in asked && a.done in closed && stopped
      ensures a.done == |runs| || (a.done < |runs| && Serves(a, runs[a.done]))
    {
    }

    /** Of two runs with resets and none between, the second starts where the first ended. */
    lemma ResetsMeet(i: nat, j: nat)
      requires Valid() && i < j < |runs| && runs[i].reset.Some? && runs[j].reset.Some?
      requires forall k :: i < k < j ==> runs[k].reset.None?
      ensures runs[j].reset.value.oldHead == Some(runs[i].reset.value.newHead)
    {
      var k := i + 1;
      assert TiledAt(i) && TiledAt(j);
      while k < j
        invariant i < k <= j && marks[k] == marks[i + 1]
      {
        assert TiledAt(k);
        k := k + 1;
      }
    }

    /** A run takes the pool from the head that the run before it reached to the last one asked for
        when it was launched. */
    lemma RunSpans(i: nat)
      requires Valid() && i < |runs|
      ensures |marks| == |runs| + 1 && marks[i] <= marks[i + 1] < |heads|
      ensures runs[i].reset.None? ==> marks[i] == marks[i + 1]
      ensures runs[i].reset.Some? ==> runs[i].reset.value.newHead == heads[marks[i + 1]]
    {
      assert TiledAt(i);
    }

    /** Before the first run the pool is on the first head; with no reset pending the last run has
        left it on the last one. */
    lemma MarksEnd()
      requires Valid()
      ensures 0 < |heads| && |marks| == |runs| + 1 && marks[0] == 0 && marks[|runs|] < |heads|
      ensures reset.None? ==> marks[|runs|] == |heads| - 1
    {
    }

    lemma RunServes(a: Asked)
      requires Valid() && a in asked && a.done < |runs|
      ensures |marks| == |runs| + 1 && Serves(a, runs[a.done])
    {
    }

    /** The first reset starts at the head that the pool was made with. */
    lemma FirstResetStarts(i: nat)
      requires Valid() && i < |runs| && runs[i].reset.Some? && forall k :: 0 <= k < i ==> runs[k].reset.None?
      ensures 0 < |heads| && runs[i].reset.value.oldHead == Some(heads[0])
    {
      var k := 0;
      while k < i
        invariant k <= i && marks[k] == 0
      {
        assert TiledAt(k);
        k := k + 1;
      }
      assert TiledAt(i);
    }

    /** With no reset pending, the last one has reached the last head. */
    lemma ResetsReachHead(i: nat)
      requires Valid() && i < |runs| && runs[i].reset.Some? && reset.None?
      requires forall k :: i < k < |runs| ==> runs[k].reset.None?
      ensures runs[i].reset.value.newHead == heads[|heads| - 1]
    {
      var k := i + 1;
      assert TiledAt(i);
      while k < |runs|
        invariant i < k <= |runs| && marks[k] == marks[i + 1]
      {
        assert TiledAt(k);
        k := k + 1;
      }
    }

    /** One turn of the loop. Events that cannot happen yet are passed over. */
    method Turn(event: Event, last: Block) returns (last': Block)
      requires Valid() && !stopped && 0 < |heads| && last == heads[|heads| - 1]
      modifies this
      ensures Valid() && !stopped && 0 < |heads| && last' == heads[|heads| - 1]
      ensures heads == old(heads) + if event.ResetRequested? then [event.newHead] else []
      ensures Joined(announced) + waiting ==
        old(Joined(announced) + waiting) + if event.TxEvent? then [event.tx] else []
      ensures var due := old(curDone.None? && launchNextRun);
        && |runs| == |old(runs)| + (if due then 1 else 0) && runs[..|old(runs)|] == old(runs)
        && launchNextRun == (event.ResetRequested? || event.PromotionRequested? || (old(launchNextRun) && !due))
        && var current := if due then Some(|old(runs)|) else old(curDone);
        && closed == old(closed) + (if event.RunEnds? && current.Some? then {current.value} else {})
        && curDone == if event.DoneSeen? && current.Some? && current.value in old(closed) then None else current
      ensures asked == old(asked) + Record(event, |runs|, |old(heads)| - 1)
      ensures forall a, progress :: a in old(asked) && Reached(old(curDone), old(closed), a.done, progress) ==>
        Reached(curDone, closed, a.done, Further(progress, event))
    {
      hide *;
      Launch();
      last' := last;
      RecordIs(event, |runs|, |heads| - 1);
      match event {
        case ResetRequested(newHead) =>
          var done := ReceiveReset(ResetRequest(Some(last), newHead));
          last' := newHead;
        case PromotionRequested(accounts) =>
          var done := ReceivePromotion(accounts);
        case TxEvent(tx) =>
          ReceiveTx(tx);
        case RunEnds =>
          if curDone.Some? { EndRun(); }
        case DoneSeen =>
          if curDone.Some? && curDone.value in closed { SeeDone(); }
      }
      GetsFurther(event);
    }

    ghost predicate Answers(a: Asked)
      reads this`closed, this`runs, this`marks
    {
      a.done in closed && a.done < |runs| && |marks| == |runs| + 1 && Serves(a, runs[a.done])
    }

    lemma InTheEnd(events: seq<Event>, i: nat)
      requires Valid() && !stopped && i < |events| && IsRequest(events[i])
      requires Hears(asked, curDone, closed, events, i, |events|)
      ensures exists done ::
        Wish(events, i, done) in asked && (EndsTwice(events, i) ==> Answers(Wish(events, i, done)))
    {
      hide Valid, Serves, Progress, NewHeads;
      var done :| Wish(events, i, done) in asked
        && Reached(curDone, closed, done, Progress(events[i + 1..|events|]));
      var a := Wish(events, i, done);
      if EndsTwice(events, i) {
        var j, k, l :| i < j < k < l < |events|
          && events[j].RunEnds? && events[k].DoneSeen? && events[l].RunEnds?;
        EnoughProgress(events[i + 1..|events|], j - i - 1, k - i - 1, l - i - 1);
        ClosedMeansServed(a);
        RunServes(a);
      }
    }

    twostate lemma GetsFurther(event: Event)
      requires old(Valid()) && Valid() && !stopped && !old(stopped)
      requires var due := old(curDone.None? && launchNextRun);
        var current := if due then Some(|old(runs)|) else old(curDone);
        && closed == old(closed) + (if event.RunEnds? && current.Some? then {current.value} else {})
        && curDone == if event.DoneSeen? && current.Some? && current.value in old(closed) then None else current
      ensures forall a, progress :: a in old(asked) && Reached(old(curDone), old(closed), a.done, progress) ==>
        Reached(curDone, closed, a.done, Further(progress, event))
    {
      hide TiledAt, Announcing, Serves;
      forall a, progress | a in old(asked) && Reached(old(curDone), old(closed), a.done, progress)
        ensures Reached(curDone, closed, a.done, Further(progress, event))
      {
        if a.done == |old(runs)| { assert old(Awaited(a)); }
      }
    }
  }

  predicate IsRequest(event: Event) {
    event.ResetRequested? || event.PromotionRequested?
  }

  /** What the event numbered `i` asks for. */
  ghost function Wish(events: seq<Event>, i: nat, done: nat): Asked
    requires i < |events| && IsRequest(events[i])
  {
    match events[i]
    case ResetRequested(_) => AskedReset(done, |NewHeads(events[..i])|)
    case PromotionRequested(accounts) => AskedPromotion(done, accounts)
  }

  /** After event `i` a run ends, that is seen, and another one ends. */
  ghost predicate EndsTwice(events: seq<Event>, i: nat) {
    exists j, k, l ::
      && i < j < k < l < |events|
      && events[j].RunEnds? && events[k].DoneSeen? && events[l].RunEnds?
  }

  /** Any sequence of events, in which the pool's main loop asks to move from each head to the
      next, keeps all of this, loses no head and no transaction, and hears every request. Once the run
      then under way has ended, that was seen, and the next run has ended, the request is served. */
  method Schedule(head: Block, events: seq<Event>) returns (s: Scheduler)
    ensures fresh(s) && s.Valid() && !s.stopped
    ensures forall i :: 0 <= i < |events| && IsRequest(events[i]) ==>
      exists done :: Wish(events, i, done) in s.asked && (EndsTwice(events, i) ==> s.Answers(Wish(events, i, done)))
    ensures s.heads == [head] + NewHeads(events)
    ensures Joined(s.announced) + s.waiting == TxEvents(events)
  {
    hide *;
    NoEvents();
    s := new Scheduler(head);
    var last := head;
    for i := 0 to |events|
      invariant fresh(s) && s.Valid() && !s.stopped
      invariant forall j :: 0 <= j < i && IsRequest(events[j]) ==> Hears(s.asked, s.curDone, s.closed, events, j, i)
      invariant s.heads == [head] + NewHeads(events[..i]) && last == s.heads[|s.heads| - 1]
      invariant Joined(s.announced) + s.waiting == TxEvents(events[..i])
    {
      OneMoreEvent(events, i);
      ghost var asked, curDone, closed := s.asked, s.curDone, s.closed;
      last := s.Turn(events[i], last);
      forall j | 0 <= j <= i && IsRequest(events[j]) ensures Hears(s.asked, s.curDone, s.closed, events, j, i + 1) {
        if j < i {
          HearsOn(asked, curDone, closed, s.asked, s.curDone, s.closed, events, j, i);
        } else {
          HearsNow(s.asked, s.curDone, s.closed, events, i, |s.runs|);
        }
      }
    }
    assert events[..|events|] == events;
    forall i | 0 <= i < |events| && IsRequest(events[i])
      ensures exists done ::
        Wish(events, i, done) in s.asked && (EndsTwice(events, i) ==> s.Answers(Wish(events, i, done)))
    {
      s.InTheEnd(events, i);
    }
  }

  /** What is put on record for a request that is given the channel `done`. */
  function Record(event: Event, done: nat, change: nat): seq<Asked> {
    match event
    case ResetRequested(_) => [AskedReset(done, change)]
    case PromotionRequested(accounts) => [AskedPromotion(done, accounts)]
    case _ => []
  }

  /** No later event has the same account nonce. */
  ghost predicate LastAt(txs: seq<Tx>, i: nat)
    requires i < |txs|
  {
    forall j :: i < j < |txs| ==> txs[j].sender != txs[i].sender || txs[j].nonce != txs[i].nonce
  }

  /** Of the events with the same account nonce the last one is kept. */
  lemma {:induction false} GatheredLast(txs: seq<Tx>, tx: Tx)
    ensures Has(Gathered(txs), tx) <==> exists i: nat :: i < |txs| && txs[i] == tx && LastAt(txs, i)
  {
    if txs != [] {
      var init, last := txs[..|txs| - 1], txs[|txs| - 1];
      GatheredLast(init, tx);
      assert LastAt(txs, |txs| - 1);
      if last.sender != tx.sender || last.nonce != tx.nonce {
        forall i: nat | i < |init| && init[i] == tx ensures LastAt(init, i) <==> LastAt(txs, i) {
          assert LastAt(init, i) ==> forall j :: i < j < |init| ==> txs[j] == init[j];
          assert LastAt(txs, i) ==> forall j :: i < j < |init| ==> init[j] == txs[j];
        }
      }
    }
  }

  lemma RecordIs(event: Event, done: nat, change: nat)
    ensures event.ResetRequested? ==> Record(event, done, change) == [AskedReset(done, change)]
    ensures event.PromotionRequested? ==> Record(event, done, change) == [AskedPromotion(done, event.accounts)]
    ensures !IsRequest(event) ==> Record(event, done, change) == []
    ensures event.TxEvent? || event.RunEnds? || event.DoneSeen? ==> !IsRequest(event)
  {
  }

  /** How far the loop has come with a request whose channel is `done`: the run before it has ended,
      that was seen, and its own run has ended. */
  ghost predicate Reached(curDone: Option<nat>, closed: set<nat>, done: nat, progress: nat) {
    && (1 <= progress && curDone.Some? && curDone.value < done ==> curDone.value in closed)
    && (2 <= progress ==> curDone.None? || done <= curDone.value)
    && (3 <= progress ==> done in closed)
  }

  /** The request that came with event `j` is on record, and has come as far as the events since then
      have brought it. */
  ghost predicate Hears(asked: seq<Asked>, curDone: Option<nat>, closed: set<nat>, events: seq<Event>, j: nat, n: nat)
    requires j < n <= |events| && IsRequest(events[j])
  {
    exists done :: Wish(events, j, done) in asked && Reached(curDone, closed, done, Progress(events[j + 1..n]))
  }

  lemma HearsOn(asked: seq<Asked>, curDone: Option<nat>, closed: set<nat>,
                asked': seq<Asked>, curDone': Option<nat>, closed': set<nat>, events: seq<Event>, j: nat, i: nat)
    requires j < i < |events| && IsRequest(events[j]) && Hears(asked, curDone, closed, events, j, i)
    requires forall a :: a in asked ==> a in asked'
    requires forall a, progress :: a in asked && Reached(curDone, closed, a.done, progress) ==>
      Reached(curDone', closed', a.done, Further(progress, events[i]))
    ensures Hears(asked', curDone', closed', events, j, i + 1)
  {
    hide Reached, NewHeads;
    var done :| Wish(events, j, done) in asked && Reached(curDone, closed, done, Progress(events[j + 1..i]));
    var since := events[j + 1..i + 1];
    assert since[..|since| - 1] == events[j + 1..i];
    assert Wish(events, j, done) in asked' && Reached(curDone', closed', done, Progress(since));
  }

  lemma HearsNow(asked: seq<Asked>, curDone: Option<nat>, closed: set<nat>, events: seq<Event>, i: nat, done: nat)
    requires i < |events| && IsRequest(events[i])
    requires forall a :: a in Record(events[i], done, |NewHeads(events[..i])|) ==> a in asked
    ensures Hears(asked, curDone, closed, events, i, i + 1)
  {
    hide NewHeads;
    assert events[i + 1..i + 1] == [];
    assert Wish(events, i, done) in asked && Reached(curDone, closed, done, Progress([]));
  }

  /** A run that ends, is seen, and is followed by one that ends is all the progress a request needs. */
  lemma EnoughProgress(events: seq<Event>, j: nat, k: nat, l: nat)
    requires j < k < l < |events| && events[j].RunEnds? && events[k].DoneSeen? && events[l].RunEnds?
    ensures Progress(events) == 3
  {
    hide Progress;
    OneOn(events, j);
    NoLess(events, j + 1, k);
    OneOn(events, k);
    NoLess(events, k + 1, l);
    OneOn(events, l);
    NoLess(events, l + 1, |events|);
    assert events[..|events|] == events;
  }

  lemma OneOn(events: seq<Event>, i: nat)
    requires i < |events|
    ensures Progress(events[..i + 1]) == Further(Progress(events[..i]), events[i])
  {
    assert events[..i + 1][..i] == events[..i];
  }

  lemma {:induction false} NoLess(events: seq<Event>, i: nat, k: nat)
    requires i <= k <= |events|
    ensures Progress(events[..i]) <= Progress(events[..k]) <= 3
    decreases k
  {
    if k > 0 {
      OneOn(events, k - 1);
      NoLess(events, if i < k then i else k - 1, k - 1);
    }
  }

  lemma NoEvents()
    ensures NewHeads([]) == [] && TxEvents([]) == []
  {
  }

  lemma OneMoreEvent(events: seq<Event>, i: nat)
    requires i < |events|
    ensures NewHeads(events[..i + 1]) ==
      NewHeads(events[..i]) + if events[i].ResetRequested? then [events[i].newHead] else []
    ensures TxEvents(events[..i + 1]) == TxEvents(events[..i]) + if events[i].TxEvent? then [events[i].tx] else []
  {
    assert events[..i + 1][..i] == events[..i];
  }

  ghost function NewHeads(events: seq<Event>): seq<Block> {
    if events == [] then []
    else
      NewHeads(events[..|events| - 1])
      + if events[|events| - 1].ResetRequested? then [events[|events| - 1].newHead] else []
  }

  ghost function TxEvents(events: seq<Event>): seq<Tx> {
    if events == [] then []
    else TxEvents(events[..|events| - 1]) + if events[|events| - 1].TxEvent? then [events[|events| - 1].tx] else []
  }
}
