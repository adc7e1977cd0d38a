/** The loop that coalesces requests into runs of the pool's reorganisation, with at most one run in flight. */
module Schedulers {
  import opened Options
  import opened Transactions

  type HeadHash = nat
  type Channel = nat

  datatype ResetRequest = ResetRequest(oldHead: HeadHash, newHead: HeadHash)

  /** What a caller has asked for; a reset is named by its place among all reset requests. */
  datatype Request = ForReset(index: nat) | ForAccounts(accounts: set<Addr>)

  /** A done channel handed to a caller, and how many runs had been launched by then. */
  datatype Ticket = Ticket(request: Request, done: Channel, launched: nat)

  /** A launched run with its arguments; it answers the reset requests from `lo` up to `hi`. */
  datatype Run = Run(done: Channel, reset: Option<ResetRequest>, dirty: Option<set<Addr>>, events: map<Addr, Items>,
                     lo: nat, hi: nat)

  /** What the loop may see next; `RunEnds` is the run itself closing its channel. */
  datatype Event =
    | Reset(request: ResetRequest)
    | Promote(accounts: set<Addr>)
    | TxEvent(tx: Tx)
    | RunEnds
    | RunSeen
    | Shutdown

  ghost predicate Covers(r: Run, q: Request) {
    match q
    case ForReset(i) => r.lo <= i < r.hi
    case ForAccounts(accounts) => r.dirty.Some? && accounts <= r.dirty.value
  }

  /** The run starts from the old head of its first reset request and goes to the new head of its last. */
  ghost predicate Merges(r: Run, resets: seq<ResetRequest>) {
    && r.lo <= r.hi <= |resets| && (r.reset.Some? <==> r.lo < r.hi)
    && (r.lo < r.hi ==> r.reset.value == ResetRequest(resets[r.lo].oldHead, resets[r.hi - 1].newHead))
  }

  function Answered(runs: seq<Run>): nat {
    if runs == [] then 0 else runs[|runs| - 1].hi
  }

  ghost predicate TakesUp(runs: seq<Run>, i: nat)
    requires i < |runs|
  {
    runs[i].lo == Answered(runs[..i])
  }

  /** Runs take up the reset requests in order, leaving none out, each on its own channel. */
  ghost predicate InOrder(runs: seq<Run>, resets: seq<ResetRequest>) {
    && (forall i :: 0 <= i < |runs| ==> runs[i].done == i && Merges(runs[i], resets))
    && (forall i :: 0 <= i < |runs| ==> TakesUp(runs, i))
  }

  /** A ticket's run was launched after the request and covers it. */
  ghost predicate Honoured(t: Ticket, runs: seq<Run>) {
    t.launched <= t.done < |runs| && runs[t.done].done == t.done && Covers(runs[t.done], t.request)
  }

  ghost predicate AllHonoured(tickets: seq<Ticket>, runs: seq<Run>) {
    forall i :: 0 <= i < |tickets| ==> Honoured(tickets[i], runs)
  }

  /** `v` does at least what `u` does. */
  ghost predicate Widens(u: Run, v: Run) {
    && u.done == v.done && v.lo <= u.lo && u.hi <= v.hi
    && (u.dirty.Some? ==> v.dirty.Some? && u.dirty.value <= v.dirty.value)
  }

  lemma HonouredWider(tickets: seq<Ticket>, runs: seq<Run>, u: Run, v: Run)
    requires AllHonoured(tickets, runs + [u]) && Widens(u, v)
    ensures AllHonoured(tickets, runs + [v])
  {
    forall i | 0 <= i < |tickets|
      ensures Honoured(tickets[i], runs + [v])
    {
      assert Honoured(tickets[i], runs + [u]);
    }
  }

  lemma HonouredLater(tickets: seq<Ticket>, runs: seq<Run>, v: Run)
    requires AllHonoured(tickets, runs)
    ensures AllHonoured(tickets, runs + [v])
  {
    forall i | 0 <= i < |tickets|
      ensures Honoured(tickets[i], runs + [v])
    {
      assert Honoured(tickets[i], runs);
    }
  }

  lemma InOrderMore(runs: seq<Run>, resets: seq<ResetRequest>, x: ResetRequest)
    requires InOrder(runs, resets)
    ensures InOrder(runs, resets + [x])
  {
    forall i | 0 <= i < |runs|
      ensures Merges(runs[i], resets + [x])
    {
      assert Merges(runs[i], resets);
    }
  }

  /** One more request joins the upcoming run. */
  lemma MergesMore(u: Run, v: Run, resets: seq<ResetRequest>, x: ResetRequest)
    requires Merges(u, resets) && u.hi == |resets|
    requires v.lo == u.lo && v.hi == u.hi + 1
    requires v.reset == Some(if u.reset.Some? then u.reset.value.(newHead := x.newHead) else x)
    ensures Merges(v, resets + [x])
  {
  }

  lemma InOrderLaunch(runs: seq<Run>, resets: seq<ResetRequest>, u: Run)
    requires InOrder(runs, resets) && Merges(u, resets) && u.done == |runs| && u.lo == Answered(runs)
    ensures InOrder(runs + [u], resets)
  {
    var all := runs + [u];
    forall i | 0 <= i < |all|
      ensures all[i].done == i && Merges(all[i], resets) && TakesUp(all, i)
    {
      assert all[..i] == runs[..i];
      if i < |runs| {
        assert Merges(runs[i], resets) && TakesUp(runs, i);
      } else {
        assert runs[..i] == runs;
      }
    }
  }

  /** Each reset request continues from where the one before it ended. */
  ghost predicate Linked(resets: seq<ResetRequest>) {
    forall i :: 0 < i < |resets| ==> resets[i - 1].newHead == resets[i].oldHead
  }

  class Scheduler {
    var curDone: Option<Channel>
    var nextDone: Channel
    var launchNextRun: bool
    var reset: Option<ResetRequest>
    var dirtyAccounts: Option<set<Addr>>
    var queuedEvents: map<Addr, Items>
    var closed: set<Channel>
    var stopped: bool
    ghost var runs: seq<Run>
    ghost var resets: seq<ResetRequest>
    ghost var tickets: seq<Ticket>

    /** The run that would be launched now. */
    ghost function Upcoming(): Run
      reads this
    {
      Run(nextDone, reset, dirtyAccounts, queuedEvents, Answered(runs), |resets|)
    }

    ghost predicate Valid()
      reads this
    {
      && InOrder(runs, resets) && nextDone == |runs| && Merges(Upcoming(), resets)
      && (launchNextRun <==> reset.Some? || dirtyAccounts.Some?)
      && (forall c :: c in closed ==> c < |runs| || (stopped && c == |runs|))
      && (stopped ==> curDone == None && |runs| in closed)
      && (forall c :: 0 <= c < |runs| - 1 ==> c in closed)
      && (match curDone
          case Some(c) => c == |runs| - 1
          case None => forall c :: 0 <= c < |runs| ==> c in closed)
      && AllHonoured(tickets, runs + [Upcoming()])
    }

    constructor ()
      ensures Valid() && runs == [] && resets == [] && tickets == [] && !stopped
    {
      curDone, nextDone, launchNextRun, reset, dirtyAccounts, queuedEvents := None, 0, false, None, None, map[];
      closed, stopped, runs, resets, tickets := {}, false, [], [], [];
    }

    /** The head of the loop: launches the next run if one is wanted and none is active. */
    method Launch()
      requires Valid() && !stopped
      modifies this
      ensures Valid() && !stopped && resets == old(resets) && tickets == old(tickets) && closed == old(closed)
      ensures if old(curDone == None && launchNextRun)
        then runs == old(runs) + [old(Upcoming())] && curDone == Some(old(nextDone)) && queuedEvents == map[]
        else runs == old(runs) && curDone == old(curDone) && queuedEvents == old(queuedEvents)
      ensures !(curDone == None && launchNextRun)
    {
      if curDone == None && launchNextRun {
        InOrderLaunch(runs, resets, Upcoming());
        runs := runs + [Upcoming()];
        curDone, nextDone := Some(nextDone), nextDone + 1;
        launchNextRun := false;
        reset, dirtyAccounts := None, None;
        queuedEvents := map[];
        HonouredLater(tickets, runs, Upcoming());
      }
    }

    method OnReset(request: ResetRequest) returns (done: Channel)
      requires Valid() && !stopped
      modifies this
      ensures Valid() && !stopped && runs == old(runs) && closed == old(closed) && queuedEvents == old(queuedEvents)
      ensures resets == old(resets) + [request]
      ensures tickets == old(tickets) + [Ticket(ForReset(|old(resets)|), done, |runs|)]
      ensures launchNextRun && curDone == old(curDone)
    {
      ghost var u := Upcoming();
      if reset == None {
        reset := Some(request);
      } else {
        reset := Some(reset.value.(newHead := request.newHead));
      }
      InOrderMore(runs, resets, request);
      resets := resets + [request];
      MergesMore(u, Upcoming(), old(resets), request);
      HonouredWider(tickets, runs, u, Upcoming());
      launchNextRun := true;
      done := nextDone;
      tickets := tickets + [Ticket(ForReset(|resets| - 1), done, |runs|)];
    }

    method OnPromote(accounts: set<Addr>) returns (done: Channel)
      requires Valid() && !stopped
      modifies this
      ensures Valid() && !stopped && runs == old(runs) && closed == old(closed) && queuedEvents == old(queuedEvents)
      ensures resets == old(resets)
      ensures tickets == old(tickets) + [Ticket(ForAccounts(accounts), done, |runs|)]
      ensures launchNextRun && curDone == old(curDone)
    {
      ghost var u := Upcoming();
      if dirtyAccounts == None {
        dirtyAccounts := Some(accounts);
      } else {
        dirtyAccounts := Some(dirtyAccounts.value + accounts);
      }
      HonouredWider(tickets, runs, u, Upcoming());
      launchNextRun := true;
      done := nextDone;
      tickets := tickets + [Ticket(ForAccounts(accounts), done, |runs|)];
    }

    /** Keeps an event for the next run without asking for one. */
    method OnTxEvent(tx: Tx)
      requires Valid() && !stopped
      modifies this
      ensures Valid() && !stopped && runs == old(runs) && closed == old(closed) && resets == old(resets)
      ensures tickets == old(tickets)
      ensures launchNextRun == old(launchNextRun) && reset == old(reset) && dirtyAccounts == old(dirtyAccounts)
      ensures tx.from in queuedEvents && Holds(queuedEvents[tx.from], tx)
      ensures forall a :: a != tx.from ==>
        && (a in queuedEvents <==> a in old(queuedEvents))
        && (a in queuedEvents ==> queuedEvents[a] == old(queuedEvents)[a])
    {
      ghost var u := Upcoming();
      var items := if tx.from in queuedEvents then queuedEvents[tx.from] else map[];
      queuedEvents := queuedEvents[tx.from := items[tx.nonce := tx]];
      HonouredWider(tickets, runs, u, Upcoming());
    }

    /** The active run ends and closes its channel. */
    method RunEnds()
      requires Valid() && curDone.Some?
      modifies this`closed
      ensures Valid() && runs == old(runs) && resets == old(resets) && tickets == old(tickets)
      ensures closed == old(closed) + {|runs| - 1}
    {
      closed := closed + {curDone.value};
    }

    /** The loop notices that the active run's channel is closed. */
    method OnRunSeen()
      requires Valid() && curDone.Some? && curDone.value in closed
      modifies this`curDone
      ensures Valid() && runs == old(runs) && resets == old(resets) && tickets == old(tickets) && closed == old(closed)
      ensures curDone == None
    {
      curDone := None;
    }

    /** The pool shuts down: the active run is waited for, and whoever waits for the next one is let go. */
    method OnShutdown()
      requires Valid() && !stopped
      modifies this`curDone, this`closed, this`stopped
      ensures Valid() && stopped
      ensures closed == old(closed) + {|runs|} + if old(curDone).Some? then {|runs| - 1} else {}
    {
      if curDone.Some? {
        RunEnds();
        OnRunSeen();
      }
      closed := closed + {nextDone};
      stopped := true;
    }

    /** One turn of the loop with the event the select picks; an event that is not enabled is not picked, and after a
        shutdown there are no more turns. */
    method Turn(e: Event)
      requires Valid()
      modifies this
      ensures Valid() && (stopped <==> old(stopped) || e.Shutdown?)
      ensures old(runs) <= runs && old(resets) <= resets && old(tickets) <= tickets && old(closed) <= closed
      ensures resets == if e.Reset? && !old(stopped) then old(resets) + [e.request] else old(resets)
      ensures old(stopped) ==> runs == old(runs) && tickets == old(tickets) && closed == old(closed)
    {
      if stopped {
        return;
      }
      Launch();
      match e
      case Reset(request) =>
        var done := OnReset(request);
      case Promote(accounts) =>
        var done := OnPromote(accounts);
      case TxEvent(tx) =>
        OnTxEvent(tx);
      case RunEnds =>
        if curDone.Some? {
          RunEnds();
        }
      case RunSeen =>
        if curDone.Some? && curDone.value in closed {
          OnRunSeen();
        }
      case Shutdown =>
        OnShutdown();
    }

    lemma OneInFlight(i: int, j: int)
      requires Valid() && InFlight(runs, closed, i) && InFlight(runs, closed, j)
      ensures i == j
    {
      assert i < |runs| - 1 ==> i in closed;
      assert j < |runs| - 1 ==> j in closed;
    }

    /** A channel handed to a caller is closed by a run launched after the request that covers it, and only so, except
        that a shutdown closes the channel of the run that will never start. */
    lemma ClosedMeansServed(i: nat)
      requires Valid() && i < |tickets| && tickets[i].done in closed
      ensures Honoured(tickets[i], runs) <==> !(stopped && tickets[i].done == |runs|)
      ensures Honoured(tickets[i], runs) && tickets[i].request.ForReset? ==> runs[tickets[i].done].reset.Some?
    {
      assert Honoured(tickets[i], runs + [Upcoming()]);
      if tickets[i].done < |runs| {
        assert runs[tickets[i].done] == (runs + [Upcoming()])[tickets[i].done];
      }
    }

    /** A shutdown leaves nobody waiting. */
    lemma NobodyWaits(i: nat)
      requires Valid() && stopped && i < |tickets|
      ensures tickets[i].done in closed
    {
      assert Honoured(tickets[i], runs + [Upcoming()]);
    }

    /** If the requests are linked, each reset run starts from the head the reset run before it ended at. */
    lemma ResetRunsLink(i: int, j: int)
      requires Valid() && Linked(resets) && ResetsInTurn(runs, i, j)
      ensures runs[i].reset.value.newHead == runs[j].reset.value.oldHead
    {
      IdleBetween(i, j);
    }

    /** What every schedule of linked requests comes to. */
    lemma RunsChain(head: HeadHash)
      requires Valid() && Linked(resets) && (resets != [] ==> resets[0].oldHead == head)
      ensures forall i, j :: InFlight(runs, closed, i) && InFlight(runs, closed, j) ==> i == j
      ensures forall i :: 0 <= i < |tickets| && tickets[i].done in closed ==>
        (Honoured(tickets[i], runs) <==> !(stopped && tickets[i].done == |runs|))
      ensures stopped ==> forall i :: 0 <= i < |tickets| ==> tickets[i].done in closed
      ensures forall i, j :: ResetsInTurn(runs, i, j) ==> runs[i].reset.value.newHead == runs[j].reset.value.oldHead
      ensures forall i :: FirstReset(runs, i) ==> runs[i].reset.value.oldHead == head
    {
      forall i, j | InFlight(runs, closed, i) && InFlight(runs, closed, j)
        ensures i == j
      {
        OneInFlight(i, j);
      }
      forall i | 0 <= i < |tickets| && tickets[i].done in closed
        ensures Honoured(tickets[i], runs) <==> !(stopped && tickets[i].done == |runs|)
      {
        ClosedMeansServed(i);
      }
      forall i | stopped && 0 <= i < |tickets|
        ensures tickets[i].done in closed
      {
        NobodyWaits(i);
      }
      forall i, j | ResetsInTurn(runs, i, j)
        ensures runs[i].reset.value.newHead == runs[j].reset.value.oldHead
      {
        ResetRunsLink(i, j);
      }
      forall i | FirstReset(runs, i)
        ensures runs[i].reset.value.oldHead == head
      {
        IdleBefore(i);
        assert Merges(runs[i], resets);
      }
    }

    lemma {:induction false} IdleBefore(j: nat)
      requires Valid() && j < |runs| && forall k :: 0 <= k < j ==> runs[k].reset.None?
      ensures runs[j].lo == 0
      decreases j
    {
      assert TakesUp(runs, j);
      if j > 0 {
        assert runs[..j][j - 1] == runs[j - 1];
        IdleBefore(j - 1);
        assert Merges(runs[j - 1], resets);
      }
    }

    lemma {:induction false} IdleBetween(i: nat, j: nat)
      requires Valid() && i < j < |runs|
      requires forall k :: i < k < j ==> runs[k].reset.None?
      ensures runs[i].hi == runs[j].lo
      decreases j
    {
      assert TakesUp(runs, j) && runs[..j][j - 1] == runs[j - 1];
      if i < j - 1 {
        IdleBetween(i, j - 1);
        assert Merges(runs[j - 1], resets);
      }
    }
  }

  ghost predicate InFlight(runs: seq<Run>, closed: set<Channel>, i: int) {
    0 <= i < |runs| && runs[i].done !in closed
  }

  /** Run `i` resets the pool and none before it does. */
  ghost predicate FirstReset(runs: seq<Run>, i: int) {
    0 <= i < |runs| && runs[i].reset.Some? && forall k :: 0 <= k < i ==> runs[k].reset.None?
  }

  /** Runs `i` and `j` reset the pool and none between them does. */
  ghost predicate ResetsInTurn(runs: seq<Run>, i: int, j: int) {
    && 0 <= i < j < |runs| && runs[i].reset.Some? && runs[j].reset.Some?
    && forall k :: i < k < j ==> runs[k].reset.None?
  }

  /** A request made while a run is active, and then the shutdown: the channel of the request is closed, and no run has
      served it. */
  method ShutdownRun(first: set<Addr>, second: set<Addr>) returns (s: Scheduler)
    ensures s.Valid() && s.stopped && |s.tickets| == 2 && s.tickets[1].request == ForAccounts(second)
    ensures s.tickets[1].done in s.closed && !Honoured(s.tickets[1], s.runs)
  {
    s := new Scheduler();
    assert s.curDone == None;
    var done := s.OnPromote(first);
    s.Launch();
    done := s.OnPromote(second);
    s.Launch();
    assert Honoured(s.tickets[1], s.runs + [s.Upcoming()]);
    s.OnShutdown();
    s.ClosedMeansServed(1);
  }

  /** What reaches the pool: a chain head event, which may carry no block, or one of the scheduler's other events. */
  datatype Happening = ChainHead(block: Option<HeadHash>) | Other(event: Event)

  predicate Stops(schedule: seq<Happening>) {
    Other(Shutdown) in schedule
  }

  /** The head that the pool's loop remembers after the happenings; it hears nothing after a shutdown. */
  function HeadAfter(head: HeadHash, schedule: seq<Happening>): HeadHash {
    if schedule == [] then head else
      var h := schedule[|schedule| - 1];
      if h.ChainHead? && h.block.Some? && !Stops(schedule) then h.block.value
      else HeadAfter(head, schedule[..|schedule| - 1])
  }

  /** The reset requests the pool's loop makes: one for each chain head event with a block, from the head before. */
  function RequestsOf(head: HeadHash, schedule: seq<Happening>): seq<ResetRequest> {
    if schedule == [] then [] else
      var (before, h) := (schedule[..|schedule| - 1], schedule[|schedule| - 1]);
      RequestsOf(head, before)
        + if h.ChainHead? && h.block.Some? && !Stops(schedule) then
            [ResetRequest(HeadAfter(head, before), h.block.value)]
          else []
  }

  /** Every request continues from where the one before it ended, the first from the initial head. */
  lemma {:induction false} RequestsLink(head: HeadHash, schedule: seq<Happening>)
    ensures var rs := RequestsOf(head, schedule);
      && Linked(rs)
      && (if rs == [] then HeadAfter(head, schedule) == head
          else rs[0].oldHead == head && rs[|rs| - 1].newHead == HeadAfter(head, schedule))
  {
    if schedule != [] {
      RequestsLink(head, schedule[..|schedule| - 1]);
    }
  }

  /** What one more happening adds. */
  lemma HearOne(head: HeadHash, schedule: seq<Happening>, n: nat)
    requires n < |schedule|
    ensures var (before, now, h) := (schedule[..n], schedule[..n + 1], schedule[n]);
      && (Stops(now) <==> Stops(before) || h == Other(Shutdown))
      && var heard := h.ChainHead? && h.block.Some? && !Stops(before);
      && HeadAfter(head, now) == (if heard then h.block.value else HeadAfter(head, before))
      && RequestsOf(head, now) == RequestsOf(head, before)
                                  + if heard then [ResetRequest(HeadAfter(head, before), h.block.value)] else []
  {
    assert schedule[..n + 1][..n] == schedule[..n] && schedule[..n + 1] == schedule[..n] + [schedule[n]];
  }

  /** The pool's loop over any interleaving of chain heads, requests and run completions. There is never more than one
      run in flight; a channel handed out is closed only by a run that serves its request or, if that run will never
      start, by the shutdown, which leaves nobody waiting; and the reset runs form one chain of heads, from the initial
      one on. */
  method Loop(head0: HeadHash, schedule: seq<Happening>) returns (s: Scheduler)
    requires forall n :: 0 <= n < |schedule| && schedule[n].Other? ==> !schedule[n].event.Reset?
    ensures s.Valid() && s.resets == RequestsOf(head0, schedule) && (s.stopped <==> Stops(schedule))
    ensures forall i, j :: InFlight(s.runs, s.closed, i) && InFlight(s.runs, s.closed, j) ==> i == j
    ensures forall i :: 0 <= i < |s.tickets| && s.tickets[i].done in s.closed ==>
      (Honoured(s.tickets[i], s.runs) <==> !(s.stopped && s.tickets[i].done == |s.runs|))
    ensures s.stopped ==> forall i :: 0 <= i < |s.tickets| ==> s.tickets[i].done in s.closed
    ensures forall i, j :: ResetsInTurn(s.runs, i, j) ==> s.runs[i].reset.value.newHead == s.runs[j].reset.value.oldHead
    ensures forall i :: FirstReset(s.runs, i) ==> s.runs[i].reset.value.oldHead == head0
  {
    s := new Scheduler();
    var head := head0;
    for n := 0 to |schedule|
      invariant fresh(s) && s.Valid() && s.resets == RequestsOf(head0, schedule[..n])
      invariant head == HeadAfter(head0, schedule[..n]) && (s.stopped <==> Stops(schedule[..n]))
    {
      HearOne(head0, schedule, n);
      match schedule[n]
      case ChainHead(block) =>
        if block.Some? && !s.stopped {
          s.Turn(Reset(ResetRequest(head, block.value)));
          head := block.value;
        }
      case Other(event) =>
        s.Turn(event);
    }
    assert schedule[..|schedule|] == schedule;
    RequestsLink(head0, schedule);
    s.RunsChain(head0);
  }
}
