/** Adding a batch of transactions, turn by turn, as values: what one turn does to any pool and what the turns come
    to. */
module PoolTurns {
  import opened Options
  import opened Transactions
  import opened TxLists
  import opened PoolViews
  import opened PoolChanges
  import opened PricedLists

  /** What one transaction offered to the pool comes to: its outcome, what was dropped for it, what it outbid, and the
      views and local accounts after it. */
  datatype Turn = Turn(outcome: Outcome, dropped: set<Tx>, outbid: Option<Tx>, after: View, locals: set<Addr>)

  function LimitOf(config: Config): nat {
    config.globalSlots + config.globalQueue
  }

  /** Every remote transaction is at least as expensive as `tx`, and there is one. */
  ghost predicate CheapestOf(remotes: set<Tx>, tx: Tx) {
    remotes != {} && forall t :: t in remotes ==> tx.price <= t.price
  }

  /** What a pool drops for a valid newcomer, or why it turns it away: nothing is dropped while there is room,
      otherwise the cheapest remote transactions and no more of them than needed. */
  ghost predicate RoomFor(u: View, err: Option<Error>, dropped: set<Tx>, tx: Tx, isLocal: bool, gasPriceOn: bool,
                          limit: nat) {
    var excess := SlotsOf(u.txs) - limit + NumSlots(tx);
    if |u.txs| + NumSlots(tx) <= limit then dropped == {} && err.None?
    else if gasPriceOn && !isLocal && CheapestOf(u.remotes, tx) then dropped == {} && err == Some(Error.Underpriced)
    else
      && CheapestFirst(u.remotes, dropped) && (dropped != {} ==> Minimal(dropped, excess))
      && (err.Some? ==> err == Some(PoolOverflow) && dropped == {} && !isLocal && SlotsOf(u.remotes) < excess)
      && (dropped == {} ==> err.Some? || isLocal)
  }

  /** One turn: a known or invalid transaction changes nothing; a valid one may have others dropped for it, and then
      replaces the transaction with its nonce, enters the queue, or is refused. */
  ghost predicate TurnAs(u: View, t: Turn, tx: Tx, local: bool, rules: Rules, checks: Checks, config: Config) {
    var w, isLocal := t.after, local || tx.from in rules.locals;
    var invalid := Validate(tx, isLocal, rules, checks);
    && Consistent(w.pending, w.queue, w.txs) && w.remotes <= w.txs && Backed(u, w)
    && (if tx in u.txs then t.outcome == Refused(AlreadyKnown) && t.dropped == {}
        else if invalid.Some? then t.outcome == Refused(invalid.value) && t.dropped == {}
        else RoomFor(u, NoRoom(t.outcome), t.dropped, tx, isLocal, rules.gasPriceOn, LimitOf(config)))
    && Joined(u.txs - t.dropped, u.remotes - t.dropped, w.txs, w.remotes, tx, isLocal, t.outbid, rules.locals, t.locals,
              config.priceBump, t.outcome)
    && (t.locals == rules.locals || (t.outcome.Accepted? && local && t.locals == rules.locals + {tx.from}))
    && (t.dropped == {} && tx !in u.txs && invalid.None? && NoRoom(t.outcome).None? ==>
          t.outcome == Verdict(u.pending, u.queue, tx, config.priceBump))
    && (t.dropped == {} ==>
          if t.outcome.Accepted? then PlacedAs(u.pending, u.queue, w.pending, w.queue, tx)
          else w.pending == u.pending && w.queue == u.queue)
  }

  ghost function ViewAfter(v: View, turns: seq<Turn>): View {
    if turns == [] then v else turns[|turns| - 1].after
  }

  ghost function RulesAfter(rules: Rules, turns: seq<Turn>): Rules {
    if turns == [] then rules else rules.(locals := turns[|turns| - 1].locals)
  }

  /** The turns of a batch, each taken from where the one before it ended. */
  ghost predicate Turns(v: View, turns: seq<Turn>, txs: seq<Tx>, local: bool, rules: Rules, checks: Tx -> Checks,
                        config: Config) {
    && |turns| == |txs|
    && forall i {:trigger TurnAt(v, turns, txs, i, local, rules, checks, config)} ::
         0 <= i < |turns| ==> TurnAt(v, turns, txs, i, local, rules, checks, config)
  }

  ghost predicate TurnAt(v: View, turns: seq<Turn>, txs: seq<Tx>, i: nat, local: bool, rules: Rules,
                         checks: Tx -> Checks, config: Config)
    requires i < |turns| == |txs|
  {
    TurnAs(ViewAfter(v, turns[..i]), turns[i], txs[i], local, RulesAfter(rules, turns[..i]), checks(txs[i]), config)
  }

  /** The last turn and those before it. */
  lemma LastTurn(v: View, turns: seq<Turn>, txs: seq<Tx>, local: bool, rules: Rules, checks: Tx -> Checks,
                 config: Config)
    requires Turns(v, turns, txs, local, rules, checks, config) && turns != []
    ensures var n := |turns| - 1;
      && Turns(v, turns[..n], txs[..n], local, rules, checks, config)
      && TurnAs(ViewAfter(v, turns[..n]), turns[n], txs[n], local, RulesAfter(rules, turns[..n]), checks(txs[n]),
                config)
  {
    var n := |turns| - 1;
    forall i | 0 <= i < n
      ensures TurnAt(v, turns[..n], txs[..n], i, local, rules, checks, config)
    {
      assert TurnAt(v, turns, txs, i, local, rules, checks, config) && turns[..n][..i] == turns[..i];
    }
    assert TurnAt(v, turns, txs, n, local, rules, checks, config);
  }

  lemma OneMoreTurn(v: View, turns: seq<Turn>, txs: seq<Tx>, i: nat, u: View, t: Turn, local: bool, rules: Rules,
                    now: Rules, checks: Tx -> Checks, config: Config)
    requires i < |txs| && Turns(v, turns, txs[..i], local, rules, checks, config)
    requires u == ViewAfter(v, turns) && now == RulesAfter(rules, turns)
    requires TurnAs(u, t, txs[i], local, now, checks(txs[i]), config)
    ensures Turns(v, turns + [t], txs[..i + 1], local, rules, checks, config)
    ensures ViewAfter(v, turns + [t]) == t.after && RulesAfter(rules, turns + [t]) == rules.(locals := t.locals)
    ensures OutcomesOf(turns + [t]) == OutcomesOf(turns) + [t.outcome]
  {
    var more, now := turns + [t], txs[..i + 1];
    forall k | 0 <= k <= i
      ensures TurnAt(v, more, now, k, local, rules, checks, config)
    {
      assert more[..k] == turns[..k];
      if k < i {
        assert TurnAt(v, turns, txs[..i], k, local, rules, checks, config);
      } else {
        assert turns[..k] == turns;
      }
    }
    assert more[..i] == turns;
  }

  /** A virtual nonce falls only with a transaction that leaves pending. */
  lemma {:induction false} TurnsBack(v: View, turns: seq<Turn>, txs: seq<Tx>, local: bool, rules: Rules,
                                     checks: Tx -> Checks, config: Config)
    requires Turns(v, turns, txs, local, rules, checks, config) && Backed(v, v)
    ensures Backed(v, ViewAfter(v, turns))
  {
    if turns != [] {
      var n := |turns| - 1;
      LastTurn(v, turns, txs, local, rules, checks, config);
      TurnsBack(v, turns[..n], txs[..n], local, rules, checks, config);
      BackedAgain(v, ViewAfter(v, turns[..n]), turns[n].after);
    }
  }

  /** What is in the pool after a batch was there before, of the same kind, or has been added and is remote if and
      only if its sender is not local. */
  ghost predicate SplitAs(txs0: set<Tx>, remotes0: set<Tx>, added: set<Tx>, locals: set<Addr>, txs: set<Tx>,
                          remotes: set<Tx>) {
    forall t :: t in txs ==> SplitAt(txs0, remotes0, added, locals, remotes, t)
  }

  ghost predicate SplitAt(txs0: set<Tx>, remotes0: set<Tx>, added: set<Tx>, locals: set<Addr>, remotes: set<Tx>,
                          t: Tx) {
    || (t in txs0 && (t in remotes <==> t in remotes0))
    || (t in added && (t in remotes <==> t.from !in locals))
  }

  lemma NoneSplit(v: View, added: set<Tx>, locals: set<Addr>)
    ensures SplitAs(v.txs, v.remotes, added, locals, v.txs, v.remotes)
  {
    forall t | t in v.txs
      ensures SplitAt(v.txs, v.remotes, added, locals, v.remotes, t)
    {
    }
  }

  lemma TurnSplits(u: View, t: Turn, tx: Tx, rules: Rules, checks: Checks, config: Config)
    requires TurnAs(u, t, tx, false, rules, checks, config) && u.remotes <= u.txs
    ensures t.locals == rules.locals
    ensures SplitAs(u.txs, u.remotes, {tx}, rules.locals, t.after.txs, t.after.remotes)
  {
    forall x | x in t.after.txs
      ensures SplitAt(u.txs, u.remotes, {tx}, rules.locals, t.after.remotes, x)
    {
      if x != tx {
        assert x in u.txs;
      }
    }
  }

  lemma SplitAgain(txs0: set<Tx>, remotes0: set<Tx>, added: set<Tx>, txs1: set<Tx>, remotes1: set<Tx>, more: set<Tx>,
                   locals: set<Addr>, txs: set<Tx>, remotes: set<Tx>)
    requires SplitAs(txs0, remotes0, added, locals, txs1, remotes1)
    requires SplitAs(txs1, remotes1, more, locals, txs, remotes)
    ensures SplitAs(txs0, remotes0, added + more, locals, txs, remotes)
  {
    forall t | t in txs
      ensures SplitAt(txs0, remotes0, added + more, locals, remotes, t)
    {
      assert SplitAt(txs1, remotes1, more, locals, remotes, t);
      assert t in txs1 ==> SplitAt(txs0, remotes0, added, locals, remotes1, t);
    }
  }

  lemma {:induction false} TurnsSplit(v: View, turns: seq<Turn>, txs: seq<Tx>, rules: Rules, checks: Tx -> Checks,
                                      config: Config)
    requires Turns(v, turns, txs, false, rules, checks, config) && v.remotes <= v.txs
    ensures RulesAfter(rules, turns) == rules
    ensures var w := ViewAfter(v, turns);
      SplitAs(v.txs, v.remotes, AsSet(txs), rules.locals, w.txs, w.remotes) && w.remotes <= w.txs
  {
    if turns != [] {
      var n := |turns| - 1;
      LastTurn(v, turns, txs, false, rules, checks, config);
      TurnsSplit(v, turns[..n], txs[..n], rules, checks, config);
      var u, w := ViewAfter(v, turns[..n]), turns[n].after;
      assert txs == txs[..n] + [txs[n]];
      assert AsSet(txs) == AsSet(txs[..n]) + {txs[n]};
      TurnSplits(u, turns[n], txs[n], rules, checks(txs[n]), config);
      SplitAgain(v.txs, v.remotes, AsSet(txs[..n]), u.txs, u.remotes, {txs[n]}, rules.locals, w.txs, w.remotes);
    }
  }

  /** The lists once `tx` has been added to a pool with room. */
  ghost function TakenIn(p: Accounts, q: Accounts, tx: Tx, valid: bool, bump: nat): (Accounts, Accounts) {
    var a := tx.from;
    if Holds(ItemsOf(p, a), tx) || Holds(ItemsOf(q, a), tx) || !valid || Verdict(p, q, tx, bump).Refused? then (p, q)
    else if tx.nonce in ItemsOf(p, a) then (p[a := Added(p[a], tx)], q)
    else (p, q[a := Added(ListOf(q, a, false), tx)])
  }

  ghost function TakenAll(p: Accounts, q: Accounts, txs: seq<Tx>, rules: Rules, checks: Tx -> Checks, bump: nat)
    : (Accounts, Accounts)
  {
    if txs == [] then (p, q) else
      var (before, tx) := (txs[..|txs| - 1], txs[|txs| - 1]);
      var (p', q') := TakenAll(p, q, before, rules, checks, bump);
      TakenIn(p', q', tx, Validate(tx, tx.from in rules.locals, rules, checks(tx)).None?, bump)
  }

  /** What add does to a pool with room, in terms of its outcome. */
  lemma TakenStep(p: Accounts, q: Accounts, txs: set<Tx>, p': Accounts, q': Accounts, tx: Tx, valid: bool, bump: nat,
                  r: Outcome)
    requires Consistent(p, q, txs)
    requires r == if tx in txs then Refused(AlreadyKnown) else if valid then Verdict(p, q, tx, bump) else r
    requires !valid && tx !in txs ==> r.Refused?
    requires if r.Accepted? then PlacedAs(p, q, p', q', tx) else p' == p && q' == q
    ensures (p', q') == TakenIn(p, q, tx, valid, bump)
  {
    OwnLists(p, q, txs, tx.from);
  }

  /** There is room for `txs` in a pool of `n` transactions, whatever becomes of those before. */
  ghost predicate HasRoom(n: nat, txs: seq<Tx>, config: Config) {
    forall i :: RoomAt(n, txs, config, i)
  }

  ghost predicate RoomAt(n: nat, txs: seq<Tx>, config: Config, i: int) {
    0 <= i < |txs| ==> n + i + NumSlots(txs[i]) <= LimitOf(config)
  }

  /** With room for all of a batch, the valid ones are added one by one. */
  lemma {:induction false} TurnsTake(v: View, turns: seq<Turn>, txs: seq<Tx>, rules: Rules, checks: Tx -> Checks,
                                     config: Config)
    requires Turns(v, turns, txs, false, rules, checks, config) && HasRoom(|v.txs|, txs, config)
    requires Consistent(v.pending, v.queue, v.txs) && v.remotes <= v.txs
    ensures var w := ViewAfter(v, turns);
      && |w.txs| <= |v.txs| + |txs| && Consistent(w.pending, w.queue, w.txs)
      && (w.pending, w.queue) == TakenAll(v.pending, v.queue, txs, rules, checks, config.priceBump)
  {
    if turns != [] {
      var n := |turns| - 1;
      LastTurn(v, turns, txs, false, rules, checks, config);
      forall i
        ensures RoomAt(|v.txs|, txs[..n], config, i)
      {
        assert RoomAt(|v.txs|, txs, config, i);
      }
      TurnsTake(v, turns[..n], txs[..n], rules, checks, config);
      TurnsSplit(v, turns[..n], txs[..n], rules, checks, config);
      assert RoomAt(|v.txs|, txs, config, n);
      TurnTakes(ViewAfter(v, turns[..n]), turns[n], txs[n], rules, checks(txs[n]), config);
    }
  }

  lemma TurnTakes(u: View, t: Turn, tx: Tx, rules: Rules, checks: Checks, config: Config)
    requires TurnAs(u, t, tx, false, rules, checks, config) && Consistent(u.pending, u.queue, u.txs)
    requires |u.txs| + NumSlots(tx) <= LimitOf(config)
    ensures var valid := Validate(tx, tx.from in rules.locals, rules, checks).None?;
      (t.after.pending, t.after.queue) == TakenIn(u.pending, u.queue, tx, valid, config.priceBump)
    ensures |t.after.txs| <= |u.txs| + 1
  {
    var valid := Validate(tx, tx.from in rules.locals, rules, checks).None?;
    TakenStep(u.pending, u.queue, u.txs, t.after.pending, t.after.queue, tx, valid, config.priceBump, t.outcome);
    SubsetSize(t.after.txs, u.txs + {tx});
  }

  ghost function OutcomesOf(turns: seq<Turn>): (r: seq<Outcome>)
    ensures |r| == |turns|
  {
    if turns == [] then [] else OutcomesOf(turns[..|turns| - 1]) + [turns[|turns| - 1].outcome]
  }

  /** The senders of what was accepted without replacing anything. */
  ghost function DirtyOf(txs: seq<Tx>, outcomes: seq<Outcome>): set<Addr>
    requires |txs| == |outcomes|
  {
    if txs == [] then {} else
      var n := |txs| - 1;
      DirtyOf(txs[..n], outcomes[..n]) + if outcomes[n] == Accepted(false) then {txs[n].from} else {}
  }

  ghost function AcceptedOf(txs: seq<Tx>, outcomes: seq<Outcome>): set<Tx>
    requires |txs| == |outcomes|
  {
    if txs == [] then {} else
      var n := |txs| - 1;
      AcceptedOf(txs[..n], outcomes[..n]) + if outcomes[n].Accepted? then {txs[n]} else {}
  }

  lemma {:induction false} OutcomesMean(txs: seq<Tx>, outcomes: seq<Outcome>)
    requires |txs| == |outcomes|
    ensures DirtyOf(txs, outcomes) == set i | 0 <= i < |txs| && outcomes[i] == Accepted(false) :: txs[i].from
    ensures AcceptedOf(txs, outcomes) == set i | 0 <= i < |txs| && outcomes[i].Accepted? :: txs[i]
  {
    if txs != [] {
      var n := |txs| - 1;
      OutcomesMean(txs[..n], outcomes[..n]);
      assert forall j :: 0 <= j < n ==> txs[..n][j] == txs[j] && outcomes[..n][j] == outcomes[j];
    }
  }

  lemma OneMoreOutcome(txs: seq<Tx>, outcomes: seq<Outcome>, i: nat, r: Outcome)
    requires |outcomes| == i < |txs|
    ensures DirtyOf(txs[..i + 1], outcomes + [r])
         == DirtyOf(txs[..i], outcomes) + if r == Accepted(false) then {txs[i].from} else {}
    ensures AcceptedOf(txs[..i + 1], outcomes + [r])
         == AcceptedOf(txs[..i], outcomes) + if r.Accepted? then {txs[i]} else {}
  {
    assert txs[..i + 1][..i] == txs[..i] && (outcomes + [r])[..i] == outcomes;
  }

  /** Nothing enters but what was accepted. */
  lemma {:induction false} TurnsAccept(v: View, turns: seq<Turn>, txs: seq<Tx>, local: bool, rules: Rules,
                                       checks: Tx -> Checks, config: Config)
    requires Turns(v, turns, txs, local, rules, checks, config)
    ensures |turns| == |txs| && ViewAfter(v, turns).txs <= v.txs + AcceptedOf(txs, OutcomesOf(turns))
  {
    if turns != [] {
      var n := |turns| - 1;
      LastTurn(v, turns, txs, local, rules, checks, config);
      TurnsAccept(v, turns[..n], txs[..n], local, rules, checks, config);
      assert OutcomesOf(turns)[..n] == OutcomesOf(turns[..n]);
    }
  }

  /** A later turn than the one before `i` removes `x`, for lack of room or by outbidding it. */
  ghost predicate TakenFrom(turns: seq<Turn>, i: nat, x: Tx) {
    exists j :: i <= j < |turns| && Takes(turns[j], x)
  }

  ghost predicate Takes(t: Turn, x: Tx) {
    x in t.dropped || t.outbid == Some(x)
  }

  /** The transaction of turn `i` is refused, in the pool at the end, or taken at a later turn. */
  ghost predicate Remains(turns: seq<Turn>, txs: seq<Tx>, after: View, i: nat)
    requires i < |turns| == |txs|
  {
    turns[i].outcome.Refused? || txs[i] in after.txs || TakenFrom(turns, i + 1, txs[i])
  }

  lemma RemainsLater(turns: seq<Turn>, txs: seq<Tx>, i: nat, u: View)
    requires i < |turns| - 1 && |turns| == |txs|
    requires u.txs - turns[|turns| - 1].dropped - AsSingleton(turns[|turns| - 1].outbid) <= turns[|turns| - 1].after.txs
    requires Remains(turns[..|turns| - 1], txs[..|turns| - 1], u, i)
    ensures Remains(turns, txs, turns[|turns| - 1].after, i)
  {
    var n, x := |turns| - 1, txs[i];
    if TakenFrom(turns[..n], i + 1, x) {
      var j :| i + 1 <= j < n && Takes(turns[..n][j], x);
      assert Takes(turns[j], x);
    } else if x in u.txs && x !in turns[n].after.txs {
      assert Takes(turns[n], x);
    }
  }

  /** Nothing that a batch brings disappears silently. */
  lemma {:induction false} TurnsKeep(v: View, turns: seq<Turn>, txs: seq<Tx>, local: bool, rules: Rules,
                                     checks: Tx -> Checks, config: Config)
    requires Turns(v, turns, txs, local, rules, checks, config)
    ensures |turns| == |txs| && forall i :: 0 <= i < |turns| ==> Remains(turns, txs, ViewAfter(v, turns), i)
  {
    if turns != [] {
      var n := |turns| - 1;
      LastTurn(v, turns, txs, local, rules, checks, config);
      TurnsKeep(v, turns[..n], txs[..n], local, rules, checks, config);
      var u := ViewAfter(v, turns[..n]);
      forall i | 0 <= i < n
        ensures Remains(turns, txs, turns[n].after, i)
      {
        assert Remains(turns[..n], txs[..n], u, i);
        RemainsLater(turns, txs, i, u);
      }
    }
  }
}
