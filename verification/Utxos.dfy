/** The unspent-output database of the Python node and what a transaction does to it. */
module Utxos {
  import opened Options

  const REWARD := 5_000_000_000

  /** Transaction ids and public-key hashes share one key space. */
  type Key = nat

  datatype Coin = Coin(tx: Key, number: nat, value: int)

  /** What a key maps to: a mark left by a coinbase transaction, or the coins of a public key. */
  datatype Entry = Marker | Coins(coins: seq<Coin>)

  type Database = map<Key, Entry>

  /** `owner` is the hash of the public key given, `signed` whether the signature is right. */
  datatype Input = Input(parent: Key, number: int, owner: Key, signed: bool)

  datatype Output = Output(value: int, owner: Key)

  /** `hashMatches` says whether the id is the hash of the transaction. */
  datatype Payment = Payment(id: Key, hashMatches: bool, coinbase: bool, inputs: seq<Input>, outputs: seq<Output>)

  datatype Spent = Spent(db: Database, total: int)

  /** The place of the first coin an input refers to, or the number of coins. */
  function Find(coins: seq<Coin>, inp: Input, from: nat): (i: nat)
    requires from <= |coins|
    ensures from <= i <= |coins|
    ensures i < |coins| ==> coins[i].tx == inp.parent && coins[i].number == inp.number
    ensures forall j :: from <= j < i ==> !(coins[j].tx == inp.parent && coins[j].number == inp.number)
    decreases |coins| - from
  {
    if from == |coins| || (coins[from].tx == inp.parent && coins[from].number == inp.number) then from
    else Find(coins, inp, from + 1)
  }

  function CoinsOf(db: Database, k: Key): seq<Coin> {
    if k in db && db[k].Coins? then db[k].coins else []
  }

  function Without(coins: seq<Coin>, i: nat): seq<Coin>
    requires i < |coins|
  {
    coins[..i] + coins[i + 1..]
  }

  /** Takes the coin of one input out of the database. */
  function SpendOne(s: Spent, inp: Input): Option<Spent> {
    var coins := CoinsOf(s.db, inp.owner);
    var i := Find(coins, inp, 0);
    if inp.signed && i < |coins| then
      Some(Spent(s.db[inp.owner := Coins(Without(coins, i))], s.total + coins[i].value))
    else None
  }

  function SpendAll(s: Spent, inputs: seq<Input>): Option<Spent>
    decreases |inputs|
  {
    if inputs == [] then Some(s) else
      match SpendOne(s, inputs[0])
      case None => None
      case Some(next) => SpendAll(next, inputs[1..])
  }

  function Credited(db: Database, id: Key, number: nat, out: Output): Database {
    db[out.owner := Coins(CoinsOf(db, out.owner) + [Coin(id, number, out.value)])]
  }

  /** Adds the outputs from number `from` on. */
  function CreditAll(db: Database, id: Key, outputs: seq<Output>, from: nat): Database
    requires from <= |outputs|
    decreases |outputs| - from
  {
    if from == |outputs| then db else CreditAll(Credited(db, id, from, outputs[from]), id, outputs, from + 1)
  }

  function SumOf(outputs: seq<Output>): int {
    if outputs == [] then 0 else SumOf(outputs[..|outputs| - 1]) + outputs[|outputs| - 1].value
  }

  function Funds(db: Database, tx: Payment): Spent {
    if tx.coinbase then Spent(db[tx.id := Marker], REWARD) else Spent(db, 0)
  }

  /** The inputs and signatures are in order, though more may be sent than received. */
  predicate Spendable(db: Database, tx: Payment) {
    tx.hashMatches && !(tx.coinbase && tx.id in db) && SpendAll(Funds(db, tx), tx.inputs).Some?
  }

  predicate IsMark(db: Database, k: Key) {
    k in db && db[k].Marker?
  }

  /** An output goes to a key that holds a mark, which raises an exception. */
  predicate Clashes(db: Database, outputs: seq<Output>) {
    exists n :: 0 <= n < |outputs| && IsMark(db, outputs[n].owner)
  }

  /** An input spends from a key that holds a mark, which raises an exception too. */
  predicate SpendRaises(s: Spent, inputs: seq<Input>)
    decreases |inputs|
  {
    inputs != [] &&
    if inputs[0].signed && IsMark(s.db, inputs[0].owner) then true
    else SpendOne(s, inputs[0]).Some? && SpendRaises(SpendOne(s, inputs[0]).value, inputs[1..])
  }

  /** Verification ends in an exception. */
  predicate Raises(db: Database, tx: Payment) {
    && tx.hashMatches && !(tx.coinbase && tx.id in db)
    && var r := SpendAll(Funds(db, tx), tx.inputs);
      SpendRaises(Funds(db, tx), tx.inputs) || (r.Some? && Clashes(r.value.db, tx.outputs))
  }

  /** The database after a valid transaction. */
  function Verified(db: Database, tx: Payment): Option<Database> {
    if !Spendable(db, tx) then None else
      var s := SpendAll(Funds(db, tx), tx.inputs).value;
      if Clashes(s.db, tx.outputs) || SumOf(tx.outputs) > s.total then None
      else Some(CreditAll(s.db, tx.id, tx.outputs, 0))
  }

  /** What raises an exception is not verified. */
  lemma {:induction false} RaisedIsNotSpent(s: Spent, inputs: seq<Input>)
    ensures SpendRaises(s, inputs) ==> SpendAll(s, inputs).None?
    decreases |inputs|
  {
    if inputs != [] && SpendOne(s, inputs[0]).Some? {
      RaisedIsNotSpent(SpendOne(s, inputs[0]).value, inputs[1..]);
    }
  }

  function Worth(coins: seq<Coin>): int {
    if coins == [] then 0 else Worth(coins[..|coins| - 1]) + coins[|coins| - 1].value
  }

  /** The value of all unspent coins. */
  ghost function TotalWorth(db: Database): int {
    if db.Keys == {} then 0 else
      var k :| k in db.Keys;
      assert db.Keys == (db - {k}).Keys + {k};
      Worth(CoinsOf(db, k)) + TotalWorth(db - {k})
  }

  lemma {:induction false} TotalSplits(db: Database, k: Key)
    requires k in db
    ensures TotalWorth(db) == Worth(CoinsOf(db, k)) + TotalWorth(db - {k})
    decreases |db|
  {
    var j :| j in db.Keys && TotalWorth(db) == Worth(CoinsOf(db, j)) + TotalWorth(db - {j});
    if j != k {
      assert db.Keys == (db - {j}).Keys + {j};
      assert db.Keys == (db - {k}).Keys + {k};
      TotalSplits(db - {j}, k);
      TotalSplits(db - {k}, j);
      assert CoinsOf(db - {j}, k) == CoinsOf(db, k) && CoinsOf(db - {k}, j) == CoinsOf(db, j);
      assert db - {j} - {k} == db - {k} - {j};
    }
  }

  lemma TotalUpdate(db: Database, k: Key, e: Entry)
    ensures TotalWorth(db[k := e]) == TotalWorth(db) - Worth(CoinsOf(db, k)) + (if e.Coins? then Worth(e.coins) else 0)
  {
    var db' := db[k := e];
    TotalSplits(db', k);
    if k in db {
      TotalSplits(db, k);
      assert db' - {k} == db - {k};
    } else {
      assert db' - {k} == db;
    }
  }

  lemma {:induction false} WorthWithout(coins: seq<Coin>, i: nat)
    requires i < |coins|
    ensures Worth(Without(coins, i)) == Worth(coins) - coins[i].value
  {
    var n := |coins| - 1;
    if i == n {
      assert Without(coins, i) == coins[..n];
    } else {
      WorthWithout(coins[..n], i);
      assert Without(coins, i)[..n - 1] == Without(coins[..n], i);
      assert Without(coins, i)[n - 1] == coins[n];
    }
  }

  lemma SpendMoves(s: Spent, inp: Input)
    ensures var r := SpendOne(s, inp);
      r.Some? ==> TotalWorth(r.value.db) + r.value.total == TotalWorth(s.db) + s.total
  {
    var coins := CoinsOf(s.db, inp.owner);
    var i := Find(coins, inp, 0);
    if i < |coins| {
      WorthWithout(coins, i);
      TotalUpdate(s.db, inp.owner, Coins(Without(coins, i)));
    }
  }

  /** What leaves the database is exactly what was received. */
  lemma {:induction false} SpendMovesAll(s: Spent, inputs: seq<Input>)
    ensures var r := SpendAll(s, inputs);
      r.Some? ==> TotalWorth(r.value.db) + r.value.total == TotalWorth(s.db) + s.total
    decreases |inputs|
  {
    if inputs != [] {
      SpendMoves(s, inputs[0]);
      if SpendOne(s, inputs[0]).Some? {
        SpendMovesAll(SpendOne(s, inputs[0]).value, inputs[1..]);
      }
    }
  }

  lemma CreditAdds(db: Database, id: Key, number: nat, out: Output)
    ensures TotalWorth(Credited(db, id, number, out)) == TotalWorth(db) + out.value
  {
    var coins := CoinsOf(db, out.owner);
    var more := coins + [Coin(id, number, out.value)];
    assert more[..|more| - 1] == coins;
    TotalUpdate(db, out.owner, Coins(more));
  }

  lemma {:induction false} CreditAddsAll(db: Database, id: Key, outputs: seq<Output>, from: nat)
    requires from <= |outputs|
    ensures TotalWorth(CreditAll(db, id, outputs, from)) + SumOf(outputs[..from]) == TotalWorth(db) + SumOf(outputs)
    decreases |outputs| - from
  {
    if from == |outputs| {
      assert outputs[..from] == outputs;
    } else {
      CreditAdds(db, id, from, outputs[from]);
      CreditAddsAll(Credited(db, id, from, outputs[from]), id, outputs, from + 1);
      assert outputs[..from + 1][..from] == outputs[..from];
    }
  }

  /** A valid transaction creates no value beyond the reward of a coinbase. */
  lemma Conservation(db: Database, tx: Payment)
    requires Verified(db, tx).Some?
    ensures TotalWorth(Verified(db, tx).value) <= TotalWorth(db) + if tx.coinbase then REWARD else 0
  {
    var s := Funds(db, tx);
    if tx.coinbase {
      TotalUpdate(db, tx.id, Marker);
    }
    SpendMovesAll(s, tx.inputs);
    CreditAddsAll(SpendAll(s, tx.inputs).value.db, tx.id, tx.outputs, 0);
    assert tx.outputs[..0] == [];
  }

  /** `now` has the same marks as `was`. */
  ghost predicate SameMarks(was: Database, now: Database) {
    forall k :: IsMark(now, k) <==> IsMark(was, k)
  }

  lemma {:induction false} SpendKeepsMarks(s: Spent, inputs: seq<Input>)
    ensures SpendAll(s, inputs).Some? ==> SameMarks(s.db, SpendAll(s, inputs).value.db)
    decreases |inputs|
  {
    if inputs != [] && SpendOne(s, inputs[0]).Some? {
      SpendKeepsMarks(SpendOne(s, inputs[0]).value, inputs[1..]);
    }
  }

  lemma {:induction false} CreditKeepsMarks(db: Database, id: Key, outputs: seq<Output>, from: nat)
    requires from <= |outputs| && !Clashes(db, outputs)
    ensures SameMarks(db, CreditAll(db, id, outputs, from))
    decreases |outputs| - from
  {
    if from < |outputs| {
      assert !IsMark(db, outputs[from].owner);
      var next := Credited(db, id, from, outputs[from]);
      assert SameMarks(db, next);
      CreditKeepsMarks(next, id, outputs, from + 1);
    }
  }

  /** A valid transaction leaves all marks and adds its own if it is a coinbase, which was not there before. */
  lemma MarksGrow(db: Database, tx: Payment)
    requires Verified(db, tx).Some?
    ensures forall k :: IsMark(Verified(db, tx).value, k) <==> IsMark(db, k) || (tx.coinbase && k == tx.id)
    ensures tx.coinbase ==> tx.id !in db
  {
    var s := Funds(db, tx);
    SpendKeepsMarks(s, tx.inputs);
    CreditKeepsMarks(SpendAll(s, tx.inputs).value.db, tx.id, tx.outputs, 0);
  }

  /** The database and the accepted transactions after a sequence of calls on an empty database. */
  datatype Ledger = Ledger(db: Database, accepted: seq<Payment>)

  function AfterAll(txs: seq<Payment>): Ledger {
    if txs == [] then Ledger(map[], []) else
      var l, tx := AfterAll(txs[..|txs| - 1]), txs[|txs| - 1];
      if Verified(l.db, tx).Some? then Ledger(Verified(l.db, tx).value, l.accepted + [tx]) else l
  }

  function Coinbases(txs: seq<Payment>): nat {
    if txs == [] then 0 else Coinbases(txs[..|txs| - 1]) + if txs[|txs| - 1].coinbase then 1 else 0
  }

  /** The unspent value never exceeds the rewards of the accepted coinbases. */
  lemma {:induction false} Supply(txs: seq<Payment>)
    ensures TotalWorth(AfterAll(txs).db) <= REWARD * Coinbases(AfterAll(txs).accepted)
  {
    if txs != [] {
      var l, tx := AfterAll(txs[..|txs| - 1]), txs[|txs| - 1];
      Supply(txs[..|txs| - 1]);
      if Verified(l.db, tx).Some? {
        Conservation(l.db, tx);
        assert (l.accepted + [tx])[..|l.accepted|] == l.accepted;
      }
    }
  }

  /** The mark of every accepted coinbase is in the database, and no two of them have the same id. */
  ghost predicate Marked(done: seq<Payment>, db: Database) {
    && (forall i :: 0 <= i < |done| ==> MarkedAt(done[i], db))
    && (forall i, j :: 0 <= i < j < |done| ==> Distinct(done[i], done[j]))
  }

  ghost predicate MarkedAt(tx: Payment, db: Database) {
    tx.coinbase ==> IsMark(db, tx.id)
  }

  ghost predicate Distinct(a: Payment, b: Payment) {
    a.coinbase && b.coinbase ==> a.id != b.id
  }

  lemma MarkOne(done: seq<Payment>, db: Database, tx: Payment)
    requires Verified(db, tx).Some? && Marked(done, db)
    ensures Marked(done + [tx], Verified(db, tx).value)
  {
    MarksGrow(db, tx);
    var all, now := done + [tx], Verified(db, tx).value;
    forall i | 0 <= i < |all|
      ensures MarkedAt(all[i], now)
    {
      assert i < |done| ==> MarkedAt(done[i], db);
    }
    forall i, j | 0 <= i < j < |all|
      ensures Distinct(all[i], all[j])
    {
      if j < |done| {
        assert Distinct(done[i], done[j]);
      } else {
        assert MarkedAt(done[i], db);
      }
    }
  }

  /** No coinbase id is accepted twice, whatever keys the transactions name. */
  lemma {:induction false} CoinbasesAreDistinct(txs: seq<Payment>)
    ensures Marked(AfterAll(txs).accepted, AfterAll(txs).db)
  {
    if txs != [] {
      var l, tx := AfterAll(txs[..|txs| - 1]), txs[|txs| - 1];
      CoinbasesAreDistinct(txs[..|txs| - 1]);
      if Verified(l.db, tx).Some? {
        MarkOne(l.accepted, l.db, tx);
      }
    }
  }

  /** With no negative outputs every single coin is within the supply. */
  lemma CoinWithinSupply(txs: seq<Payment>, k: Key, i: nat)
    requires forall j, o :: 0 <= j < |txs| && 0 <= o < |txs[j].outputs| ==> txs[j].outputs[o].value >= 0
    requires i < |CoinsOf(AfterAll(txs).db, k)|
    ensures 0 <= CoinsOf(AfterAll(txs).db, k)[i].value <= REWARD * Coinbases(AfterAll(txs).accepted)
  {
    var db := AfterAll(txs).db;
    Supply(txs);
    RunIsNonNegative(txs);
    TotalSplits(db, k);
    assert NoDebt(CoinsOf(db, k));
    WorthBounds(CoinsOf(db, k), i);
    RemoveStaysNonNegative(db, k);
    TotalIsNonNegative(db - {k});
  }

  ghost predicate NoDebt(coins: seq<Coin>) {
    forall i :: 0 <= i < |coins| ==> coins[i].value >= 0
  }

  ghost predicate NonNegative(db: Database) {
    forall k :: NoDebt(CoinsOf(db, k))
  }

  lemma WorthBounds(coins: seq<Coin>, i: nat)
    requires i < |coins| && NoDebt(coins)
    ensures coins[i].value <= Worth(coins)
  {
    WorthWithout(coins, i);
    WorthIsNonNegative(Without(coins, i));
  }

  lemma {:induction false} WorthIsNonNegative(coins: seq<Coin>)
    requires NoDebt(coins)
    ensures Worth(coins) >= 0
  {
    if coins != [] {
      WorthIsNonNegative(coins[..|coins| - 1]);
    }
  }

  lemma RemoveStaysNonNegative(db: Database, k: Key)
    requires NonNegative(db)
    ensures NonNegative(db - {k})
  {
    var db' := db - {k};
    forall j
      ensures NoDebt(CoinsOf(db', j))
    {
      assert NoDebt(CoinsOf(db, j));
      assert CoinsOf(db', j) == if j == k then [] else CoinsOf(db, j);
    }
  }

  lemma UpdateStaysNonNegative(db: Database, k: Key, e: Entry)
    requires NonNegative(db) && (e.Coins? ==> NoDebt(e.coins))
    ensures NonNegative(db[k := e])
  {
    var db' := db[k := e];
    forall j
      ensures NoDebt(CoinsOf(db', j))
    {
      assert NoDebt(CoinsOf(db, j));
      assert j != k ==> CoinsOf(db', j) == CoinsOf(db, j);
    }
  }

  lemma {:induction false} TotalIsNonNegative(db: Database)
    requires NonNegative(db)
    ensures TotalWorth(db) >= 0
    decreases |db|
  {
    if k :| k in db.Keys {
      TotalSplits(db, k);
      assert db.Keys == (db - {k}).Keys + {k};
      RemoveStaysNonNegative(db, k);
      TotalIsNonNegative(db - {k});
      assert NoDebt(CoinsOf(db, k));
      WorthIsNonNegative(CoinsOf(db, k));
    }
  }

  lemma {:induction false} SpendStaysNonNegative(s: Spent, inputs: seq<Input>)
    requires NonNegative(s.db)
    ensures SpendAll(s, inputs).Some? ==> NonNegative(SpendAll(s, inputs).value.db)
    decreases |inputs|
  {
    if inputs != [] && SpendOne(s, inputs[0]).Some? {
      var next := SpendOne(s, inputs[0]).value;
      var coins := CoinsOf(s.db, inputs[0].owner);
      assert NoDebt(coins);
      UpdateStaysNonNegative(s.db, inputs[0].owner, Coins(Without(coins, Find(coins, inputs[0], 0))));
      SpendStaysNonNegative(next, inputs[1..]);
    }
  }

  lemma {:induction false} CreditStaysNonNegative(db: Database, id: Key, outputs: seq<Output>, from: nat)
    requires from <= |outputs| && NonNegative(db) && forall i :: 0 <= i < |outputs| ==> outputs[i].value >= 0
    ensures NonNegative(CreditAll(db, id, outputs, from))
    decreases |outputs| - from
  {
    if from < |outputs| {
      var next := Credited(db, id, from, outputs[from]);
      var coins := CoinsOf(db, outputs[from].owner);
      assert NoDebt(coins);
      UpdateStaysNonNegative(db, outputs[from].owner, Coins(coins + [Coin(id, from, outputs[from].value)]));
      CreditStaysNonNegative(next, id, outputs, from + 1);
    }
  }

  lemma {:induction false} RunIsNonNegative(txs: seq<Payment>)
    requires forall j, o :: 0 <= j < |txs| && 0 <= o < |txs[j].outputs| ==> txs[j].outputs[o].value >= 0
    ensures NonNegative(AfterAll(txs).db)
  {
    if txs != [] {
      var l, tx := AfterAll(txs[..|txs| - 1]), txs[|txs| - 1];
      RunIsNonNegative(txs[..|txs| - 1]);
      if Verified(l.db, tx).Some? {
        var s := Funds(l.db, tx);
        if tx.coinbase {
          UpdateStaysNonNegative(l.db, tx.id, Marker);
        }
        SpendStaysNonNegative(s, tx.inputs);
        CreditStaysNonNegative(SpendAll(s, tx.inputs).value.db, tx.id, tx.outputs, 0);
      }
    }
  }
}
