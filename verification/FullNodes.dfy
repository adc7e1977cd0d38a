/** The Python node: transaction verification and replacement of the valid chain by pending ones. */
module FullNodes {
  import opened Options
  import opened Utxos
  import Heaps

  const DIFFICULTY := 4
  const MAX_TRANSACTIONS := 5

  datatype Block = Block(index: nat, previousHash: string, transactions: seq<Payment>, nonce: nat)

  type BlockHash = Block -> string

  predicate MeetsTarget(h: string) {
    |h| >= DIFFICULTY && h[..DIFFICULTY] == "0000"
  }

  predicate Follows(hash: BlockHash, p: Block, b: Block) {
    b.previousHash == hash(p) && b.index == p.index + 1 && MeetsTarget(hash(b))
  }

  /** Block `i` has index `i`, points at the hash of the block before it and meets the difficulty. */
  ghost predicate WellFormed(hash: BlockHash, chain: seq<Block>) {
    chain != [] && chain[0].index == 0 && Linked(hash, chain)
  }

  ghost predicate Linked(hash: BlockHash, chain: seq<Block>) {
    forall i :: 0 < i < |chain| ==> Follows(hash, chain[i - 1], chain[i])
  }

  predicate WellFilled(b: Block) {
    1 <= |b.transactions| <= MAX_TRANSACTIONS
  }

  function PlayTxs(db: Database, txs: seq<Payment>): Option<Database>
    decreases |txs|
  {
    if txs == [] then Some(db) else
      match Verified(db, txs[0])
      case None => None
      case Some(next) => PlayTxs(next, txs[1..])
  }

  /** The database after the blocks, if each has one to five transactions and all are valid in order. */
  function PlayBlocks(db: Database, blocks: seq<Block>): Option<Database>
    decreases |blocks|
  {
    if blocks == [] then Some(db)
    else if !WellFilled(blocks[0]) then None
    else
      match PlayTxs(db, blocks[0].transactions)
      case None => None
      case Some(next) => PlayBlocks(next, blocks[1..])
  }

  /** A transaction of a block raises an exception. */
  predicate TxsRaise(db: Database, txs: seq<Payment>)
    decreases |txs|
  {
    txs != [] &&
      var next := Verified(db, txs[0]);
      Raises(db, txs[0]) || (next.Some? && TxsRaise(next.value, txs[1..]))
  }

  /** Playing the blocks ends in an exception. */
  predicate BlocksRaise(db: Database, blocks: seq<Block>)
    decreases |blocks|
  {
    blocks != [] && WellFilled(blocks[0]) &&
      var next := PlayTxs(db, blocks[0].transactions);
      TxsRaise(db, blocks[0].transactions) || (next.Some? && BlocksRaise(next.value, blocks[1..]))
  }

  lemma RaisingIsInvalid(db: Database, tx: Payment)
    requires Raises(db, tx)
    ensures Verified(db, tx).None?
  {
    RaisedIsNotSpent(Funds(db, tx), tx.inputs);
  }

  lemma {:induction false} RaisingTxsFail(db: Database, txs: seq<Payment>)
    requires TxsRaise(db, txs)
    ensures PlayTxs(db, txs).None?
    decreases |txs|
  {
    if Raises(db, txs[0]) {
      RaisingIsInvalid(db, txs[0]);
    } else {
      RaisingTxsFail(Verified(db, txs[0]).value, txs[1..]);
    }
  }

  /** Blocks that raise an exception do not play. */
  lemma {:induction false} RaisingBlocksFail(db: Database, blocks: seq<Block>)
    requires BlocksRaise(db, blocks)
    ensures PlayBlocks(db, blocks).None?
    decreases |blocks|
  {
    if TxsRaise(db, blocks[0].transactions) {
      RaisingTxsFail(db, blocks[0].transactions);
    } else {
      RaisingBlocksFail(PlayTxs(db, blocks[0].transactions).value, blocks[1..]);
    }
  }

  /** One transaction further. */
  lemma NextTx(db: Database, txs: seq<Payment>, i: nat)
    requires i < |txs|
    ensures var next := Verified(db, txs[i]);
      && PlayTxs(db, txs[i..]) == (if next.Some? then PlayTxs(next.value, txs[i + 1..]) else None)
      && (TxsRaise(db, txs[i..]) <==> if next.Some? then TxsRaise(next.value, txs[i + 1..]) else Raises(db, txs[i]))
  {
    assert txs[i..][1..] == txs[i + 1..];
    if Raises(db, txs[i]) {
      RaisingIsInvalid(db, txs[i]);
    }
  }

  /** One block further. */
  lemma NextBlock(db: Database, blocks: seq<Block>, i: nat)
    requires i < |blocks|
    ensures var b, rest := blocks[i], blocks[i + 1..];
      var next := if WellFilled(b) then PlayTxs(db, b.transactions) else None;
      && PlayBlocks(db, blocks[i..]) == (if next.Some? then PlayBlocks(next.value, rest) else None)
      && (BlocksRaise(db, blocks[i..]) <==>
          if next.Some? then BlocksRaise(next.value, rest) else WellFilled(b) && TxsRaise(db, b.transactions))
  {
    assert blocks[i..][1..] == blocks[i + 1..];
    if TxsRaise(db, blocks[i].transactions) {
      RaisingTxsFail(db, blocks[i].transactions);
    }
  }

  lemma {:induction false} RaisesJoin(db: Database, a: seq<Block>, b: seq<Block>)
    ensures BlocksRaise(db, a + b) <==>
      BlocksRaise(db, a) || (PlayBlocks(db, a).Some? && BlocksRaise(PlayBlocks(db, a).value, b))
    decreases |a|
  {
    if a == [] {
      assert a + b == b;
    } else {
      assert (a + b)[1..] == a[1..] + b;
      var next := PlayTxs(db, a[0].transactions);
      if next.Some? {
        RaisesJoin(next.value, a[1..], b);
      }
    }
  }

  /** All blocks after the genesis replay from an empty database. */
  ghost predicate Replays(chain: seq<Block>) {
    chain != [] && PlayBlocks(map[], chain[1..]).Some?
  }

  lemma {:induction false} PlayJoins(db: Database, a: seq<Block>, b: seq<Block>)
    ensures PlayBlocks(db, a + b) ==
      match PlayBlocks(db, a) case None => None case Some(mid) => PlayBlocks(mid, b)
    decreases |a|
  {
    if a == [] {
      assert a + b == b;
    } else {
      assert (a + b)[1..] == a[1..] + b;
      var next := PlayTxs(db, a[0].transactions);
      if next.Some? {
        PlayJoins(next.value, a[1..], b);
      }
    }
  }

  function IndexLe(a: Block, b: Block): bool {
    a.index <= b.index
  }

  lemma {:induction false} IndexIsPosition(hash: BlockHash, chain: seq<Block>, i: nat)
    requires chain != [] && Linked(hash, chain) && i < |chain|
    ensures chain[i].index == chain[0].index + i
  {
    if i > 0 {
      IndexIsPosition(hash, chain, i - 1);
      assert Follows(hash, chain[i - 1], chain[i]);
    }
  }

  lemma LastOut(s: seq<Block>, t: seq<Block>)
    requires |s| == |t| > 0 && multiset(s) == multiset(t) && s[|s| - 1] == t[|t| - 1]
    ensures multiset(s[..|s| - 1]) == multiset(t[..|t| - 1])
  {
    var n := |s| - 1;
    AllButLast(s);
    AllButLast(t);
  }

  lemma AllButLast(s: seq<Block>)
    requires s != []
    ensures multiset(s[..|s| - 1]) == multiset(s) - multiset{s[|s| - 1]}
  {
    var n := |s| - 1;
    assert s == s[..n] + [s[n]];
    assert multiset(s) == multiset(s[..n]) + multiset{s[n]};
  }

  lemma SameLast(s: seq<Block>, t: seq<Block>)
    requires |s| == |t| > 0 && multiset(s) == multiset(t) && Heaps.SortedBy(s, IndexLe) && Ordered(t)
    ensures s[|s| - 1] == t[|t| - 1]
  {
    var n := |s| - 1;
    assert s[n] in multiset(t) && t[n] in multiset(s);
    var i :| 0 <= i <= n && t[i] == s[n];
    var j :| 0 <= j <= n && s[j] == t[n];
    assert j < n ==> IndexLe(s[j], s[n]);
    assert i < n ==> t[i].index < t[n].index;
  }

  /** A chain with rising indexes is the only sorted order of its blocks. */
  lemma {:induction false} SortedIsUnique(s: seq<Block>, t: seq<Block>)
    requires Heaps.SortedBy(s, IndexLe) && multiset(s) == multiset(t) && |s| == |t| && Ordered(t)
    ensures s == t
  {
    if s != [] {
      var n := |s| - 1;
      SameLast(s, t);
      LastOut(s, t);
      SortedIsUnique(s[..n], t[..n]);
      assert s == s[..n] + [s[n]] && t == t[..n] + [t[n]];
    }
  }

  ghost predicate Reordered(p: seq<Block>, loaded: seq<Block>) {
    multiset(p) == multiset(loaded) && |p| == |loaded|
  }

  /** The first block loaded has the lowest index. */
  ghost predicate StartsLowest(chain: seq<Block>) {
    chain != [] && forall b :: b in chain ==> chain[0].index <= b.index
  }

  /** What verify_chain accepts: a pending chain, in index order, that continues the valid chain, replays after the
      blocks it keeps and makes it longer. */
  ghost predicate Acceptable(hash: BlockHash, valid: seq<Block>, pending: seq<Block>)
    requires pending != [] && pending[0].index <= |valid|
  {
    var first := pending[0].index;
    && first > 0 && Follows(hash, valid[first - 1], pending[0]) && Linked(hash, pending)
    && PlayBlocks(map[], valid[1..first] + pending).Some?
    && first + |pending| > |valid|
  }

  /** When verify_chain ends in an exception: the pending chain continues the valid chain, but a transaction raises. */
  ghost predicate Throws(hash: BlockHash, valid: seq<Block>, pending: seq<Block>)
    requires pending != [] && pending[0].index <= |valid|
  {
    var first := pending[0].index;
    && first > 0 && Follows(hash, valid[first - 1], pending[0]) && Linked(hash, pending)
    && BlocksRaise(map[], valid[1..first] + pending)
  }

  /** When loaded blocks are taken over: they are within reach, and some order of them is acceptable. */
  ghost predicate Adoptable(hash: BlockHash, valid: seq<Block>, loaded: seq<Block>) {
    && loaded != [] && loaded[0].index <= |valid|
    && exists p :: Reordered(p, loaded) && AcceptableStart(hash, valid, p)
  }

  ghost predicate AcceptableStart(hash: BlockHash, valid: seq<Block>, p: seq<Block>) {
    p != [] && p[0].index <= |valid| && Acceptable(hash, valid, p)
  }

  /** When loaded blocks end the whole call: there are none, or they are within reach and some order of them throws. */
  ghost predicate Breaking(hash: BlockHash, valid: seq<Block>, loaded: seq<Block>) {
    loaded == [] || (loaded[0].index <= |valid| && exists p :: Reordered(p, loaded) && ThrowsStart(hash, valid, p))
  }

  ghost predicate ThrowsStart(hash: BlockHash, valid: seq<Block>, p: seq<Block>) {
    p != [] && p[0].index <= |valid| && Throws(hash, valid, p)
  }

  /** What one pending chain that does not end the call makes of the valid chain. */
  ghost predicate Considered(hash: BlockHash, was: seq<Block>, loaded: seq<Block>, now: seq<Block>) {
    && !Breaking(hash, was, loaded)
    && if Adoptable(hash, was, loaded) then
         |now| > |was| && Reordered(now, was[..loaded[0].index] + loaded) && Heaps.SortedBy(now, IndexLe)
       else now == was
  }

  /** The valid chains there are before the pending chains, one after another. */
  ghost predicate InTurn(hash: BlockHash, valids: seq<seq<Block>>, chains: seq<seq<Block>>) {
    && |valids| == |chains| + 1
    && forall i :: 0 <= i < |chains| ==> Considered(hash, valids[i], chains[i], valids[i + 1])
  }

  lemma OneMore(hash: BlockHash, valids: seq<seq<Block>>, chains: seq<seq<Block>>, n: nat, now: seq<Block>)
    requires n < |chains| && InTurn(hash, valids, chains[..n]) && Considered(hash, valids[n], chains[n], now)
    ensures InTurn(hash, valids + [now], chains[..n + 1])
  {
    var after := valids + [now];
    forall i | 0 <= i < n + 1
      ensures Considered(hash, after[i], chains[..n + 1][i], after[i + 1])
    {
      if i < n {
        assert Considered(hash, valids[i], chains[..n][i], valids[i + 1]);
      }
    }
  }

  /** Only the index order of the loaded blocks can be acceptable, or throw. */
  lemma OnlySorted(hash: BlockHash, valid: seq<Block>, loaded: seq<Block>, pending: seq<Block>)
    requires loaded != [] && loaded[0].index <= |valid|
    requires Reordered(pending, loaded) && Heaps.SortedBy(pending, IndexLe) && pending[0].index <= |valid|
    ensures Adoptable(hash, valid, loaded) <==> Acceptable(hash, valid, pending)
    ensures Breaking(hash, valid, loaded) <==> Throws(hash, valid, pending)
  {
    forall p | Reordered(p, loaded) && p != [] && Linked(hash, p)
      ensures p == pending
    {
      LinkedIsOrdered(hash, p);
      SortedIsUnique(pending, p);
    }
    assert Reordered(pending, loaded);
    assert AcceptableStart(hash, valid, pending) <==> Acceptable(hash, valid, pending);
    assert ThrowsStart(hash, valid, pending) <==> Throws(hash, valid, pending);
  }

  lemma WellFormedIsSorted(hash: BlockHash, chain: seq<Block>)
    requires WellFormed(hash, chain)
    ensures Heaps.SortedBy(chain, IndexLe)
  {
    LinkedIsOrdered(hash, chain);
  }

  /** A block whose one transaction is a coinbase without outputs. */
  function CoinbaseBlock(index: nat, previousHash: string, id: nat): Block {
    Block(index, previousHash, [Payment(id, true, true, [], [])], id)
  }

  lemma CoinbasePlays(db: Database, blocks: seq<Block>, index: nat, previousHash: string, id: nat)
    requires blocks != [] && blocks[0] == CoinbaseBlock(index, previousHash, id) && id !in db
    ensures PlayBlocks(db, blocks) == PlayBlocks(db[id := Marker], blocks[1..])
  {
    var tx := Payment(id, true, true, [], []);
    assert blocks[0].transactions == [tx] && [tx][1..] == [];
    assert Verified(db, tx) == Some(db[id := Marker]);
    var next := db[id := Marker];
    assert PlayTxs(db, [tx]) == PlayTxs(next, []) == Some(next);
  }

  lemma TwoCoinbases(previous: string, middle: string)
    ensures PlayBlocks(map[], [CoinbaseBlock(1, previous, 2), CoinbaseBlock(2, middle, 3)]).Some?
  {
    var b1, b2 := CoinbaseBlock(1, previous, 2), CoinbaseBlock(2, middle, 3);
    assert [b1, b2][1..] == [b2] && [b2][1..] == [];
    CoinbasePlays(map[], [b1, b2], 1, previous, 2);
    CoinbasePlays(map[2 := Marker], [b2], 2, middle, 3);
  }

  /** A pending chain of the blocks 1 and 2, loaded with block 2 first. */
  lemma Misordered(hash: BlockHash, g: Block, a1: Block, b1: Block, b2: Block)
    requires g.index == 0 && Follows(hash, g, a1) && Follows(hash, g, b1) && Follows(hash, b1, b2)
    requires b1 == CoinbaseBlock(1, hash(g), 2) && b2 == CoinbaseBlock(2, hash(b1), 3)
    ensures WellFormed(hash, [g, a1]) && Adoptable(hash, [g, a1], [b2, b1]) && !StartsLowest([b2, b1])
  {
    var valid, loaded, p := [g, a1], [b2, b1], [b1, b2];
    assert valid[1..1] + p == p;
    TwoCoinbases(hash(g), hash(b1));
    assert Reordered(p, loaded);
    assert Acceptable(hash, valid, p);
    assert AcceptableStart(hash, valid, p);
    assert loaded[1] in loaded;
  }

  /** An input that is taken over although what comes out is not well formed. */
  lemma MisorderedInput() returns (hash: BlockHash, valid: seq<Block>, loaded: seq<Block>)
    ensures WellFormed(hash, valid) && Adoptable(hash, valid, loaded) && !StartsLowest(loaded)
  {
    hash := (b: Block) => "0000" + seq(b.nonce, _ => '1');
    var g := Block(0, "", [], 0);
    var a1, b1 := CoinbaseBlock(1, hash(g), 1), CoinbaseBlock(1, hash(g), 2);
    var b2 := CoinbaseBlock(2, hash(b1), 3);
    Misordered(hash, g, a1, b1, b2);
    valid, loaded := [g, a1], [b2, b1];
  }

  /** A coinbase that sends to the key under which the coinbase of block 1 has left its mark. */
  const TO_MARK := Payment(4, true, true, [], [Output(0, 2)])

  lemma MarkRaises(previous: string, middle: string)
    ensures BlocksRaise(map[], [CoinbaseBlock(1, previous, 2), Block(2, middle, [TO_MARK], 4)])
  {
    var b1, c2 := CoinbaseBlock(1, previous, 2), Block(2, middle, [TO_MARK], 4);
    var db := map[2 := Marker];
    assert [b1, c2][1..] == [c2];
    CoinbasePlays(map[], [b1, c2], 1, previous, 2);
    assert PlayTxs(map[], b1.transactions) == Some(db) by {
      CoinbasePlays(map[], [b1], 1, previous, 2);
      assert b1.transactions[1..] == [];
    }
    assert IsMark(Funds(db, TO_MARK).db, TO_MARK.outputs[0].owner);
    assert Raises(db, TO_MARK);
    assert TxsRaise(db, c2.transactions);
    assert BlocksRaise(db, [c2]);
  }

  /** Two pending chains of the blocks 1 and 2, of which the first ends the call. */
  lemma Stopping(hash: BlockHash, g: Block, a1: Block, b1: Block, b2: Block, c2: Block)
    requires g.index == 0 && Follows(hash, g, a1) && Follows(hash, g, b1)
    requires Follows(hash, b1, b2) && Follows(hash, b1, c2)
    requires b1 == CoinbaseBlock(1, hash(g), 2) && b2 == CoinbaseBlock(2, hash(b1), 3)
    requires c2 == Block(2, hash(b1), [TO_MARK], 4)
    ensures Breaking(hash, [g, a1], [b1, c2]) && Adoptable(hash, [g, a1], [b1, b2])
  {
    var valid, bad, good := [g, a1], [b1, c2], [b1, b2];
    assert valid[1..1] + bad == bad && valid[1..1] + good == good;
    MarkRaises(hash(g), hash(b1));
    assert Throws(hash, valid, bad);
    assert Reordered(bad, bad) && ThrowsStart(hash, valid, bad);
    TwoCoinbases(hash(g), hash(b1));
    assert Acceptable(hash, valid, good);
    assert Reordered(good, good) && AcceptableStart(hash, valid, good);
  }

  /** Pending chains of which the first ends the call, although the second is acceptable. */
  lemma StoppingInput() returns (hash: BlockHash, valid: seq<Block>, bad: seq<Block>, good: seq<Block>)
    ensures WellFormed(hash, valid) && bad != [] && Breaking(hash, valid, bad) && Adoptable(hash, valid, good)
  {
    hash := (b: Block) => "0000" + seq(b.nonce, _ => '1');
    var g := Block(0, "", [], 0);
    var a1, b1 := CoinbaseBlock(1, hash(g), 1), CoinbaseBlock(1, hash(g), 2);
    var b2, c2 := CoinbaseBlock(2, hash(b1), 3), Block(2, hash(b1), [TO_MARK], 4);
    Stopping(hash, g, a1, b1, b2, c2);
    valid, bad, good := [g, a1], [b1, c2], [b1, b2];
  }

  /** After a pending chain that ends the call none is looked at. */
  method StoppingRun(hash: BlockHash, valid: seq<Block>, bad: seq<Block>, good: seq<Block>) returns (node: FullNode)
    requires WellFormed(hash, valid) && Breaking(hash, valid, bad) && Adoptable(hash, valid, good)
    ensures node.hash == hash && node.validChain == valid
  {
    node := new FullNode(hash, valid);
    var found, tried;
    ghost var valids;
    found, tried, valids := node.ValidatePendingChains([bad, good]);
    FirstBreaks(hash, valids, [bad, good], tried);
  }

  lemma FirstBreaks(hash: BlockHash, valids: seq<seq<Block>>, chains: seq<seq<Block>>, tried: nat)
    requires chains != [] && tried <= |chains| && InTurn(hash, valids, chains[..tried])
    requires Breaking(hash, valids[0], chains[0])
    ensures tried == 0
  {
    assert tried > 0 ==> Considered(hash, valids[0], chains[..tried][0], valids[1]);
  }

  lemma AdoptedChain(hash: BlockHash, valid: seq<Block>, pending: seq<Block>)
    requires pending != [] && pending[0].index <= |valid| && WellFormed(hash, valid) && Acceptable(hash, valid, pending)
    ensures var chain := valid[..pending[0].index] + pending;
      && WellFormed(hash, chain) && Replays(chain) && |chain| > |valid| && Ordered(chain)
  {
    var first := pending[0].index;
    var chain := valid[..first] + pending;
    forall i | 0 < i < |chain|
      ensures Follows(hash, chain[i - 1], chain[i])
    {
      assert i < first ==> Follows(hash, valid[i - 1], valid[i]);
      assert i > first ==> Follows(hash, pending[i - first - 1], pending[i - first]);
    }
    assert chain[1..] == valid[1..first] + pending;
    LinkedIsOrdered(hash, chain);
  }

  ghost predicate Ordered(chain: seq<Block>) {
    forall i, j :: 0 <= i < j < |chain| ==> chain[i].index < chain[j].index
  }

  lemma LinkedIsOrdered(hash: BlockHash, chain: seq<Block>)
    requires chain != [] && Linked(hash, chain)
    ensures Ordered(chain)
  {
    forall i, j | 0 <= i < j < |chain|
      ensures chain[i].index < chain[j].index
    {
      IndexIsPosition(hash, chain, i);
      IndexIsPosition(hash, chain, j);
    }
  }

  /** A pending chain loaded out of order is spliced in at the wrong place: the result is too long for its indexes. */
  lemma SplicedBadly(hash: BlockHash, valid: seq<Block>, loaded: seq<Block>, pending: seq<Block>, chain: seq<Block>)
    requires WellFormed(hash, valid) && loaded != [] && 0 < loaded[0].index <= |valid|
    requires multiset(pending) == multiset(loaded) && |pending| == |loaded| && Linked(hash, pending)
    requires pending[0].index < loaded[0].index
    requires multiset(chain) == multiset(valid[..loaded[0].index] + loaded) && |chain| == loaded[0].index + |loaded|
    ensures !WellFormed(hash, chain)
  {
    if WellFormed(hash, chain) {
      var n := |chain| - 1;
      IndexIsPosition(hash, chain, n);
      assert chain[n] in multiset(chain);
      var all := valid[..loaded[0].index] + loaded;
      assert chain[n] in multiset(all);
      var i :| 0 <= i < |all| && all[i] == chain[n];
      if i < loaded[0].index {
        IndexIsPosition(hash, valid, i);
      } else {
        assert all[i] in multiset(loaded);
        assert all[i] in multiset(pending);
        var j :| 0 <= j < |pending| && pending[j] == all[i];
        IndexIsPosition(hash, pending, j);
      }
      assert false;
    }
  }

  class FullNode {
    const hash: BlockHash
    var validChain: seq<Block>
    var utxoPending: Database
    var corrupt: set<Key>

    constructor (hash: BlockHash, chain: seq<Block>)
      ensures this.hash == hash && validChain == chain && utxoPending == map[]
    {
      this.hash, validChain, utxoPending, corrupt := hash, chain, map[], {};
    }

    /** The search for the coin an input refers to. */
    method FindCoin(coins: seq<Coin>, inp: Input) returns (i: nat)
      ensures i == Find(coins, inp, 0)
    {
      i := 0;
      while i < |coins| && !(coins[i].tx == inp.parent && coins[i].number == inp.number)
        invariant i <= |coins| && Find(coins, inp, 0) == Find(coins, inp, i)
      {
        i := i + 1;
      }
    }

    /** The loop over the inputs. */
    method SpendInputs(temp0: Database, total0: int, inputs: seq<Input>)
      returns (ok: bool, raised: bool, temp: Database, total: int)
      ensures ok <==> SpendAll(Spent(temp0, total0), inputs).Some?
      ensures ok ==> SpendAll(Spent(temp0, total0), inputs) == Some(Spent(temp, total))
      ensures raised <==> SpendRaises(Spent(temp0, total0), inputs)
    {
      temp, total := temp0, total0;
      for i := 0 to |inputs|
        invariant SpendAll(Spent(temp0, total0), inputs) == SpendAll(Spent(temp, total), inputs[i..])
        invariant SpendRaises(Spent(temp0, total0), inputs) <==> SpendRaises(Spent(temp, total), inputs[i..])
      {
        var inp := inputs[i];
        assert inputs[i..][1..] == inputs[i + 1..];
        if !inp.signed || inp.owner !in temp {
          return false, false, temp, total;
        }
        if temp[inp.owner] == Marker {
          return false, true, temp, total;
        }
        var coins := CoinsOf(temp, inp.owner);
        var j := FindCoin(coins, inp);
        if j == |coins| {
          return false, false, temp, total;
        }
        total := total + coins[j].value;
        temp := temp[inp.owner := Coins(Without(coins, j))];
      }
      return true, false, temp, total;
    }

    /** The loop over the outputs. */
    method CreditOutputs(temp0: Database, id: Key, outputs: seq<Output>)
      returns (raised: bool, temp: Database, sent: int)
      ensures raised <==> Clashes(temp0, outputs)
      ensures !raised ==> temp == CreditAll(temp0, id, outputs, 0) && sent == SumOf(outputs)
    {
      temp, sent := temp0, 0;
      for n := 0 to |outputs|
        invariant CreditAll(temp0, id, outputs, 0) == CreditAll(temp, id, outputs, n) && sent == SumOf(outputs[..n])
        invariant (forall k :: 0 <= k < n ==> !IsMark(temp0, outputs[k].owner)) && SameMarks(temp0, temp)
      {
        var out := outputs[n];
        sent := sent + out.value;
        if out.owner in temp && temp[out.owner] == Marker {
          assert IsMark(temp, out.owner);
          return true, temp, sent;
        }
        assert !IsMark(temp0, out.owner) by {
          assert !IsMark(temp, out.owner);
        }
        temp := temp[out.owner := Coins(CoinsOf(temp, out.owner) + [Coin(id, n, out.value)])];
        assert outputs[..n + 1][..n] == outputs[..n];
      }
      assert outputs[..|outputs|] == outputs;
      return false, temp, sent;
    }

    /** verifyTransaction: works on a copy of the pending database and stores it only if all is well. An exception
        leaves everything as it was. */
    method VerifyTransaction(tx: Payment) returns (ok: bool, raised: bool)
      modifies this`utxoPending, this`corrupt
      ensures ok <==> Verified(old(utxoPending), tx).Some?
      ensures raised <==> Raises(old(utxoPending), tx)
      ensures utxoPending == if ok then Verified(old(utxoPending), tx).value else old(utxoPending)
      ensures corrupt == old(corrupt) + if !ok && !raised && Spendable(old(utxoPending), tx) then {tx.id} else {}
    {
      var temp := utxoPending;
      if !tx.hashMatches {
        return false, false;
      }
      var totalValue := 0;
      if tx.coinbase {
        if tx.id in temp {
          return false, false;
        }
        totalValue := totalValue + REWARD;
        temp := temp[tx.id := Marker];
      }
      RaisedIsNotSpent(Spent(temp, totalValue), tx.inputs);
      var found;
      found, raised, temp, totalValue := SpendInputs(temp, totalValue, tx.inputs);
      if !found {
        return false, raised;
      }
      var totalSent;
      raised, temp, totalSent := CreditOutputs(temp, tx.id, tx.outputs);
      if raised {
        return false, true;
      }
      if totalSent > totalValue {
        corrupt := corrupt + {tx.id};
        return false, false;
      }
      utxoPending := temp;
      return true, false;
    }

    /** Any sequence of verifyTransaction calls on an empty database. */
    method VerifyAll(txs: seq<Payment>) returns (accepted: seq<Payment>)
      requires utxoPending == map[]
      modifies this`utxoPending, this`corrupt
      ensures utxoPending == AfterAll(txs).db && accepted == AfterAll(txs).accepted
      ensures TotalWorth(utxoPending) <= REWARD * Coinbases(accepted)
    {
      accepted := [];
      for i := 0 to |txs|
        invariant utxoPending == AfterAll(txs[..i]).db && accepted == AfterAll(txs[..i]).accepted
      {
        assert txs[..i + 1][..i] == txs[..i];
        var ok, raised := VerifyTransaction(txs[i]);
        if ok {
          accepted := accepted + [txs[i]];
        }
      }
      assert txs[..|txs|] == txs;
      Supply(txs);
    }

    /** Plays one block's transactions on the pending database. */
    method PlayBlock(b: Block) returns (ok: bool, raised: bool)
      modifies this`utxoPending, this`corrupt
      ensures ok <==> WellFilled(b) && PlayTxs(old(utxoPending), b.transactions).Some?
      ensures ok ==> PlayTxs(old(utxoPending), b.transactions) == Some(utxoPending)
      ensures raised <==> WellFilled(b) && TxsRaise(old(utxoPending), b.transactions)
    {
      if |b.transactions| > MAX_TRANSACTIONS || |b.transactions| == 0 {
        return false, false;
      }
      for i := 0 to |b.transactions|
        invariant PlayTxs(old(utxoPending), b.transactions) == PlayTxs(utxoPending, b.transactions[i..])
        invariant TxsRaise(old(utxoPending), b.transactions) <==> TxsRaise(utxoPending, b.transactions[i..])
      {
        NextTx(utxoPending, b.transactions, i);
        var valid;
        valid, raised := VerifyTransaction(b.transactions[i]);
        if !valid {
          return false, raised;
        }
      }
      return true, false;
    }

    method PlayChain(blocks: seq<Block>) returns (ok: bool, raised: bool)
      modifies this`utxoPending, this`corrupt
      ensures ok <==> PlayBlocks(old(utxoPending), blocks).Some?
      ensures ok ==> PlayBlocks(old(utxoPending), blocks) == Some(utxoPending)
      ensures raised <==> BlocksRaise(old(utxoPending), blocks)
    {
      for i := 0 to |blocks|
        invariant PlayBlocks(old(utxoPending), blocks) == PlayBlocks(utxoPending, blocks[i..])
        invariant BlocksRaise(old(utxoPending), blocks) <==> BlocksRaise(utxoPending, blocks[i..])
      {
        NextBlock(utxoPending, blocks, i);
        var played;
        played, raised := PlayBlock(blocks[i]);
        if !played {
          return false, raised;
        }
      }
      return true, false;
    }

    /** The first loop of verify_chain: hashes, indexes and difficulty. */
    method ChecksOut(pending: seq<Block>) returns (ok: bool)
      requires validChain != [] && pending != [] && pending[0].index <= |validChain|
      ensures var first := pending[0].index;
        ok <==> first > 0 && Follows(hash, validChain[first - 1], pending[0]) && Linked(hash, pending)
    {
      var first := pending[0].index;
      var before := if first == 0 then validChain[|validChain| - 1] else validChain[first - 1];
      if !Follows(hash, before, pending[0]) {
        return false;
      }
      for i := 1 to |pending|
        invariant forall j :: 0 < j < i ==> Follows(hash, pending[j - 1], pending[j])
      {
        if !Follows(hash, pending[i - 1], pending[i]) {
          return false;
        }
      }
      return true;
    }

    /** verify_chain, for a pending chain in index order. */
    method VerifyChain(pending: seq<Block>) returns (ok: bool, raised: bool)
      requires validChain != [] && pending != [] && pending[0].index <= |validChain|
      modifies this`utxoPending, this`corrupt
      ensures ok <==> Acceptable(hash, validChain, pending)
      ensures raised <==> Throws(hash, validChain, pending)
    {
      var first := pending[0].index;
      var linked := ChecksOut(pending);
      if !linked {
        return false, false;
      }
      utxoPending := map[];
      PlayJoins(map[], validChain[1..first], pending);
      RaisesJoin(map[], validChain[1..first], pending);
      var kept;
      kept, raised := PlayChain(validChain[1..first]);
      if !kept {
        return false, raised;
      }
      if BlocksRaise(map[], validChain[1..first]) {
        RaisingBlocksFail(map[], validChain[1..first]);
      }
      var played;
      played, raised := PlayChain(pending);
      if !played {
        return false, raised;
      }
      return first - 1 + |pending| > |validChain| - 1, raised;
    }

    /** One turn of validate_pending_chains: takes over a pending chain if it makes a longer valid chain. Out of a
        pending chain loaded with another block before its lowest one comes a valid chain that is not well formed. */
    method Adopt(loaded: seq<Block>) returns (replaced: bool, raised: bool)
      requires validChain != [] && Heaps.SortedBy(validChain, IndexLe)
      modifies this
      ensures validChain != [] && Heaps.SortedBy(validChain, IndexLe)
      ensures replaced <==> Adoptable(hash, old(validChain), loaded)
      ensures raised <==> Breaking(hash, old(validChain), loaded)
      ensures !(replaced && raised) && (!replaced ==> validChain == old(validChain))
      ensures replaced ==> |validChain| > |old(validChain)|
      ensures replaced ==> Reordered(validChain, old(validChain)[..loaded[0].index] + loaded)
      ensures WellFormed(hash, old(validChain)) ==>
        (WellFormed(hash, validChain) <==> !Adoptable(hash, old(validChain), loaded) || StartsLowest(loaded))
      ensures WellFormed(hash, old(validChain)) && replaced && StartsLowest(loaded) ==>
        Replays(validChain) && validChain[..loaded[0].index] == old(validChain)[..loaded[0].index]
    {
      if loaded == [] {
        return false, true;
      }
      var first := loaded[0].index;
      if first - 1 >= |validChain| {
        return false, false;
      }
      var current := validChain[..first] + loaded;
      var pending := Heaps.Sort(loaded, IndexLe);
      current := Heaps.Sort(current, IndexLe);
      LowestFirst(loaded, pending);
      OnlySorted(hash, validChain, loaded, pending);
      replaced, raised := VerifyChain(pending);
      if replaced {
        if raised {
          RaisingBlocksFail(map[], validChain[1..pending[0].index] + pending);
          assert false;
        }
        if WellFormed(hash, validChain) {
          TakenOver(validChain, loaded, pending, current);
        }
        validChain := current;
      }
    }

    lemma LowestFirst(loaded: seq<Block>, pending: seq<Block>)
      requires loaded != [] && multiset(pending) == multiset(loaded) && |pending| == |loaded|
      requires Heaps.SortedBy(pending, IndexLe)
      ensures pending[0].index <= loaded[0].index
      ensures pending[0].index == loaded[0].index <==> StartsLowest(loaded)
    {
      assert pending[0] in multiset(loaded) && loaded[0] in multiset(pending);
      forall b | b in loaded
        ensures pending[0].index <= b.index
      {
        assert b in multiset(pending);
        var i :| 0 <= i < |pending| && pending[i] == b;
        assert i > 0 ==> IndexLe(pending[0], pending[i]);
      }
    }

    lemma TakenOver(valid: seq<Block>, loaded: seq<Block>, pending: seq<Block>, current: seq<Block>)
      requires WellFormed(hash, valid) && loaded != [] && loaded[0].index <= |valid|
      requires multiset(pending) == multiset(loaded) && |pending| == |loaded| && Heaps.SortedBy(pending, IndexLe)
      requires multiset(current) == multiset(valid[..loaded[0].index] + loaded)
      requires |current| == loaded[0].index + |loaded|
      requires Heaps.SortedBy(current, IndexLe)
      requires pending[0].index <= loaded[0].index && Acceptable(hash, valid, pending)
      ensures WellFormed(hash, current) <==> pending[0].index == loaded[0].index
      ensures pending[0].index == loaded[0].index ==>
        Replays(current) && current == valid[..loaded[0].index] + pending
    {
      if pending[0].index == loaded[0].index {
        var chain := valid[..loaded[0].index] + pending;
        AdoptedChain(hash, valid, pending);
        assert multiset(chain) == multiset(valid[..loaded[0].index]) + multiset(pending);
        assert multiset(valid[..loaded[0].index] + loaded) == multiset(valid[..loaded[0].index]) + multiset(loaded);
        SortedIsUnique(current, chain);
      } else {
        SplicedBadly(hash, valid, loaded, pending, current);
      }
    }

    /** validate_pending_chains: the valid chain only grows, and stays well formed over chains that each start with
        their lowest block. It considers all chains in turn, or those up to one that ends the call in an exception. */
    method ValidatePendingChains(chains: seq<seq<Block>>)
      returns (found: bool, tried: nat, ghost valids: seq<seq<Block>>)
      requires WellFormed(hash, validChain)
      modifies this
      ensures if found then |validChain| > |old(validChain)| else validChain == old(validChain)
      ensures tried <= |chains| && InTurn(hash, valids, chains[..tried])
      ensures valids[0] == old(validChain) && valids[tried] == validChain
      ensures tried < |chains| ==> Breaking(hash, validChain, chains[tried])
      ensures (forall i :: 0 <= i < tried ==> StartsLowest(chains[i])) ==>
        WellFormed(hash, validChain) && (found ==> Replays(validChain))
    {
      found, tried, valids := false, 0, [validChain];
      WellFormedIsSorted(hash, validChain);
      while tried < |chains|
        invariant tried <= |chains| && validChain != [] && Heaps.SortedBy(validChain, IndexLe)
        invariant InTurn(hash, valids, chains[..tried])
        invariant valids[0] == old(validChain) && valids[tried] == validChain
        invariant if found then |validChain| > |old(validChain)| else validChain == old(validChain)
        invariant (forall j :: 0 <= j < tried ==> StartsLowest(chains[j])) ==>
          WellFormed(hash, validChain) && (found ==> Replays(validChain))
      {
        var replaced, raised := Adopt(chains[tried]);
        if raised {
          return;
        }
        found := found || replaced;
        OneMore(hash, valids, chains, tried, validChain);
        valids := valids + [validChain];
        tried := tried + 1;
      }
    }
  }
}
