/** Blocks and forks for which rewinding, or a reorganisation, does not do what it is for. */
module ChainCases {
  import opened Numerals
  import opened ChainstateModel
  import opened ChainModel
  import opened ChainRewind
  import opened ChainRuns

  function Coinbase(txid: seq<byte>): Transaction {
    Transaction(txid, [Output(5, [])], [])
  }

  /** The record of a coinbase output at some height. */
  function Reward(height: nat): Record {
    Record(height, true, 5, [])
  }

  /** A block of which the header does not matter. */
  function SomeBlock(txs: seq<Transaction>): Block {
    Block(Header([], [], 0, 1), txs)
  }

  lemma CoinbaseEffects(b: Block, txid: seq<byte>, height: nat)
    requires b.transactions == [Coinbase(txid)]
    ensures Effects(b, height) == [Make(PairToKey(txid, 0), Reward(height))]
  {
    hide PairToKey;
    assert BlockEffects(b, height, 1) == BlockEffects(b, height, 0) + TxEffects(Coinbase(txid), height, true);
  }

  lemma OneEffect(s: Chainstate, e: Effect)
    ensures DoAll(s, [e]) == s.Do(e) && UndoAll(s, [e]) == s.Undo(e)
    ensures Saved(s, [e]) <==> (e.Use? ==> e.key in s.spent)
  {
    assert [e][..0] == [];
  }

  /** A block whose coinbase is a copy of an earlier one that is still unspent passes the checks
      on its inputs.  Adding it changes nothing; rewinding it destroys the earlier output. */
  lemma CopiedCoinbase(txid: seq<byte>, earlier: Record, height: nat)
    ensures var b, key := SomeBlock([Coinbase(txid)]), PairToKey(txid, 0);
            var s := Chainstate(map[key := earlier], map[]);
            && Separate(s) && InputsUnspentOnce(s, Effects(b, height))
            && AddBlock(s, b, height) == s
            && RewindBlock(s, b, height) == Chainstate(map[], map[])
  {
    hide PairToKey, Effects, DoAll, UndoAll;
    var b, key := SomeBlock([Coinbase(txid)]), PairToKey(txid, 0);
    CoinbaseEffects(b, txid, height);
    OneEffect(Chainstate(map[key := earlier], map[]), Make(key, Reward(height)));
  }

  /** The effects of a block that makes an output and spends it. */
  lemma OwnSpendingEffects(b: Block, txid: seq<byte>, spender: seq<byte>, height: nat)
    requires b.transactions == [Transaction([], [], []), Coinbase(txid), Transaction(spender, [], [Input(txid, 0)])]
    ensures Effects(b, height)
         == [Make(PairToKey(txid, 0), Record(height, false, 5, []))] + [Use(PairToKey(txid, 0))]
  {
    hide PairToKey;
    assert BlockEffects(b, height, 1) == BlockEffects(b, height, 0) + TxEffects(b.transactions[0], height, true);
    assert BlockEffects(b, height, 2) == BlockEffects(b, height, 1) + TxEffects(b.transactions[1], height, false);
    assert BlockEffects(b, height, 3) == BlockEffects(b, height, 2) + TxEffects(b.transactions[2], height, false);
  }

  lemma TwoEffects(s: Chainstate, d: Effect, e: Effect)
    ensures DoAll(s, [d] + [e]) == s.Do(d).Do(e) && UndoAll(s, [d] + [e]) == s.Undo(d).Undo(e)
    ensures Found(s, [d] + [e]) <==> (d.Use? ==> d.key in s.storage) && (e.Use? ==> e.key in s.Do(d).storage)
  {
    hide Chainstate.Do, Chainstate.Undo;
    DoAllAppend(s, [d], [e]);
    UndoAllAppend(s, [d], [e]);
    FoundAppend(s, [d], [e]);
    OneEffect(s, d);
    OneEffect(s.Do(d), e);
    OneEffect(s.Undo(d), e);
  }

  /** A block that makes an output and spends it, which add_block takes and validation rejects:
      rewinding leaves the output unspent. */
  lemma SpentInItsOwnBlock(txid: seq<byte>, spender: seq<byte>, height: nat)
    ensures var b := SomeBlock([Transaction([], [], []), Coinbase(txid), Transaction(spender, [], [Input(txid, 0)])]);
            var s, key := Chainstate(map[], map[]), PairToKey(txid, 0);
            && Found(s, Effects(b, height)) && !InputsUnspentOnce(s, Effects(b, height))
            && RewindBlock(AddBlock(s, b, height), b, height) == Chainstate(map[key := Record(height, false, 5, [])], map[])
  {
    hide PairToKey, Effects, DoAll, UndoAll, Found;
    var b := SomeBlock([Transaction([], [], []), Coinbase(txid), Transaction(spender, [], [Input(txid, 0)])]);
    var s, key := Chainstate(map[], map[]), PairToKey(txid, 0);
    var made := Make(key, Record(height, false, 5, []));
    OwnSpendingEffects(b, txid, spender, height);
    assert Effects(b, height)[1] == Use(key);
    TwoEffects(s, made, Use(key));
    TwoEffects(AddBlock(s, b, height), made, Use(key));
  }

  // ---------------------------------------------------------------- proofs that verify only once

  /** Proofs that do not verify once the computations have been bound before, as those of a block
      that was received: nothing but a first validation can succeed. */
  ghost predicate VerifiesOnlyFirst(check: Check) {
    forall b: Block, k: nat :: k > 0 ==> !check.proofs(b, k)
  }

  lemma NoneAgain(n: Node, bs: seq<Block>, check: Check)
    requires n.chain != [] && VerifiesOnlyFirst(check) && bs != [] && Bound(n.bound, bs[0]) > 0
    ensures Leading(n, bs, check) == 0 && !AcceptsAll(n, bs, check)
  {
    hide Reaches, AddChain, RebindAll, Difficulty;
    NoBlocks(n, check);
    assert bs[..0] == [] && bs[..|bs|] == bs;
    LeadingIff(n, bs, check, 0);
    LeadingIff(n, bs, check, |bs|);
  }

  /** Then every reorganisation onto a fork that attaches ends with a failed assertion: the first
      block of the fork was validated when it came, and so was the first block to be put back. */
  lemma EveryReorgFails(n: Node, src: nat, fork: seq<Block>, total: nat, check: Check)
    requires VerifiesOnlyFirst(check) && Linked(n.chain) && Linked(fork) && src + 1 < |n.chain|
    requires fork != [] && Attaches(Bottom(n, src), fork[0])
    requires Bound(n.bound, fork[0]) > 0 && Bound(n.bound, n.chain[src + 1]) > 0
    ensures ReorgStep(n, src, fork, total, check).0 == AssertionFails
  {
    hide RewindChain, AddChain, Difficulty, Saved, RewindEffects, Reaches, Linked, AcceptsAll, Accepts;
    if Saved(n.state, RewindEffects(n.chain[src + 1..], src + 1)) {
      var bottom, former := Bottom(n, src), n.chain[src + 1..];
      NoneAgain(bottom, fork, check);
      NoBlocks(bottom, check);
      assert fork[..0] == [];
      assert IsRejected(bottom, fork, check);
      NothingToRewind(bottom.state, src + 1);
      var again := Again(bottom, fork, check);
      assert Bound(again.bound, former[0]) > 0;
      NoneAgain(again, former, check);
      ReorgMeans(n, src, fork, total, check);
    }
  }

  lemma NothingToRewind(s: Chainstate, h: nat)
    ensures Rewindable(s, [], h)
  {
  }

  // ---------------------------------------------------------------- reorganisations

  /** A check that every block passes that has transactions and uses unspent outputs once. */
  const LENIENT := Check((_, _, _) => true, (_, _) => true)

  /** A chain of one block that has only a coinbase. */
  lemma OneCoinbase(n: Node, b: Block, txid: seq<byte>)
    requires b.transactions == [Coinbase(txid)]
    ensures var h, made := |n.chain|, Make(PairToKey(txid, 0), Reward(|n.chain|));
            && Effects(b, h) == [made]
            && Above(n, [b]) == Node(n.chain + [b], n.state.Do(made), n.bound, n.total + b.header.difficulty)
            && RewindEffects([b], h) == [made]
  {
    hide PairToKey, Effects, DoAll, AddChain, Chainstate.Do;
    CoinbaseEffects(b, txid, |n.chain|);
    OneAbove(n, b);
    assert [b][1..] == [];
    OneEffect(n.state, Make(PairToKey(txid, 0), Reward(|n.chain|)));
  }

  /** It is accepted if it attaches, and the timestamp grows; rewinding takes its output away. */
  lemma OneCoinbaseAccepted(n: Node, b: Block, txid: seq<byte>)
    requires n.chain != [] && b.transactions == [Coinbase(txid)]
    requires Attaches(n, b) && Later(n, b)
    ensures Accepts(n, b, LENIENT) && AcceptsAll(n, [b], LENIENT)
    ensures Extended(n, [b]) == Above(n, [b]).(bound := RebindAll(n.bound, [b]))
  {
    hide PairToKey, Effects, AddChain, RebindAll, Difficulty;
    OneCoinbase(n, b, txid);
    NoBlocks(n, LENIENT);
    assert [b][..0] == [];
  }

  lemma OneCoinbaseRewound(s: Chainstate, b: Block, txid: seq<byte>, h: nat)
    requires b.transactions == [Coinbase(txid)]
    ensures RewindChain(s, [b], h) == s.Undo(Make(PairToKey(txid, 0), Reward(h))) && Saved(s, RewindEffects([b], h))
  {
    hide PairToKey, Effects, UndoAll, Saved, Chainstate.Undo;
    CoinbaseEffects(b, txid, h);
    assert [b][1..] == [];
    assert RewindEffects([b], h) == Effects(b, h);
    OneEffect(s, Make(PairToKey(txid, 0), Reward(h)));
  }

  const GENESIS := Block(Header([0], [], 0, 1), [Coinbase([1])])
  const TIP := Block(Header([1], [0], 1, 1), [Coinbase([2])])

  /** A fork at genesis: a copy of the coinbase of genesis, then a block without transactions. */
  const COPY := Block(Header([2], [0], 1, 1), [Coinbase([1])])
  const EMPTY := Block(Header([3], [2], 2, 1), [])

  /** A fork at genesis of which already the first block has no transactions. */
  const EMPTY_FIRST := Block(Header([3], [0], 2, 1), [])
  const AFTER_EMPTY := Block(Header([4], [3], 3, 1), [Coinbase([3])])

  /** Two more forks: one at genesis, one on top of TIP. */
  const LEFT := [Block(Header([5], [0], 1, 1), [Coinbase([4])]), Block(Header([6], [5], 2, 1), [Coinbase([5])])]
  const RIGHT := [Block(Header([7], [1], 2, 1), [Coinbase([6])]), Block(Header([8], [7], 3, 1), [Coinbase([7])])]

  /** The main chain of genesis and TIP. */
  function TwoBlocks(): Node {
    Above(Genesis(GENESIS), [TIP])
  }

  lemma TheChain()
    ensures var g, n, k, m := Genesis(GENESIS), TwoBlocks(), PairToKey([1], 0), PairToKey([2], 0);
            && k != m
            && g == Node([GENESIS], Chainstate(map[k := Reward(0)], map[]), map[], 1)
            && n == Node([GENESIS, TIP], Chainstate(map[k := Reward(0), m := Reward(1)], map[]), map[], 2)
            && n.chain[1..] == [TIP]
            && Bottom(n, 0) == g.(total := 2)
            && Saved(n.state, RewindEffects([TIP], 1))
            && Linked(n.chain)
  {
    hide PairToKey, Effects, DoAll, Saved, RewindChain, RewindEffects;
    var g, n := Genesis(GENESIS), TwoBlocks();
    KeysAreUnique([1], 0, [2], 0);
    CoinbaseEffects(GENESIS, [1], 0);
    OneEffect(Chainstate(map[], map[]), Make(PairToKey([1], 0), Reward(0)));
    OneCoinbase(g, TIP, [2]);
    assert n.chain[1..] == [TIP] && n.chain[..1] == [GENESIS];
    OneCoinbaseRewound(n.state, TIP, [2], 1);
  }

  /** A reorganisation that fails at the second block of the fork: the main chain is back, but
      the output of genesis is lost. */
  lemma FailedForkLosesOutput()
    ensures var n, r := TwoBlocks(), ReorgStep(TwoBlocks(), 0, [COPY, EMPTY], 3, LENIENT);
            && PairToKey([1], 0) in n.state.storage
            && r.0 == Kept && r.1.chain == n.chain && r.1.total == n.total
            && r.1.state == Chainstate(map[PairToKey([2], 0) := Reward(1)], map[])
  {
    hide PairToKey, TwoBlocks, Extended, Saved, RewindChain, RewindEffects, Tried, Leading, Bottom, PutBack, Accepts;
    var n, bottom := TwoBlocks(), Genesis(GENESIS).(total := 2);
    TheChain();
    CopyThenEmpty(bottom);
    var top := Tried(bottom, [COPY, EMPTY], LENIENT);
    OneCoinbaseRewound(top.state, COPY, [1], 1);
    assert top.state.Undo(Make(PairToKey([1], 0), Reward(1))) == Chainstate(map[], map[]);
    TipPutBack(top.(chain := bottom.chain, state := Chainstate(map[], map[])), 1, 2);
  }

  lemma CopyThenEmpty(bottom: Node)
    requires bottom == Node([GENESIS], Chainstate(map[PairToKey([1], 0) := Reward(0)], map[]), map[], 2)
    ensures var fork, t := [COPY, EMPTY], Tried(bottom, [COPY, EMPTY], LENIENT);
            && Leading(bottom, fork, LENIENT) == 1 && fork[..1] == [COPY]
            && t.chain == [GENESIS, COPY] && t.state == bottom.state
            && Attaches(t, EMPTY)
  {
    hide PairToKey, Effects, AcceptsAll, Leading, Above, RebindAll;
    OneCoinbase(bottom, COPY, [1]);
    OneCoinbaseAccepted(bottom, COPY, [1]);
    assert [COPY, EMPTY][..1] == [COPY];
    LeadingIff(bottom, [COPY, EMPTY], LENIENT, 1);
  }

  /** Putting TIP back on genesis. */
  lemma TipPutBack(n: Node, k: nat, total: nat)
    requires n.chain == [GENESIS]
    ensures var r := PutBack(n, [TIP], k, total, LENIENT);
            && r.0 == (if k == 0 then OutOfRange else Kept)
            && r.1.chain == [GENESIS, TIP]
            && r.1.state == n.state.Do(Make(PairToKey([2], 0), Reward(1)))
            && (k > 0 ==> r.1.total == total)
  {
    hide PairToKey, Effects, AcceptsAll, Leading, Above, RebindAll;
    OneCoinbase(n, TIP, [2]);
    OneCoinbaseAccepted(n, TIP, [2]);
    assert [TIP][..1] == [TIP];
    LeadingIff(n, [TIP], LENIENT, 1);
  }

  /** When already the first block of the fork is rejected, trimming the fork goes outside; chain
      and chainstate are what they were. */
  lemma FirstForkBlockFails()
    ensures var n, r := TwoBlocks(), ReorgStep(TwoBlocks(), 0, [EMPTY_FIRST, AFTER_EMPTY], 3, LENIENT);
            r.0 == OutOfRange && r.1.chain == n.chain && r.1.state == n.state
  {
    hide PairToKey, TwoBlocks, AddChain, Saved, UndoAll, AcceptsAll, Leading, Bottom, PutBack;
    var n, bottom, fork := TwoBlocks(), Genesis(GENESIS).(total := 2), [EMPTY_FIRST, AFTER_EMPTY];
    TheChain();
    NoBlocks(bottom, LENIENT);
    assert fork[..0] == [];
    LeadingIff(bottom, fork, LENIENT, 0);
    EmptyChain(bottom.state, 1);
    TipPutBack(bottom, 0, 2);
  }

  /** Proofs that verify only the first time. */
  const ONCE := Check((_, _, _) => true, (_, k) => k == 0)

  /** Two blocks that are valid one after the other when they come, as a fork of larger total
      difficulty: neither the fork is accepted nor can the main chain be put back. */
  lemma ValidForkFails()
    ensures var g := Genesis(GENESIS);
            && Attaches(g, LEFT[0]) && Validates(g, LEFT[0], ONCE, 0) && Later(g, LEFT[0])
            && var t := Above(g, [LEFT[0]]);
            && Attaches(t, LEFT[1]) && Validates(t, LEFT[1], ONCE, 0) && Later(t, LEFT[1])
            && Attaches(g, TIP) && Validates(g, TIP, ONCE, 0) && Later(g, TIP)
    ensures ReorgStep(TwoBlocks(), 0, LEFT, 3, ONCE).0 == AssertionFails
  {
    hide PairToKey, Effects, AddChain, RewindChain, ReorgStep, Difficulty;
    var g, n := Genesis(GENESIS), TwoBlocks();
    OneCoinbase(g, LEFT[0], [4]);
    OneCoinbase(Above(g, [LEFT[0]]), LEFT[1], [5]);
    OneCoinbase(g, TIP, [2]);
    assert n.chain == [GENESIS, TIP] && Bottom(n, 0).chain == [GENESIS];
    EveryReorgFails(n, 0, LEFT, 3, ONCE);
  }

  lemma LeftAccepted(n: Node)
    requires n.chain == [GENESIS]
    ensures AcceptsAll(n, LEFT, LENIENT) && Linked(LEFT)
  {
    hide PairToKey, Effects, AcceptsAll, AddChain, RebindAll, Difficulty;
    var t := Extended(n, LEFT[..1]);
    assert LEFT[..1] == [LEFT[0]] && LEFT[..2] == LEFT && LEFT[..2][..1] == LEFT[..1];
    OneCoinbaseAccepted(n, LEFT[0], [4]);
    OneCoinbase(t, LEFT[1], [5]);
    OneCoinbaseAccepted(t, LEFT[1], [5]);
    LastAccepted(n, LEFT, LENIENT);
  }

  /** After the fork LEFT has taken over, the fork RIGHT, of larger total difficulty, starts from a
      block that is no longer there.  The reorganisation onto it throws after the last block of
      the main chain has been cut off, whose difficulty stays in the total. */
  lemma StaleForkCutsChain()
    ensures var r := ReorgStep(TwoBlocks(), 0, LEFT, 3, LENIENT);
            && r.0 == Replaced && r.1.chain == [GENESIS] + LEFT && TotalExact(r.1)
            && var q := ReorgStep(r.1, 1, RIGHT, 4, LENIENT);
            && q.0 == CannotAttach && q.1.chain == [GENESIS, LEFT[0]]
            && q.1.total == 3 && Difficulty(q.1.chain) == 2
  {
    hide PairToKey, TwoBlocks, Extended, Saved, RewindChain, RewindEffects, AddChain, Tried, Leading, PutBack, Accepts, AcceptsAll, ReorgStep, Bottom;
    var n, bottom := TwoBlocks(), Genesis(GENESIS).(total := 2);
    TheChain();
    LeftAccepted(bottom);
    ReorgMeans(n, 0, LEFT, 3, LENIENT);
    var t := ReorgStep(n, 0, LEFT, 3, LENIENT).1;
    LeftTakesOver(bottom, t);
    StaleFork(t);
  }

  lemma LeftTakesOver(bottom: Node, t: Node)
    requires bottom.chain == [GENESIS] && t == Extended(bottom, LEFT).(total := 3)
    ensures t.chain == [GENESIS] + LEFT && TotalExact(t)
    ensures t.state == AddChain(bottom.state, LEFT, 1)
  {
    hide AddChain, RebindAll;
    var c := [GENESIS] + LEFT;
    assert t.chain == c && t.state == AddChain(bottom.state, LEFT, |bottom.chain|);
    assert c[..2] == [GENESIS, LEFT[0]] && c[..1] == [GENESIS] && c[..2][..1] == c[..1] && c[..1][..0] == [];
    assert Difficulty(c) == Difficulty(c[..2]) + 1 == Difficulty(c[..1]) + 2;
  }

  lemma StaleFork(t: Node)
    requires t.chain == [GENESIS] + LEFT && t.total == 3
    ensures var q := ReorgStep(t, 1, RIGHT, 4, LENIENT);
            && q.0 == CannotAttach && q.1.chain == [GENESIS, LEFT[0]]
            && q.1.total == 3 && Difficulty(q.1.chain) == 2
  {
    hide RewindChain, AddChain, ReorgStep, AcceptsAll, Accepts, Leading, Tried, Difficulty, Saved, RewindEffects, PairToKey;
    StaleChain(t.chain);
    OneCoinbaseRewound(t.state, LEFT[1], [5], 2);
    assert !Attaches(Bottom(t, 1), RIGHT[0]);
    ReorgMeans(t, 1, RIGHT, 4, LENIENT);
  }

  lemma StaleChain(c: seq<Block>)
    requires c == [GENESIS] + LEFT
    ensures c[2..] == [LEFT[1]] && c[..2] == [GENESIS, LEFT[0]] && Difficulty(c[..2]) == 2
    ensures Linked(c) && Linked(RIGHT)
  {
    var d := c[..2];
    assert d[..1] == [GENESIS] && d[..1][..0] == [];
    assert Difficulty(d) == Difficulty(d[..1]) + 1;
  }
}
