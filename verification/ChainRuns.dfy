/** What a reorganisation means, and what holds over every run from genesis. */
module ChainRuns {
  import opened Numerals
  import opened ChainstateModel
  import opened ChainstateUndo
  import opened ChainModel
  import opened ChainRewind

  // ---------------------------------------------------------------- one reorganisation

  /** Each block names the one before it. */
  predicate Linked(bs: seq<Block>) {
    forall i :: 0 < i < |bs| ==> bs[i].header.prev == bs[i - 1].header.hash
  }

  /** Each block is later than the one before it. */
  predicate Rising(bs: seq<Block>) {
    forall i :: 0 < i < |bs| ==> bs[i - 1].header.timestamp < bs[i].header.timestamp
  }

  /** The fork stops at a block that attaches and is rejected. */
  predicate IsRejected(bottom: Node, fork: seq<Block>, check: Check)
    requires bottom.chain != []
  {
    var k := Leading(bottom, fork, check);
    k < |fork| && Attaches(Extended(bottom, fork[..k]), fork[k])
  }

  /** Where the former blocks are put back: chain and chainstate of the fork point, and the
      blocks of the fork that were tried bound once more. */
  function Again(bottom: Node, fork: seq<Block>, check: Check): Node
    requires bottom.chain != []
  {
    Tried(bottom, fork, check).(chain := bottom.chain, state := bottom.state)
  }

  lemma TriedBlocks(bottom: Node, fork: seq<Block>, check: Check)
    requires bottom.chain != []
    ensures var k, t := Leading(bottom, fork, check), Tried(bottom, fork, check);
            && t.chain == bottom.chain + fork[..k]
            && t.state == AddChain(bottom.state, fork[..k], |bottom.chain|)
            && (k < |fork| ==> (Attaches(t, fork[k]) <==> Attaches(Extended(bottom, fork[..k]), fork[k])))
            && (!IsRejected(bottom, fork, check) ==> t == Extended(bottom, fork[..k]))
  {
    hide Leading, AddChain, Reaches;
    assert fork[..|fork|] == fork;
  }

  /** Where a linked fork stops: only its first block can fail to attach. */
  lemma FirstOfFork(bottom: Node, fork: seq<Block>, check: Check)
    requires bottom.chain != [] && Linked(fork)
    ensures var k := Leading(bottom, fork, check);
            && (k == |fork| <==> AcceptsAll(bottom, fork, check))
            && (k == 0 ==> Extended(bottom, fork[..k]) == bottom)
            && (0 < k < |fork| ==> IsRejected(bottom, fork, check))
            && (fork != [] && !Attaches(bottom, fork[0]) ==> k == 0)
            && (k == 0 && fork != [] ==> !Accepts(bottom, fork[0], check))
  {
    hide AddChain, Validates, RebindAll;
    var k := Leading(bottom, fork, check);
    NoBlocks(bottom, check);
    assert fork[..0] == [] && fork[..|fork|] == fork;
    LeadingIff(bottom, fork, check, k);
    LeadingIff(bottom, fork, check, 0);
    LeadingIff(bottom, fork, check, |fork|);
  }

  /** Putting blocks back that link on succeeds exactly if each of them passes validation, with
      its computations bound as often as they are by then. */
  lemma PutBackMeans(again: Node, former: seq<Block>, k: nat, total: nat, check: Check)
    requires again.chain != [] && Linked(again.chain + former)
    ensures var r := PutBack(again, former, k, total, check);
            if !AcceptsAll(again, former, check) then r.0 == AssertionFails
            else r.0 == (if k == 0 then OutOfRange else Kept)
                 && r.1 == Extended(again, former).(total := r.1.total) && (k > 0 ==> r.1.total == total)
  {
    hide AddChain, Accepts, AcceptsAll, Tried, RebindAll, Leading;
    var j := Leading(again, former, check);
    TriedBlocks(again, former, check);
    LeadingIff(again, former, check, j);
    LeadingIff(again, former, check, |former|);
    assert former[..|former|] == former;
    if j < |former| {
      assert (again.chain + former)[|again.chain| + j] == former[j];
      assert (again.chain + former[..j])[|again.chain| + j - 1] == (again.chain + former)[|again.chain| + j - 1];
    }
  }

  /** What becomes of a reorganisation whose first rewind asserts nothing false, whatever that
      rewind gives: the fork is judged on `bottom`.  If all of its blocks are accepted, it takes
      over.  If it does not attach, the former blocks are gone.  If it is rejected after k blocks
      that can be rewound, the former blocks are put back exactly if all of them pass validation
      once more; if one does not, the assertion around append_block fails; and if k is 0, trimming
      the fork leaves its vector. */
  lemma ReorgMeans(n: Node, src: nat, fork: seq<Block>, total: nat, check: Check)
    requires src < |n.chain| && Linked(n.chain) && Linked(fork)
    requires Saved(n.state, RewindEffects(n.chain[src + 1..], src + 1))
    ensures var bottom, former := Bottom(n, src), n.chain[src + 1..];
            var k, again := Leading(bottom, fork, check), Again(bottom, fork, check);
            var r := ReorgStep(n, src, fork, total, check);
            && (r.0 == Replaced <==> AcceptsAll(bottom, fork, check))
            && (r.0 == Replaced ==> r.1 == Extended(bottom, fork).(total := total))
            && (fork != [] && !Attaches(bottom, fork[0]) ==> r == (CannotAttach, bottom))
            && (IsRejected(bottom, fork, check) && Rewindable(bottom.state, fork[..k], src + 1) ==>
                  if !AcceptsAll(again, former, check) then r.0 == AssertionFails
                  else r.0 == (if k == 0 then OutOfRange else Kept)
                       && r.1 == Extended(again, former).(total := r.1.total)
                       && (k > 0 ==> r.1.total == n.total))
  {
    hide Saved, RewindEffects, UndoAll, Rewindable, AddChain, RewindChain, Accepts, AcceptsAll, Tried, RebindAll, Leading, PutBack, Linked;
    var bottom, former := Bottom(n, src), n.chain[src + 1..];
    var k, again := Leading(bottom, fork, check), Again(bottom, fork, check);
    TriedBlocks(bottom, fork, check);
    FirstOfFork(bottom, fork, check);
    assert bottom.chain + former == n.chain && |bottom.chain| == src + 1;
    assert fork[..|fork|] == fork;
    var t := Tried(bottom, fork, check);
    PutBackReplacesNothing(t.(chain := bottom.chain, state := RewindChain(t.state, fork[..k], src + 1)), former, k, n.total, check);
    if IsRejected(bottom, fork, check) && Rewindable(bottom.state, fork[..k], src + 1) {
      AcceptedBlocksRewind(bottom, fork, check);
      PutBackMeans(again, former, k, n.total, check);
    }
  }

  lemma PutBackReplacesNothing(again: Node, former: seq<Block>, k: nat, total: nat, check: Check)
    requires again.chain != []
    ensures PutBack(again, former, k, total, check).0 != Replaced
  {
  }

  lemma AcceptedBlocksRewind(bottom: Node, fork: seq<Block>, check: Check)
    requires bottom.chain != []
    ensures var k, h := Leading(bottom, fork, check), |bottom.chain|;
            && ValidChain(bottom.state, fork[..k], h)
            && (Rewindable(bottom.state, fork[..k], h) ==>
                  && RewindChain(AddChain(bottom.state, fork[..k], h), fork[..k], h) == bottom.state
                  && Saved(AddChain(bottom.state, fork[..k], h), RewindEffects(fork[..k], h)))
  {
    hide AcceptsAll, ValidChain, AddChain, RewindChain, Leading, RewindEffects, Saved;
    var k, h := Leading(bottom, fork, check), |bottom.chain|;
    LeadingIff(bottom, fork, check, k);
    AcceptedIsValid(bottom, fork[..k], check);
    ValidIsFound(bottom.state, fork[..k], h);
    RewindsIff(bottom.state, fork[..k], h);
  }

  // ---------------------------------------------------------------- from genesis

  function Start(genesis: Block): Chainstate {
    AddBlock(Chainstate(map[], map[]), genesis, 0)
  }

  /** The main chain is linked and its timestamps rise, the chainstate is what adding all of its
      blocks makes of an empty one, and every output that they use was found. */
  predicate Grown(n: Node) {
    && n.chain != [] && Linked(n.chain) && Rising(n.chain)
    && n.state == AddChain(Start(n.chain[0]), n.chain[1..], 1)
    && Found(Start(n.chain[0]), ChainEffects(n.chain[1..], 1))
  }

  /** The chainstate of the main chain up to height src. */
  function BaseState(n: Node, src: nat): Chainstate
    requires src < |n.chain|
  {
    AddChain(Start(n.chain[0]), n.chain[1..src + 1], 1)
  }

  lemma GrownSplit(n: Node, src: nat)
    requires Grown(n) && src < |n.chain|
    ensures var base, former := BaseState(n, src), n.chain[src + 1..];
            && n.state == AddChain(base, former, src + 1)
            && Found(base, ChainEffects(former, src + 1))
            && Found(Start(n.chain[0]), ChainEffects(n.chain[1..src + 1], 1))
  {
    hide AddBlock, DoAll, Found, ChainEffects;
    var g, a, b := Start(n.chain[0]), n.chain[1..src + 1], n.chain[src + 1..];
    assert n.chain[1..] == a + b;
    AddChainSplit(g, a, b, 1);
    FoundAppend(g, ChainEffects(a, 1), ChainEffects(b, src + 1));
  }

  /** The main chain can be rewound to the fork point: then that is where the fork is judged. */
  lemma BottomIsBase(n: Node, src: nat)
    requires Grown(n) && src < |n.chain|
    ensures Bottom(n, src).state == BaseState(n, src)
       <==> Undoable(BaseState(n, src), RewindEffects(n.chain[src + 1..], src + 1))
    ensures Saved(n.state, RewindEffects(n.chain[src + 1..], src + 1))
       <==> UsesOnce(RewindEffects(n.chain[src + 1..], src + 1))
  {
    hide AddChain, RewindChain, RewindEffects, Saved, Undoable, UsesOnce, ChainEffects, Found, Start;
    GrownSplit(n, src);
    RewindsIff(BaseState(n, src), n.chain[src + 1..], src + 1);
  }

  lemma GrowsFurther(n: Node, src: nat, t: Node, bs: seq<Block>)
    requires Grown(n) && src < |n.chain| && Linked(t.chain) && Rising(t.chain)
    requires t.chain == n.chain[..src + 1] + bs && t.state == AddChain(BaseState(n, src), bs, src + 1)
    requires Found(BaseState(n, src), ChainEffects(bs, src + 1))
    ensures Grown(t)
  {
    hide AddBlock, DoAll, Found, ChainEffects, Linked, Rising;
    var g, a := Start(n.chain[0]), n.chain[1..src + 1];
    GrownSplit(n, src);
    assert t.chain[1..] == a + bs;
    AddChainSplit(g, a, bs, 1);
    FoundAppend(g, ChainEffects(a, 1), ChainEffects(bs, src + 1));
  }

  /** What is accepted one after the other links on, and is later each time. */
  lemma AcceptedIsLinked(n: Node, bs: seq<Block>, check: Check)
    requires n.chain != [] && AcceptsAll(n, bs, check)
    ensures Linked(n.chain) ==> Linked(n.chain + bs)
    ensures Rising(n.chain) ==> Rising(n.chain + bs)
  {
    hide AddChain, Validates, RebindAll, Difficulty;
    var all := n.chain + bs;
    forall i | |n.chain| <= i < |all|
      ensures all[i].header.prev == all[i - 1].header.hash && all[i - 1].header.timestamp < all[i].header.timestamp
    {
      var k := i - |n.chain|;
      assert Accepts(Extended(n, bs[..k]), bs[k], check);
      assert (n.chain + bs[..k])[i - 1] == all[i - 1];
    }
  }

  // ---------------------------------------------------------------- runs

  /** A block comes for the main chain; the node has mined one, whose computations it has bound
      some times; or a fork, with its total difficulty, takes over at height src. */
  datatype Event =
    | Arrives(b: Block)
    | Mined(b: Block, times: nat)
    | Switch(src: nat, fork: seq<Block>, total: nat)

  /** A block that arrives is validated with its computations not bound before, and a mined one
      not at all. */
  function Next(n: Node, e: Event, check: Check): (Outcome, Node)
    requires n.chain != []
  {
    match e
    case Arrives(b) =>
      (Kept, if Attaches(n, b) && Validates(n, b, check, 0) && Later(n, b) then Above(n, [b]) else n)
    case Mined(b, times) =>
      if !Attaches(n, b) then (CannotAttach, n)
      else if !Later(n, b) then (Kept, n)
      else if !Found(n.state, Effects(b, |n.chain|)) then (AssertionFails, n)
      else (Kept, Above(n, [b]).(bound := n.bound[b.header.hash := times]))
    case Switch(src, fork, total) => ReorgStep(n, src, fork, total, check)
  }

  /** The outputs that a mined block uses are there.  A reorganisation goes well if the fork starts
      from a block of the main chain, whose later blocks can be rewound; and if it is rejected,
      not at its first block, its accepted blocks can be rewound, too, and the former blocks pass
      validation once more. */
  predicate Harmless(n: Node, e: Event, check: Check)
    requires n.chain != []
  {
    match e
    case Arrives(_) => true
    case Mined(b, _) => Attaches(n, b) && Later(n, b) ==> Found(n.state, Effects(b, |n.chain|))
    case Switch(src, fork, _) =>
      && Linked(fork) && src < |n.chain|
      && var former, base := n.chain[src + 1..], BaseState(n, src);
      && var bottom := n.(chain := n.chain[..src + 1], state := base);
      && Rewindable(base, former, src + 1)
      && (IsRejected(bottom, fork, check) ==>
            && Accepts(bottom, fork[0], check)
            && Rewindable(base, fork[..Leading(bottom, fork, check)], src + 1)
            && AcceptsAll(Again(bottom, fork, check), former, check))
  }

  /** The totals that a reorganisation works with are right: that of a fork that takes over, and,
      when it does not attach, that of no blocks cut off. */
  predicate TotalsRight(n: Node, e: Event, check: Check)
    requires n.chain != []
  {
    match e
    case Switch(src, fork, total) =>
      src < |n.chain| ==>
        && (Next(n, e, check).0 == Replaced ==> total == Difficulty(n.chain[..src + 1]) + Difficulty(fork))
        && (Next(n, e, check).0 == CannotAttach ==> Difficulty(n.chain[src + 1..]) == 0)
    case _ => true
  }

  predicate TotalExact(n: Node) {
    n.total == Difficulty(n.chain)
  }

  lemma SwitchKeepsGrown(n: Node, src: nat, fork: seq<Block>, total: nat, check: Check)
    requires Grown(n)
    ensures var r := ReorgStep(n, src, fork, total, check);
            Harmless(n, Switch(src, fork, total), check) ==>
            && Grown(r.1) && r.0 !in {AssertionFails, OutOfRange}
            && (r.0 == Replaced ==> r.1.chain == n.chain[..src + 1] + fork && r.1.total == total)
            && (r.0 == CannotAttach ==> r.1.chain == n.chain[..src + 1] && r.1.total == n.total)
            && (r.0 == Kept ==> r.1.chain == n.chain && r.1.state == n.state && r.1.total == n.total)
  {
    hide AddChain, RewindChain, RewindEffects, Saved, Rewindable, Accepts, AcceptsAll, Tried, RebindAll, Leading, ReorgStep, Found, ChainEffects, ValidChain, Start, Undoable, UsesOnce, Rising;
    if !Harmless(n, Switch(src, fork, total), check) {
      return;
    }
    var bottom, former, base := Bottom(n, src), n.chain[src + 1..], BaseState(n, src);
    assert Rewindable(base, former, src + 1);
    RewindableParts(base, former, src + 1);
    BottomIsBase(n, src);
    ReorgMeans(n, src, fork, total, check);
    FirstOfFork(bottom, fork, check);
    GrownSplit(n, src);
    PrefixGrown(n, src);
    if AcceptsAll(bottom, fork, check) {
      AcceptedIsLinked(bottom, fork, check);
      AcceptedIsValid(bottom, fork, check);
      ValidIsFound(base, fork, src + 1);
      GrowsFurther(n, src, Extended(bottom, fork), fork);
    } else if IsRejected(bottom, fork, check) {
      assert bottom.chain + former == n.chain;
    } else {
      assert Leading(bottom, fork, check) == 0 && !Attaches(bottom, fork[0]);
    }
  }

  lemma RewindableParts(s: Chainstate, bs: seq<Block>, h: nat)
    requires Rewindable(s, bs, h)
    ensures Undoable(s, RewindEffects(bs, h)) && UsesOnce(RewindEffects(bs, h))
  {
  }

  lemma PrefixGrown(n: Node, src: nat)
    requires Grown(n) && src < |n.chain|
    ensures Grown(n.(chain := n.chain[..src + 1], state := BaseState(n, src)))
    ensures Linked(n.chain[..src + 1]) && Rising(n.chain[..src + 1])
  {
    hide AddBlock, DoAll, Found, ChainEffects;
    GrownSplit(n, src);
    assert n.chain[..src + 1][1..] == n.chain[1..src + 1];
  }

  lemma BlockKeepsGrown(n: Node, b: Block, t: Node)
    requires Grown(n) && Attaches(n, b) && Later(n, b) && Found(n.state, Effects(b, |n.chain|))
    requires t.chain == n.chain + [b] && t.state == AddBlock(n.state, b, |n.chain|)
    ensures Grown(t)
  {
    hide AddChain, Found, Effects, DoAll, AddBlock;
    var src, last := |n.chain| - 1, |n.chain|;
    assert n.chain[..src + 1] == n.chain && n.chain[1..src + 1] == n.chain[1..];
    OneMoreBlock(n.state, [], b, last);
    EmptyChain(n.state, last);
    assert [] + [b] == [b];
    assert ChainEffects([b], last) == Effects(b, last) by { assert [b][..0] == []; }
    GrowsFurther(n, src, t, [b]);
  }

  /** What one event promises. */
  predicate GoesWell(n: Node, e: Event, check: Check)
    requires n.chain != []
  {
    var r := Next(n, e, check);
    && Grown(r.1) && r.0 !in {AssertionFails, OutOfRange}
    && (TotalExact(n) ==> (TotalExact(r.1) <==> TotalsRight(n, e, check)))
  }

  lemma BlockGoesWell(n: Node, b: Block, bound: map<seq<byte>, nat>)
    requires n.chain != [] && Grown(n) && Attaches(n, b) && Later(n, b) && Found(n.state, Effects(b, |n.chain|))
    ensures var t := Above(n, [b]).(bound := bound);
            Grown(t) && (TotalExact(n) ==> TotalExact(t))
  {
    hide Grown, AddBlock, Effects, Found, AddChain;
    OneAbove(n, b);
    DifficultySplit(n.chain, [b]);
    BlockKeepsGrown(n, b, Above(n, [b]).(bound := bound));
  }

  lemma SwitchKeepsTotal(n: Node, src: nat, fork: seq<Block>, total: nat, check: Check)
    requires n.chain != [] && Grown(n)
    ensures Harmless(n, Switch(src, fork, total), check) && TotalExact(n) ==>
              (TotalExact(ReorgStep(n, src, fork, total, check).1) <==> TotalsRight(n, Switch(src, fork, total), check))
  {
    hide Grown, ReorgStep, BaseState, Difficulty, Undoable, UsesOnce, IsRejected, Accepts, AcceptsAll, Linked;
    SwitchKeepsGrown(n, src, fork, total, check);
    if src < |n.chain| {
      assert n.chain[..src + 1] + n.chain[src + 1..] == n.chain;
      DifficultySplit(n.chain[..src + 1], n.chain[src + 1..]);
      DifficultySplit(n.chain[..src + 1], fork);
    }
  }

  lemma StepKeepsGrown(n: Node, e: Event, check: Check)
    requires n.chain != [] && Grown(n) && Harmless(n, e, check)
    ensures GoesWell(n, e, check)
  {
    hide Grown, Effects, Found, ReorgStep, Above, InputsUnspentOnce, BaseState, TotalExact;
    match e
    case Arrives(b) =>
      if Attaches(n, b) && Validates(n, b, check, 0) && Later(n, b) {
        ValidatedIsFound(n.state, Effects(b, |n.chain|));
        BlockGoesWell(n, b, Above(n, [b]).bound);
      }
    case Mined(b, times) =>
      if Attaches(n, b) && Later(n, b) {
        BlockGoesWell(n, b, n.bound[b.header.hash := times]);
      }
    case Switch(src, fork, total) =>
      SwitchKeepsGrown(n, src, fork, total, check);
      SwitchKeepsTotal(n, src, fork, total, check);
  }

  /** Throughout a run, as long as its events are harmless. */
  predicate StaysGrown(n: Node, events: seq<Event>, check: Check)
    requires n.chain != []
    decreases |events|
  {
    && Grown(n)
    && (events != [] && Harmless(n, events[0], check) ==>
          && GoesWell(n, events[0], check)
          && var t := Next(n, events[0], check).1;
          && t.chain != [] && StaysGrown(t, events[1..], check))
  }

  /** The node that starts with genesis. */
  function Genesis(genesis: Block): Node {
    Node([genesis], Start(genesis), map[], genesis.header.difficulty)
  }

  /** From genesis on, over every sequence of blocks that arrive or are mined and of
      reorganisations, whichever forks those choose: as long as they are harmless, no assertion
      fails, no index leaves its vector, and the chainstate is that of the main chain, added block
      by block; and the total difficulty stays exact as long as the totals are right. */
  lemma EveryRun(genesis: Block, events: seq<Event>, check: Check)
    ensures StaysGrown(Genesis(genesis), events, check) && TotalExact(Genesis(genesis))
  {
    hide AddBlock, StaysGrown;
    var g := Genesis(genesis);
    assert g.chain[1..] == [] && [genesis][..0] == [];
    assert ChainEffects([], 1) == [] && Difficulty([genesis]) == genesis.header.difficulty;
    NoEffects(g.state);
    RunStaysGrown(g, events, check);
  }

  lemma {:induction false} RunStaysGrown(n: Node, events: seq<Event>, check: Check)
    requires n.chain != [] && Grown(n)
    ensures StaysGrown(n, events, check)
    decreases |events|
  {
    hide Next, Harmless, Grown, TotalExact, TotalsRight, GoesWell;
    if events != [] && Harmless(n, events[0], check) {
      StepKeepsGrown(n, events[0], check);
      var t := Next(n, events[0], check).1;
      WellIsGrown(n, events[0], check);
      RunStaysGrown(t, events[1..], check);
    }
  }

  lemma WellIsGrown(n: Node, e: Event, check: Check)
    requires n.chain != [] && GoesWell(n, e, check)
    ensures Next(n, e, check).1.chain != [] && Grown(Next(n, e, check).1)
  {
    hide Next, TotalExact, TotalsRight;
  }
}
