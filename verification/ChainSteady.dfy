/** Reorganisations and runs under checks that do not depend on how often the computations of a
    block have been bound: what passed once passes again. */
module ChainSteady {
  import opened Numerals
  import opened ChainstateModel
  import opened ChainstateUndo
  import opened ChainModel
  import opened ChainRewind
  import opened ChainRuns
  import opened ChainFailures

  /** Proofs that verify or not however often the computations have been bound. */
  ghost predicate IgnoresCount(check: Check) {
    forall b: Block, j: nat, k: nat :: check.proofs(b, j) == check.proofs(b, k)
  }

  /** For such a check the counts do not matter. */
  lemma CountsDoNotMatter(n: Node, m: Node, bs: seq<Block>, check: Check)
    requires n.chain != [] && m.chain == n.chain && m.state == n.state && IgnoresCount(check)
    ensures AcceptsAll(n, bs, check) <==> AcceptsAll(m, bs, check)
  {
    hide AddChain, Reaches, RebindAll, Bound;
    assert forall k :: 0 <= k < |bs| ==>
      Extended(n, bs[..k]).chain == Extended(m, bs[..k]).chain && Extended(n, bs[..k]).state == Extended(m, bs[..k]).state;
    forall k | 0 <= k < |bs|
      ensures Accepts(Extended(n, bs[..k]), bs[k], check) <==> Accepts(Extended(m, bs[..k]), bs[k], check)
    {
      SameWithoutCount(Extended(n, bs[..k]), Extended(m, bs[..k]), bs[k], check);
    }
  }

  lemma SameWithoutCount(n: Node, m: Node, b: Block, check: Check)
    requires n.chain != [] && m.chain == n.chain && m.state == n.state && IgnoresCount(check)
    ensures Accepts(n, b, check) <==> Accepts(m, b, check)
  {
    hide InputsUnspentOnce, Effects;
    assert check.proofs(b, Bound(n.bound, b)) == check.proofs(b, Bound(m.bound, b));
  }

  /** Under such a check the former blocks, which passed on the chainstate of the fork point, pass
      again.  So if the blocks concerned can be rewound, the fork takes over exactly if all of its
      blocks are accepted; if one is rejected, chain and chainstate are what they were; and no
      assertion fails. */
  lemma SteadyReorg(n: Node, src: nat, fork: seq<Block>, total: nat, check: Check)
    requires Grown(n) && src < |n.chain| && Linked(fork) && IgnoresCount(check)
    requires AcceptsAll(BaseNode(n, src), n.chain[src + 1..], check)
    requires Rewindable(BaseState(n, src), n.chain[src + 1..], src + 1)
    ensures var base, r := BaseNode(n, src), ReorgStep(n, src, fork, total, check);
            var k := Leading(base, fork, check);
            && (r.0 == Replaced <==> AcceptsAll(base, fork, check))
            && (r.0 == Replaced ==> r.1 == Extended(base, fork).(total := total))
            && (fork != [] && !Attaches(base, fork[0]) ==> r == (CannotAttach, base))
            && (IsRejected(base, fork, check) && Rewindable(base.state, fork[..k], src + 1) ==>
                  r.0 == (if k == 0 then OutOfRange else Kept) && r.1.chain == n.chain && r.1.state == n.state)
  {
    hide AddChain, RewindChain, RewindEffects, Saved, Accepts, AcceptsAll, Tried, RebindAll, Leading, Undoable, UsesOnce, Start, Found, ChainEffects, Linked, Rising;
    var base, former := BaseNode(n, src), n.chain[src + 1..];
    LinkedChain(n);
    BottomIsBase(n, src);
    GrownSplit(n, src);
    assert Bottom(n, src) == base && base.chain + former == n.chain;
    ReorgMeans(n, src, fork, total, check);
    CountsDoNotMatter(base, Again(base, fork, check), former, check);
  }

  lemma LinkedChain(n: Node)
    requires Grown(n)
    ensures Linked(n.chain)
  {
  }

  // ---------------------------------------------------------------- runs

  lemma {:induction false} RebindSplit(bound: map<seq<byte>, nat>, a: seq<Block>, b: seq<Block>)
    ensures RebindAll(bound, a + b) == RebindAll(RebindAll(bound, a), b)
  {
    hide Rebind;
    if b == [] {
      assert a + b == a;
    } else {
      RebindSplit(bound, a, b[..|b| - 1]);
      assert (a + b)[..|a + b| - 1] == a + b[..|b| - 1];
    }
  }

  lemma ExtendedSplit(n: Node, a: seq<Block>, b: seq<Block>)
    ensures Extended(n, a + b) == Extended(Extended(n, a), b)
  {
    hide AddChain, RebindAll, Difficulty;
    AddChainSplit(n.state, a, b, |n.chain|);
    RebindSplit(n.bound, a, b);
    DifficultySplit(a, b);
    assert n.chain + (a + b) == n.chain + a + b;
  }

  /** Accepting can be split at any block. */
  lemma {:induction false} AcceptsSplit(n: Node, a: seq<Block>, b: seq<Block>, check: Check)
    requires n.chain != []
    ensures AcceptsAll(n, a + b, check) <==> AcceptsAll(n, a, check) && AcceptsAll(Extended(n, a), b, check)
    decreases |b|
  {
    hide Accepts, AcceptsAll, AddChain, RebindAll, Difficulty;
    if b == [] {
      assert a + b == a;
      NoBlocks(Extended(n, a), check);
    } else {
      var before := b[..|b| - 1];
      AcceptsSplit(n, a, before, check);
      ExtendedSplit(n, a, before);
      LastAccepted(n, a + b, check);
      LastAccepted(Extended(n, a), b, check);
      assert (a + b)[..|a + b| - 1] == a + before;
    }
  }

  /** Every block of the main chain passes validation on those before it. */
  predicate ValidlyGrown(n: Node, check: Check) {
    Grown(n) && AcceptsAll(Genesis(n.chain[0]), n.chain[1..], check)
  }

  /** Blocks that are mined are valid, and whatever a reorganisation rewinds can be rewound. */
  predicate SteadyHarmless(n: Node, e: Event, check: Check)
    requires n.chain != []
  {
    match e
    case Arrives(_) => true
    case Mined(b, _) => Attaches(n, b) && Later(n, b) ==> Validates(n, b, check, 0)
    case Switch(src, fork, _) =>
      && Linked(fork) && src < |n.chain|
      && var base := BaseNode(n, src);
      && Rewindable(base.state, n.chain[src + 1..], src + 1)
      && (IsRejected(base, fork, check) ==>
            Accepts(base, fork[0], check) && Rewindable(base.state, fork[..Leading(base, fork, check)], src + 1))
  }

  lemma ValidSplit(n: Node, src: nat, check: Check)
    requires ValidlyGrown(n, check) && src < |n.chain| && IgnoresCount(check)
    ensures AcceptsAll(BaseNode(n, src), n.chain[src + 1..], check)
    ensures ValidlyGrown(BaseNode(n, src), check)
  {
    hide AddChain, AcceptsAll, Found, ChainEffects, AddBlock, Linked, Rising, RebindAll;
    var g, a, b := Genesis(n.chain[0]), n.chain[1..src + 1], n.chain[src + 1..];
    assert n.chain[1..] == a + b && n.chain[..src + 1] == [n.chain[0]] + a;
    AcceptsSplit(g, a, b, check);
    PrefixGrown(n, src);
    CountsDoNotMatter(Extended(g, a), BaseNode(n, src), b, check);
    assert BaseNode(n, src).chain[1..] == a;
  }

  lemma ValidFurther(n: Node, src: nat, bs: seq<Block>, t: Node, check: Check)
    requires ValidlyGrown(n, check) && src < |n.chain| && IgnoresCount(check)
    requires AcceptsAll(BaseNode(n, src), bs, check) && t.chain == n.chain[..src + 1] + bs
    ensures Grown(t) ==> ValidlyGrown(t, check)
  {
    hide AddChain, AcceptsAll, Found, ChainEffects, AddBlock, Linked, Rising, RebindAll;
    ValidSplit(n, src, check);
    var g, a := Genesis(n.chain[0]), n.chain[1..src + 1];
    assert BaseNode(n, src).chain[1..] == a && t.chain[1..] == a + bs;
    AcceptsSplit(g, a, bs, check);
    assert n.chain[..src + 1] == [n.chain[0]] + a;
    CountsDoNotMatter(BaseNode(n, src), Extended(g, a), bs, check);
  }

  lemma TipIsBase(n: Node)
    requires Grown(n)
    ensures BaseNode(n, |n.chain| - 1) == n
  {
    hide AddChain, Found, ChainEffects, AddBlock, Linked, Rising;
    assert n.chain[..|n.chain| - 1 + 1] == n.chain;
  }

  lemma OneValid(n: Node, b: Block, t: Node, check: Check)
    requires ValidlyGrown(n, check) && IgnoresCount(check) && Grown(t) && t.chain == n.chain + [b]
    requires Attaches(n, b) && Validates(n, b, check, 0) && Later(n, b)
    ensures ValidlyGrown(t, check)
  {
    hide AddChain, ValidlyGrown, Reaches, Linked, Rising, RebindAll;
    GrownPart(n, check);
    assert check.proofs(b, Bound(n.bound, b)) == check.proofs(b, 0);
    NoBlocks(n, check);
    assert [b][..0] == [];
    TipIsBase(n);
    assert n.chain[..|n.chain| - 1 + 1] == n.chain;
    ValidFurther(n, |n.chain| - 1, [b], t, check);
  }

  lemma GrownPart(n: Node, check: Check)
    requires ValidlyGrown(n, check)
    ensures n.chain != [] && Grown(n)
  {
  }

  lemma SteadyIsHarmless(n: Node, e: Event, check: Check)
    requires n.chain != [] && ValidlyGrown(n, check) && IgnoresCount(check) && SteadyHarmless(n, e, check)
    ensures Harmless(n, e, check)
  {
    hide AddChain, AcceptsAll, Found, Rewindable, Tried, RebindAll, Leading, ValidlyGrown, InputsUnspentOnce, Effects, Linked, Rising, Accepts;
    match e
    case Arrives(_) =>
    case Mined(b, _) =>
      if Attaches(n, b) && Later(n, b) {
        ValidatedIsFound(n.state, Effects(b, |n.chain|));
      }
    case Switch(src, fork, _) =>
      ValidSplit(n, src, check);
      CountsDoNotMatter(BaseNode(n, src), Again(BaseNode(n, src), fork, check), n.chain[src + 1..], check);
  }

  lemma MinedBlockStays(n: Node, b: Block, times: nat, check: Check)
    requires n.chain != [] && Harmless(n, Mined(b, times), check) && Attaches(n, b) && Later(n, b)
    ensures Next(n, Mined(b, times), check).1.chain == n.chain + [b]
  {
  }

  lemma SteadyStep(n: Node, e: Event, check: Check)
    requires n.chain != [] && ValidlyGrown(n, check) && IgnoresCount(check) && SteadyHarmless(n, e, check)
    ensures GoesWell(n, e, check) && ValidlyGrown(Next(n, e, check).1, check)
  {
    hide ValidlyGrown, Grown, AddChain, AddBlock, Validates, ReorgStep, Harmless, GoesWell, AcceptsAll, BaseState, Linked, Rising, Leading, Rewindable;
    GrownPart(n, check);
    SteadyIsHarmless(n, e, check);
    StepKeepsGrown(n, e, check);
    WellIsGrown(n, e, check);
    match e
    case Arrives(b) =>
      if Attaches(n, b) && Validates(n, b, check, 0) && Later(n, b) {
        OneValid(n, b, Above(n, [b]), check);
      }
    case Mined(b, times) =>
      if Attaches(n, b) && Later(n, b) {
        MinedBlockStays(n, b, times, check);
        OneValid(n, b, Next(n, e, check).1, check);
      }
    case Switch(src, fork, total) =>
      SteadySwitch(n, src, fork, total, check);
  }

  lemma SteadySwitch(n: Node, src: nat, fork: seq<Block>, total: nat, check: Check)
    requires n.chain != [] && ValidlyGrown(n, check) && IgnoresCount(check)
    requires SteadyHarmless(n, Switch(src, fork, total), check)
    ensures ValidlyGrown(ReorgStep(n, src, fork, total, check).1, check)
  {
    hide ValidlyGrown, Grown, AddChain, AddBlock, Accepts, ReorgStep, AcceptsAll, BaseState, Linked, Rising, Leading, Rewindable, RebindAll;
    var r := ReorgStep(n, src, fork, total, check);
    GrownPart(n, check);
    SteadyIsHarmless(n, Switch(src, fork, total), check);
    SwitchKeepsGrown(n, src, fork, total, check);
    ValidSplit(n, src, check);
    SteadyReorg(n, src, fork, total, check);
    NoBlocks(BaseNode(n, src), check);
    if r.0 == Replaced {
      ValidFurther(n, src, fork, r.1, check);
    } else if r.0 == CannotAttach {
      assert n.chain[..src + 1] + [] == n.chain[..src + 1];
      ValidFurther(n, src, [], r.1, check);
    } else {
      assert n.chain[..src + 1] + n.chain[src + 1..] == n.chain;
      ValidFurther(n, src, n.chain[src + 1..], r.1, check);
    }
  }

  predicate StaysValid(n: Node, events: seq<Event>, check: Check)
    requires n.chain != []
    decreases |events|
  {
    && ValidlyGrown(n, check)
    && (events != [] && SteadyHarmless(n, events[0], check) ==>
          && GoesWell(n, events[0], check)
          && var t := Next(n, events[0], check).1;
          && t.chain != [] && StaysValid(t, events[1..], check))
  }

  /** Over every run from genesis under such a check: validation need not be asked for again.  As
      long as mined blocks are valid and what a reorganisation rewinds can be rewound, every block
      of the main chain is valid, no assertion fails, and the chainstate is that of the chain. */
  lemma EverySteadyRun(genesis: Block, events: seq<Event>, check: Check)
    requires IgnoresCount(check)
    ensures StaysValid(Genesis(genesis), events, check)
  {
    hide AddBlock, StaysValid;
    var g := Genesis(genesis);
    EveryRun(genesis, [], check);
    NoBlocks(g, check);
    assert g.chain[1..] == [];
    RunStaysValid(g, events, check);
  }

  lemma {:induction false} RunStaysValid(n: Node, events: seq<Event>, check: Check)
    requires n.chain != [] && ValidlyGrown(n, check) && IgnoresCount(check)
    ensures StaysValid(n, events, check)
    decreases |events|
  {
    hide Next, SteadyHarmless, ValidlyGrown, GoesWell;
    if events != [] && SteadyHarmless(n, events[0], check) {
      SteadyStep(n, events[0], check);
      var t := Next(n, events[0], check).1;
      GrownPart(t, check);
      RunStaysValid(t, events[1..], check);
    }
  }
}
