/** Reorganisations of which the fork fails: exactly when the main chain and its chainstate come
    back.  Where the rewind damages an output, the damage outlasts putting the old blocks back. */
module ChainFailures {
  import opened Options
  import opened ChainstateModel
  import opened ChainstateUndo
  import opened ChainModel
  import opened ChainRewind
  import opened ChainRuns

  // ---------------------------------------------------------------- heights of records

  /** Every record that the effects make is of a height from lo to below hi. */
  predicate MadeWithin(es: seq<Effect>, lo: nat, hi: nat) {
    forall i :: 0 <= i < |es| && es[i].Make? ==> lo <= es[i].record.height < hi
  }

  lemma {:induction false} BlockMadeWithin(b: Block, height: nat, n: nat)
    requires n <= |b.transactions|
    ensures MadeWithin(BlockEffects(b, height, n), height, height + 1)
  {
    if n > 0 {
      BlockMadeWithin(b, height, n - 1);
      TxMadeWithin(b.transactions[n - 1], height, n == 1);
    }
  }

  lemma TxMadeWithin(tx: Transaction, height: nat, coinbase: bool)
    ensures MadeWithin(TxEffects(tx, height, coinbase), height, height + 1)
  {
  }

  lemma {:induction false} ChainMadeWithin(bs: seq<Block>, h: nat)
    ensures MadeWithin(ChainEffects(bs, h), h, h + |bs|)
  {
    if bs != [] {
      ChainMadeWithin(bs[..|bs| - 1], h);
      BlockMadeWithin(bs[|bs| - 1], h + |bs| - 1, |bs[|bs| - 1].transactions|);
    }
  }

  /** Every record that is there comes from below height h. */
  predicate AllBelow(c: Cell, h: nat) {
    (c.unspent.Some? ==> c.unspent.value.height < h) && (c.spent.Some? ==> c.spent.value.height < h)
  }

  lemma {:induction false} StaysBelow(c: Cell, es: seq<Effect>, key: Key, h: nat)
    requires AllBelow(c, h) && MadeWithin(es, 0, h)
    ensures AllBelow(CellAfter(c, es, key), h)
  {
    if es != [] {
      StaysBelow(c, es[..|es| - 1], key, h);
    }
  }

  lemma GrownBelow(n: Node, key: Key)
    ensures Grown(n) ==> AllBelow(At(n.state, key), |n.chain|)
  {
    hide Effects, ChainEffects, DoAll, CellAfter, Linked, Rising, Found;
    if !Grown(n) {
      return;
    }
    var g, bs := n.chain[0], n.chain[1..];
    EffectsMadeWithin(g, 0);
    CellsAfter(Chainstate(map[], map[]), Effects(g, 0), key);
    StaysBelow(Cell(None, None), Effects(g, 0), key, |n.chain|);
    ChainMadeWithin(bs, 1);
    CellsAfter(Start(g), ChainEffects(bs, 1), key);
    StaysBelow(At(Start(g), key), ChainEffects(bs, 1), key, |n.chain|);
  }

  lemma EffectsMadeWithin(b: Block, height: nat)
    ensures MadeWithin(Effects(b, height), height, height + 1)
  {
    BlockMadeWithin(b, height, |b.transactions|);
  }

  // ---------------------------------------------------------------- damage

  /** The one has a record from below height h, unspent or spent, and the other has none. */
  predicate Lost(c: Cell, d: Cell, h: nat) {
    && (d.unspent.Some? ==> d.unspent.value.height >= h)
    && (d.spent.Some? ==> d.spent.value.height >= h)
    && if c.spent.Some? then c.spent.value.height < h else c.unspent.Some? && c.unspent.value.height < h
  }

  /** Whatever blocks of height h and above do to both, a lost record does not come back. */
  lemma {:induction false} LostForGood(c: Cell, d: Cell, es: seq<Effect>, key: Key, h: nat, hi: nat)
    requires Lost(c, d, h) && MadeWithin(es, h, hi)
    ensures Lost(CellAfter(c, es, key), CellAfter(d, es, key), h)
  {
    if es != [] {
      LostForGood(c, d, es[..|es| - 1], key, h, hi);
    }
  }

  /** An output that valid blocks use and that was not there before them was made by an earlier
      one of them: the rewind takes it away after giving it back. */
  lemma {:induction false} UsedWasMade(s: Chainstate, bs: seq<Block>, h: nat, key: Key)
    requires ValidChain(s, bs, h) && key !in s.storage
    requires Uses(RewindEffects(bs, h), key)
    ensures MadeAfterUse(RewindEffects(bs, h), key)
    decreases |bs|
  {
    hide InputsUnspentOnce, Effects, DoAll, ChainEffects, Uses, Makes, MadeAfterUse, SameEffects, ValidChain;
    if bs == [] {
      assert RewindEffects(bs, h) == [];
      NothingUsedOrMade(key);
    } else {
      var before, b := bs[..|bs| - 1], bs[|bs| - 1];
      var t, last := AddChain(s, before, h), h + |bs| - 1;
      LastValid(s, bs, h);
      LastIsRewoundFirst(bs, h);
      UsesOfBoth(Effects(b, last), RewindEffects(before, h), key);
      if Uses(RewindEffects(before, h), key) {
        UsedWasMade(s, before, h, key);
      } else {
        UsedIsThere(t, Effects(b, last), key);
        SameEffectsRewound(before, h);
        SameUsesAndMakes(ChainEffects(before, h), RewindEffects(before, h), key);
        ValidIsFound(s, before, h);
        FoundEverywhere(s, ChainEffects(before, h), key);
        AfterEffects(At(s, key), ChainEffects(before, h), key);
        CellsAfter(s, ChainEffects(before, h), key);
      }
    }
  }

  lemma UsesOfBoth(a: seq<Effect>, b: seq<Effect>, key: Key)
    ensures Uses(a + b, key) <==> Uses(a, key) || Uses(b, key)
    ensures MadeAfterUse(b, key) || (Uses(a, key) && Makes(b, key)) ==> MadeAfterUse(a + b, key)
  {
    assert forall i :: 0 <= i < |a| ==> (a + b)[i] == a[i];
    assert forall i :: 0 <= i < |b| ==> (a + b)[|a| + i] == b[i];
    if Uses(a + b, key) {
      var i :| 0 <= i < |a + b| && (a + b)[i] == Use(key);
      assert if i < |a| then a[i] == Use(key) else b[i - |a|] == Use(key);
    }
    if Uses(b, key) {
      var i :| 0 <= i < |b| && b[i] == Use(key);
      assert (a + b)[|a| + i] == Use(key);
    }
    if MadeAfterUse(b, key) {
      var i, j :| 0 <= i < j < |b| && b[i] == Use(key) && b[j].Make? && b[j].key == key;
      assert (a + b)[|a| + i] == Use(key) && (a + b)[|a| + j] == b[j];
    }
    if Uses(a, key) && Makes(b, key) {
      var i :| 0 <= i < |a| && a[i] == Use(key);
      var j :| 0 <= j < |b| && b[j].Make? && b[j].key == key;
      assert (a + b)[i] == Use(key) && (a + b)[|a| + j] == b[j];
    }
  }

  lemma UsedIsThere(s: Chainstate, es: seq<Effect>, key: Key)
    requires InputsUnspentOnce(s, es) && Uses(es, key)
    ensures key in s.storage
  {
  }

  /** Where rewinding valid blocks of height h and above does not restore an output that was not
      both unspent and spent, and known from below h, nothing is left of it. */
  lemma DamageIsLoss(s: Chainstate, bs: seq<Block>, h: nat, key: Key)
    requires ValidChain(s, bs, h) && AllBelow(At(s, key), h)
    requires key !in s.storage || key !in s.spent
    ensures RestoredAt(s, RewindEffects(bs, h), key) ||
            Lost(At(s, key), At(RewindChain(AddChain(s, bs, h), bs, h), key), h)
  {
    hide ValidChain, CellAfter, CellBack, ChainEffects, RewindEffects, DoAll, UndoAll, SameEffects, Uses, Makes, MadeAfterUse, Found;
    var es, back := ChainEffects(bs, h), RewindEffects(bs, h);
    ValidIsFound(s, bs, h);
    SameEffectsRewound(bs, h);
    SameUsesAndMakes(es, back, key);
    FoundEverywhere(s, es, key);
    CellsAfter(s, es, key);
    CellsBack(DoAll(s, es), back, key);
    AfterEffects(At(s, key), es, key);
    BackEffects(At(DoAll(s, es), key), back, key);
    if Uses(back, key) && key !in s.storage {
      UsedWasMade(s, bs, h, key);
    }
  }

  /** An output that rewinding bs damages is still different once the former blocks, which can
      be rewound themselves, are added again. */
  lemma DamageStays(s: Chainstate, former: seq<Block>, bs: seq<Block>, h: nat) returns (key: Key)
    requires ValidChain(s, bs, h) && Undoable(s, RewindEffects(former, h))
    requires forall k :: AllBelow(At(s, k), h)
    ensures var es, rewound := ChainEffects(former, h), RewindChain(AddChain(s, bs, h), bs, h);
            Undoable(s, RewindEffects(bs, h)) ||
            CellAfter(At(s, key), es, key) != CellAfter(At(rewound, key), es, key)
  {
    hide ValidChain, RewindEffects, RestoredAt, DoAll, UndoAll, ChainEffects, CellAfter, Lost, SameEffects, Uses, Makes, Found;
    var back, es, rewound := RewindEffects(bs, h), ChainEffects(former, h), RewindChain(AddChain(s, bs, h), bs, h);
    if Undoable(s, back) {
      return [];
    }
    var i :| 0 <= i < |back| && !RestoredAt(s, back, back[i].key);
    key := back[i].key;
    if Uses(es, key) || Makes(es, key) {
      TouchedIsSeparate(s, former, h, key);
      DamageIsLoss(s, bs, h, key);
      ChainMadeWithin(former, h);
      LostForGood(At(s, key), At(rewound, key), es, key, h, h + |former|);
      LostIsDifferent(CellAfter(At(s, key), es, key), CellAfter(At(rewound, key), es, key), h);
    } else {
      ValidIsFound(s, bs, h);
      SameEffectsRewound(bs, h);
      RestoredAtIff(s, ChainEffects(bs, h), back, key);
      Untouched(At(s, key), es, key);
      Untouched(At(rewound, key), es, key);
    }
  }

  lemma {:induction false} Untouched(c: Cell, es: seq<Effect>, key: Key)
    requires !Uses(es, key) && !Makes(es, key)
    ensures CellAfter(c, es, key) == c
  {
    hide Uses, Makes;
    if es != [] {
      LastEffect(es, key);
      Untouched(c, es[..|es| - 1], key);
    }
  }

  /** Blocks that can be rewound touch no output that is both unspent and spent. */
  lemma TouchedIsSeparate(s: Chainstate, bs: seq<Block>, h: nat, key: Key)
    requires Undoable(s, RewindEffects(bs, h))
    requires Uses(ChainEffects(bs, h), key) || Makes(ChainEffects(bs, h), key)
    ensures key !in s.storage || key !in s.spent
  {
    hide ChainEffects, RewindEffects, SameEffects, Uses, Makes, MadeAfterUse, Undoable;
    SameEffectsRewound(bs, h);
    SameUsesAndMakes(ChainEffects(bs, h), RewindEffects(bs, h), key);
    UntouchedIsRestored(s, RewindEffects(bs, h), key);
  }

  lemma DifferentStates(s: Chainstate, t: Chainstate, bs: seq<Block>, h: nat, key: Key)
    requires var es := ChainEffects(bs, h); CellAfter(At(s, key), es, key) != CellAfter(At(t, key), es, key)
    ensures AddChain(s, bs, h) != AddChain(t, bs, h)
  {
    hide DoAll, ChainEffects, CellAfter;
    CellsAfter(s, ChainEffects(bs, h), key);
    CellsAfter(t, ChainEffects(bs, h), key);
  }

  lemma LostIsDifferent(c: Cell, d: Cell, h: nat)
    requires Lost(c, d, h)
    ensures c != d
  {
  }

  /** The fork point with its chainstate, as the main chain was built. */
  function BaseNode(n: Node, src: nat): Node
    requires src < |n.chain|
  {
    n.(chain := n.chain[..src + 1], state := BaseState(n, src))
  }

  /** The fork point after the accepted blocks and the block b were tried. */
  function AfterTrying(bottom: Node, accepted: seq<Block>, b: Block, check: Check): Node {
    Validated(Extended(bottom, accepted), b, check).(chain := bottom.chain, state := bottom.state)
  }

  /** A fork whose blocks `accepted` are accepted and whose next block b is rejected, on a main
      chain that grew from genesis and whose blocks above the fork point can be rewound: the main
      chain and its chainstate come back exactly if the accepted blocks can be rewound, too, and
      all former blocks pass validation once more. */
  lemma FailedForkIff(n: Node, src: nat, accepted: seq<Block>, b: Block, rest: seq<Block>, total: nat, check: Check)
    requires Grown(n) && src < |n.chain| && Linked(accepted + [b] + rest)
    requires Rewindable(BaseState(n, src), n.chain[src + 1..], src + 1)
    requires AcceptsAll(BaseNode(n, src), accepted, check)
    requires Attaches(Extended(BaseNode(n, src), accepted), b)
    requires !Accepts(Extended(BaseNode(n, src), accepted), b, check)
    ensures var r := ReorgStep(n, src, accepted + [b] + rest, total, check);
            r.0 in {Kept, OutOfRange} && r.1.chain == n.chain && r.1.state == n.state <==>
            && Rewindable(BaseState(n, src), accepted, src + 1)
            && AcceptsAll(AfterTrying(BaseNode(n, src), accepted, b, check), n.chain[src + 1..], check)
  {
    hide AddChain, RewindChain, RewindEffects, Saved, Accepts, AcceptsAll, Reaches, RebindAll, Leading, Undoable, UsesOnce, Found, ChainEffects, Start, PutBack;
    var fork, bottom, base, former := accepted + [b] + rest, Bottom(n, src), BaseState(n, src), n.chain[src + 1..];
    var k := |accepted|;
    assert fork[..k] == accepted && fork[k] == b;
    BottomIsBase(n, src);
    GrownSplit(n, src);
    assert bottom == BaseNode(n, src);
    LeadingIff(bottom, fork, check, k);
    assert Again(bottom, fork, check) == AfterTrying(bottom, accepted, b, check);
    ReorgMeans(n, src, fork, total, check);
    assert bottom.chain + former == n.chain;
    AcceptedIsValid(bottom, accepted, check);
    ValidIsFound(base, accepted, src + 1);
    RewindsIff(base, accepted, src + 1);
    if UsesOnce(RewindEffects(accepted, src + 1)) && !Undoable(base, RewindEffects(accepted, src + 1)) {
      DamagedFork(n, src, accepted, b, rest, total, check);
    }
  }

  /** The chainstate comes back only if the accepted blocks can be rewound. */
  lemma DamagedFork(n: Node, src: nat, accepted: seq<Block>, b: Block, rest: seq<Block>, total: nat, check: Check)
    requires Grown(n) && src < |n.chain|
    requires Undoable(BaseState(n, src), RewindEffects(n.chain[src + 1..], src + 1))
    requires Leading(BaseNode(n, src), accepted + [b] + rest, check) == |accepted|
    requires ValidChain(BaseState(n, src), accepted, src + 1)
    ensures var r := ReorgStep(n, src, accepted + [b] + rest, total, check);
            r.0 in {Kept, OutOfRange} && r.1.state == n.state ==> Undoable(BaseState(n, src), RewindEffects(accepted, src + 1))
  {
    hide AddChain, RewindChain, RewindEffects, Saved, Tried, Leading, Undoable, Found, ChainEffects, Start, ValidChain, AllBelow, CellAfter, Linked, Rising;
    if Undoable(BaseState(n, src), RewindEffects(accepted, src + 1)) {
      return;
    }
    BottomIsBase(n, src);
    var fork, bottom, base, former := accepted + [b] + rest, BaseNode(n, src), BaseState(n, src), n.chain[src + 1..];
    assert fork[..|accepted|] == accepted;
    GrownSplit(n, src);
    PrefixGrown(n, src);
    forall k
      ensures AllBelow(At(base, k), src + 1)
    {
      GrownBelow(bottom, k);
    }
    var key := DamageStays(base, former, accepted, src + 1);
    var rewound := RewindChain(AddChain(base, accepted, src + 1), accepted, src + 1);
    DifferentStates(base, rewound, former, src + 1, key);
    TriedBlocks(bottom, fork, check);
    var again := Tried(bottom, fork, check).(chain := bottom.chain, state := rewound);
    PutBackState(again, former, |accepted|, n.total, check);
  }

  lemma PutBackState(again: Node, former: seq<Block>, k: nat, total: nat, check: Check)
    requires again.chain != []
    ensures var r := PutBack(again, former, k, total, check);
            r.0 in {Kept, OutOfRange} ==> r.1.state == AddChain(again.state, former, |again.chain|)
  {
    hide AddChain, Leading, Tried;
    TriedBlocks(again, former, check);
    assert former[..|former|] == former;
  }
}
