/** Rewinding blocks: exactly when it restores the chainstate, for one block that was validated,
    and for any number of blocks that were added. */
module ChainRewind {
  import opened ChainstateModel
  import opened ChainstateUndo
  import opened ChainModel

  // ---------------------------------------------------------------- one block

  /** Validated effects find what they use. */
  lemma {:induction false} ValidatedIsFound(s: Chainstate, es: seq<Effect>)
    requires InputsUnspentOnce(s, es)
    ensures Found(s, es)
  {
    if es != [] {
      var before, e := es[..|es| - 1], es[|es| - 1];
      assert forall i :: 0 <= i < |before| ==> before[i] == es[i];
      ValidatedIsFound(s, before);
      if e.Use? {
        FoundEverywhere(s, before, e.key);
        AfterEffects(At(s, e.key), before, e.key);
        CellsAfter(s, before, e.key);
        assert !Uses(before, e.key);
      }
    }
  }

  /** An output of the block whose key exists already, perhaps because the block repeats a
      transaction, is used later in the block. */
  predicate CopiesUsedLater(s: Chainstate, es: seq<Effect>) {
    forall i :: 0 <= i < |es| && es[i].Make? && es[i].key in s.storage ==>
      exists j :: i < j < |es| && es[j] == Use(es[i].key)
  }

  /** No output to be used has a record saved already. */
  predicate NoneSavedBefore(s: Chainstate, es: seq<Effect>) {
    forall i :: 0 <= i < |es| && es[i].Use? ==> es[i].key !in s.spent
  }

  /** An output is never both unspent and spent. */
  predicate Separate(s: Chainstate) {
    s.storage.Keys !! s.spent.Keys
  }

  lemma ValidatedUndoable(s: Chainstate, es: seq<Effect>)
    requires InputsUnspentOnce(s, es)
    ensures Undoable(s, es) <==> CopiesUsedLater(s, es) && NoneSavedBefore(s, es)
  {
    if Undoable(s, es) {
      forall i | 0 <= i < |es| && es[i].Make? && es[i].key in s.storage
        ensures exists j :: i < j < |es| && es[j] == Use(es[i].key)
      {
        assert RestoredAt(s, es, es[i].key);
        assert Makes(es, es[i].key);
        var j :| 0 <= j < |es| && es[j] == Use(es[i].key);
      }
      forall i | 0 <= i < |es| && es[i].Use?
        ensures es[i].key !in s.spent
      {
        assert RestoredAt(s, es, es[i].key) && es[i] == Use(es[i].key);
      }
    }
    if CopiesUsedLater(s, es) && NoneSavedBefore(s, es) {
      forall i | 0 <= i < |es|
        ensures RestoredAt(s, es, es[i].key)
      {
        LaterUseRestores(s, es, es[i].key);
      }
    }
  }

  lemma LaterUseRestores(s: Chainstate, es: seq<Effect>, key: Key)
    requires InputsUnspentOnce(s, es) && CopiesUsedLater(s, es) && NoneSavedBefore(s, es)
    ensures RestoredAt(s, es, key)
  {
    assert !MadeAfterUse(es, key);
    if Makes(es, key) && key in s.storage {
      var m :| 0 <= m < |es| && es[m].Make? && es[m].key == key;
      assert exists j :: m < j < |es| && es[j] == Use(es[m].key);
    }
  }

  /** Rewinding a block that passed validation never fails an assertion.  It restores the
      chainstate exactly if every output of the block whose key existed already is used later
      in the block, and no record of an output that it uses was saved before. */
  lemma ValidatedRewindsIff(s: Chainstate, b: Block, height: nat)
    requires InputsUnspentOnce(s, Effects(b, height))
    ensures RewindBlock(AddBlock(s, b, height), b, height) == s <==>
            CopiesUsedLater(s, Effects(b, height)) && NoneSavedBefore(s, Effects(b, height))
    ensures Separate(s) ==> NoneSavedBefore(s, Effects(b, height))
    ensures Found(s, Effects(b, height)) && Saved(AddBlock(s, b, height), Effects(b, height))
  {
    hide Undoable;
    var es := Effects(b, height);
    ValidatedIsFound(s, es);
    ValidatedUndoable(s, es);
    UndoRestoresIff(s, es, es);
    UndoAssertsIff(s, es, es);
  }

  // ---------------------------------------------------------------- many blocks

  /** The inputs of every block are as validation wants them when its turn comes. */
  predicate ValidChain(s: Chainstate, bs: seq<Block>, h: nat) {
    forall k :: 0 <= k < |bs| ==> InputsUnspentOnce(AddChain(s, bs[..k], h), Effects(bs[k], h + k))
  }

  lemma LastValid(s: Chainstate, bs: seq<Block>, h: nat)
    requires bs != []
    ensures var before := bs[..|bs| - 1];
            ValidChain(s, bs, h) <==>
            ValidChain(s, before, h) && InputsUnspentOnce(AddChain(s, before, h), Effects(bs[|bs| - 1], h + |before|))
  {
    hide InputsUnspentOnce, Effects, AddChain;
    var before := bs[..|bs| - 1];
    assert forall k :: 0 <= k < |before| ==> before[k] == bs[k] && before[..k] == bs[..k];
  }

  lemma AcceptedIsValid(n: Node, bs: seq<Block>, check: Check)
    requires n.chain != [] && AcceptsAll(n, bs, check)
    ensures ValidChain(n.state, bs, |n.chain|)
  {
    hide InputsUnspentOnce, Effects, AddChain;
    forall k | 0 <= k < |bs|
      ensures InputsUnspentOnce(AddChain(n.state, bs[..k], |n.chain|), Effects(bs[k], |n.chain| + k))
    {
      assert Accepts(Extended(n, bs[..k]), bs[k], check);
    }
  }

  lemma {:induction false} ValidIsFound(s: Chainstate, bs: seq<Block>, h: nat)
    requires ValidChain(s, bs, h)
    ensures Found(s, ChainEffects(bs, h))
  {
    hide InputsUnspentOnce, Effects, Found, DoAll, ValidChain;
    if bs == [] {
      NoEffects(s);
    } else {
      var before, b := bs[..|bs| - 1], bs[|bs| - 1];
      LastValid(s, bs, h);
      ValidIsFound(s, before, h);
      ValidatedIsFound(AddChain(s, before, h), Effects(b, h + |before|));
      FoundAppend(s, ChainEffects(before, h), Effects(b, h + |before|));
    }
  }

  lemma {:induction false} SameEffectsRewound(bs: seq<Block>, h: nat)
    ensures SameEffects(ChainEffects(bs, h), RewindEffects(bs, h))
  {
    hide Effects;
    if bs != [] {
      SameEffectsRewound(bs[1..], h + 1);
      assert bs == [bs[0]] + bs[1..];
      AddChainSplit(Chainstate(map[], map[]), [bs[0]], bs[1..], h);
      assert ChainEffects([bs[0]], h) == Effects(bs[0], h) by {
        assert [bs[0]][..0] == [];
      }
    }
  }

  /** The condition under which blocks can be rewound: undone in the order of the rewind,
      their effects bring the chainstate back, and no output is used twice. */
  predicate Rewindable(s: Chainstate, bs: seq<Block>, h: nat) {
    Undoable(s, RewindEffects(bs, h)) && UsesOnce(RewindEffects(bs, h))
  }

  /** Rewinding added blocks from the tip restores the chainstate, without a failed assertion,
      exactly if they are Rewindable. */
  lemma RewindsIff(s: Chainstate, bs: seq<Block>, h: nat)
    requires Found(s, ChainEffects(bs, h))
    ensures var t := AddChain(s, bs, h);
            && (RewindChain(t, bs, h) == s <==> Undoable(s, RewindEffects(bs, h)))
            && (Saved(t, RewindEffects(bs, h)) <==> UsesOnce(RewindEffects(bs, h)))
  {
    hide SameEffects, Undoable, UsesOnce, ChainEffects, RewindEffects, DoAll, UndoAll, Saved, Found;
    SameEffectsRewound(bs, h);
    UndoRestoresIff(s, ChainEffects(bs, h), RewindEffects(bs, h));
    UndoAssertsIff(s, ChainEffects(bs, h), RewindEffects(bs, h));
  }

  // ---------------------------------------------------------------- new outputs

  /** Every output that the effects make is new. */
  predicate Fresh(s: Chainstate, es: seq<Effect>) {
    forall i :: 0 <= i < |es| && es[i].Make? ==> es[i].key !in s.storage && es[i].key !in s.spent
  }

  predicate FreshChain(s: Chainstate, bs: seq<Block>, h: nat) {
    forall k :: 0 <= k < |bs| ==> Fresh(AddChain(s, bs[..k], h), Effects(bs[k], h + k))
  }

  lemma LastFresh(s: Chainstate, bs: seq<Block>, h: nat)
    requires bs != [] && FreshChain(s, bs, h)
    ensures var before := bs[..|bs| - 1];
            FreshChain(s, before, h) && Fresh(AddChain(s, before, h), Effects(bs[|bs| - 1], h + |before|))
  {
    hide Fresh, Effects, AddChain;
    var before := bs[..|bs| - 1];
    assert forall k :: 0 <= k < |before| ==> before[k] == bs[k] && before[..k] == bs[..k];
  }

  lemma FreshKeepsSeparate(s: Chainstate, es: seq<Effect>)
    requires Separate(s) && InputsUnspentOnce(s, es) && Fresh(s, es)
    ensures Separate(DoAll(s, es))
  {
    ValidatedIsFound(s, es);
    forall key
      ensures !(key in DoAll(s, es).storage && key in DoAll(s, es).spent)
    {
      FoundEverywhere(s, es, key);
      AfterEffects(At(s, key), es, key);
      CellsAfter(s, es, key);
    }
  }

  lemma {:induction false} LastIsRewoundFirst(bs: seq<Block>, h: nat)
    requires bs != []
    ensures RewindEffects(bs, h) == Effects(bs[|bs| - 1], h + |bs| - 1) + RewindEffects(bs[..|bs| - 1], h)
    decreases |bs|
  {
    hide Effects;
    if |bs| > 1 {
      LastIsRewoundFirst(bs[1..], h + 1);
      assert bs[1..][..|bs| - 2] == bs[..|bs| - 1][1..];
    }
  }

  /** As long as blocks make new outputs only, they can be rewound. */
  lemma {:induction false} FreshIsRewindable(s: Chainstate, bs: seq<Block>, h: nat)
    requires ValidChain(s, bs, h) && Separate(s) && FreshChain(s, bs, h)
    ensures Rewindable(s, bs, h) && Separate(AddChain(s, bs, h))
    decreases |bs|
  {
    hide Separate, InputsUnspentOnce, Fresh, Effects, Undoable, UsesOnce, DoAll, UndoAll, Saved, ChainEffects, ValidChain, FreshChain;
    if bs == [] {
      EmptyChain(s, h);
    } else {
      var before, b := bs[..|bs| - 1], bs[|bs| - 1];
      var t := AddChain(s, before, h);
      LastValid(s, bs, h);
      LastFresh(s, bs, h);
      FreshIsRewindable(s, before, h);
      ValidIsFound(s, before, h);
      RewindsIff(s, before, h);
      OneMoreBlock(s, before, b, h);
      assert before + [b] == bs;
      FreshBlockRewinds(t, b, h + |before|);
      LastIsRewoundFirst(bs, h);
      UndoAllAppend(AddChain(s, bs, h), Effects(b, h + |before|), RewindEffects(before, h));
      SavedAppend(AddChain(s, bs, h), Effects(b, h + |before|), RewindEffects(before, h));
    }
    ValidIsFound(s, bs, h);
    RewindsIff(s, bs, h);
  }

  lemma FreshBlockRewinds(s: Chainstate, b: Block, height: nat)
    requires Separate(s) && InputsUnspentOnce(s, Effects(b, height)) && Fresh(s, Effects(b, height))
    ensures RewindBlock(AddBlock(s, b, height), b, height) == s
    ensures Saved(AddBlock(s, b, height), Effects(b, height))
    ensures Separate(AddBlock(s, b, height))
  {
    hide Effects;
    ValidatedRewindsIff(s, b, height);
    FreshKeepsSeparate(s, Effects(b, height));
  }
}
