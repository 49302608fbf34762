/** Which outputs are unspent after a block, and whether each of its inputs finds its output when
    its turn comes, in terms of the order of its transactions. */
module ChainstateInputs {
  import opened ChainstateModel
  import opened ChainstateUndo
  import opened ChainstateBlocks
  import opened ChainModel

  /** Transaction t has an output with this key. */
  predicate TxHasOutput(b: Block, t: nat, key: Key)
    requires t < |b.transactions|
  {
    exists i :: 0 <= i < |b.transactions[t].outputs| && OutputKey(b, t, i) == key
  }

  /** The output is unspent after the first n transactions: if one of them spends it, then a later
      one of them makes it again; and if not, it was unspent before or one of them makes it. */
  predicate Remains(s: Chainstate, b: Block, n: nat, key: Key)
    requires n <= |b.transactions|
  {
    if HasInput(b, n, key) then
      forall u :: 1 <= u < n && TxHasInput(b, u, key) ==> exists v :: u < v < n && TxHasOutput(b, v, key)
    else key in s.storage || HasOutput(b, n, key)
  }

  /** Each input of the first n transactions, but those of the very first, refers to an output of
      its own transaction or to one that is unspent after the earlier ones, and no two inputs of a
      transaction to the same. */
  predicate InputsThere(s: Chainstate, b: Block, n: nat)
    requires n <= |b.transactions|
  {
    && (forall t, i :: 1 <= t < n && 0 <= i < |b.transactions[t].inputs| ==>
          TxHasOutput(b, t, InputKey(b, t, i)) || Remains(s, b, t, InputKey(b, t, i)))
    && (forall t, i, j :: 1 <= t < n && 0 <= i < j < |b.transactions[t].inputs| ==> InputKey(b, t, i) != InputKey(b, t, j))
  }

  // ---------------------------------------------------------------- one transaction

  lemma {:induction false} OutputsOnly(s: Chainstate, es: seq<Effect>, key: Key)
    requires forall i :: 0 <= i < |es| ==> es[i].Make?
    ensures Found(s, es)
    ensures key in DoAll(s, es).storage <==> key in s.storage || Makes(es, key)
  {
    if es != [] {
      OutputsOnly(s, es[..|es| - 1], key);
      LastEffect(es, key);
    }
  }

  lemma {:induction false} InputsOnly(s: Chainstate, es: seq<Effect>, key: Key)
    requires forall i :: 0 <= i < |es| ==> es[i].Use?
    ensures key in DoAll(s, es).storage <==> key in s.storage && !Uses(es, key)
  {
    if es != [] {
      InputsOnly(s, es[..|es| - 1], key);
      LastEffect(es, key);
    }
  }

  lemma {:induction false} InputsFoundIff(s: Chainstate, es: seq<Effect>)
    requires forall i :: 0 <= i < |es| ==> es[i].Use?
    ensures Found(s, es) <==> InputsUnspentOnce(s, es)
  {
    if es != [] {
      var before, e := es[..|es| - 1], es[|es| - 1];
      InputsFoundIff(s, before);
      InputsOnly(s, before, e.key);
      assert es == before + [e];
      SplitInputs(s, before, [e]);
      OneInput(s, before, e);
    }
  }

  lemma OneInput(s: Chainstate, before: seq<Effect>, e: Effect)
    requires e.Use?
    ensures InputsUnspentOnce(s, [e]) <==> e.key in s.storage
    ensures (forall key :: !(Uses(before, key) && Uses([e], key))) <==> !Uses(before, e.key)
  {
    assert [e][0] == Use(e.key) && Uses([e], e.key);
    assert forall key :: Uses([e], key) ==> key == e.key;
  }

  /** The outputs of a transaction come before its inputs. */
  lemma TxStorage(s: Chainstate, b: Block, t: nat, height: nat, key: Key)
    requires t < |b.transactions|
    ensures key in DoAll(s, TxEffects(b.transactions[t], height, t == 0)).storage
       <==> (key in s.storage || TxHasOutput(b, t, key)) && !(t > 0 && TxHasInput(b, t, key))
  {
    hide PairToKey, DoAll, Uses, Makes;
    var outs := OutputEffects(b.transactions[t], height, t == 0);
    var ins := if t == 0 then [] else InputEffects(b.transactions[t]);
    OutputsOnly(s, outs, key);
    InputsOnly(DoAll(s, outs), ins, key);
    DoAllAppend(s, outs, ins);
    TxKeys(b, t, height, key);
  }

  lemma TxKeys(b: Block, t: nat, height: nat, key: Key)
    requires t < |b.transactions|
    ensures Makes(OutputEffects(b.transactions[t], height, t == 0), key) <==> TxHasOutput(b, t, key)
    ensures Uses(InputEffects(b.transactions[t]), key) <==> TxHasInput(b, t, key)
    ensures !Uses([], key)
  {
    hide PairToKey;
    var tx := b.transactions[t];
    var outs, ins := OutputEffects(tx, height, t == 0), InputEffects(tx);
    assert forall i :: 0 <= i < |outs| ==> outs[i].Make? && outs[i].key == OutputKey(b, t, i);
    assert forall i :: 0 <= i < |ins| ==> ins[i] == Use(InputKey(b, t, i));
    if i :| 0 <= i < |tx.outputs| && OutputKey(b, t, i) == key {
      assert outs[i].Make? && outs[i].key == key;
    }
    if i :| 0 <= i < |tx.inputs| && InputKey(b, t, i) == key {
      assert ins[i] == Use(key);
    }
  }

  lemma TxFound(s: Chainstate, b: Block, t: nat, height: nat)
    requires t < |b.transactions|
    ensures Found(s, TxEffects(b.transactions[t], height, t == 0)) <==>
            t == 0 ||
            ((forall i :: 0 <= i < |b.transactions[t].inputs| ==>
                TxHasOutput(b, t, InputKey(b, t, i)) || InputKey(b, t, i) in s.storage)
             && (forall i, j :: 0 <= i < j < |b.transactions[t].inputs| ==> InputKey(b, t, i) != InputKey(b, t, j)))
  {
    hide PairToKey, DoAll, Uses, Makes, Found, TxHasOutput, InputsUnspentOnce;
    var outs := OutputEffects(b.transactions[t], height, t == 0);
    var ins := if t == 0 then [] else InputEffects(b.transactions[t]);
    var u := DoAll(s, outs);
    FoundAppend(s, outs, ins);
    forall key
      ensures Found(s, outs)
      ensures key in u.storage <==> key in s.storage || TxHasOutput(b, t, key)
    {
      OutputsOnly(s, outs, key);
      TxKeys(b, t, height, key);
    }
    assert Found(s, outs) by { OutputsOnly(s, outs, []); }
    if t == 0 {
      NoEffects(u);
    } else {
      InputsFoundIff(u, ins);
      OwnInputs(u, b, t);
    }
  }

  // ---------------------------------------------------------------- all transactions

  lemma OneMore(b: Block, n: nat, key: Key)
    requires n < |b.transactions|
    ensures HasOutput(b, n + 1, key) <==> HasOutput(b, n, key) || TxHasOutput(b, n, key)
    ensures HasInput(b, n + 1, key) <==> HasInput(b, n, key) || (n > 0 && TxHasInput(b, n, key))
  {
    hide PairToKey;
    LastTransaction(b, n + 1, key);
    var tx := b.transactions[n];
    assert forall i :: 0 <= i < |tx.outputs| ==> OutputKey(b, n, i) == PairToKey(tx.txid, i);
    assert forall i :: 0 <= i < |tx.inputs| ==> InputKey(b, n, i) == PairToKey(tx.inputs[i].txid, tx.inputs[i].vout);
  }

  lemma RemainsStep(s: Chainstate, b: Block, n: nat, key: Key)
    requires n < |b.transactions|
    ensures Remains(s, b, n + 1, key) <==>
            (Remains(s, b, n, key) || TxHasOutput(b, n, key)) && !(n > 0 && TxHasInput(b, n, key))
  {
    hide TxHasInput, TxHasOutput, HasInput, HasOutput;
    OneMore(b, n, key);
    if HasInput(b, n, key) && !(n > 0 && TxHasInput(b, n, key)) {
      if Remains(s, b, n, key) {
        forall u | 1 <= u < n + 1 && TxHasInput(b, u, key)
          ensures exists v :: u < v < n + 1 && TxHasOutput(b, v, key)
        {
          var v :| u < v < n && TxHasOutput(b, v, key);
        }
      }
    }
  }

  /** Whatever add_block finds or does not find: exactly these outputs are unspent after it. */
  lemma {:induction false} RemainsIff(s: Chainstate, b: Block, height: nat, n: nat, key: Key)
    requires n <= |b.transactions|
    ensures key in DoAll(s, BlockEffects(b, height, n)).storage <==> Remains(s, b, n, key)
  {
    hide Remains, TxEffects, DoAll, TxHasOutput, TxHasInput;
    if n == 0 {
      NoEffects(s);
      NothingRemains(s, b, key);
    } else {
      RemainsIff(s, b, height, n - 1, key);
      DoAllAppend(s, BlockEffects(b, height, n - 1), TxEffects(b.transactions[n - 1], height, n == 1));
      TxStorage(DoAll(s, BlockEffects(b, height, n - 1)), b, n - 1, height, key);
      RemainsStep(s, b, n - 1, key);
    }
  }

  lemma NothingRemains(s: Chainstate, b: Block, key: Key)
    ensures Remains(s, b, 0, key) <==> key in s.storage
  {
  }

  lemma {:induction false} FoundInOrder(s: Chainstate, b: Block, height: nat, n: nat)
    requires n <= |b.transactions|
    ensures Found(s, BlockEffects(b, height, n)) <==> InputsThere(s, b, n)
  {
    hide Remains, TxEffects, DoAll, TxHasOutput, Found;
    if n == 0 {
      NoEffects(s);
    } else {
      var t := n - 1;
      var before := BlockEffects(b, height, t);
      FoundInOrder(s, b, height, t);
      FoundAppend(s, before, TxEffects(b.transactions[t], height, t == 0));
      TxFound(DoAll(s, before), b, t, height);
      forall key
        ensures key in DoAll(s, before).storage <==> Remains(s, b, t, key)
      {
        RemainsIff(s, b, height, t, key);
      }
    }
  }

  /** No assertion of add_block fails exactly if each input finds its output when its turn comes;
      and exactly those outputs are unspent afterwards that the order of the transactions leaves. */
  lemma AddBlockMeans(s: Chainstate, b: Block, height: nat, key: Key)
    ensures Found(s, Effects(b, height)) <==> InputsThere(s, b, |b.transactions|)
    ensures key in AddBlock(s, b, height).storage <==> Remains(s, b, |b.transactions|, key)
  {
    hide Remains, InputsThere, DoAll, Found;
    FoundInOrder(s, b, height, |b.transactions|);
    RemainsIff(s, b, height, |b.transactions|, key);
  }
}
