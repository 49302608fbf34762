/** What adding a block does to each output, and what validation asks of its inputs, in terms of
    the transactions of the block. */
module ChainstateBlocks {
  import opened Numerals
  import opened Options
  import opened ChainstateModel
  import opened ChainstateUndo
  import opened ChainModel

  /** The key of an output of the block, by transaction and position. */
  function OutputKey(b: Block, t: nat, i: nat): Key
    requires t < |b.transactions|
  {
    PairToKey(b.transactions[t].txid, i)
  }

  /** The key that an input of the block refers to. */
  function InputKey(b: Block, t: nat, i: nat): Key
    requires t < |b.transactions| && i < |b.transactions[t].inputs|
  {
    PairToKey(b.transactions[t].inputs[i].txid, b.transactions[t].inputs[i].vout)
  }

  /** One of the first n transactions has an output with this key. */
  predicate HasOutput(b: Block, n: nat, key: Key)
    requires n <= |b.transactions|
  {
    exists t, i :: 0 <= t < n && 0 <= i < |b.transactions[t].outputs| && OutputKey(b, t, i) == key
  }

  /** One of the first n transactions, other than the first of all, has an input with this key. */
  predicate HasInput(b: Block, n: nat, key: Key)
    requires n <= |b.transactions|
  {
    exists t, i :: 1 <= t < n && 0 <= i < |b.transactions[t].inputs| && InputKey(b, t, i) == key
  }

  /** Transaction t has an input with this key. */
  predicate TxHasInput(b: Block, t: nat, key: Key)
    requires t < |b.transactions|
  {
    exists i :: 0 <= i < |b.transactions[t].inputs| && InputKey(b, t, i) == key
  }

  // ---------------------------------------------------------------- effects of both parts

  lemma AppendedEffects(a: seq<Effect>, b: seq<Effect>, key: Key)
    ensures Uses(a + b, key) <==> Uses(a, key) || Uses(b, key)
    ensures Makes(a + b, key) <==> Makes(a, key) || Makes(b, key)
  {
    assert forall i :: 0 <= i < |a| ==> (a + b)[i] == a[i];
    assert forall i :: 0 <= i < |b| ==> (a + b)[|a| + i] == b[i];
    assert forall i :: |a| <= i < |a + b| ==> (a + b)[i] == b[i - |a|];
    if Uses(b, key) {
      var i :| 0 <= i < |b| && b[i] == Use(key);
      assert (a + b)[|a| + i] == Use(key);
    }
    if Makes(b, key) {
      var i :| 0 <= i < |b| && b[i].Make? && b[i].key == key;
      assert (a + b)[|a| + i] == b[i];
    }
  }

  lemma {:induction false} CellAfterAppend(c: Cell, a: seq<Effect>, b: seq<Effect>, key: Key)
    ensures CellAfter(c, a + b, key) == CellAfter(CellAfter(c, a, key), b, key)
  {
    if b == [] {
      assert a + b == a;
    } else {
      CellAfterAppend(c, a, b[..|b| - 1], key);
      assert (a + b)[..|a + b| - 1] == a + b[..|b| - 1];
    }
  }

  lemma TxEffectsOf(tx: Transaction, height: nat, coinbase: bool, key: Key)
    ensures var es := TxEffects(tx, height, coinbase);
            && (Makes(es, key) <==> exists i :: 0 <= i < |tx.outputs| && PairToKey(tx.txid, i) == key)
            && (Uses(es, key) <==> !coinbase && exists i :: 0 <= i < |tx.inputs| && PairToKey(tx.inputs[i].txid, tx.inputs[i].vout) == key)
  {
    hide PairToKey;
    var outs, ins := OutputEffects(tx, height, coinbase), InputEffects(tx);
    assert Makes(outs, key) <==> exists i :: 0 <= i < |tx.outputs| && PairToKey(tx.txid, i) == key by {
      if Makes(outs, key) {
        var i :| 0 <= i < |outs| && outs[i].Make? && outs[i].key == key;
        assert PairToKey(tx.txid, i) == key;
      }
      if i :| 0 <= i < |tx.outputs| && PairToKey(tx.txid, i) == key {
        assert outs[i].Make? && outs[i].key == key;
      }
    }
    assert Uses(ins, key) <==> exists i :: 0 <= i < |tx.inputs| && PairToKey(tx.inputs[i].txid, tx.inputs[i].vout) == key by {
      if Uses(ins, key) {
        var i :| 0 <= i < |ins| && ins[i] == Use(key);
        assert PairToKey(tx.inputs[i].txid, tx.inputs[i].vout) == key;
      }
      if i :| 0 <= i < |tx.inputs| && PairToKey(tx.inputs[i].txid, tx.inputs[i].vout) == key {
        assert ins[i] == Use(key);
      }
    }
    assert !Uses(outs, key) && !Makes(ins, key) && !Uses([], key) && !Makes([], key);
    AppendedEffects(outs, if coinbase then [] else ins, key);
  }

  lemma {:induction false} BlockEffectsOf(b: Block, height: nat, n: nat, key: Key)
    requires n <= |b.transactions|
    ensures Makes(BlockEffects(b, height, n), key) <==> HasOutput(b, n, key)
    ensures Uses(BlockEffects(b, height, n), key) <==> HasInput(b, n, key)
  {
    hide PairToKey, TxEffects;
    if n == 0 {
      NothingUsedOrMade(key);
    } else {
      BlockEffectsOf(b, height, n - 1, key);
      TxEffectsOf(b.transactions[n - 1], height, n == 1, key);
      AppendedEffects(BlockEffects(b, height, n - 1), TxEffects(b.transactions[n - 1], height, n == 1), key);
      LastTransaction(b, n, key);
    }
  }

  lemma LastTransaction(b: Block, n: nat, key: Key)
    requires 0 < n <= |b.transactions|
    ensures var tx := b.transactions[n - 1];
            && (HasOutput(b, n, key) <==>
                  HasOutput(b, n - 1, key) || exists i :: 0 <= i < |tx.outputs| && PairToKey(tx.txid, i) == key)
            && (HasInput(b, n, key) <==>
                  HasInput(b, n - 1, key)
                  || (n > 1 && exists i :: 0 <= i < |tx.inputs| && PairToKey(tx.inputs[i].txid, tx.inputs[i].vout) == key))
  {
    hide PairToKey;
    var tx := b.transactions[n - 1];
    if i :| 0 <= i < |tx.outputs| && PairToKey(tx.txid, i) == key {
      assert OutputKey(b, n - 1, i) == key;
    }
    if n > 1 {
      if i :| 0 <= i < |tx.inputs| && PairToKey(tx.inputs[i].txid, tx.inputs[i].vout) == key {
        assert InputKey(b, n - 1, i) == key;
      }
    }
  }

  /** The effects of a block, split at one of its transactions. */
  lemma {:induction false} SplitEffects(b: Block, height: nat, t: nat, n: nat) returns (rest: seq<Effect>)
    requires t < n <= |b.transactions|
    ensures BlockEffects(b, height, n)
         == BlockEffects(b, height, t) + TxEffects(b.transactions[t], height, t == 0) + rest
    decreases n
  {
    hide TxEffects;
    if n == t + 1 {
      rest := [];
      assert BlockEffects(b, height, n) == BlockEffects(b, height, t) + TxEffects(b.transactions[t], height, t == 0) + [];
    } else {
      var shorter := SplitEffects(b, height, t, n - 1);
      rest := shorter + TxEffects(b.transactions[n - 1], height, n == 1);
    }
  }

  // ---------------------------------------------------------------- what add_block stores

  /** The first output with a new key is stored, and stays as long as nothing uses it. */
  lemma OutputsMade(c: Cell, tx: Transaction, i: nat, height: nat, coinbase: bool)
    requires i < |tx.outputs| && i <= SIZE_MAX && c.unspent == None
    ensures var es, key := OutputEffects(tx, height, coinbase), PairToKey(tx.txid, i);
            && !Uses(es, key)
            && CellAfter(c, es, key).unspent == Some(Record(height, coinbase, tx.outputs[i].amount, tx.outputs[i].pubkey))
  {
    hide PairToKey;
    var es, key := OutputEffects(tx, height, coinbase), PairToKey(tx.txid, i);
    forall j | 0 <= j < i
      ensures es[j].key != key
    {
      KeysAreUnique(tx.txid, j, tx.txid, i);
    }
    assert !Uses(es, key) && !Uses(es[..i], key) && !Makes(es[..i], key) && !Uses(es[i + 1..], key);
    var made := CellAfter(c, es[..i], key);
    FoundWithoutUses(c, es[..i], key);
    AfterEffects(c, es[..i], key);
    assert es == es[..i] + ([es[i]] + es[i + 1..]);
    CellAfterAppend(c, es[..i], [es[i]] + es[i + 1..], key);
    CellAfterAppend(made, [es[i]], es[i + 1..], key);
    assert [es[i]][..0] == [];
    FoundWithoutUses(made.Do(es[i]), es[i + 1..], key);
    AfterEffects(made.Do(es[i]), es[i + 1..], key);
  }

  lemma {:induction false} FoundWithoutUses(c: Cell, es: seq<Effect>, key: Key)
    requires !Uses(es, key)
    ensures FoundAt(c, es, key)
  {
    hide Uses, CellAfter;
    if es != [] {
      LastEffect(es, key);
      FoundWithoutUses(c, es[..|es| - 1], key);
    }
  }

  /** Output i of transaction t is stored under index i with the height of the block, the flag of
      its first transaction, and its own amount and public key; if its key is new, no earlier
      transaction of the block has it, and the block does not use it. */
  lemma OutputIsStored(s: Chainstate, b: Block, height: nat, t: nat, i: nat)
    requires t < |b.transactions| && i < |b.transactions[t].outputs| && i <= SIZE_MAX
    requires OutputKey(b, t, i) !in s.storage
    requires !HasOutput(b, t, OutputKey(b, t, i)) && !HasInput(b, |b.transactions|, OutputKey(b, t, i))
    ensures var key, o := PairToKey(b.transactions[t].txid, i), b.transactions[t].outputs[i];
            var after := AddBlock(s, b, height).storage;
            key in after && after[key] == Record(height, t == 0, o.amount, o.pubkey)
  {
    hide PairToKey, DoAll, OutputEffects, InputEffects, CellAfter, Uses, Makes;
    var key, tx := OutputKey(b, t, i), b.transactions[t];
    var es := Effects(b, height);
    var rest := SplitEffects(b, height, t, |b.transactions|);
    var before, outs := BlockEffects(b, height, t), OutputEffects(tx, height, t == 0);
    var ins := if t == 0 then [] else InputEffects(tx);
    assert es == before + (outs + (ins + rest));
    BlockEffectsOf(b, height, |b.transactions|, key);
    BlockEffectsOf(b, height, t, key);
    FewerInputs(b, t, key);
    AppendedEffects(before, outs + (ins + rest), key);
    AppendedEffects(outs, ins + rest, key);
    var c := At(s, key);
    FoundWithoutUses(c, before, key);
    AfterEffects(c, before, key);
    CellAfterAppend(c, before, outs + (ins + rest), key);
    CellAfterAppend(c, outs, ins + rest, key);
    OutputsMade(c, tx, i, height, t == 0);
    var made := CellAfter(c, outs, key);
    FoundWithoutUses(made, ins + rest, key);
    AfterEffects(made, ins + rest, key);
    CellsAfter(s, es, key);
  }

  lemma FewerInputs(b: Block, n: nat, key: Key)
    requires n <= |b.transactions|
    ensures HasInput(b, n, key) ==> HasInput(b, |b.transactions|, key)
  {
  }

  /** An output that the block uses and does not make is unspent no longer; its record is saved,
      unless one was saved before.  What the block neither makes nor uses stays as it was. */
  lemma InputsAreSpent(s: Chainstate, b: Block, height: nat, key: Key)
    requires Found(s, Effects(b, height)) && !HasOutput(b, |b.transactions|, key)
    ensures var t := AddBlock(s, b, height);
            if HasInput(b, |b.transactions|, key) then
              && key !in t.storage && key in t.spent
              && (key in s.storage && key !in s.spent ==> t.spent[key] == s.storage[key])
            else At(t, key) == At(s, key)
  {
    hide PairToKey, DoAll, CellAfter, Uses, Makes, BlockEffects, FoundAt;
    BlockEffectsOf(b, height, |b.transactions|, key);
    FoundEverywhere(s, Effects(b, height), key);
    AfterEffects(At(s, key), Effects(b, height), key);
    CellsAfter(s, Effects(b, height), key);
  }

  // ---------------------------------------------------------------- what validation asks

  /** Among the first n transactions, every input but those of the first refers to an unspent
      output, and no two refer to the same. */
  predicate InputsValid(s: Chainstate, b: Block, n: nat)
    requires n <= |b.transactions|
  {
    && (forall t, i :: 1 <= t < n && 0 <= i < |b.transactions[t].inputs| ==> InputKey(b, t, i) in s.storage)
    && (forall t, i, j :: 1 <= t < n && 0 <= i < j < |b.transactions[t].inputs| ==> InputKey(b, t, i) != InputKey(b, t, j))
    && (forall t, u, i, j :: 1 <= t < u < n && 0 <= i < |b.transactions[t].inputs| && 0 <= j < |b.transactions[u].inputs| ==>
          InputKey(b, t, i) != InputKey(b, u, j))
  }

  lemma SplitInputs(s: Chainstate, a: seq<Effect>, b: seq<Effect>)
    ensures InputsUnspentOnce(s, a + b) <==>
            InputsUnspentOnce(s, a) && InputsUnspentOnce(s, b) && forall key :: !(Uses(a, key) && Uses(b, key))
  {
    assert forall i :: 0 <= i < |a| ==> (a + b)[i] == a[i];
    assert forall i :: 0 <= i < |b| ==> (a + b)[|a| + i] == b[i];
    assert forall i :: |a| <= i < |a + b| ==> (a + b)[i] == b[i - |a|];
    if InputsUnspentOnce(s, a + b) {
      assert forall key :: !(Uses(a, key) && Uses(b, key));
      forall i, j | 0 <= i < j < |b| && b[i].Use? && b[j].Use?
        ensures b[i].key != b[j].key
      {
        assert (a + b)[|a| + i].key != (a + b)[|a| + j].key;
      }
    }
    if InputsUnspentOnce(s, a) && InputsUnspentOnce(s, b) && forall key :: !(Uses(a, key) && Uses(b, key)) {
      forall i, j | 0 <= i < j < |a + b| && (a + b)[i].Use? && (a + b)[j].Use?
        ensures (a + b)[i].key != (a + b)[j].key
      {
        if i < |a| <= j {
          assert Uses(a, a[i].key);
          assert b[j - |a|] == Use(b[j - |a|].key) && Uses(b, b[j - |a|].key);
        }
      }
    }
  }

  lemma TxInputs(s: Chainstate, tx: Transaction, height: nat, coinbase: bool)
    ensures InputsUnspentOnce(s, TxEffects(tx, height, coinbase)) <==> coinbase || InputsUnspentOnce(s, InputEffects(tx))
  {
    hide PairToKey;
    var outs := OutputEffects(tx, height, coinbase);
    assert InputsUnspentOnce(s, outs) && InputsUnspentOnce(s, []) && forall key :: !Uses(outs, key);
    SplitInputs(s, outs, if coinbase then [] else InputEffects(tx));
  }

  /** The inputs of transaction t, on their own. */
  predicate TxInputsValid(s: Chainstate, b: Block, t: nat)
    requires t < |b.transactions|
  {
    && (forall i :: 0 <= i < |b.transactions[t].inputs| ==> InputKey(b, t, i) in s.storage)
    && (forall i, j :: 0 <= i < j < |b.transactions[t].inputs| ==> InputKey(b, t, i) != InputKey(b, t, j))
  }

  lemma {:induction false} InputsValidIff(s: Chainstate, b: Block, height: nat, n: nat)
    requires n <= |b.transactions|
    ensures InputsUnspentOnce(s, BlockEffects(b, height, n)) <==> InputsValid(s, b, n)
  {
    hide PairToKey, TxEffects, InputsUnspentOnce, Uses, Makes, InputEffects, TxInputsValid, HasInput, TxHasInput, InputsValid;
    if n == 0 {
      NoInputsToCheck(s, b);
    } else {
      var t := n - 1;
      var before, last := BlockEffects(b, height, t), TxEffects(b.transactions[t], height, t == 0);
      InputsValidIff(s, b, height, t);
      SplitInputs(s, before, last);
      TxInputs(s, b.transactions[t], height, t == 0);
      OwnInputs(s, b, t);
      forall key
        ensures Uses(before, key) <==> HasInput(b, t, key)
        ensures Uses(last, key) <==> t > 0 && TxHasInput(b, t, key)
      {
        BlockEffectsOf(b, height, t, key);
        TxUses(b, t, height, key);
      }
      OneMoreTransaction(s, b, t);
    }
  }

  lemma NoInputsToCheck(s: Chainstate, b: Block)
    ensures InputsUnspentOnce(s, []) && InputsValid(s, b, 0)
  {
  }

  lemma TxUses(b: Block, t: nat, height: nat, key: Key)
    requires t < |b.transactions|
    ensures Uses(TxEffects(b.transactions[t], height, t == 0), key) <==> t > 0 && TxHasInput(b, t, key)
  {
    hide PairToKey, TxEffects, Uses, Makes;
    TxEffectsOf(b.transactions[t], height, t == 0, key);
    assert forall i :: 0 <= i < |b.transactions[t].inputs| ==>
      InputKey(b, t, i) == PairToKey(b.transactions[t].inputs[i].txid, b.transactions[t].inputs[i].vout);
  }

  lemma OwnInputs(s: Chainstate, b: Block, t: nat)
    requires t < |b.transactions|
    ensures InputsUnspentOnce(s, InputEffects(b.transactions[t])) <==> TxInputsValid(s, b, t)
  {
    hide PairToKey;
    var es := InputEffects(b.transactions[t]);
    assert forall i :: 0 <= i < |es| ==> es[i] == Use(InputKey(b, t, i));
    if InputsUnspentOnce(s, es) {
      forall i | 0 <= i < |es|
        ensures InputKey(b, t, i) in s.storage
      {
        assert es[i].Use? && es[i].key in s.storage;
      }
      forall i, j | 0 <= i < j < |es|
        ensures InputKey(b, t, i) != InputKey(b, t, j)
      {
        assert es[i].key != es[j].key;
      }
    }
  }

  lemma OneMoreTransaction(s: Chainstate, b: Block, t: nat)
    requires t < |b.transactions|
    ensures InputsValid(s, b, t + 1) <==>
            && InputsValid(s, b, t)
            && (t > 0 ==> TxInputsValid(s, b, t))
            && (t > 0 ==> forall key :: !(HasInput(b, t, key) && TxHasInput(b, t, key)))
  {
    hide InputKey;
    if t > 0 && InputsValid(s, b, t + 1) {
      assert TxInputsValid(s, b, t);
      forall key
        ensures !(HasInput(b, t, key) && TxHasInput(b, t, key))
      {
        if HasInput(b, t, key) {
          var u, i :| 1 <= u < t && 0 <= i < |b.transactions[u].inputs| && InputKey(b, u, i) == key;
        }
      }
    }
    if t > 0 && InputsValid(s, b, t) && TxInputsValid(s, b, t) && forall key :: !(HasInput(b, t, key) && TxHasInput(b, t, key)) {
      forall u, i, j | 1 <= u < t && 0 <= i < |b.transactions[u].inputs| && 0 <= j < |b.transactions[t].inputs|
        ensures InputKey(b, u, i) != InputKey(b, t, j)
      {
        assert HasInput(b, t, InputKey(b, u, i));
      }
    }
  }

  /** Validation asks that every input, of any transaction but the first, refers to an output that
      is unspent before the block, and that no two inputs of the block refer to the same. */
  lemma ValidationAsks(s: Chainstate, b: Block, height: nat)
    ensures InputsUnspentOnce(s, Effects(b, height)) <==> InputsValid(s, b, |b.transactions|)
  {
    InputsValidIff(s, b, height, |b.transactions|);
  }
}
