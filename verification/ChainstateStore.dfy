/** The in-memory chainstate of the node: unspent outputs, and the spent ones that a
    reorganisation may have to bring back. */
module ChainstateStore {
  import opened ChainstateModel

  class MemChainstate {
    var storage: map<Key, Record>
    var spentStorage: map<Key, Record>

    function View(): Chainstate
      reads this
    {
      Chainstate(storage, spentStorage)
    }

    constructor ()
      ensures View() == Chainstate(map[], map[])
    {
      storage, spentStorage := map[], map[];
    }

    method AddUtxo(key: Key, r: Record) returns (added: bool)
      modifies this
      ensures View() == old(View()).Add(key, r) && added == (key !in old(storage))
    {
      if key in storage {
        return false;
      }
      storage := storage[key := r];
      return true;
    }

    /** The record to be saved is read through an iterator at `key`, whose entry is erased by
        then: deadRead.  The new state is the one intended, with the record of that entry. */
    method RemoveUtxo(key: Key, saveSpent: bool) returns (removed: bool, deadRead: bool)
      modifies this
      ensures View() == old(View()).Remove(key, saveSpent) && removed == (key in old(storage))
      ensures deadRead <==> removed && saveSpent
    {
      if key !in storage {
        return false, false;
      }
      var rec := storage[key];
      storage := storage - {key};
      deadRead := false;
      if saveSpent {
        deadRead := key !in storage;
        var saved := AddSpentUtxo(key, rec);
      }
      return true, deadRead;
    }

    method AddSpentUtxo(key: Key, r: Record) returns (added: bool)
      modifies this`spentStorage
      ensures added == (key !in old(spentStorage))
      ensures spentStorage == if added then old(spentStorage)[key := r] else old(spentStorage)
    {
      if key in spentStorage {
        return false;
      }
      spentStorage := spentStorage[key := r];
      return true;
    }

    /** The loop of add_block over the outputs of one transaction. */
    method AddOutputs(tx: Transaction, height: nat, coinbase: bool)
      modifies this
      ensures View() == DoAll(old(View()), OutputEffects(tx, height, coinbase))
      ensures Found(old(View()), OutputEffects(tx, height, coinbase))
      ensures !ReadsErased(old(View()), OutputEffects(tx, height, coinbase))
    {
      hide Chainstate.Add;
      ghost var es := OutputEffects(tx, height, coinbase);
      var voutcounter := 0;
      while voutcounter < |tx.outputs|
        invariant 0 <= voutcounter <= |tx.outputs|
        invariant View() == DoAll(old(View()), es[..voutcounter])
        invariant Found(old(View()), es[..voutcounter]) && !ReadsErased(old(View()), es[..voutcounter])
      {
        var outp := tx.outputs[voutcounter];
        var added := AddUtxo(PairToKey(tx.txid, voutcounter), Record(height, coinbase, outp.amount, outp.pubkey));
        assert es[..voutcounter + 1][..voutcounter] == es[..voutcounter];
        voutcounter := voutcounter + 1;
      }
      assert es[..voutcounter] == es;
    }

    /** The loop of add_block over the inputs; ok is false where an assertion of the source
        fails. */
    method SpendInputs(tx: Transaction) returns (ok: bool, deadRead: bool)
      modifies this
      ensures View() == DoAll(old(View()), InputEffects(tx))
      ensures ok == Found(old(View()), InputEffects(tx))
      ensures deadRead == ReadsErased(old(View()), InputEffects(tx))
    {
      hide Chainstate.Remove;
      ghost var es := InputEffects(tx);
      var i := 0;
      ok, deadRead := true, false;
      while i < |tx.inputs|
        invariant 0 <= i <= |tx.inputs|
        invariant View() == DoAll(old(View()), es[..i])
        invariant ok == Found(old(View()), es[..i])
        invariant deadRead == ReadsErased(old(View()), es[..i])
      {
        var removed, dead := RemoveUtxo(PairToKey(tx.inputs[i].txid, tx.inputs[i].vout), true);
        ok, deadRead := ok && removed, deadRead || dead;
        assert es[..i + 1][..i] == es[..i];
        i := i + 1;
      }
      assert es[..i] == es;
    }

    /** ok is false where an assertion of the source fails; deadRead says that a record was
        read through a dead iterator. */
    method AddBlock(b: Block, height: nat) returns (ok: bool, deadRead: bool)
      modifies this
      ensures View() == ChainstateModel.AddBlock(old(View()), b, height)
      ensures ok == Found(old(View()), Effects(b, height))
      ensures deadRead == ReadsErased(old(View()), Effects(b, height))
    {
      hide DoAll, Found, ReadsErased, OutputEffects, InputEffects;
      var isCb, n := true, 0;
      ok, deadRead := true, false;
      NoEffects(View());
      while n < |b.transactions|
        invariant 0 <= n <= |b.transactions| && isCb == (n == 0)
        invariant View() == DoAll(old(View()), BlockEffects(b, height, n))
        invariant ok == Found(old(View()), BlockEffects(b, height, n))
        invariant deadRead == ReadsErased(old(View()), BlockEffects(b, height, n))
      {
        ghost var s := View();
        AddOutputs(b.transactions[n], height, isCb);
        if !isCb {
          var found, dead := SpendInputs(b.transactions[n]);
          ok, deadRead := ok && found, deadRead || dead;
          DoAllAppend(s, OutputEffects(b.transactions[n], height, isCb), InputEffects(b.transactions[n]));
          ReadsErasedAppend(s, OutputEffects(b.transactions[n], height, isCb), InputEffects(b.transactions[n]));
          FoundAppend(s, OutputEffects(b.transactions[n], height, isCb), InputEffects(b.transactions[n]));
        } else {
          assert OutputEffects(b.transactions[n], height, isCb) + [] == OutputEffects(b.transactions[n], height, isCb);
          isCb := false;
        }
        DoAllAppend(old(View()), BlockEffects(b, height, n), TxEffects(b.transactions[n], height, n == 0));
        ReadsErasedAppend(old(View()), BlockEffects(b, height, n), TxEffects(b.transactions[n], height, n == 0));
        FoundAppend(old(View()), BlockEffects(b, height, n), TxEffects(b.transactions[n], height, n == 0));
        n := n + 1;
      }
    }

    /** The loop of rewind_block over the outputs of one transaction. */
    method RemoveOutputs(tx: Transaction, ghost height: nat, ghost coinbase: bool)
      modifies this
      ensures View() == UndoAll(old(View()), OutputEffects(tx, height, coinbase))
      ensures Saved(old(View()), OutputEffects(tx, height, coinbase))
    {
      hide Chainstate.Remove;
      ghost var es := OutputEffects(tx, height, coinbase);
      var voutcounter := 0;
      while voutcounter < |tx.outputs|
        invariant 0 <= voutcounter <= |tx.outputs|
        invariant View() == UndoAll(old(View()), es[..voutcounter])
        invariant Saved(old(View()), es[..voutcounter])
      {
        var removed, dead := RemoveUtxo(PairToKey(tx.txid, voutcounter), false);
        assert es[..voutcounter + 1][..voutcounter] == es[..voutcounter];
        voutcounter := voutcounter + 1;
      }
      assert es[..voutcounter] == es;
    }

    /** The loop of rewind_block over the inputs; ok is false where an assertion of the source
        fails. */
    method RestoreInputs(tx: Transaction) returns (ok: bool)
      modifies this
      ensures View() == UndoAll(old(View()), InputEffects(tx))
      ensures ok == Saved(old(View()), InputEffects(tx))
    {
      ghost var es := InputEffects(tx);
      var i := 0;
      ok := true;
      while i < |tx.inputs|
        invariant 0 <= i <= |tx.inputs|
        invariant View() == UndoAll(old(View()), es[..i])
        invariant ok == Saved(old(View()), es[..i])
      {
        var key := PairToKey(tx.inputs[i].txid, tx.inputs[i].vout);
        if key in spentStorage {
          var added := AddUtxo(key, spentStorage[key]);
          spentStorage := spentStorage - {key};
        } else {
          ok := false;
        }
        assert es[..i + 1][..i] == es[..i];
        i := i + 1;
      }
      assert es[..i] == es;
    }

    method RewindBlock(b: Block, ghost height: nat) returns (ok: bool)
      modifies this
      ensures View() == ChainstateModel.RewindBlock(old(View()), b, height)
      ensures ok == Saved(old(View()), Effects(b, height))
    {
      hide UndoAll, Saved, OutputEffects, InputEffects;
      var isCb, n := true, 0;
      ok := true;
      NoEffects(View());
      while n < |b.transactions|
        invariant 0 <= n <= |b.transactions| && isCb == (n == 0)
        invariant View() == UndoAll(old(View()), BlockEffects(b, height, n))
        invariant ok == Saved(old(View()), BlockEffects(b, height, n))
      {
        ghost var s := View();
        RemoveOutputs(b.transactions[n], height, isCb);
        if !isCb {
          var saved := RestoreInputs(b.transactions[n]);
          ok := ok && saved;
          UndoAllAppend(s, OutputEffects(b.transactions[n], height, isCb), InputEffects(b.transactions[n]));
          SavedAppend(s, OutputEffects(b.transactions[n], height, isCb), InputEffects(b.transactions[n]));
        } else {
          assert OutputEffects(b.transactions[n], height, isCb) + [] == OutputEffects(b.transactions[n], height, isCb);
          isCb := false;
        }
        UndoAllAppend(old(View()), BlockEffects(b, height, n), TxEffects(b.transactions[n], height, n == 0));
        SavedAppend(old(View()), BlockEffects(b, height, n), TxEffects(b.transactions[n], height, n == 0));
        n := n + 1;
      }
    }
  }
}
