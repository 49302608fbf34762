/** The unspent and spent transaction outputs of the node, and what appending a block to the
    chain and rewinding it do to them. */
module ChainstateModel {
  import opened Numerals

  /** Key of an output: the transaction id followed by the output index in eight bytes. */
  type Key = seq<byte>

  datatype Record = Record(height: nat, coinbase: bool, amount: nat, pubkey: seq<byte>)

  datatype Output = Output(amount: nat, pubkey: seq<byte>)

  datatype Input = Input(txid: seq<byte>, vout: nat)

  datatype Transaction = Transaction(txid: seq<byte>, outputs: seq<Output>, inputs: seq<Input>)

  /** The fields of a header that appending and rewinding read. */
  datatype Header = Header(hash: seq<byte>, prev: seq<byte>, timestamp: int, difficulty: nat)

  datatype Block = Block(header: Header, transactions: seq<Transaction>)

  /** What a block does to one output, in the order of the block. */
  datatype Effect = Make(key: Key, record: Record) | Use(key: Key)

  datatype Chainstate = Chainstate(storage: map<Key, Record>, spent: map<Key, Record>) {

    /** add_utxo: an output that exists already is not added again. */
    function Add(key: Key, r: Record): Chainstate {
      if key in storage then this else this.(storage := storage[key := r])
    }

    /** remove_utxo: of the records saved under one key the first one stays. */
    function Remove(key: Key, saveSpent: bool): Chainstate {
      if key !in storage then this
      else
        Chainstate(storage - {key},
                   if saveSpent && key !in spent then spent[key := storage[key]] else spent)
    }

    /** One effect of a block that is added. */
    function Do(e: Effect): Chainstate {
      match e
      case Make(key, r) => Add(key, r)
      case Use(key) => Remove(key, true)
    }

    /** One effect of a block that is rewound. */
    function Undo(e: Effect): Chainstate {
      match e
      case Make(key, _) => Remove(key, false)
      case Use(key) =>
        if key !in spent then this
        else var t := Add(key, spent[key]); t.(spent := t.spent - {key})
    }
  }

  function PairToKey(txid: seq<byte>, vout: nat): Key {
    txid + Bytes(vout, 8)
  }

  /** filter_by_pubkey takes a key apart again: all but the last eight bytes are the
      transaction id, and those denote the output index. */
  lemma KeyRoundTrip(txid: seq<byte>, vout: nat)
    requires vout < 0x1_0000_0000_0000_0000
    ensures var key := PairToKey(txid, vout);
            && |key| == |txid| + 8
            && key[..|key| - 8] == txid
            && R256.Value(key[|key| - 8..]) == vout
  {
    hide Radix.Digits, Radix.Value;
    EightBytes();
    ValueOfDigits(R256, vout, 8);
    var key := PairToKey(txid, vout);
    assert key[|key| - 8..] == Bytes(vout, 8);
  }

  /** Different outputs have different keys, whatever the lengths of their transaction ids. */
  lemma KeysAreUnique(txid: seq<byte>, vout: nat, txid': seq<byte>, vout': nat)
    requires vout < 0x1_0000_0000_0000_0000 && vout' < 0x1_0000_0000_0000_0000
    ensures PairToKey(txid, vout) == PairToKey(txid', vout') <==> txid == txid' && vout == vout'
  {
    hide PairToKey;
    KeyRoundTrip(txid, vout);
    KeyRoundTrip(txid', vout');
  }

  function OutputEffects(tx: Transaction, height: nat, coinbase: bool): (es: seq<Effect>)
    ensures |es| == |tx.outputs|
  {
    seq(|tx.outputs|, i requires 0 <= i < |tx.outputs| =>
      Make(PairToKey(tx.txid, i), Record(height, coinbase, tx.outputs[i].amount, tx.outputs[i].pubkey)))
  }

  function InputEffects(tx: Transaction): (es: seq<Effect>)
    ensures |es| == |tx.inputs|
  {
    seq(|tx.inputs|, i requires 0 <= i < |tx.inputs| => Use(PairToKey(tx.inputs[i].txid, tx.inputs[i].vout)))
  }

  /** A transaction makes its outputs and uses its inputs; a coinbase has no inputs. */
  function TxEffects(tx: Transaction, height: nat, coinbase: bool): seq<Effect> {
    OutputEffects(tx, height, coinbase) + if coinbase then [] else InputEffects(tx)
  }

  /** The first n transactions of a block, of which the very first is the coinbase. */
  function BlockEffects(b: Block, height: nat, n: nat): seq<Effect>
    requires n <= |b.transactions|
  {
    if n == 0 then [] else BlockEffects(b, height, n - 1) + TxEffects(b.transactions[n - 1], height, n == 1)
  }

  function Effects(b: Block, height: nat): seq<Effect> {
    BlockEffects(b, height, |b.transactions|)
  }

  function DoAll(s: Chainstate, es: seq<Effect>): Chainstate {
    if es == [] then s else DoAll(s, es[..|es| - 1]).Do(es[|es| - 1])
  }

  /** A rewound block goes through its effects in the same order as an added one. */
  function UndoAll(s: Chainstate, es: seq<Effect>): Chainstate {
    if es == [] then s else UndoAll(s, es[..|es| - 1]).Undo(es[|es| - 1])
  }

  function AddBlock(s: Chainstate, b: Block, height: nat): Chainstate {
    DoAll(s, Effects(b, height))
  }

  function RewindBlock(s: Chainstate, b: Block, height: nat): Chainstate {
    UndoAll(s, Effects(b, height))
  }

  lemma {:induction false} DoAllAppend(s: Chainstate, a: seq<Effect>, b: seq<Effect>)
    ensures DoAll(s, a + b) == DoAll(DoAll(s, a), b)
  {
    if b == [] {
      assert a + b == a;
    } else {
      DoAllAppend(s, a, b[..|b| - 1]);
      assert (a + b)[..|a + b| - 1] == a + b[..|b| - 1];
    }
  }

  lemma {:induction false} UndoAllAppend(s: Chainstate, a: seq<Effect>, b: seq<Effect>)
    ensures UndoAll(s, a + b) == UndoAll(UndoAll(s, a), b)
  {
    if b == [] {
      assert a + b == a;
    } else {
      UndoAllAppend(s, a, b[..|b| - 1]);
      assert (a + b)[..|a + b| - 1] == a + b[..|b| - 1];
    }
  }

  /** Every output to be used is there when its turn comes. */
  predicate Found(s: Chainstate, es: seq<Effect>) {
    es == [] ||
    (var before, e := es[..|es| - 1], es[|es| - 1];
     Found(s, before) && (e.Use? ==> e.key in DoAll(s, before).storage))
  }

  /** Every output to be given back was saved. */
  predicate Saved(s: Chainstate, es: seq<Effect>) {
    es == [] ||
    (var before, e := es[..|es| - 1], es[|es| - 1];
     Saved(s, before) && (e.Use? ==> e.key in UndoAll(s, before).spent))
  }

  /** Some output is used and found: its record is read after its entry was erased. */
  predicate ReadsErased(s: Chainstate, es: seq<Effect>) {
    es != [] &&
    (var before, e := es[..|es| - 1], es[|es| - 1];
     ReadsErased(s, before) || (e.Use? && e.key in DoAll(s, before).storage))
  }

  /** add_block reads an erased entry exactly if one of the outputs it is to use is found; so
      a block that no assertion stops does so exactly if it uses any output at all. */
  lemma {:induction false} ReadsErasedIff(s: Chainstate, es: seq<Effect>)
    ensures ReadsErased(s, es) <==>
            exists i :: 0 <= i < |es| && es[i].Use? && es[i].key in DoAll(s, es[..i]).storage
    ensures Found(s, es) ==> (ReadsErased(s, es) <==> exists i :: 0 <= i < |es| && es[i].Use?)
  {
    if es != [] {
      var before, n := es[..|es| - 1], |es| - 1;
      ReadsErasedIff(s, before);
      assert forall i :: 0 <= i < n ==> es[i] == before[i] && es[..i] == before[..i];
      assert es[..n] == before;
    }
  }

  lemma {:induction false} ReadsErasedAppend(s: Chainstate, a: seq<Effect>, b: seq<Effect>)
    ensures ReadsErased(s, a + b) <==> ReadsErased(s, a) || ReadsErased(DoAll(s, a), b)
  {
    if b == [] {
      assert a + b == a;
    } else {
      ReadsErasedAppend(s, a, b[..|b| - 1]);
      DoAllAppend(s, a, b[..|b| - 1]);
      assert (a + b)[..|a + b| - 1] == a + b[..|b| - 1];
    }
  }

  lemma {:induction false} FoundAppend(s: Chainstate, a: seq<Effect>, b: seq<Effect>)
    ensures Found(s, a + b) <==> Found(s, a) && Found(DoAll(s, a), b)
  {
    if b == [] {
      assert a + b == a;
    } else {
      FoundAppend(s, a, b[..|b| - 1]);
      DoAllAppend(s, a, b[..|b| - 1]);
      assert (a + b)[..|a + b| - 1] == a + b[..|b| - 1];
    }
  }

  lemma {:induction false} SavedAppend(s: Chainstate, a: seq<Effect>, b: seq<Effect>)
    ensures Saved(s, a + b) <==> Saved(s, a) && Saved(UndoAll(s, a), b)
  {
    if b == [] {
      assert a + b == a;
    } else {
      SavedAppend(s, a, b[..|b| - 1]);
      UndoAllAppend(s, a, b[..|b| - 1]);
      assert (a + b)[..|a + b| - 1] == a + b[..|b| - 1];
    }
  }

  lemma NoEffects(s: Chainstate)
    ensures DoAll(s, []) == s && UndoAll(s, []) == s && Found(s, []) && Saved(s, []) && !ReadsErased(s, [])
  {
  }
}
