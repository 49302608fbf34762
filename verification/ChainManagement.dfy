/** Validation of blocks, and the chain manager: appending blocks to the main chain and
    switching to a fork or back. */
module ChainManagement {
  import opened Numerals
  import opened ChainstateModel
  import opened ChainstateStore
  import opened ChainModel
  import opened ChainRewind
  import opened ChainRuns

  // ---------------------------------------------------------------- validation

  /** keys are exactly those that the effects use. */
  ghost predicate UsedIs(es: seq<Effect>, keys: set<Key>) {
    && (forall i :: 0 <= i < |es| && es[i].Use? ==> es[i].key in keys)
    && (forall key :: key in keys ==> exists i :: 0 <= i < |es| && es[i] == Use(key))
  }

  lemma MakesChangeNothing(s: Chainstate, es: seq<Effect>, makes: seq<Effect>, keys: set<Key>)
    requires forall i :: 0 <= i < |makes| ==> makes[i].Make?
    requires UsedIs(es, keys)
    ensures UsedIs(es + makes, keys)
    ensures InputsUnspentOnce(s, es + makes) <==> InputsUnspentOnce(s, es)
  {
    var all := es + makes;
    forall key | key in keys
      ensures exists i :: 0 <= i < |all| && all[i] == Use(key)
    {
      var i :| 0 <= i < |es| && es[i] == Use(key);
      assert all[i] == Use(key);
    }
    assert forall i :: 0 <= i < |es| ==> all[i] == es[i];
    assert forall i :: |es| <= i < |all| ==> all[i] == makes[i - |es|];
  }

  lemma OneMoreUse(s: Chainstate, es: seq<Effect>, key: Key, keys: set<Key>)
    requires UsedIs(es, keys)
    ensures UsedIs(es + [Use(key)], keys + {key})
    ensures InputsUnspentOnce(s, es + [Use(key)]) <==>
            InputsUnspentOnce(s, es) && key in s.storage && key !in keys
  {
    var all := es + [Use(key)];
    assert forall i :: 0 <= i < |es| ==> all[i] == es[i];
    assert all[|es|] == Use(key);
    forall k | k in keys + {key}
      ensures exists i :: 0 <= i < |all| && all[i] == Use(k)
    {
      if k in keys {
        var i :| 0 <= i < |es| && es[i] == Use(k);
        assert all[i] == Use(k);
      }
    }
  }

  lemma FailureStays(s: Chainstate, es: seq<Effect>, more: seq<Effect>)
    requires !InputsUnspentOnce(s, es)
    ensures !InputsUnspentOnce(s, es + more)
  {
    assert forall i :: 0 <= i < |es| ==> (es + more)[i] == es[i];
  }

  /** The loop of validate_block over the inputs of one transaction; `seen` holds what the
      earlier inputs of the block refer to. */
  method ValidateTx(m: MemChainstate, tx: Transaction, seen0: set<Key>, ghost es: seq<Effect>)
    returns (ok: bool, seen: set<Key>)
    requires UsedIs(es, seen0) && InputsUnspentOnce(m.View(), es)
    ensures ok <==> InputsUnspentOnce(m.View(), es + InputEffects(tx))
    ensures ok ==> UsedIs(es + InputEffects(tx), seen)
  {
    hide UsedIs, InputsUnspentOnce;
    seen := seen0;
    ghost var s, uses := m.View(), InputEffects(tx);
    var i := 0;
    assert es + uses[..0] == es;
    while i < |tx.inputs|
      invariant 0 <= i <= |tx.inputs|
      invariant UsedIs(es + uses[..i], seen) && InputsUnspentOnce(s, es + uses[..i])
    {
      var key := PairToKey(tx.inputs[i].txid, tx.inputs[i].vout);
      OneMoreUse(s, es + uses[..i], key, seen);
      assert es + uses[..i + 1] == es + uses[..i] + [Use(key)];
      if key in seen || key !in m.storage {
        FailureStays(s, es + uses[..i + 1], uses[i + 1..]);
        assert es + uses == es + uses[..i + 1] + uses[i + 1..];
        return false, seen;
      }
      seen := seen + {key};
      i := i + 1;
    }
    assert uses[..i] == uses;
    return true, seen;
  }

  /** The checks of validate_block on which outputs a block spends. */
  method ValidateInputs(m: MemChainstate, b: Block, ghost height: nat) returns (ok: bool)
    ensures ok <==> InputsUnspentOnce(m.View(), Effects(b, height))
  {
    hide UsedIs, InputsUnspentOnce, InputEffects;
    var seen: set<Key> := {};
    var isCb, n := true, 0;
    NoInputs(m.View());
    while n < |b.transactions|
      invariant 0 <= n <= |b.transactions| && isCb == (n == 0)
      invariant UsedIs(BlockEffects(b, height, n), seen)
      invariant InputsUnspentOnce(m.View(), BlockEffects(b, height, n))
    {
      ghost var es, outs := BlockEffects(b, height, n), OutputEffects(b.transactions[n], height, n == 0);
      MakesChangeNothing(m.View(), es, outs, seen);
      if isCb {
        assert es + TxEffects(b.transactions[n], height, true) == es + outs;
        isCb := false;
      } else {
        assert es + TxEffects(b.transactions[n], height, false) == es + outs + InputEffects(b.transactions[n]);
        var txOk;
        txOk, seen := ValidateTx(m, b.transactions[n], seen, es + outs);
        if !txOk {
          TransactionFails(m.View(), b, height, n);
          return false;
        }
      }
      n := n + 1;
    }
    return true;
  }

  lemma NoInputs(s: Chainstate)
    ensures UsedIs([], {}) && InputsUnspentOnce(s, [])
  {
  }

  lemma {:induction false} TransactionFails(s: Chainstate, b: Block, height: nat, n: nat)
    requires n < |b.transactions| && !InputsUnspentOnce(s, BlockEffects(b, height, n + 1))
    ensures !InputsUnspentOnce(s, Effects(b, height))
    decreases |b.transactions| - n
  {
    if n + 1 < |b.transactions| {
      FailureStays(s, BlockEffects(b, height, n + 1), TxEffects(b.transactions[n + 1], height, false));
      TransactionFails(s, b, height, n + 1);
    }
  }

  // ---------------------------------------------------------------- the chain manager

  class Fork {
    const src: nat
    var blocks: seq<Block>
    var totalDifficulty: nat

    /** The total is that of a chain which includes these blocks. */
    predicate Valid()
      reads this
    {
      |blocks| <= SIZE_MAX && Difficulty(blocks) <= totalDifficulty
    }

    constructor (src: nat, blocks: seq<Block>, totalDifficulty: nat)
      ensures this.src == src && this.blocks == blocks && this.totalDifficulty == totalDifficulty
    {
      this.src, this.blocks, this.totalDifficulty := src, blocks, totalDifficulty;
    }

    /** Takes the blocks from idx on, and their difficulties, off the fork.  The counter is a
        uint64_t that counts down to idx: for idx == 0 it never gets below, and comes round to
        an index outside the vector. */
    method Trim(idx: nat) returns (inRange: bool)
      requires Valid() && idx <= |blocks|
      modifies this
      ensures inRange <==> idx > 0
      ensures inRange ==> blocks == old(blocks[..idx]) && totalDifficulty == old(totalDifficulty - Difficulty(blocks) + Difficulty(blocks[..idx]))
      ensures inRange ==> Valid()
    {
      var i := if |blocks| == 0 then SIZE_MAX else |blocks| - 1;
      ghost var left := |blocks|;
      assert blocks[..left] == blocks;
      while i >= idx
        invariant blocks == old(blocks) && idx <= left <= |blocks|
        invariant i == if left == 0 then SIZE_MAX else left - 1
        invariant Difficulty(blocks[..left]) <= totalDifficulty
        invariant totalDifficulty == old(totalDifficulty - Difficulty(blocks)) + Difficulty(blocks[..left])
        decreases left, i
      {
        if i >= |blocks| {
          return false;
        }
        assert blocks[..left][..i] == blocks[..i];
        totalDifficulty := totalDifficulty - blocks[i].header.difficulty;
        left := left - 1;
        i := if i == 0 then SIZE_MAX else i - 1;
      }
      blocks := blocks[..idx];
      return true;
    }
  }

  datatype Appended = Added | Invalid | Throws | Asserts

  class ChainManager {
    const chainstate: MemChainstate
    var chain: seq<Block>
    var totalDifficulty: nat
    /** How often the computations of each stored block have been bound, where that is not once. */
    var bound: map<seq<byte>, nat>

    ghost function View(): Node
      reads this, chainstate
    {
      Node(chain, chainstate.View(), bound, totalDifficulty)
    }

    /** The main chain starts with genesis. */
    constructor (genesis: Block)
      ensures fresh(chainstate)
      ensures View() == Genesis(genesis)
    {
      chainstate := new MemChainstate();
      chain, totalDifficulty, bound := [genesis], genesis.header.difficulty, map[];
      new;
      var found, deadRead := chainstate.AddBlock(genesis, 0);
    }

    /** Chain::append_block, for a block whose computations have been bound k times; they are bound
        k' times afterwards.  A block that is called valid already is added as it is; then Asserts
        stands for the assertion in add_block that fails if an output to be used is not there. */
    method AppendBlock(b: Block, k: nat, check: Check, isAlreadyValid: bool) returns (r: Appended, k': nat)
      requires chain != []
      modifies this`chain, this`totalDifficulty, chainstate
      ensures k' == if old(Attaches(View(), b) && Reaches(View(), b, check)) && !isAlreadyValid then k + 1 else k
      ensures r == Throws <==> !old(Attaches(View(), b))
      ensures r in {Added, Asserts} <==>
        old(Attaches(View(), b) && (isAlreadyValid || Validates(View(), b, check, k)) && Later(View(), b))
      ensures r in {Added, Asserts} ==> (r == Added <==> old(Found(View().state, Effects(b, |View().chain|))))
      ensures !isAlreadyValid ==> r != Asserts
      ensures r == Added ==> View() == old(Above(View(), [b]))
      ensures r in {Invalid, Throws} ==> View() == old(View())
    {
      hide ChainstateModel.AddBlock, InputsUnspentOnce, AddChain, Above, Effects, Found, ReadsErased;
      k' := k;
      var newHeight, head := |chain|, chain[|chain| - 1].header;
      if b.header.prev != head.hash {
        return Throws, k';
      }
      if !isAlreadyValid {
        var valid;
        valid, k' := ValidateBlock(b, newHeight, check, k);
        if !valid {
          return Invalid, k';
        }
      }
      if b.header.timestamp <= head.timestamp {
        return Invalid, k';
      }
      OneAbove(View(), b);
      if !isAlreadyValid {
        ReachesIsFound(View(), b, check);
      }
      chain := chain + [b];
      var found, deadRead := chainstate.AddBlock(b, newHeight);
      totalDifficulty := totalDifficulty + b.header.difficulty;
      return if found then Added else Asserts, k';
    }

    /** Chain::validate_block: what comes before the proofs, then binding, then the proofs. */
    method ValidateBlock(b: Block, height: nat, check: Check, k: nat) returns (valid: bool, k': nat)
      requires height == |chain|
      ensures valid <==> Validates(View(), b, check, k)
      ensures k' == if Reaches(View(), b, check) then k + 1 else k
    {
      if |b.transactions| == 0 {
        return false, k;
      }
      valid := ValidateInputs(chainstate, b, height);
      if !valid || !check.rest(chain, chainstate.View(), b) {
        return false, k;
      }
      return check.proofs(b, k), k + 1;
    }

    /** ChainManager::add_block, for a block that attaches to the main chain. */
    method Receive(b: Block, check: Check) returns (added: bool)
      requires chain != []
      modifies this`chain, this`totalDifficulty, chainstate
      ensures View() == old(Next(View(), Arrives(b), check)).1
      ensures added <==> old(Attaches(View(), b) && Validates(View(), b, check, 0) && Later(View(), b))
    {
      hide Above, Found, Effects, Reaches;
      if b.header.prev != chain[|chain| - 1].header.hash {
        return false;
      }
      var r, k := AppendBlock(b, 0, check, false);
      return r == Added;
    }

    /** ChainManager::add_block, for a block that was mined here. */
    method ReceiveMined(b: Block, times: nat, check: Check) returns (outcome: Outcome)
      requires chain != []
      modifies this, chainstate
      ensures outcome == old(Next(View(), Mined(b, times), check)).0
      ensures outcome != AssertionFails ==> View() == old(Next(View(), Mined(b, times), check)).1
    {
      hide Above, Found, Effects;
      var r, k := AppendBlock(b, times, check, true);
      if r == Added {
        AboveKeepsBound(old(View()), b);
        bound := bound[b.header.hash := times];
      }
      return match r case Throws => CannotAttach case Asserts => AssertionFails case _ => Kept;
    }

    /** Rewinds the blocks above height src, from the tip; ok is false where an assertion of
        rewind_block fails. */
    method RewindAbove(src: nat) returns (ok: bool)
      requires src < |chain|
      modifies chainstate
      ensures chainstate.View() == old(RewindChain(chainstate.View(), chain[src + 1..], src + 1))
      ensures ok == old(Saved(chainstate.View(), RewindEffects(chain[src + 1..], src + 1)))
    {
      hide UndoAll, Saved, Effects;
      ghost var s := chainstate.View();
      var i := |chain| - 1;
      ok := true;
      NoEffects(s);
      while i > src
        invariant src <= i < |chain|
        invariant chainstate.View() == UndoAll(s, RewindEffects(chain[i + 1..], i + 1))
        invariant ok == Saved(s, RewindEffects(chain[i + 1..], i + 1))
      {
        assert chain[i..][1..] == chain[i + 1..] && chain[i..][0] == chain[i];
        UndoAllAppend(s, RewindEffects(chain[i + 1..], i + 1), Effects(chain[i], i));
        SavedAppend(s, RewindEffects(chain[i + 1..], i + 1), Effects(chain[i], i));
        var saved := chainstate.RewindBlock(chain[i], i);
        ok := ok && saved;
        i := i - 1;
      }
    }

    /** Appends stored blocks up to the first one that is not accepted. */
    method AppendLeading(bs: seq<Block>, check: Check) returns (idx: nat, last: Appended)
      requires chain != []
      modifies this, chainstate
      ensures idx == old(Leading(View(), bs, check))
      ensures View() == old(Tried(View(), bs, check))
      ensures last == Added <==> idx == |bs|
      ensures idx < |bs| ==> (last == Throws <==> !Attaches(View(), bs[idx]))
    {
      hide Accepts, AcceptsAll, AddChain, RebindAll, Difficulty, Leading, Reaches, Above, Found, Effects, AddBlock;
      ghost var n := View();
      idx, last := 0, Added;
      NoBlocks(n, check);
      assert bs[..0] == [];
      while idx < |bs|
        invariant 0 <= idx <= |bs| && last == Added && chain != []
        invariant View() == Extended(n, bs[..idx]) && AcceptsAll(n, bs[..idx], check)
      {
        ghost var t := View();
        OneMoreAccepted(n, bs, idx, check);
        AcceptsMeans(t, bs[idx], check);
        var k;
        last, k := AppendBlock(bs[idx], Bound(bound, bs[idx]), check, false);
        if last != Added {
          if k != Bound(bound, bs[idx]) {
            bound := bound[bs[idx].header.hash := k];
          }
          LeadingIff(n, bs, check, idx);
          return;
        }
        bound := bound[bs[idx].header.hash := k];
        OneAbove(t, bs[idx]);
        BoundOfExtended(n, bs[..idx]);
        idx := idx + 1;
      }
      LeadingIff(n, bs, check, idx);
    }

    /** Switches to the fork; `former` becomes the fork that the main chain was.  The new state
        matters only as long as no assertion has failed. */
    method Reorg(fork: Fork, check: Check) returns (outcome: Outcome, former: Fork)
      requires chain != [] && fork.Valid()
      modifies this, chainstate, fork
      ensures outcome == old(ReorgStep(View(), fork.src, fork.blocks, fork.totalDifficulty, check)).0
      ensures outcome != AssertionFails ==>
        View() == old(ReorgStep(View(), fork.src, fork.blocks, fork.totalDifficulty, check)).1
      ensures outcome == Replaced ==>
        former.src == fork.src && former.blocks == old(chain[fork.src + 1..]) && former.totalDifficulty == old(totalDifficulty)
      ensures outcome == Kept ==>
        old(fork.src < |chain|) && fork.Valid() &&
        fork.blocks == old(fork.blocks[..Leading(Bottom(View(), fork.src), fork.blocks, check)])
      ensures outcome == Kept ==>
        fork.totalDifficulty - Difficulty(fork.blocks) == old(fork.totalDifficulty - Difficulty(fork.blocks))
    {
      hide Saved, RewindChain, Tried, Attaches, Leading, RewindEffects, PutBack, Difficulty, IsRejected, AddChain, Accepts, Extended;
      former := fork;
      if fork.src >= |chain| {
        return OutOfRange, former;
      }
      former := new Fork(fork.src, chain[fork.src + 1..], totalDifficulty);
      var ok := RewindAbove(fork.src);
      if !ok {
        return AssertionFails, former;
      }
      var oldTotal := totalDifficulty;
      chain := chain[..fork.src + 1];
      ghost var bottom := View();
      var idx, last := AppendLeading(fork.blocks, check);
      TriedBlocks(bottom, fork.blocks, check);
      if last == Added {
        totalDifficulty := fork.totalDifficulty;
        return Replaced, former;
      }
      if last == Throws {
        return CannotAttach, former;
      }
      TakenApart(bottom.chain, fork.blocks[..idx]);
      ok := RewindAbove(fork.src);
      if !ok {
        return AssertionFails, former;
      }
      chain := chain[..fork.src + 1];
      outcome := PutBackFormer(former, fork, idx, oldTotal, check);
    }

    /** The end of a reorganisation that failed: the former blocks are appended again, the fork is
        trimmed to its first idx blocks, and the total difficulty is set back. */
    method PutBackFormer(former: Fork, fork: Fork, idx: nat, oldTotal: nat, check: Check) returns (outcome: Outcome)
      requires chain != [] && fork != former && fork.Valid() && idx <= |fork.blocks|
      modifies this, chainstate, fork
      ensures (outcome, View()) == old(PutBack(View(), former.blocks, idx, oldTotal, check))
      ensures outcome == Kept ==> fork.Valid() && fork.blocks == old(fork.blocks)[..idx]
      ensures outcome == Kept ==>
        fork.totalDifficulty - Difficulty(fork.blocks) == old(fork.totalDifficulty - Difficulty(fork.blocks))
      ensures outcome != Replaced
    {
      hide Tried, Attaches, Leading, Difficulty;
      var again, last := AppendLeading(former.blocks, check);
      assert old(former.blocks) == former.blocks;
      if last != Added {
        return if last == Throws then CannotAttach else AssertionFails;
      }
      var inRange := fork.Trim(idx);
      if !inRange {
        return OutOfRange;
      }
      totalDifficulty := oldTotal;
      return Kept;
    }
  }

  lemma TakenApart(a: seq<Block>, b: seq<Block>)
    ensures (a + b)[|a|..] == b && (a + b)[..|a|] == a
  {
  }

  lemma ReachesIsFound(n: Node, b: Block, check: Check)
    requires Reaches(n, b, check)
    ensures Found(n.state, Effects(b, |n.chain|))
  {
    hide InputsUnspentOnce, Effects, Found;
    ValidatedIsFound(n.state, Effects(b, |n.chain|));
  }

  lemma AboveKeepsBound(n: Node, b: Block)
    ensures Above(n, [b]).bound == n.bound
  {
  }

  lemma AcceptsMeans(n: Node, b: Block, check: Check)
    requires n.chain != []
    ensures Accepts(n, b, check) <==> Attaches(n, b) && Validates(n, b, check, Bound(n.bound, b)) && Later(n, b)
  {
  }

  lemma BoundOfExtended(n: Node, bs: seq<Block>)
    ensures Extended(n, bs).bound == RebindAll(n.bound, bs)
  {
  }
}
