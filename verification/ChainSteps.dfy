/** What one event does to chain, chainstate, bindings and total difficulty, in terms of the
    block that comes or of the blocks of the fork. */
module ChainSteps {
  import opened Numerals
  import opened ChainstateModel
  import opened ChainstateBlocks
  import opened ChainstateInputs
  import opened ChainModel
  import opened ChainRuns

  // ---------------------------------------------------------------- one block

  /** The block names the tip and is later than the tip. */
  predicate Continues(n: Node, b: Block)
    requires n.chain != []
  {
    var tip := n.chain[|n.chain| - 1].header;
    b.header.prev == tip.hash && tip.timestamp < b.header.timestamp
  }

  /** The block has transactions, and its inputs and the rest of the checks before the proofs
      pass. */
  predicate Checked(n: Node, b: Block, check: Check) {
    && |b.transactions| > 0
    && InputsValid(n.state, b, |b.transactions|)
    && check.rest(n.chain, n.state, b)
  }

  lemma CheckedIff(n: Node, b: Block, check: Check)
    ensures Reaches(n, b, check) <==> Checked(n, b, check)
  {
    hide InputsUnspentOnce, InputsValid;
    ValidationAsks(n.state, b, |n.chain|);
  }

  /** The block on top, and its difficulty in the total. */
  predicate Grew(n: Node, b: Block, t: Node) {
    && t.chain == n.chain + [b]
    && t.state == AddBlock(n.state, b, |n.chain|)
    && t.total == n.total + b.header.difficulty
  }

  /** A stored block is accepted exactly if it names the tip, is later, and passes with its
      computations bound as often as they are: once by the validation that let it in, unless
      more often is on record. */
  lemma AcceptedIff(n: Node, b: Block, check: Check)
    requires n.chain != []
    ensures var hash := b.header.hash;
            Accepts(n, b, check) <==>
            && Continues(n, b) && Checked(n, b, check)
            && check.proofs(b, if hash in n.bound then n.bound[hash] else 1)
  {
    hide Reaches, Checked;
    CheckedIff(n, b, check);
  }

  /** A block that arrives is added exactly if it names the tip, is later, and passes with
      nothing bound before; otherwise nothing changes. */
  lemma ArrivesMeans(n: Node, b: Block, check: Check)
    requires n.chain != []
    ensures var (outcome, t) := Next(n, Arrives(b), check);
            && outcome == Kept
            && if Continues(n, b) && Checked(n, b, check) && check.proofs(b, 0) then
                 Grew(n, b, t) && t.bound == n.bound
               else t == n
  {
    hide Reaches, Checked, AddBlock, AddChain;
    CheckedIff(n, b, check);
    OneAbove(n, b);
  }

  /** A mined block is added without validation exactly if it names the tip, is later, and each
      of its inputs finds its output when its turn comes.  If the first fails, that throws; if only
      the last fails, so does an assertion. */
  lemma MinedMeans(n: Node, b: Block, times: nat, check: Check)
    requires n.chain != []
    ensures var (outcome, t) := Next(n, Mined(b, times), check);
            var there := InputsThere(n.state, b, |b.transactions|);
            && (outcome == CannotAttach <==> b.header.prev != n.chain[|n.chain| - 1].header.hash)
            && (outcome == AssertionFails <==> Continues(n, b) && !there)
            && (outcome in {CannotAttach, AssertionFails, Kept})
            && if Continues(n, b) && there then
                 Grew(n, b, t) && t.bound == n.bound[b.header.hash := times]
               else t == n
  {
    hide AddBlock, AddChain, Found, Effects, InputsThere;
    AddBlockMeans(n.state, b, |n.chain|, []);
    OneAbove(n, b);
  }

  // ---------------------------------------------------------------- how often blocks are bound

  function Hashes(bs: seq<Block>): seq<seq<byte>> {
    seq(|bs|, i requires 0 <= i < |bs| => bs[i].header.hash)
  }

  /** Validating blocks binds each of them once more, as often as it occurs among them. */
  lemma {:induction false} BoundOnceMore(bound: map<seq<byte>, nat>, bs: seq<Block>, b: Block)
    ensures Bound(RebindAll(bound, bs), b) == Bound(bound, b) + multiset(Hashes(bs))[b.header.hash]
  {
    if bs != [] {
      var before, last := bs[..|bs| - 1], bs[|bs| - 1];
      BoundOnceMore(bound, before, b);
      BoundOnceMore(bound, before, last);
      assert Hashes(bs) == Hashes(before) + [last.header.hash];
    }
  }

  /** How many blocks of a fork are validated as far as the proofs: those that are accepted, and
      the one that is rejected if it attaches and passes the checks before them. */
  function TriedCount(bottom: Node, fork: seq<Block>, check: Check): (m: nat)
    requires bottom.chain != []
    ensures m <= |fork|
  {
    var k := Leading(bottom, fork, check);
    var top := Extended(bottom, fork[..k]);
    if k < |fork| && fork[k].header.prev == top.chain[|top.chain| - 1].header.hash && Checked(top, fork[k], check) then k + 1
    else k
  }

  lemma TriedBindings(bottom: Node, fork: seq<Block>, check: Check, b: Block)
    requires bottom.chain != []
    ensures Bound(Tried(bottom, fork, check).bound, b)
         == Bound(bottom.bound, b) + multiset(Hashes(fork[..TriedCount(bottom, fork, check)]))[b.header.hash]
  {
    hide Leading, Reaches, Checked, AddChain, Bound;
    var k, m := Leading(bottom, fork, check), TriedCount(bottom, fork, check);
    if k < |fork| {
      CheckedIff(Extended(bottom, fork[..k]), fork[k], check);
    }
    if m == k + 1 {
      assert fork[..m][..k] == fork[..k];
      assert RebindAll(bottom.bound, fork[..m]) == Rebind(RebindAll(bottom.bound, fork[..k]), fork[k]);
    }
    BoundOnceMore(bottom.bound, fork[..m], b);
  }

  /** A reorganisation that puts the former blocks back has bound each of them once more, and
      each block of the fork that it validated as far as the proofs. */
  lemma KeptBindings(n: Node, src: nat, fork: seq<Block>, total: nat, check: Check, b: Block)
    requires src < |n.chain| && ReorgStep(n, src, fork, total, check).0 == Kept
    ensures var t, tried := ReorgStep(n, src, fork, total, check).1, fork[..TriedCount(Bottom(n, src), fork, check)];
            Bound(t.bound, b) == Bound(n.bound, b) + multiset(Hashes(tried))[b.header.hash]
                                 + multiset(Hashes(n.chain[src + 1..]))[b.header.hash]
  {
    hide Leading, Reaches, Checked, AddChain, RewindChain, Bound, Saved, RewindEffects;
    var bottom, former := Bottom(n, src), n.chain[src + 1..];
    TriedBindings(bottom, fork, check, b);
    var k, top := Leading(bottom, fork, check), Tried(bottom, fork, check);
    var again := top.(chain := bottom.chain, state := RewindChain(top.state, fork[..k], src + 1));
    assert PutBack(again, former, k, n.total, check).0 == Kept;
    assert former[..|former|] == former;
    BoundOnceMore(again.bound, former, b);
  }

  // ---------------------------------------------------------------- outside a vector

  /** A reorganisation leaves a vector exactly if the main chain does not reach up to the source
      of the fork, or if the rewind goes well, the first block of the fork attaches and is rejected,
      and all former blocks are put back. */
  lemma LeavesVectorIff(n: Node, src: nat, fork: seq<Block>, total: nat, check: Check)
    ensures ReorgStep(n, src, fork, total, check).0 == OutOfRange <==>
            if |n.chain| <= src then true
            else
              var bottom, former := Bottom(n, src), n.chain[src + 1..];
              && Saved(n.state, RewindEffects(former, src + 1))
              && fork != [] && fork[0].header.prev == n.chain[src].header.hash && !Accepts(bottom, fork[0], check)
              && AcceptsAll(Again(bottom, fork, check), former, check)
  {
    hide Leading, Reaches, AddChain, RewindChain, Saved, RewindEffects, Accepts, AcceptsAll, Validated;
    if src < |n.chain| {
      var bottom, former := Bottom(n, src), n.chain[src + 1..];
      var k := Leading(bottom, fork, check);
      NoBlocks(bottom, check);
      assert fork[..0] == [];
      LeadingIff(bottom, fork, check, 0);
      TriedBlocks(bottom, fork, check);
      var top := Tried(bottom, fork, check);
      var again := top.(chain := bottom.chain, state := RewindChain(top.state, fork[..k], src + 1));
      NothingElseLeaves(again, former, k, n.total, check);
      EmptyChain(top.state, src + 1);
    }
  }

  lemma NothingElseLeaves(again: Node, former: seq<Block>, k: nat, total: nat, check: Check)
    requires again.chain != []
    ensures PutBack(again, former, k, total, check).0 == OutOfRange <==> k == 0 && AcceptsAll(again, former, check)
  {
    hide AcceptsAll, Accepts, Leading, Tried;
    LeadingIff(again, former, check, |former|);
    assert former[..|former|] == former;
  }
}
