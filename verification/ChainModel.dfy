/** Chains of blocks over a chainstate: which block a chain accepts, and what a
    reorganisation does to chain and chainstate, step by step. */
module ChainModel {
  import opened Numerals
  import opened ChainstateModel

  // ---------------------------------------------------------------- many blocks

  /** The effects of the blocks bs, added from height h on. */
  function ChainEffects(bs: seq<Block>, h: nat): seq<Effect> {
    if bs == [] then []
    else ChainEffects(bs[..|bs| - 1], h) + Effects(bs[|bs| - 1], h + |bs| - 1)
  }

  /** The same effects in the order in which the blocks, rewound from the last one, undo them. */
  function RewindEffects(bs: seq<Block>, h: nat): seq<Effect> {
    if bs == [] then [] else RewindEffects(bs[1..], h + 1) + Effects(bs[0], h)
  }

  function AddChain(s: Chainstate, bs: seq<Block>, h: nat): Chainstate {
    DoAll(s, ChainEffects(bs, h))
  }

  function RewindChain(s: Chainstate, bs: seq<Block>, h: nat): Chainstate {
    UndoAll(s, RewindEffects(bs, h))
  }

  function Difficulty(bs: seq<Block>): nat {
    if bs == [] then 0 else Difficulty(bs[..|bs| - 1]) + bs[|bs| - 1].header.difficulty
  }

  lemma EmptyChain(s: Chainstate, h: nat)
    ensures AddChain(s, [], h) == s && RewindChain(s, [], h) == s && Saved(s, RewindEffects([], h))
  {
  }

  lemma OneMoreBlock(s: Chainstate, bs: seq<Block>, b: Block, h: nat)
    ensures AddChain(s, bs + [b], h) == AddBlock(AddChain(s, bs, h), b, h + |bs|)
  {
    hide DoAll, Effects;
    assert (bs + [b])[..|bs|] == bs;
    DoAllAppend(s, ChainEffects(bs, h), Effects(b, h + |bs|));
  }

  /** Adding a chain can be split at any block. */
  lemma {:induction false} AddChainSplit(s: Chainstate, a: seq<Block>, b: seq<Block>, h: nat)
    ensures ChainEffects(a + b, h) == ChainEffects(a, h) + ChainEffects(b, h + |a|)
    ensures AddChain(s, a + b, h) == AddChain(AddChain(s, a, h), b, h + |a|)
  {
    hide DoAll, Effects;
    if b == [] {
      assert a + b == a;
    } else {
      AddChainSplit(s, a, b[..|b| - 1], h);
      assert (a + b)[..|a + b| - 1] == a + b[..|b| - 1];
    }
    DoAllAppend(s, ChainEffects(a, h), ChainEffects(b, h + |a|));
  }

  lemma {:induction false} DifficultySplit(a: seq<Block>, b: seq<Block>)
    ensures Difficulty(a + b) == Difficulty(a) + Difficulty(b)
  {
    if b == [] {
      assert a + b == a;
    } else {
      DifficultySplit(a, b[..|b| - 1]);
      assert (a + b)[..|a + b| - 1] == a + b[..|b| - 1];
    }
  }

  // ---------------------------------------------------------------- accepting blocks

  /** What validation checks of the inputs: each is unspent before the block, and no two are
      the same. */
  predicate InputsUnspentOnce(s: Chainstate, es: seq<Effect>) {
    && (forall i :: 0 <= i < |es| && es[i].Use? ==> es[i].key in s.storage)
    && (forall i, j :: 0 <= i < j < |es| && es[i].Use? && es[j].Use? ==> es[i].key != es[j].key)
  }

  /** The rest of validate_block.  `rest` stands for signatures, reward, Merkle root, difficulty
      and depth, which depend on the chain, the chainstate and the block.  Each validation that
      gets as far as the proofs binds the computations of the block to its header once more, on
      top of what was bound before; proofs(b, k) says whether they verify when this has happened
      k times before. */
  datatype Check = Check(rest: (seq<Block>, Chainstate, Block) -> bool, proofs: (Block, nat) -> bool)

  /** A chain, from genesis on; the chainstate that goes with it; how often the computations of
      the stored blocks have been bound, by block hash; and the total difficulty of the chain. */
  datatype Node = Node(chain: seq<Block>, state: Chainstate, bound: map<seq<byte>, nat>, total: nat)

  /** A block is stored only after it was bound once, by the validation that let it in. */
  function Bound(bound: map<seq<byte>, nat>, b: Block): nat {
    if b.header.hash in bound then bound[b.header.hash] else 1
  }

  function Rebind(bound: map<seq<byte>, nat>, b: Block): map<seq<byte>, nat> {
    bound[b.header.hash := Bound(bound, b) + 1]
  }

  function RebindAll(bound: map<seq<byte>, nat>, bs: seq<Block>): map<seq<byte>, nat> {
    if bs == [] then bound else Rebind(RebindAll(bound, bs[..|bs| - 1]), bs[|bs| - 1])
  }

  predicate Attaches(n: Node, b: Block)
    requires n.chain != []
  {
    b.header.prev == n.chain[|n.chain| - 1].header.hash
  }

  predicate Later(n: Node, b: Block)
    requires n.chain != []
  {
    b.header.timestamp > n.chain[|n.chain| - 1].header.timestamp
  }

  /** Validation gets as far as the proofs. */
  predicate Reaches(n: Node, b: Block, check: Check) {
    b.transactions != [] && InputsUnspentOnce(n.state, Effects(b, |n.chain|)) && check.rest(n.chain, n.state, b)
  }

  /** validate_block returns true for a block that was bound k times before. */
  predicate Validates(n: Node, b: Block, check: Check, k: nat) {
    Reaches(n, b, check) && check.proofs(b, k)
  }

  /** append_block returns true for a stored block. */
  predicate Accepts(n: Node, b: Block, check: Check)
    requires n.chain != []
  {
    Attaches(n, b) && Validates(n, b, check, Bound(n.bound, b)) && Later(n, b)
  }

  /** The blocks bs on top. */
  function Above(n: Node, bs: seq<Block>): Node {
    n.(chain := n.chain + bs, state := AddChain(n.state, bs, |n.chain|), total := n.total + Difficulty(bs))
  }

  /** The stored blocks bs on top, each of them validated. */
  function Extended(n: Node, bs: seq<Block>): Node {
    Above(n, bs).(bound := RebindAll(n.bound, bs))
  }

  predicate AcceptsAll(n: Node, bs: seq<Block>, check: Check)
    requires n.chain != []
  {
    forall k :: 0 <= k < |bs| ==> Accepts(Extended(n, bs[..k]), bs[k], check)
  }

  /** The last one comes after the others. */
  lemma LastAccepted(n: Node, bs: seq<Block>, check: Check)
    requires n.chain != [] && bs != []
    ensures var before := bs[..|bs| - 1];
            AcceptsAll(n, bs, check) <==>
            AcceptsAll(n, before, check) && Accepts(Extended(n, before), bs[|bs| - 1], check)
  {
    hide Accepts, Extended;
    var before := bs[..|bs| - 1];
    assert forall k :: 0 <= k < |before| ==> before[k] == bs[k] && before[..k] == bs[..k];
  }

  /** How many of the blocks are accepted one after the other. */
  function Leading(n: Node, bs: seq<Block>, check: Check): (k: nat)
    requires n.chain != []
    ensures k <= |bs|
  {
    if bs == [] then 0
    else
      var before := bs[..|bs| - 1];
      var k := Leading(n, before, check);
      if k == |before| && Accepts(Extended(n, before), bs[k], check) then |bs| else k
  }

  /** Leading stops at the first block that is not accepted. */
  lemma {:induction false} LeadingIff(n: Node, bs: seq<Block>, check: Check, k: nat)
    requires n.chain != [] && k <= |bs|
    ensures Leading(n, bs, check) == k <==>
            AcceptsAll(n, bs[..k], check) && (k < |bs| ==> !Accepts(Extended(n, bs[..k]), bs[k], check))
    decreases |bs|
  {
    hide Accepts, AcceptsAll, Extended;
    if bs == [] {
      NoBlocks(n, check);
    } else {
      var before := bs[..|bs| - 1];
      var m := Leading(n, before, check);
      LeadingIff(n, before, check, m);
      if k < |bs| {
        LeadingIff(n, before, check, k);
        assert before[..k] == bs[..k];
      } else {
        assert bs[..k] == bs;
        LeadingIff(n, before, check, |before|);
        assert before[..|before|] == before;
        LastAccepted(n, bs, check);
      }
      if k == |before| {
        assert before == bs[..k];
      }
    }
  }

  lemma NoBlocks(n: Node, check: Check)
    requires n.chain != []
    ensures Extended(n, []) == n && Above(n, []) == n && AcceptsAll(n, [], check)
  {
    assert n.chain + [] == n.chain;
  }

  /** One more block, seen from the node that the earlier ones lead to. */
  lemma OneMoreAccepted(n: Node, bs: seq<Block>, k: nat, check: Check)
    requires n.chain != [] && k < |bs|
    ensures AcceptsAll(n, bs[..k + 1], check) <==>
            AcceptsAll(n, bs[..k], check) && Accepts(Extended(n, bs[..k]), bs[k], check)
    ensures Extended(n, bs[..k + 1]) == WithBlock(Extended(n, bs[..k]), bs[k], Rebind(RebindAll(n.bound, bs[..k]), bs[k]))
  {
    hide Accepts, AcceptsAll, AddChain, AddBlock, Rebind;
    LastAccepted(n, bs[..k + 1], check);
    assert bs[..k + 1][..k] == bs[..k] && bs[..k + 1] == bs[..k] + [bs[k]];
    assert n.chain + bs[..k + 1] == n.chain + bs[..k] + [bs[k]];
    OneMoreBlock(n.state, bs[..k], bs[k], |n.chain|);
  }

  /** One block on top. */
  function WithBlock(n: Node, b: Block, bound: map<seq<byte>, nat>): Node {
    Node(n.chain + [b], AddBlock(n.state, b, |n.chain|), bound, n.total + b.header.difficulty)
  }

  lemma OneAbove(n: Node, b: Block)
    ensures Above(n, [b]) == WithBlock(n, b, n.bound)
  {
    hide AddBlock, AddChain;
    assert [] + [b] == [b] && [b][..0] == [];
    EmptyChain(n.state, |n.chain|);
    OneMoreBlock(n.state, [], b, |n.chain|);
    assert Difficulty([b]) == b.header.difficulty;
  }

  // ---------------------------------------------------------------- reorganisations

  /** How a reorganisation ends: the fork became the main chain; it did not, and the main chain
      was put back; std::invalid_argument, where a block does not attach; an assertion that
      fails; or an index outside a vector. */
  datatype Outcome = Replaced | Kept | CannotAttach | AssertionFails | OutOfRange

  /** The main chain up to height src, its blocks above that rewound. */
  function Bottom(n: Node, src: nat): Node
    requires src < |n.chain|
  {
    n.(chain := n.chain[..src + 1], state := RewindChain(n.state, n.chain[src + 1..], src + 1))
  }

  /** What validating a stored block leaves: bound once more, if it gets that far. */
  function Validated(n: Node, b: Block, check: Check): Node {
    if Reaches(n, b, check) then n.(bound := Rebind(n.bound, b)) else n
  }

  /** The node after the blocks of a fork were appended up to the first one that is rejected. */
  function Tried(bottom: Node, fork: seq<Block>, check: Check): Node
    requires bottom.chain != []
  {
    var k := Leading(bottom, fork, check);
    var top := Extended(bottom, fork[..k]);
    if k < |fork| && Attaches(top, fork[k]) then Validated(top, fork[k], check) else top
  }

  /** The blocks above height src are rewound and those of the fork appended in their place;
      `total` is the total difficulty of the fork. */
  function ReorgStep(n: Node, src: nat, fork: seq<Block>, total: nat, check: Check): (Outcome, Node) {
    if |n.chain| <= src then (OutOfRange, n)
    else
      var former := n.chain[src + 1..];
      if !Saved(n.state, RewindEffects(former, src + 1)) then (AssertionFails, n)
      else
        var bottom := Bottom(n, src);
        var k, top := Leading(bottom, fork, check), Tried(bottom, fork, check);
        if k == |fork| then (Replaced, top.(total := total))
        else if !Attaches(top, fork[k]) then (CannotAttach, top)
        else if !Saved(top.state, RewindEffects(fork[..k], src + 1)) then (AssertionFails, n)
        else
          var again := top.(chain := bottom.chain, state := RewindChain(top.state, fork[..k], src + 1));
          PutBack(again, former, k, n.total, check)
  }

  /** The former blocks are appended again; then the fork is trimmed to its first k blocks,
      which leaves the vector if there are none, and the total difficulty set back. */
  function PutBack(bottom: Node, former: seq<Block>, k: nat, total: nat, check: Check): (Outcome, Node)
    requires bottom.chain != []
  {
    var j, top := Leading(bottom, former, check), Tried(bottom, former, check);
    if j < |former| then (if Attaches(top, former[j]) then AssertionFails else CannotAttach, top)
    else if k == 0 then (OutOfRange, top)
    else (Kept, top.(total := total))
  }
}
