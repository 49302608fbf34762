/** Single ownership of completion handler targets over every run. */
module HandlerRuns {
  import opened Options
  import opened HandlerModel

  /** A handle or temporary that owns a live target of its table's type, or nothing. */
  ghost predicate Paired(m: Memory, h: Handle) {
    h.impl.Some? ==>
      var i := h.impl.value;
      i in m.impls && m.impls[i].phase.Live? && h.fnTable == Some(m.impls[i].kind)
  }

  /** Memory bookkeeping: the blocks outstanding are those of the live targets, and the log
      lists every ended target once. */
  ghost predicate Accounted(m: Memory) {
    && !m.undefined
    && (forall i :: i in m.impls ==> i < m.next)
    && (forall i :: i in m.blocks <==> i in m.impls && m.impls[i].phase.Live?)
    && (forall i :: i in m.log <==> i in m.impls && m.impls[i].phase.Ended?)
    && (forall j, k :: 0 <= j < k < |m.log| ==> m.log[j] != m.log[k])
  }

  /** Every live target has exactly one owner: one of the handles, or the temporary. */
  ghost predicate Owned<H>(w: World<H>, temp: Handle) {
    && Accounted(w.memory)
    && Paired(w.memory, temp)
    && (forall h :: h in w.handles ==> Paired(w.memory, w.handles[h]))
    && (forall h, g :: h in w.handles && g in w.handles && h != g && w.handles[h].impl.Some? ==>
          w.handles[h].impl != w.handles[g].impl)
    && (forall h :: h in w.handles && w.handles[h].impl.Some? ==> w.handles[h].impl != temp.impl)
    && (forall i :: i in w.memory.impls && w.memory.impls[i].phase.Live? ==>
          temp.impl == Some(i) || exists h :: h in w.handles && w.handles[h].impl == Some(i))
  }

  /** Ending the target of the temporary leaves every other target with its one owner. */
  lemma ReleaseKeepsOwned<H>(w: World<H>, temp: Handle, how: End)
    requires Owned(w, temp)
    ensures Owned(w.(memory := w.memory.Release(temp, how)), EMPTY)
  {
    if temp.impl.Some? {
      FinishAccounted(w.memory, temp.fnTable, temp.impl.value, how);
    }
  }

  lemma FinishAccounted(m: Memory, table: Option<Kind>, i: ImplId, how: End)
    requires Accounted(m) && Paired(m, Handle(table, Some(i)))
    ensures Accounted(m.Finish(table, i, how))
  {
  }

  lemma CreateKeepsOwned<H>(w: World<H>, h: H, kind: Kind)
    requires Owned(w, EMPTY) && h !in w.handles
    ensures Owned(Step(w, Construct(h, kind, NoFault)), EMPTY)
  {
    var t := Step(w, Construct(h, kind, NoFault));
    forall i | i in t.memory.impls && t.memory.impls[i].phase.Live?
      ensures exists g :: g in t.handles && t.handles[g].impl == Some(i)
    {
      if i == w.memory.next {
        assert t.handles[h].impl == Some(i);
      } else {
        var g :| g in w.handles && w.handles[g].impl == Some(i);
        assert t.handles[g].impl == Some(i);
      }
    }
  }

  /** The temporary takes over what h owned. */
  lemma VacateKeepsOwned<H>(w: World<H>, h: H, table: Option<Kind>)
    requires Owned(w, EMPTY) && h in w.handles
    ensures Owned(w.(handles := w.handles[h := Handle(table, None)]), w.handles[h])
  {
    hide Accounted;
    var t := w.(handles := w.handles[h := Handle(table, None)]);
    forall i | i in w.memory.impls && w.memory.impls[i].phase.Live? && w.handles[h].impl != Some(i)
      ensures exists g :: g in t.handles && t.handles[g].impl == Some(i)
    {
      var g :| g in w.handles && w.handles[g].impl == Some(i);
      assert t.handles[g].impl == Some(i);
    }
  }

  lemma RemoveKeepsOwned<H>(w: World<H>, h: H)
    requires Owned(w, EMPTY) && h in w.handles
    ensures Owned(w.(handles := w.handles - {h}), w.handles[h])
  {
    hide Accounted;
    var t := w.(handles := w.handles - {h});
    forall i | i in w.memory.impls && w.memory.impls[i].phase.Live? && w.handles[h].impl != Some(i)
      ensures exists g :: g in t.handles && t.handles[g].impl == Some(i)
    {
      var g :| g in w.handles && w.handles[g].impl == Some(i);
      assert t.handles[g].impl == Some(i);
    }
  }

  /** h takes over what other owned, and the temporary what h owned. */
  lemma MoveKeepsOwned<H>(w: World<H>, h: H, other: H)
    requires Owned(w, EMPTY) && other in w.handles && h != other
    ensures Owned(w.(handles := w.handles[h := w.handles[other]][other := EMPTY]),
                  if h in w.handles then w.handles[h] else EMPTY)
  {
    hide Accounted;
    var t := w.(handles := w.handles[h := w.handles[other]][other := EMPTY]);
    forall i | i in w.memory.impls && w.memory.impls[i].phase.Live?
      ensures (h in w.handles && w.handles[h].impl == Some(i))
           || exists g :: g in t.handles && t.handles[g].impl == Some(i)
    {
      var g :| g in w.handles && w.handles[g].impl == Some(i);
      assert g != h ==> t.handles[if g == other then h else g].impl == Some(i);
    }
  }

  lemma SwapKeepsOwned<H>(w: World<H>, h: H, other: H)
    requires Owned(w, EMPTY) && h in w.handles && other in w.handles
    ensures Owned(Step(w, Swap(h, other)), EMPTY)
  {
    hide Accounted;
    var t := Step(w, Swap(h, other));
    forall i | i in w.memory.impls && w.memory.impls[i].phase.Live?
      ensures exists g :: g in t.handles && t.handles[g].impl == Some(i)
    {
      var g :| g in w.handles && w.handles[g].impl == Some(i);
      assert t.handles[if g == h then other else if g == other then h else g].impl == Some(i);
    }
  }

  lemma AddEmptyKeepsOwned<H>(w: World<H>, h: H)
    requires Owned(w, EMPTY) && h !in w.handles
    ensures Owned(w.(handles := w.handles[h := EMPTY]), EMPTY)
  {
    hide Accounted;
    var t := w.(handles := w.handles[h := EMPTY]);
    forall i | i in w.memory.impls && w.memory.impls[i].phase.Live?
      ensures exists g :: g in t.handles && t.handles[g].impl == Some(i)
    {
      var g :| g in w.handles && w.handles[g].impl == Some(i);
      assert t.handles[g].impl == Some(i);
    }
  }

  /** Every operation keeps single ownership, and applies no table to a dead target or to one
      of another type. */
  lemma StepKeepsOwned<H>(w: World<H>, op: Op<H>)
    requires Owned(w, EMPTY) && Permitted(w, op)
    ensures Owned(Step(w, op), EMPTY)
  {
    hide Owned, Memory.Release;
    match op
    case ConstructEmpty(h) => AddEmptyKeepsOwned(w, h);
    case Construct(h, kind, fault) =>
      if fault.NoFault? {
        CreateKeepsOwned(w, h, kind);
      }
    case MoveConstruct(h, other) => MoveKeepsOwned(w, h, other);
    case MoveAssign(h, other) =>
      if h != other {
        MoveKeepsOwned(w, h, other);
        ReleaseKeepsOwned(w.(handles := w.handles[h := w.handles[other]][other := EMPTY]), w.handles[h], Destroyed);
      }
    case AssignNull(h) =>
      VacateKeepsOwned(w, h, None);
      ReleaseKeepsOwned(w.(handles := w.handles[h := EMPTY]), w.handles[h], Destroyed);
    case Swap(h, other) => SwapKeepsOwned(w, h, other);
    case Call(h, moveThrows) =>
      VacateKeepsOwned(w, h, w.handles[h].fnTable);
      ReleaseKeepsOwned(w.(handles := w.handles[h := w.handles[h].(impl := None)]), w.handles[h], Called(!moveThrows));
    case Destruct(h) =>
      RemoveKeepsOwned(w, h);
      ReleaseKeepsOwned(w.(handles := w.handles - {h}), w.handles[h], Destroyed);
  }

  // ---------------------------------------------------------------- what each operation does

  /** The target of the handle has ended in the way given, last of all; every other target, block
      and log entry is as before. */
  ghost predicate EndsTarget(m: Memory, t: Memory, h: Handle, how: End) {
    if h.impl.None? then t == m
    else
      var i := h.impl.value;
      && i in m.impls && i in t.impls && t.impls[i] == Impl(m.impls[i].kind, Ended(how))
      && t.impls.Keys == m.impls.Keys && (forall j :: j in m.impls && j != i ==> t.impls[j] == m.impls[j])
      && t.blocks == m.blocks - {i} && t.log == m.log + [i] && t.next == m.next && !t.undefined
  }

  lemma ReleaseEnds(m: Memory, h: Handle, how: End)
    requires Accounted(m) && Paired(m, h)
    ensures EndsTarget(m, m.Release(h, how), h, how)
  {
  }

  /** A handler that takes something over holds exactly what the other one held, which is left
      with nothing; what it held itself has been destroyed.  Moving a handler to itself changes
      nothing.  Assigning null, calling and destroying a handler end its target; the first two
      leave it without one. */
  lemma OperationsDo<H>(w: World<H>, op: Op<H>)
    requires Owned(w, EMPTY) && Permitted(w, op)
    ensures var t, m, nothing := Step(w, op), w.memory, Handle(None, None);
      match op
      case ConstructEmpty(h) => t == World(w.handles[h := nothing], m)
      case Construct(h, kind, fault) =>
        if fault == NoFault then
          && m.next !in m.impls && t.handles == w.handles[h := Handle(Some(kind), Some(m.next))]
          && t.memory == Memory(m.impls[m.next := Impl(kind, Live)], m.blocks + {m.next}, m.next + 1, m.log, false)
        else t == w
      case MoveConstruct(h, other) => t == World(w.handles[h := w.handles[other]][other := nothing], m)
      case MoveAssign(h, other) =>
        if h == other then t == w
        else t.handles == w.handles[h := w.handles[other]][other := nothing]
             && EndsTarget(m, t.memory, w.handles[h], Destroyed)
      case AssignNull(h) => t.handles == w.handles[h := nothing] && EndsTarget(m, t.memory, w.handles[h], Destroyed)
      case Swap(h, other) => t == World(w.handles[h := w.handles[other]][other := w.handles[h]], m)
      case Call(h, moveThrows) =>
        && t.handles == w.handles[h := Handle(w.handles[h].fnTable, None)]
        && EndsTarget(m, t.memory, w.handles[h], Called(!moveThrows))
      case Destruct(h) => t.handles == w.handles - {h} && EndsTarget(m, t.memory, w.handles[h], Destroyed)
  {
    match op
    case MoveAssign(h, other) => ReleaseEnds(w.memory, w.handles[h], Destroyed);
    case AssignNull(h) => ReleaseEnds(w.memory, w.handles[h], Destroyed);
    case Call(h, moveThrows) => ReleaseEnds(w.memory, w.handles[h], Called(!moveThrows));
    case Destruct(h) => ReleaseEnds(w.memory, w.handles[h], Destroyed);
    case _ =>
  }

  // ---------------------------------------------------------------- runs

  ghost predicate Legal<H>(w: World<H>, ops: seq<Op<H>>)
    decreases |ops|
  {
    ops == [] || (Permitted(w, ops[0]) && Legal(Step(w, ops[0]), ops[1..]))
  }

  ghost function Exec<H>(w: World<H>, ops: seq<Op<H>>): World<H>
    requires Legal(w, ops)
    decreases |ops|
  {
    if ops == [] then w else Exec(Step(w, ops[0]), ops[1..])
  }

  ghost function Start<H>(): World<H> {
    World(map[], Memory(map[], {}, 0, [], false))
  }

  lemma {:induction false} ExecKeepsOwned<H>(w: World<H>, ops: seq<Op<H>>)
    requires Owned(w, EMPTY) && Legal(w, ops)
    ensures Owned(Exec(w, ops), EMPTY)
    decreases |ops|
  {
    hide Owned, Step, Permitted;
    if ops != [] {
      StepKeepsOwned(w, ops[0]);
      ExecKeepsOwned(Step(w, ops[0]), ops[1..]);
    }
  }

  /** The handles that own something. */
  ghost function Owners<H>(w: World<H>): set<H> {
    set h | h in w.handles && w.handles[h].impl.Some?
  }

  lemma {:induction false} SameSize<H>(owners: set<H>, blocks: set<ImplId>, owned: map<H, ImplId>)
    requires owners == owned.Keys
    requires forall h, g :: h in owners && g in owners && h != g ==> owned[h] != owned[g]
    requires forall i :: i in blocks <==> exists h :: h in owners && owned[h] == i
    ensures |owners| == |blocks|
    decreases owners
  {
    if owners == {} {
      assert forall i :: i !in blocks;
    } else {
      var h :| h in owners;
      var i := owned[h];
      forall j | j in blocks - {i}
        ensures exists g :: g in owners - {h} && (owned - {h})[g] == j
      {
        var g :| g in owners && owned[g] == j;
        assert (owned - {h})[g] == j;
      }
      SameSize(owners - {h}, blocks - {i}, owned - {h});
    }
  }

  /** The number of outstanding raw allocations is the number of handles that own a target. */
  lemma Balanced<H>(w: World<H>)
    requires Owned(w, EMPTY)
    ensures |w.memory.blocks| == |Owners(w)|
  {
    var owned := map h | h in w.handles && w.handles[h].impl.Some? :: w.handles[h].impl.value;
    forall i | i in w.memory.blocks
      ensures exists h :: h in Owners(w) && owned[h] == i
    {
      var h :| h in w.handles && w.handles[h].impl == Some(i);
      assert owned[h] == i;
    }
    SameSize(Owners(w), w.memory.blocks, owned);
  }

  /** In every reachable state, in particular while a target runs inside a call, every live
      target has one owner of its own type, nothing was used after its end, no target ended
      twice, and as many raw allocations are outstanding as handles own a target. */
  lemma EveryRun<H>(ops: seq<Op<H>>)
    requires Legal(Start(), ops)
    ensures var w := Exec(Start(), ops);
            Owned(w, EMPTY) && |w.memory.blocks| == |Owners(w)|
  {
    ExecKeepsOwned(Start(), ops);
    Balanced(Exec(Start(), ops));
  }

  /** Once all handles are gone every target has ended, exactly once, and no memory is left. */
  lemma NothingLeaks<H>(ops: seq<Op<H>>)
    requires Legal(Start(), ops) && Exec(Start(), ops).handles == map[]
    ensures var m := Exec(Start(), ops).memory;
            && m.blocks == {}
            && (forall i :: i in m.impls <==> i in m.log)
            && (forall j, k :: 0 <= j < k < |m.log| ==> m.log[j] != m.log[k])
  {
    var w := Exec(Start(), ops);
    EveryRun(ops);
    assert Owners(w) == {};
  }
}
