/** asio::any_completion_handler: handler objects that move, swap and give up the one target
    object each may own. */
module CompletionHandler {
  import opened Options
  import opened HandlerModel
  import opened HandlerRuns

  /** The target objects, and the raw memory they are placed in. */
  class TargetMemory {
    var impls: map<ImplId, Impl>
    var blocks: set<ImplId>
    var next: ImplId
    ghost var log: seq<ImplId>

    ghost function View(): Memory
      reads this
    {
      Memory(impls, blocks, next, log, false)
    }

    constructor ()
      ensures View() == Memory(map[], {}, 0, [], false)
    {
      impls, blocks, next, log := map[], {}, 0, [];
    }

    /** allocator_traits::allocate: a block that is not in use, or none when it throws. */
    method Allocate(throws: bool) returns (block: Option<ImplId>)
      requires Accounted(View())
      modifies this`blocks
      ensures if throws then block == None && blocks == old(blocks)
              else block == Some(next) && next !in old(blocks) && blocks == old(blocks) + {next}
    {
      if throws {
        return None;
      }
      blocks := blocks + {next};
      block := Some(next);
    }

    method Deallocate(block: ImplId)
      modifies this`blocks
      ensures blocks == old(blocks) - {block}
    {
      blocks := blocks - {block};
    }

    /** any_completion_handler_impl<Handler>::create: the block is released again when the
        constructor of the target throws. */
    method Create(kind: Kind, fault: Fault) returns (ptr: Option<ImplId>)
      requires Accounted(View())
      modifies this
      ensures (View(), ptr) == old(View()).Create(kind, fault)
    {
      var uninitPtr := Allocate(fault.AllocateThrows?);
      if uninitPtr == None {
        return None;
      }
      if fault.ConstructorThrows? {
        Deallocate(uninitPtr.value);
        assert blocks == old(blocks);
        return None;
      }
      impls := impls[uninitPtr.value := Impl(kind, Live)];
      next := next + 1;
      return uninitPtr;
    }

    /** The deleter: destroys the object, then releases its block. */
    method Delete(i: ImplId, how: End)
      requires Accounted(View()) && i in impls && impls[i].phase.Live?
      modifies this
      ensures View() == old(View()).Finish(Some(old(impls[i].kind)), i, how)
    {
      impls := impls[i := impls[i].(phase := Ended(how))];
      log := log + [i];
      Deallocate(i);
    }

    /** any_completion_handler_impl<Handler>::call, up to where the target starts to run: the
        target is moved out and its object deleted, whether or not the move throws. */
    method CallTarget(i: ImplId, moveThrows: bool) returns (invoked: bool)
      requires Accounted(View()) && i in impls && impls[i].phase.Live?
      modifies this
      ensures invoked == !moveThrows
      ensures View() == old(View()).Finish(Some(old(impls[i].kind)), i, Called(invoked))
    {
      if moveThrows {
        Delete(i, Called(false));
        return false;
      }
      Delete(i, Called(true));
      return true;
    }
  }

  /** The handler objects in S, as a map. */
  ghost function Handles(S: set<AnyCompletionHandler>): (m: map<AnyCompletionHandler, Handle>)
    reads S
    ensures m.Keys == S
  {
    map h | h in S :: Handle(h.fnTable, h.impl)
  }

  ghost function TheWorld(S: set<AnyCompletionHandler>, memory: TargetMemory): World<AnyCompletionHandler>
    reads S, memory
  {
    World(Handles(S), memory.View())
  }

  /** The object invariant of a program that has the handlers S. */
  ghost predicate Sound(S: set<AnyCompletionHandler>, memory: TargetMemory)
    reads S, memory
  {
    Owned(TheWorld(S, memory), EMPTY)
  }

  lemma SoundHandle(S: set<AnyCompletionHandler>, memory: TargetMemory, h: AnyCompletionHandler)
    requires h in S && Sound(S, memory)
    ensures Accounted(memory.View()) && Paired(memory.View(), Handle(h.fnTable, h.impl))
  {
  }

  class AnyCompletionHandler {
    var fnTable: Option<Kind>
    var impl: Option<ImplId>

    constructor Null()
      ensures fnTable == None && impl == None
    {
      fnTable, impl := None, None;
    }

    /** any_completion_handler(H&& h), once the target exists */
    constructor Owner(kind: Kind, target: ImplId)
      ensures fnTable == Some(kind) && impl == Some(target)
    {
      fnTable, impl := Some(kind), Some(target);
    }

    /** Takes the target over from the other handler. */
    constructor Move(other: AnyCompletionHandler)
      modifies other
      ensures fnTable == old(other.fnTable) && impl == old(other.impl)
      ensures other.fnTable == None && other.impl == None
    {
      fnTable, impl := other.fnTable, other.impl;
      new;
      other.fnTable, other.impl := None, None;
    }

    /** swap; other may be this object. */
    method Swap(other: AnyCompletionHandler)
      modifies this, other
      ensures fnTable == old(other.fnTable) && impl == old(other.impl)
      ensures other.fnTable == old(fnTable) && other.impl == old(impl)
    {
      var table, target := fnTable, impl;
      fnTable, impl := other.fnTable, other.impl;
      other.fnTable, other.impl := table, target;
    }

    /** ~any_completion_handler */
    method Destroy(memory: TargetMemory)
      requires Accounted(memory.View()) && Paired(memory.View(), Handle(fnTable, impl))
      modifies memory
      ensures memory.View() == old(memory.View()).Release(Handle(fnTable, impl), Destroyed)
    {
      if impl.Some? {
        memory.Delete(impl.value, Destroyed);
      }
    }

    /** Move assignment; other may be this object. */
    method MoveAssign(other: AnyCompletionHandler, memory: TargetMemory, ghost S: set<AnyCompletionHandler>)
      requires this in S && other in S && Sound(S, memory)
      modifies this, other, memory
      ensures TheWorld(S, memory) == old(Step(TheWorld(S, memory), HandlerModel.MoveAssign(this, other)))
      ensures Sound(S, memory)
    {
      hide Owned, Accounted, Memory.Finish;
      SoundHandle(S, memory, this);
      StepKeepsOwned(TheWorld(S, memory), HandlerModel.MoveAssign(this, other));
      var temp := new AnyCompletionHandler.Move(other);
      temp.Swap(this);
      temp.Destroy(memory);
    }

    /** operator=(nullptr_t) */
    method AssignNull(memory: TargetMemory, ghost S: set<AnyCompletionHandler>)
      requires this in S && Sound(S, memory)
      modifies this, memory
      ensures TheWorld(S, memory) == old(Step(TheWorld(S, memory), HandlerModel.AssignNull(this)))
      ensures Sound(S, memory)
    {
      hide Owned, Accounted, Memory.Finish;
      SoundHandle(S, memory, this);
      StepKeepsOwned(TheWorld(S, memory), HandlerModel.AssignNull(this));
      var temp := new AnyCompletionHandler.Null();
      temp.Swap(this);
      temp.Destroy(memory);
    }

    /** operator(), up to where the target starts to run; ok is false where it throws
        std::bad_function_call. */
    method Call(moveThrows: bool, memory: TargetMemory, ghost S: set<AnyCompletionHandler>)
      returns (ok: bool, invoked: bool)
      requires this in S && Sound(S, memory)
      modifies this, memory
      ensures ok == old(impl.Some?) && invoked == (ok && !moveThrows)
      ensures TheWorld(S, memory) == old(Step(TheWorld(S, memory), HandlerModel.Call(this, moveThrows)))
      ensures Sound(S, memory)
    {
      hide Owned, Accounted;
      SoundHandle(S, memory, this);
      StepKeepsOwned(TheWorld(S, memory), HandlerModel.Call(this, moveThrows));
      ok, invoked := impl.Some?, false;
      if impl.Some? {
        var target := impl.value;
        impl := None;
        invoked := memory.CallTarget(target, moveThrows);
      }
    }
  }

  // The remaining operations change which handlers a program has.

  /** A declaration of a handler without a target. */
  method ConstructEmpty(memory: TargetMemory, ghost S: set<AnyCompletionHandler>) returns (h: AnyCompletionHandler)
    requires Sound(S, memory)
    ensures fresh(h)
    ensures TheWorld(S + {h}, memory) == Step(old(TheWorld(S, memory)), HandlerModel.ConstructEmpty(h))
    ensures Sound(S + {h}, memory)
  {
    h := new AnyCompletionHandler.Null();
    StepKeepsOwned(old(TheWorld(S, memory)), HandlerModel.ConstructEmpty(h));
    assert Handles(S) == old(Handles(S));
  }

  /** any_completion_handler(H&& h): the table, then the target; no handler when creating the
      target throws. */
  method Construct(kind: Kind, fault: Fault, memory: TargetMemory, ghost S: set<AnyCompletionHandler>)
    returns (h: AnyCompletionHandler?)
    requires Sound(S, memory)
    modifies memory
    ensures h == null <==> fault != NoFault
    ensures h == null ==> TheWorld(S, memory) == old(TheWorld(S, memory))
    ensures h != null ==>
      && fresh(h)
      && TheWorld(S + {h}, memory) == Step(old(TheWorld(S, memory)), HandlerModel.Construct(h, kind, NoFault))
      && Sound(S + {h}, memory)
  {
    var target := memory.Create(kind, fault);
    if target == None {
      return null;
    }
    h := new AnyCompletionHandler.Owner(kind, target.value);
    StepKeepsOwned(old(TheWorld(S, memory)), HandlerModel.Construct(h, kind, NoFault));
    assert Handles(S) == old(Handles(S));
  }

  method MoveConstruct(other: AnyCompletionHandler, memory: TargetMemory, ghost S: set<AnyCompletionHandler>)
    returns (h: AnyCompletionHandler)
    requires other in S && Sound(S, memory)
    modifies other
    ensures fresh(h)
    ensures TheWorld(S + {h}, memory) == Step(old(TheWorld(S, memory)), HandlerModel.MoveConstruct(h, other))
    ensures Sound(S + {h}, memory)
  {
    h := new AnyCompletionHandler.Move(other);
    StepKeepsOwned(old(TheWorld(S, memory)), HandlerModel.MoveConstruct(h, other));
  }

  method SwapHandlers(a: AnyCompletionHandler, b: AnyCompletionHandler, memory: TargetMemory,
                      ghost S: set<AnyCompletionHandler>)
    requires a in S && b in S && Sound(S, memory)
    modifies a, b
    ensures TheWorld(S, memory) == old(Step(TheWorld(S, memory), HandlerModel.Swap(a, b)))
    ensures Sound(S, memory)
  {
    hide Owned;
    StepKeepsOwned(TheWorld(S, memory), HandlerModel.Swap(a, b));
    a.Swap(b);
  }

  method Destruct(h: AnyCompletionHandler, memory: TargetMemory, ghost S: set<AnyCompletionHandler>)
    requires h in S && Sound(S, memory)
    modifies memory
    ensures TheWorld(S - {h}, memory) == old(Step(TheWorld(S, memory), HandlerModel.Destruct(h)))
    ensures Sound(S - {h}, memory)
  {
    hide Owned, Accounted;
    SoundHandle(S, memory, h);
    StepKeepsOwned(TheWorld(S, memory), HandlerModel.Destruct(h));
    h.Destroy(memory);
  }
}
