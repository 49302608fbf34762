/** Ownership among any_completion_handler objects: what each operation does to the handler
    objects, to the target objects they own, and to the memory those occupy. */
module HandlerModel {
  import opened Options

  /** A target type; it has one static function table. */
  type Kind = nat

  /** The identity of a target object (an any_completion_handler_impl). */
  type ImplId = nat

  /** The two fields of an any_completion_handler. */
  datatype Handle = Handle(fnTable: Option<Kind>, impl: Option<ImplId>)

  const EMPTY: Handle := Handle(None, None)

  /** How a target object ends: destroyed, or consumed by a call, which reaches the target
      unless moving the target out throws. */
  datatype End = Destroyed | Called(invoked: bool)

  datatype Phase = Live | Ended(how: End)

  datatype Impl = Impl(kind: Kind, phase: Phase)

  /** What goes wrong while a target object is created. */
  datatype Fault = NoFault | AllocateThrows | ConstructorThrows

  datatype Memory = Memory(
    impls: map<ImplId, Impl>,   // every target object ever created
    blocks: set<ImplId>,        // raw allocations outstanding
    next: ImplId,
    log: seq<ImplId>,           // target objects in the order in which they ended
    undefined: bool)            // a table was applied to no live object of its own type
  {
    /** any_completion_handler_impl<Handler>::create */
    function Create(kind: Kind, fault: Fault): (Memory, Option<ImplId>) {
      if fault.NoFault? then
        (this.(impls := impls[next := Impl(kind, Live)], blocks := blocks + {next}, next := next + 1), Some(next))
      else (this, None)
    }

    /** The end of the object i, reached through the table of a kind. */
    function Finish(table: Option<Kind>, i: ImplId, how: End): Memory {
      if i in impls && i in blocks && impls[i].phase.Live? && table == Some(impls[i].kind) then
        this.(impls := impls[i := impls[i].(phase := Ended(how))], blocks := blocks - {i}, log := log + [i])
      else this.(undefined := true)
    }

    /** What happens to the target of a handle that gives it up. */
    function Release(h: Handle, how: End): Memory {
      if h.impl.Some? then Finish(h.fnTable, h.impl.value, how) else this
    }
  }

  datatype World<H> = World(handles: map<H, Handle>, memory: Memory)

  datatype Op<H> =
    | ConstructEmpty(h: H)
    | Construct(h: H, kind: Kind, fault: Fault)
    | MoveConstruct(h: H, other: H)
    | MoveAssign(h: H, other: H)
    | AssignNull(h: H)
    | Swap(h: H, other: H)
    | Call(h: H, moveThrows: bool)
    | Destruct(h: H)

  ghost predicate Permitted<H>(w: World<H>, op: Op<H>) {
    match op
    case ConstructEmpty(h) => h !in w.handles
    case Construct(h, _, _) => h !in w.handles
    case MoveConstruct(h, other) => h !in w.handles && other in w.handles
    case MoveAssign(h, other) => h in w.handles && other in w.handles
    case Swap(h, other) => h in w.handles && other in w.handles
    case AssignNull(h) => h in w.handles
    case Call(h, _) => h in w.handles
    case Destruct(h) => h in w.handles
  }

  /** The effect of an operation; a call stops where the target starts to run, and what the
      target does to handlers follows as further operations. */
  ghost function Step<H>(w: World<H>, op: Op<H>): World<H>
    requires Permitted(w, op)
  {
    match op
    case ConstructEmpty(h) => w.(handles := w.handles[h := EMPTY])
    case Construct(h, kind, fault) =>
      var (m, i) := w.memory.Create(kind, fault);
      if i.None? then w else World(w.handles[h := Handle(Some(kind), i)], m)
    case MoveConstruct(h, other) => w.(handles := w.handles[h := w.handles[other]][other := EMPTY])
    case MoveAssign(h, other) =>
      if h == other then w
      else World(w.handles[h := w.handles[other]][other := EMPTY], w.memory.Release(w.handles[h], Destroyed))
    case AssignNull(h) => World(w.handles[h := EMPTY], w.memory.Release(w.handles[h], Destroyed))
    case Swap(h, other) => w.(handles := w.handles[h := w.handles[other]][other := w.handles[h]])
    case Call(h, moveThrows) =>
      World(w.handles[h := w.handles[h].(impl := None)], w.memory.Release(w.handles[h], Called(!moveThrows)))
    case Destruct(h) => World(w.handles - {h}, w.memory.Release(w.handles[h], Destroyed))
  }
}
