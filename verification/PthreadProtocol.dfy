/** The control block that pthread_create, the child's trampoline, pthread_join and
    pthread_detach share, as interleaved atomic steps.

    A step that dereferences the block after it was freed leads astray: nothing is modelled
    beyond it. */
module PthreadProtocol {

  datatype Completion = Joinable | Detached | Joined

  datatype Memory = Absent | Live | Freed

  /** The control block, the kernel handle, and what has happened to them. */
  datatype Block = Block(
    memory: Memory, refs: int, completion: Completion, handle: bool, result: int,
    frees: nat, opens: nat, closes: nat)

  /** Where pthread_create stands. */
  datatype Creator =
    | Allocate | Begin | FreeUnborn | StoreHandle | StoreId | Resume
    | Terminate | AwaitDead | CloseDead | FreeDead
    | Publish | TakeOwn | CloseOwn(taken: bool) | ReleasePublic | FreePublic | ReleaseOwn | FreeOwn
    | Created | Failed | CreatorAstray

  /** Where the new thread stands. */
  datatype Child =
    | Unborn | Suspended | Terminated
    | CallStart | StoreResult(value: int) | ReleaseChild | FreeChild | Exited | ChildAstray

  datatype Code = Success | Invalid | Deadlock

  datatype Stage =
    | Check | Swap | ReadHandle | Wait(valid: bool) | ReadResult | Take | Close(taken: bool) | Release | Free
    | Finished(code: Code) | Astray

  /** One call of pthread_join or pthread_detach; `won` after its compare-and-swap succeeded,
      `waited` after its wait did. */
  datatype Client = Client(join: bool, self: bool, wantsValue: bool, won: bool, waited: bool, value: int, stage: Stage)

  /** Who is to give up the public reference. */
  datatype Holder = Unclaimed | ByCreator | ByClient(id: nat) | Released

  /** Whose decrement brought the count to zero. */
  datatype Last = Nobody | LastCreator | LastChild | LastClient(id: nat)

  /** `returned`, `holder`, `last` and `winners` record history; no step reads them. */
  datatype State = State(
    detached: bool, block: Block, creator: Creator, child: Child, clients: map<nat, Client>,
    returned: seq<int>, holder: Holder, last: Last, winners: seq<nat>)

  function Initial(detached: bool): State {
    State(detached, Block(Absent, 0, Joinable, false, 0, 0, 0, 0), Allocate, Unborn, map[], [], Unclaimed, Nobody, [])
  }

  function Decremented(b: Block): Block { b.(refs := b.refs - 1) }

  function FreedBlock(b: Block): Block { b.(memory := Freed, frees := b.frees + 1) }

  /** Closing a handle taken out of the block; nothing to close when it was null. */
  function ClosedBlock(b: Block, taken: bool): Block { if taken then b.(closes := b.closes + 1) else b }

  // pthread_create. `ok` is the outcome of the system call of the step, if it makes one.

  function CreatorStep(s: State, ok: bool): State {
    var b := s.block;
    match s.creator
    case Allocate =>
      if !ok then s.(creator := Failed)
      else s.(block := b.(memory := Live, refs := 3, completion := if s.detached then Detached else Joinable),
              holder := if s.detached then ByCreator else Unclaimed, creator := Begin)
    case Begin =>
      if ok then s.(block := b.(opens := b.opens + 1), child := Suspended, creator := StoreHandle)
      else s.(creator := FreeUnborn)
    case FreeUnborn => s.(block := FreedBlock(b), creator := Failed)
    case StoreHandle =>
      if b.memory != Live then s.(creator := CreatorAstray) else s.(block := b.(handle := true), creator := StoreId)
    case StoreId =>
      if b.memory != Live then s.(creator := CreatorAstray) else s.(creator := Resume)
    case Resume =>
      if b.memory != Live then s.(creator := CreatorAstray)
      else if ok then s.(child := CallStart, creator := Publish)
      else s.(creator := Terminate)
    case Terminate =>
      if b.memory != Live then s.(creator := CreatorAstray) else s.(child := Terminated, creator := AwaitDead)
    case AwaitDead =>
      if b.memory != Live then s.(creator := CreatorAstray) else s.(creator := CloseDead)
    case CloseDead =>
      if b.memory != Live then s.(creator := CreatorAstray)
      else s.(block := ClosedBlock(b, b.handle), creator := FreeDead)
    case FreeDead => s.(block := FreedBlock(b), creator := Failed)
    case Publish => s.(creator := if s.detached then TakeOwn else ReleaseOwn)
    case TakeOwn =>
      if b.memory != Live then s.(creator := CreatorAstray)
      else s.(block := b.(handle := false), creator := CloseOwn(b.handle))
    case CloseOwn(taken) => s.(block := ClosedBlock(b, taken), creator := ReleasePublic)
    case ReleasePublic =>
      if b.memory != Live then s.(creator := CreatorAstray)
      else if b.refs == 1
      then s.(block := Decremented(b), holder := Released, last := LastCreator, creator := FreePublic)
      else s.(block := Decremented(b), holder := Released, creator := ReleaseOwn)
    case FreePublic => s.(block := FreedBlock(b), creator := ReleaseOwn)
    case ReleaseOwn =>
      if b.memory != Live then s.(creator := CreatorAstray)
      else if b.refs == 1 then s.(block := Decremented(b), last := LastCreator, creator := FreeOwn)
      else s.(block := Decremented(b), creator := Created)
    case FreeOwn => s.(block := FreedBlock(b), creator := Created)
    case _ => s
  }

  // The trampoline. `v` is what the start routine returns.

  function ChildStep(s: State, v: int): State {
    var b := s.block;
    match s.child
    case CallStart =>
      if b.memory != Live then s.(child := ChildAstray) else s.(returned := s.returned + [v], child := StoreResult(v))
    case StoreResult(value) =>
      if b.memory != Live then s.(child := ChildAstray) else s.(block := b.(result := value), child := ReleaseChild)
    case ReleaseChild =>
      if b.memory != Live then s.(child := ChildAstray)
      else if b.refs == 1 then s.(block := Decremented(b), last := LastChild, child := FreeChild)
      else s.(block := Decremented(b), child := Exited)
    case FreeChild => s.(block := FreedBlock(b), child := Exited)
    case _ => s
  }

  // pthread_join and pthread_detach

  /** A call may start as soon as the new thread runs and can hand out its own identity. */
  function ClientStart(s: State, id: nat, join: bool, self: bool, wantsValue: bool): State {
    if id in s.clients || s.child in {Unborn, Suspended, Terminated} then s
    else s.(clients := s.clients[id := Client(join, self, wantsValue, false, false, 0, if join then Check else Swap)])
  }

  /** What one step of a call changes. */
  datatype Effect = Effect(block: Block, holder: Holder, last: Last, client: Client)

  /** Only the calling thread's own view changes. */
  function Local(s: State, c: Client): Effect { Effect(s.block, s.holder, s.last, c) }

  /** `ok` is the outcome of the wait. */
  function Advance(s: State, id: nat, c: Client, ok: bool): Effect {
    var b := s.block;
    match c.stage
    case Check =>
      if b.memory != Live then Local(s, c.(stage := Astray))
      else Local(s, c.(stage := if c.self then Finished(Deadlock) else Swap))
    case Swap =>
      if b.memory != Live then Local(s, c.(stage := Astray))
      else if b.completion != Joinable then Local(s, c.(stage := Finished(Invalid)))
      else
        Effect(b.(completion := if c.join then Joined else Detached), ByClient(id), s.last,
               c.(won := true, stage := if c.join then ReadHandle else Take))
    case ReadHandle =>
      if b.memory != Live then Local(s, c.(stage := Astray)) else Local(s, c.(stage := Wait(b.handle)))
    case Wait(valid) =>
      if !ok || !valid then Local(s, c.(stage := Take))
      else if s.child != Exited then Local(s, c)
      else Local(s, c.(waited := true, stage := if c.wantsValue then ReadResult else Take))
    case ReadResult =>
      if b.memory != Live then Local(s, c.(stage := Astray))
      else Local(s, c.(value := b.result, stage := Take))
    case Take =>
      if b.memory != Live then Local(s, c.(stage := Astray))
      else Effect(b.(handle := false), s.holder, s.last, c.(stage := Close(b.handle)))
    case Close(taken) => Effect(ClosedBlock(b, taken), s.holder, s.last, c.(stage := Release))
    case Release =>
      if b.memory != Live then Local(s, c.(stage := Astray))
      else if b.refs == 1 then Effect(Decremented(b), Released, LastClient(id), c.(stage := Free))
      else Effect(Decremented(b), Released, s.last, c.(stage := Finished(Outcome(c))))
    case Free => Effect(FreedBlock(b), s.holder, s.last, c.(stage := Finished(Outcome(c))))
    case _ => Local(s, c)
  }

  function ClientStep(s: State, id: nat, ok: bool): State
    requires id in s.clients
  {
    var e := Advance(s, id, s.clients[id], ok);
    s.(block := e.block, holder := e.holder, last := e.last, clients := s.clients[id := e.client],
       winners := if e.client.won && !s.clients[id].won then s.winners + [id] else s.winners)
  }

  function Outcome(c: Client): Code { if !c.join || c.waited then Success else Invalid }

  // Runs

  datatype Action =
    | CreatorMoves(ok: bool)
    | ChildMoves(v: int)
    | ClientStarts(id: nat, join: bool, self: bool, wantsValue: bool)
    | ClientMoves(id: nat, ok: bool)

  function Next(s: State, a: Action): State {
    match a
    case CreatorMoves(ok) => CreatorStep(s, ok)
    case ChildMoves(v) => ChildStep(s, v)
    case ClientStarts(id, join, self, wantsValue) => ClientStart(s, id, join, self, wantsValue)
    case ClientMoves(id, ok) => if id in s.clients then ClientStep(s, id, ok) else s
  }

  function Run(s: State, actions: seq<Action>): State
    decreases |actions|
  {
    if actions == [] then s else Run(Next(s, actions[0]), actions[1..])
  }
}
