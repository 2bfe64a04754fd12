/** What every interleaving of the thread protocol keeps. */
module PthreadSafety {
  import opened PthreadProtocol

  // Before the thread runs, and after a failed creation

  predicate Untouched(s: State) {
    s.clients == map[] && s.returned == [] && s.last == Nobody && s.winners == []
  }

  /** The creator is alone with the block. */
  predicate Private(s: State) {
    var b := s.block;
    && Untouched(s)
    && b.memory == Live && b.frees == 0 && b.refs == 3
    && b.completion == (if s.detached then Detached else Joinable)
    && s.holder == (if s.detached then ByCreator else Unclaimed)
    && match s.creator
       case Begin => s.child == Unborn && !b.handle && b.opens == 0 && b.closes == 0
       case FreeUnborn => s.child == Unborn && !b.handle && b.opens == 0 && b.closes == 0
       case StoreHandle => s.child == Suspended && !b.handle && b.opens == 1 && b.closes == 0
       case StoreId => s.child == Suspended && b.handle && b.opens == 1 && b.closes == 0
       case Resume => s.child == Suspended && b.handle && b.opens == 1 && b.closes == 0
       case Terminate => s.child == Suspended && b.handle && b.opens == 1 && b.closes == 0
       case AwaitDead => s.child == Terminated && b.handle && b.opens == 1 && b.closes == 0
       case CloseDead => s.child == Terminated && b.handle && b.opens == 1 && b.closes == 0
       case FreeDead => s.child == Terminated && b.opens == 1 && b.closes == 1
       case _ => false
  }

  predicate Unstarted(s: State) {
    var b := s.block;
    && Untouched(s) && s.creator == Allocate && s.child == Unborn
    && b.memory == Absent && b.frees == 0 && b.opens == 0 && b.closes == 0 && !b.handle
  }

  predicate FailedOk(s: State) {
    var b := s.block;
    && Untouched(s) && s.creator == Failed && s.child in {Unborn, Terminated}
    && b.closes == b.opens <= 1
    && if b.memory == Absent then b.frees == 0 && b.opens == 0 else b.memory == Freed && b.frees == 1
  }

  // While the thread runs and after it

  function One(held: bool): int { if held then 1 else 0 }

  predicate CreatorHolds(c: Creator) {
    c.Publish? || c.TakeOwn? || c.CloseOwn? || c.ReleasePublic? || c.FreePublic? || c.ReleaseOwn?
  }

  predicate ChildHolds(c: Child) { c.CallStart? || c.StoreResult? || c.ReleaseChild? }

  /** The stages between winning and giving up the public reference. */
  predicate Holding(c: Client) {
    var t := c.stage;
    t.ReadHandle? || t.Wait? || t.ReadResult? || t.Take? || t.Close? || t.Release?
  }

  /** The reference count is the number of references not yet given up. */
  predicate RefsOk(s: State) {
    s.block.refs == One(CreatorHolds(s.creator)) + One(ChildHolds(s.child)) + One(s.holder != Released)
  }

  predicate StagesOk(s: State) {
    && (CreatorHolds(s.creator) || s.creator.FreeOwn? || s.creator.Created?) && !s.creator.FreePublic?
    && (ChildHolds(s.child) || s.child.FreeChild? || s.child.Exited?)
    && (s.creator.TakeOwn? || s.creator.CloseOwn? || s.creator.ReleasePublic? ==> s.detached)
  }

  /** The block is freed by whoever brought the count to zero. */
  predicate LastOk(s: State) {
    var b := s.block;
    && (s.last == Nobody <==> b.refs > 0)
    && b.memory in {Live, Freed}
    && b.frees == One(b.memory == Freed)
    && (b.memory == Freed ==> s.last != Nobody)
    && (s.creator == FreeOwn <==> s.last == LastCreator && b.memory == Live)
    && (s.child == FreeChild <==> s.last == LastChild && b.memory == Live)
  }

  predicate FreersOk(s: State) {
    && (s.last.LastClient? ==> s.last.id in s.clients)
    && forall id :: id in s.clients ==>
         (s.clients[id].stage == Free <==> s.last == LastClient(id) && s.block.memory == Live)
  }

  /** Exactly one party is to give up the public reference, unless it is still unclaimed. */
  predicate HolderOk(s: State) {
    && (s.block.completion == Joinable <==> s.holder == Unclaimed)
    && (s.detached ==> s.block.completion == Detached)
    && (s.holder == ByCreator <==>
        s.detached && (s.creator.Publish? || s.creator.TakeOwn? || s.creator.CloseOwn? || s.creator.ReleasePublic?))
  }

  predicate HoldingOk(s: State) {
    && (s.holder.ByClient? ==> s.holder.id in s.clients && !s.detached)
    && forall id :: id in s.clients ==> (s.holder == ByClient(id) <==> Holding(s.clients[id]))
  }

  predicate ClientOk(s: State, c: Client) {
    && (Holding(c) || c.stage == Free ==> c.won)
    && (c.won ==> Holding(c) || c.stage == Free || c.stage.Finished?)
    && (c.stage.Check? || c.stage.ReadHandle? || c.stage.Wait? || c.stage.ReadResult? ==> c.join)
    && (c.stage == Finished(Success) ==> c.won)
    && (c.waited ==> c.join && c.won && s.child == Exited && !c.stage.Wait? && c.stage != ReadHandle)
    && (c.join && c.stage == Finished(Success) ==> c.waited)
    && (c.waited && c.wantsValue && c.stage != ReadResult ==> |s.returned| == 1 && c.value == s.returned[0])
  }

  predicate ClientsOk(s: State) { forall id :: id in s.clients ==> ClientOk(s, s.clients[id]) }

  /** Nobody has won while the thread can be claimed, nor when it was created detached. */
  predicate WinnersOk(s: State) {
    && |s.winners| <= 1 && (forall w :: w in s.winners ==> w in s.clients)
    && (s.holder == Unclaimed || s.detached ==> s.winners == [])
    && forall id :: id in s.clients ==> (s.clients[id].won <==> id in s.winners)
  }

  /** The handle is in the block until its holder takes it, and closed once. */
  predicate HandleOk(s: State) {
    var b := s.block;
    && b.opens == 1
    && match s.holder
       case Unclaimed => b.handle && b.closes == 0
       case Released => !b.handle && b.closes == 1
       case ByCreator =>
         if s.creator.CloseOwn? then s.creator.taken && !b.handle && b.closes == 0
         else if s.creator == ReleasePublic then !b.handle && b.closes == 1
         else b.handle && b.closes == 0
       case ByClient(id) =>
         id in s.clients &&
         match s.clients[id].stage
         case Close(taken) => taken && !b.handle && b.closes == 0
         case Release => !b.handle && b.closes == 1
         case Wait(valid) => valid && b.handle && b.closes == 0
         case _ => b.handle && b.closes == 0
  }

  /** The result field holds what the start routine returned once it has been stored. */
  predicate ResultOk(s: State) {
    && |s.returned| == One(s.child != CallStart)
    && (s.child.StoreResult? ==> s.child.value == s.returned[0])
    && (s.child.ReleaseChild? || s.child.FreeChild? || s.child.Exited? ==> s.block.result == s.returned[0])
  }

  predicate SharedOk(s: State) {
    && StagesOk(s) && RefsOk(s) && LastOk(s) && FreersOk(s) && HolderOk(s) && HoldingOk(s)
    && ClientsOk(s) && WinnersOk(s) && HandleOk(s) && ResultOk(s)
  }

  predicate Invariant(s: State) { Unstarted(s) || Private(s) || FailedOk(s) || SharedOk(s) }

  lemma UnstartedSteps(s: State, a: Action)
    requires Unstarted(s)
    ensures Invariant(Next(s, a))
  {
  }

  lemma PrivateSteps(s: State, a: Action)
    requires Private(s)
    ensures Invariant(Next(s, a))
  {
  }

  lemma FailedSteps(s: State, a: Action)
    requires FailedOk(s)
    ensures Invariant(Next(s, a))
  {
  }

  /** Whoever still holds a reference finds the block live. */
  lemma HolderFindsLive(s: State)
    requires RefsOk(s) && LastOk(s)
    requires CreatorHolds(s.creator) || ChildHolds(s.child) || s.holder != Released
    ensures s.block.memory == Live
  {
  }

  lemma CreatorRefs(s: State, ok: bool)
    requires StagesOk(s) && RefsOk(s) && LastOk(s) && HolderOk(s) && HoldingOk(s)
    ensures StagesOk(CreatorStep(s, ok)) && RefsOk(CreatorStep(s, ok))
  {
    if CreatorHolds(s.creator) {
      HolderFindsLive(s);
    }
  }

  lemma CreatorLast(s: State, ok: bool)
    requires StagesOk(s) && RefsOk(s) && LastOk(s) && FreersOk(s) && HolderOk(s) && HoldingOk(s)
    ensures LastOk(CreatorStep(s, ok))
  {
    if CreatorHolds(s.creator) {
      HolderFindsLive(s);
    }
  }

  lemma CreatorFreers(s: State, ok: bool)
    requires StagesOk(s) && RefsOk(s) && LastOk(s) && FreersOk(s) && HolderOk(s) && HoldingOk(s)
    ensures FreersOk(CreatorStep(s, ok))
  {
    if CreatorHolds(s.creator) {
      HolderFindsLive(s);
    }
  }

  lemma CreatorHolder(s: State, ok: bool)
    requires StagesOk(s) && RefsOk(s) && LastOk(s) && HolderOk(s) && HoldingOk(s)
    ensures HolderOk(CreatorStep(s, ok))
  {
    if CreatorHolds(s.creator) {
      HolderFindsLive(s);
    }
  }

  lemma CreatorHolding(s: State, ok: bool)
    requires StagesOk(s) && RefsOk(s) && LastOk(s) && HolderOk(s) && HoldingOk(s)
    ensures HoldingOk(CreatorStep(s, ok))
  {
    if CreatorHolds(s.creator) {
      HolderFindsLive(s);
    }
  }

  lemma CreatorClients(s: State, ok: bool)
    requires StagesOk(s) && RefsOk(s) && LastOk(s) && HoldingOk(s) && ClientsOk(s) && ResultOk(s)
    ensures ClientsOk(CreatorStep(s, ok))
  {
    if CreatorHolds(s.creator) {
      HolderFindsLive(s);
    }
  }

  lemma CreatorHandle(s: State, ok: bool)
    requires StagesOk(s) && RefsOk(s) && LastOk(s) && HolderOk(s) && HoldingOk(s) && HandleOk(s)
    ensures HandleOk(CreatorStep(s, ok))
  {
    if CreatorHolds(s.creator) {
      HolderFindsLive(s);
    }
  }

  lemma CreatorResult(s: State, ok: bool)
    requires StagesOk(s) && RefsOk(s) && LastOk(s) && HolderOk(s) && ResultOk(s)
    ensures ResultOk(CreatorStep(s, ok))
  {
    if CreatorHolds(s.creator) {
      HolderFindsLive(s);
    }
  }

  lemma CreatorWinners(s: State, ok: bool)
    requires StagesOk(s) && HolderOk(s) && WinnersOk(s)
    ensures WinnersOk(CreatorStep(s, ok))
  {
  }

  lemma CreatorKeeps(s: State, ok: bool)
    requires SharedOk(s)
    ensures SharedOk(CreatorStep(s, ok))
  {
    CreatorWinners(s, ok);
    CreatorRefs(s, ok);
    CreatorLast(s, ok);
    CreatorFreers(s, ok);
    CreatorHolder(s, ok);
    CreatorHolding(s, ok);
    CreatorClients(s, ok);
    CreatorHandle(s, ok);
    CreatorResult(s, ok);
  }

  lemma ChildRefs(s: State, v: int)
    requires StagesOk(s) && RefsOk(s) && LastOk(s) && HolderOk(s) && HoldingOk(s)
    ensures StagesOk(ChildStep(s, v)) && RefsOk(ChildStep(s, v))
  {
    if ChildHolds(s.child) {
      HolderFindsLive(s);
    }
  }

  lemma ChildLast(s: State, v: int)
    requires StagesOk(s) && RefsOk(s) && LastOk(s) && FreersOk(s) && HolderOk(s) && HoldingOk(s)
    ensures LastOk(ChildStep(s, v))
  {
    if ChildHolds(s.child) {
      HolderFindsLive(s);
    }
  }

  lemma ChildFreers(s: State, v: int)
    requires StagesOk(s) && RefsOk(s) && LastOk(s) && FreersOk(s) && HolderOk(s) && HoldingOk(s)
    ensures FreersOk(ChildStep(s, v))
  {
    if ChildHolds(s.child) {
      HolderFindsLive(s);
    }
  }

  lemma ChildHolder(s: State, v: int)
    requires StagesOk(s) && RefsOk(s) && LastOk(s) && HolderOk(s) && HoldingOk(s)
    ensures HolderOk(ChildStep(s, v))
  {
    if ChildHolds(s.child) {
      HolderFindsLive(s);
    }
  }

  lemma ChildHolding(s: State, v: int)
    requires StagesOk(s) && RefsOk(s) && LastOk(s) && HolderOk(s) && HoldingOk(s)
    ensures HoldingOk(ChildStep(s, v))
  {
    if ChildHolds(s.child) {
      HolderFindsLive(s);
    }
  }

  lemma ChildClients(s: State, v: int)
    requires StagesOk(s) && RefsOk(s) && LastOk(s) && HoldingOk(s) && ClientsOk(s) && ResultOk(s)
    ensures ClientsOk(ChildStep(s, v))
  {
    if ChildHolds(s.child) {
      HolderFindsLive(s);
    }
  }

  lemma ChildHandle(s: State, v: int)
    requires StagesOk(s) && RefsOk(s) && LastOk(s) && HolderOk(s) && HoldingOk(s) && HandleOk(s)
    ensures HandleOk(ChildStep(s, v))
  {
    if ChildHolds(s.child) {
      HolderFindsLive(s);
    }
  }

  lemma ChildResult(s: State, v: int)
    requires StagesOk(s) && RefsOk(s) && LastOk(s) && HolderOk(s) && ResultOk(s)
    ensures ResultOk(ChildStep(s, v))
  {
    if ChildHolds(s.child) {
      HolderFindsLive(s);
    }
  }

  lemma ChildWinners(s: State, v: int)
    requires StagesOk(s) && HolderOk(s) && WinnersOk(s)
    ensures WinnersOk(ChildStep(s, v))
  {
  }

  lemma ChildKeeps(s: State, v: int)
    requires SharedOk(s)
    ensures SharedOk(ChildStep(s, v))
  {
    ChildWinners(s, v);
    ChildRefs(s, v);
    ChildLast(s, v);
    ChildFreers(s, v);
    ChildHolder(s, v);
    ChildHolding(s, v);
    ChildClients(s, v);
    ChildHandle(s, v);
    ChildResult(s, v);
  }

  lemma MoverOk(s: State, id: nat, ok: bool)
    requires id in s.clients && ClientOk(s, s.clients[id]) && ResultOk(s) && HoldingOk(s) && RefsOk(s) && LastOk(s)
    ensures ClientOk(s, Advance(s, id, s.clients[id], ok).client)
  {
    if Holding(s.clients[id]) {
      HolderFindsLive(s);
    }
  }

  lemma MoverFreers(s: State, id: nat, ok: bool)
    requires id in s.clients && FreersOk(s) && HoldingOk(s) && RefsOk(s) && LastOk(s)
    ensures var e := Advance(s, id, s.clients[id], ok);
            && (e.client.stage == Free <==> e.last == LastClient(id) && e.block.memory == Live)
            && (e.last == s.last || (s.last == Nobody && e.last == LastClient(id)))
            && (e.block.memory == s.block.memory || s.last == LastClient(id))
  {
    if Holding(s.clients[id]) {
      HolderFindsLive(s);
    }
  }

  lemma MoverHolding(s: State, id: nat, c: Client, ok: bool)
    requires s.holder == ByClient(id) <==> Holding(c)
    requires s.block.completion == Joinable <==> s.holder == Unclaimed
    requires Holding(c) ==> s.block.memory == Live
    ensures var e := Advance(s, id, c, ok); e.holder == ByClient(id) <==> Holding(e.client)
  {
    hide Outcome, Decremented, FreedBlock, ClosedBlock;
    match c.stage
    case Swap =>
    case Release =>
    case _ =>
  }

  lemma MoverHolder(s: State, id: nat, c: Client, ok: bool)
    requires s.holder == ByClient(id) <==> Holding(c)
    requires s.block.completion == Joinable <==> s.holder == Unclaimed
    ensures var e := Advance(s, id, c, ok);
            || e.holder == s.holder
            || (s.holder == Unclaimed && e.holder == ByClient(id))
            || (s.holder == ByClient(id) && e.holder == Released)
  {
  }

  lemma ClientRefs(s: State, id: nat, ok: bool)
    requires StagesOk(s) && RefsOk(s) && LastOk(s) && HolderOk(s) && HoldingOk(s) && id in s.clients
    ensures StagesOk(ClientStep(s, id, ok)) && RefsOk(ClientStep(s, id, ok))
  {
    if Holding(s.clients[id]) {
      HolderFindsLive(s);
    }
  }

  lemma ClientLast(s: State, id: nat, ok: bool)
    requires StagesOk(s) && RefsOk(s) && LastOk(s) && FreersOk(s) && HolderOk(s) && HoldingOk(s) && id in s.clients
    ensures LastOk(ClientStep(s, id, ok))
  {
    if Holding(s.clients[id]) {
      HolderFindsLive(s);
    }
  }

  lemma ClientFreers(s: State, id: nat, ok: bool)
    requires StagesOk(s) && RefsOk(s) && LastOk(s) && FreersOk(s) && HolderOk(s) && HoldingOk(s) && id in s.clients
    ensures FreersOk(ClientStep(s, id, ok))
  {
    MoverFreers(s, id, ok);
  }

  lemma ClientHolder(s: State, id: nat, ok: bool)
    requires StagesOk(s) && RefsOk(s) && LastOk(s) && HolderOk(s) && HoldingOk(s) && id in s.clients
    ensures HolderOk(ClientStep(s, id, ok))
  {
    if Holding(s.clients[id]) {
      HolderFindsLive(s);
    }
  }

  lemma ClientHolding(s: State, id: nat, ok: bool)
    requires StagesOk(s) && RefsOk(s) && LastOk(s) && HolderOk(s) && HoldingOk(s) && id in s.clients
    ensures HoldingOk(ClientStep(s, id, ok))
  {
    if Holding(s.clients[id]) {
      HolderFindsLive(s);
    }
    MoverHolding(s, id, s.clients[id], ok);
    MoverHolder(s, id, s.clients[id], ok);
  }

  lemma ClientClients(s: State, id: nat, ok: bool)
    requires StagesOk(s) && RefsOk(s) && LastOk(s) && HoldingOk(s) && ClientsOk(s) && ResultOk(s) && id in s.clients
    ensures ClientsOk(ClientStep(s, id, ok))
  {
    MoverOk(s, id, ok);
  }

  lemma ClientHandle(s: State, id: nat, ok: bool)
    requires StagesOk(s) && RefsOk(s) && LastOk(s) && HolderOk(s) && HoldingOk(s) && HandleOk(s) && id in s.clients
    ensures HandleOk(ClientStep(s, id, ok))
  {
    hide StagesOk, RefsOk, LastOk, Outcome;
    if Holding(s.clients[id]) {
      HolderFindsLive(s);
    }
  }

  lemma ClientResult(s: State, id: nat, ok: bool)
    requires StagesOk(s) && RefsOk(s) && LastOk(s) && HoldingOk(s) && ResultOk(s) && id in s.clients
    ensures ResultOk(ClientStep(s, id, ok))
  {
    if Holding(s.clients[id]) {
      HolderFindsLive(s);
    }
  }

  lemma ClientWinners(s: State, id: nat, ok: bool)
    requires HolderOk(s) && HoldingOk(s) && ClientsOk(s) && WinnersOk(s) && id in s.clients
    ensures WinnersOk(ClientStep(s, id, ok))
  {
    hide Outcome, Decremented, FreedBlock, ClosedBlock;
    assert ClientOk(s, s.clients[id]);
  }

  lemma ClientKeeps(s: State, id: nat, ok: bool)
    requires SharedOk(s) && id in s.clients
    ensures SharedOk(ClientStep(s, id, ok))
  {
    ClientWinners(s, id, ok);
    ClientRefs(s, id, ok);
    ClientLast(s, id, ok);
    ClientFreers(s, id, ok);
    ClientHolder(s, id, ok);
    ClientHolding(s, id, ok);
    ClientClients(s, id, ok);
    ClientHandle(s, id, ok);
    ClientResult(s, id, ok);
  }

  lemma StartCounts(s: State, id: nat, join: bool, self: bool, wantsValue: bool)
    requires StagesOk(s) && RefsOk(s) && LastOk(s) && FreersOk(s)
    ensures var t := ClientStart(s, id, join, self, wantsValue);
            StagesOk(t) && RefsOk(t) && LastOk(t) && FreersOk(t)
  {
  }

  lemma StartHolding(s: State, id: nat, join: bool, self: bool, wantsValue: bool)
    requires HolderOk(s) && HoldingOk(s)
    ensures var t := ClientStart(s, id, join, self, wantsValue); HolderOk(t) && HoldingOk(t)
  {
  }

  lemma StartClients(s: State, id: nat, join: bool, self: bool, wantsValue: bool)
    requires ClientsOk(s) && WinnersOk(s)
    ensures var t := ClientStart(s, id, join, self, wantsValue); ClientsOk(t) && WinnersOk(t)
  {
  }

  lemma StartHandle(s: State, id: nat, join: bool, self: bool, wantsValue: bool)
    requires HoldingOk(s) && HandleOk(s) && ResultOk(s)
    ensures var t := ClientStart(s, id, join, self, wantsValue); HandleOk(t) && ResultOk(t)
  {
  }

  lemma StartKeeps(s: State, id: nat, join: bool, self: bool, wantsValue: bool)
    requires SharedOk(s)
    ensures SharedOk(ClientStart(s, id, join, self, wantsValue))
  {
    StartCounts(s, id, join, self, wantsValue);
    StartHolding(s, id, join, self, wantsValue);
    StartClients(s, id, join, self, wantsValue);
    StartHandle(s, id, join, self, wantsValue);
  }

  lemma NextKeeps(s: State, a: Action)
    requires Invariant(s)
    ensures Invariant(Next(s, a))
  {
    hide Next, Unstarted, Private, FailedOk, SharedOk;
    if Unstarted(s) {
      UnstartedSteps(s, a);
    } else if Private(s) {
      PrivateSteps(s, a);
    } else if FailedOk(s) {
      FailedSteps(s, a);
    } else {
      SharedSteps(s, a);
    }
  }

  lemma SharedSteps(s: State, a: Action)
    requires SharedOk(s)
    ensures SharedOk(Next(s, a))
  {
    hide SharedOk, CreatorStep, ChildStep, ClientStart, ClientStep;
    match a
    case CreatorMoves(ok) => CreatorKeeps(s, ok);
    case ChildMoves(v) => ChildKeeps(s, v);
    case ClientStarts(id, join, self, wantsValue) => StartKeeps(s, id, join, self, wantsValue);
    case ClientMoves(id, ok) =>
      if id in s.clients {
        ClientKeeps(s, id, ok);
      }
  }

  lemma {:induction false} RunKeeps(s: State, actions: seq<Action>)
    requires Invariant(s)
    ensures Invariant(Run(s, actions))
    decreases |actions|
  {
    hide Invariant, Next;
    if actions != [] {
      NextKeeps(s, actions[0]);
      RunKeeps(Next(s, actions[0]), actions[1..]);
    }
  }
}
