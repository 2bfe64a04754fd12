/** What the calls return, and that everybody comes to an end. */
module PthreadOutcomes {
  import opened PthreadProtocol
  import opened PthreadSafety
  import opened PthreadTheorems

  // What a finished call has returned

  predicate CallOk(s: State, c: Client) {
    && (c.stage == Finished(Invalid) && !c.won ==> s.block.completion != Joinable)
    && (c.won && c.stage.Finished? ==> c.stage == Finished(if !c.join || c.waited then Success else Invalid))
    && (c.stage == Finished(Deadlock) ==> c.join && c.self)
    && (c.join && c.self ==> c.stage.Check? || c.stage == Finished(Deadlock) || c.stage.Astray?)
    && (c.stage.Astray? ==> s.block.memory == Freed)
  }

  /** Every call is in order, and a joinable thread that is claimed has been claimed by a call. */
  predicate OutcomesOk(s: State) {
    && (forall id :: id in s.clients ==> CallOk(s, s.clients[id]))
    && (s.block.completion != Joinable && !s.detached && s.block.memory != Absent ==> s.winners != [])
  }

  /** The other parties' steps neither make the thread joinable again nor revive its block. */
  predicate Onward(s: State, t: State) {
    && (s.block.completion != Joinable ==> t.block.completion != Joinable)
    && (s.block.memory == Freed ==> t.block.memory == Freed)
    && s.detached == t.detached
  }

  lemma OthersOnward(s: State, a: Action)
    requires SharedOk(s) && !a.ClientMoves?
    ensures Onward(s, Next(s, a)) && Next(s, a).winners == s.winners
    ensures Next(s, a).block.completion == s.block.completion
  {
    if CreatorHolds(s.creator) {
      HolderFindsLive(s);
    }
  }

  lemma MoverOnward(s: State, id: nat, ok: bool)
    requires RefsOk(s) && LastOk(s) && HoldingOk(s) && id in s.clients
    requires ClientOk(s, s.clients[id]) && CallOk(s, s.clients[id])
    ensures var t := ClientStep(s, id, ok); Onward(s, t) && CallOk(t, t.clients[id])
  {
    if Holding(s.clients[id]) {
      HolderFindsLive(s);
    }
  }

  lemma MoverClaims(s: State, id: nat, ok: bool)
    requires SharedOk(s) && id in s.clients
    ensures var t := ClientStep(s, id, ok);
            s.winners != [] || (s.block.completion == Joinable && t.block.completion != Joinable) ==> t.winners != []
    ensures var t := ClientStep(s, id, ok);
            t.block.completion != Joinable ==> s.block.completion != Joinable || t.winners != []
  {
    hide StagesOk, FreersOk, HandleOk, ResultOk;
    assert ClientOk(s, s.clients[id]);
  }

  lemma OnwardKeeps(s: State, t: State, c: Client)
    requires Onward(s, t) && CallOk(s, c)
    ensures CallOk(t, c)
  {
  }

  lemma SharedOutcomes(s: State, a: Action)
    requires SharedOk(s) && OutcomesOk(s)
    ensures OutcomesOk(Next(s, a))
  {
    hide SharedOk, CallOk, Onward, CreatorStep, ChildStep, ClientStep;
    var t := Next(s, a);
    if a.ClientMoves? {
      if a.id in s.clients {
        SharedParts(s, a.id);
        MoverOnward(s, a.id, a.ok);
        ClientStepKeepsOthers(s, a.id, a.ok);
        MoverClaims(s, a.id, a.ok);
        SharedPresent(s);
      }
    } else {
      OthersOnward(s, a);
      OthersClients(s, a);
      SharedPresent(s);
    }
    forall id | id in t.clients
      ensures CallOk(t, t.clients[id])
    {
      if id in s.clients && t.clients[id] == s.clients[id] && !a.ClientMoves? {
        OnwardKeeps(s, t, s.clients[id]);
      } else if id in s.clients && a.ClientMoves? && a.id in s.clients && id != a.id {
        OnwardKeeps(s, t, s.clients[id]);
      } else if id !in s.clients {
        FreshCall(t, t.clients[id]);
      }
    }
  }

  lemma SharedParts(s: State, id: nat)
    requires SharedOk(s) && id in s.clients
    ensures RefsOk(s) && LastOk(s) && HoldingOk(s) && ClientOk(s, s.clients[id])
  {
  }

  lemma SharedPresent(s: State)
    requires SharedOk(s)
    ensures s.block.memory != Absent
  {
  }

  lemma ClientStepKeepsOthers(s: State, id: nat, ok: bool)
    requires id in s.clients
    ensures var t := ClientStep(s, id, ok);
            t.clients.Keys == s.clients.Keys && t.detached == s.detached
            && forall k :: k in s.clients && k != id ==> t.clients[k] == s.clients[k]
  {
  }

  predicate JustStarted(c: Client) { !c.won && c.stage == if c.join then Check else Swap }

  lemma OthersClients(s: State, a: Action)
    requires !a.ClientMoves?
    ensures var t := Next(s, a);
            && (forall id :: id in s.clients ==> id in t.clients && t.clients[id] == s.clients[id])
            && (forall id :: id in t.clients && id !in s.clients ==> JustStarted(t.clients[id]))
  {
  }

  lemma FreshCall(s: State, c: Client)
    requires JustStarted(c)
    ensures CallOk(s, c)
  {
  }

  lemma NextOutcomes(s: State, a: Action)
    requires Invariant(s) && OutcomesOk(s)
    ensures OutcomesOk(Next(s, a))
  {
    if SharedOk(s) {
      SharedOutcomes(s, a);
    } else {
      EarlyOutcomes(s, a);
    }
  }

  lemma EarlyOutcomes(s: State, a: Action)
    requires Unstarted(s) || Private(s) || FailedOk(s)
    requires OutcomesOk(s)
    ensures OutcomesOk(Next(s, a))
  {
  }

  lemma {:induction false} RunOutcomes(s: State, actions: seq<Action>)
    requires Invariant(s) && OutcomesOk(s)
    ensures OutcomesOk(Run(s, actions))
    decreases |actions|
  {
    hide Invariant, OutcomesOk, Next;
    if actions != [] {
      NextKeeps(s, actions[0]);
      NextOutcomes(s, actions[0]);
      RunOutcomes(Next(s, actions[0]), actions[1..]);
    }
  }

  lemma ReachableOutcomes(s: State)
    requires Reachable(s)
    ensures Invariant(s) && OutcomesOk(s)
  {
    hide Run, Invariant;
    var detached, actions :| s == Run(Initial(detached), actions);
    InitialOk(detached);
    RunKeeps(Initial(detached), actions);
    RunOutcomes(Initial(detached), actions);
  }

  /** A call is refused only when the thread was created detached or another call has won. */
  lemma RefusedOnlyWhenClaimed(s: State, id: nat)
    requires Reachable(s) && id in s.clients
    requires s.clients[id].stage == Finished(Invalid) && !s.clients[id].won
    ensures s.block.completion != Joinable
    ensures s.detached || exists w :: w in s.clients && w != id && s.clients[w].won
  {
    ReachableOutcomes(s);
    assert CallOk(s, s.clients[id]);
    if SharedOk(s) && !s.detached {
      SharedPresent(s);
      assert s.winners[0] in s.winners;
    }
  }

  /** A winning detach returns 0; a winning join returns 0 exactly when its wait succeeded. */
  lemma WinnerReturns(s: State, id: nat)
    requires Reachable(s) && id in s.clients && s.clients[id].won && s.clients[id].stage.Finished?
    ensures !s.clients[id].join ==> s.clients[id].stage == Finished(Success)
    ensures s.clients[id].join ==> s.clients[id].stage == Finished(if s.clients[id].waited then Success else Invalid)
  {
    ReachableOutcomes(s);
    assert CallOk(s, s.clients[id]);
  }

  /** Deadlock is reported exactly by a join on the caller's own thread. */
  lemma DeadlockOnlyOnSelf(s: State, id: nat)
    requires Reachable(s) && id in s.clients && s.clients[id].stage.Finished?
    ensures s.clients[id].stage == Finished(Deadlock) <==> s.clients[id].join && s.clients[id].self
  {
    ReachableOutcomes(s);
    assert CallOk(s, s.clients[id]);
  }

  /** A call goes astray only when the block was freed. */
  lemma AstrayOnlyWhenFreed(s: State, id: nat)
    requires Reachable(s) && id in s.clients && s.clients[id].stage.Astray?
    ensures s.block.memory == Freed
  {
    ReachableOutcomes(s);
    assert CallOk(s, s.clients[id]);
  }

  /** When everybody has ended and the thread is still joinable, only self-joins were made. */
  lemma StillJoinable(s: State, id: nat)
    requires Reachable(s) && Settled(s) && s.block.completion == Joinable && s.creator == Created
    requires id in s.clients
    ensures s.clients[id].join && s.clients[id].self && s.clients[id].stage == Finished(Deadlock)
  {
    hide Invariant, SharedOk, HoldingOk;
    ReachableOutcomes(s);
    CreatedIsShared(s);
    SharedParts(s, id);
    assert CallOk(s, s.clients[id]);
    NobodyHasWon(s, id);
    HolderFindsLive(s);
    assert !s.clients[id].stage.Astray?;
    match s.clients[id].stage.code
    case Success => assert false;
    case Invalid => assert false;
    case Deadlock =>
  }

  lemma CreatedIsShared(s: State)
    requires Invariant(s) && s.creator == Created
    ensures SharedOk(s)
  {
  }

  lemma NobodyHasWon(s: State, id: nat)
    requires SharedOk(s) && id in s.clients && s.block.completion == Joinable
    ensures !s.clients[id].won && s.holder == Unclaimed
  {
  }

  // Everybody comes to an end

  /** How many steps a party still has to take, at most. */
  function CreatorLeft(c: Creator): nat {
    match c
    case Allocate => 14
    case Begin => 13
    case FreeUnborn => 1
    case StoreHandle => 12
    case StoreId => 11
    case Resume => 10
    case Terminate => 4
    case AwaitDead => 3
    case CloseDead => 2
    case FreeDead => 1
    case Publish => 9
    case TakeOwn => 8
    case CloseOwn(_) => 7
    case ReleasePublic => 6
    case FreePublic => 5
    case ReleaseOwn => 2
    case FreeOwn => 1
    case _ => 0
  }

  function ChildLeft(c: Child): nat {
    match c
    case CallStart => 4
    case StoreResult(_) => 3
    case ReleaseChild => 2
    case FreeChild => 1
    case _ => 0
  }

  function CallLeft(c: Stage): nat {
    match c
    case Check => 9
    case Swap => 8
    case ReadHandle => 7
    case Wait(_) => 6
    case ReadResult => 5
    case Take => 4
    case Close(_) => 3
    case Release => 2
    case Free => 1
    case _ => 0
  }

  /** Every step brings its party nearer to its end; only a wait for the thread's end may have
      to be taken again. */
  lemma StepsAdvance(s: State, id: nat, ok: bool, v: int)
    ensures CreatorLeft(s.creator) > 0 ==> CreatorLeft(CreatorStep(s, ok).creator) < CreatorLeft(s.creator)
    ensures ChildLeft(s.child) > 0 ==> ChildLeft(ChildStep(s, v).child) < ChildLeft(s.child)
    ensures id in s.clients && CallLeft(s.clients[id].stage) > 0 ==>
              || CallLeft(ClientStep(s, id, ok).clients[id].stage) < CallLeft(s.clients[id].stage)
              || (s.clients[id].stage.Wait? && s.child != Exited && ClientStep(s, id, ok) == s)
  {
    hide ClientStep, CallLeft;
    if id in s.clients && CallLeft(s.clients[id].stage) > 0 {
      CallAdvances(s, id, ok);
    }
  }

  lemma CallAdvances(s: State, id: nat, ok: bool)
    requires id in s.clients && CallLeft(s.clients[id].stage) > 0
    ensures || CallLeft(ClientStep(s, id, ok).clients[id].stage) < CallLeft(s.clients[id].stage)
            || (s.clients[id].stage.Wait? && s.child != Exited && ClientStep(s, id, ok) == s)
  {
    hide Outcome, Decremented, FreedBlock, ClosedBlock, CallLeft;
    var c := s.clients[id];
    if c.stage.Wait? {
      WaitAdvances(s, id, c, ok);
    } else {
      MoveAdvances(s, id, c, ok);
    }
    if Advance(s, id, c, ok) == Local(s, c) {
      assert s.clients[id := c] == s.clients;
    }
  }

  lemma WaitAdvances(s: State, id: nat, c: Client, ok: bool)
    requires c.stage.Wait?
    ensures CallLeft(Advance(s, id, c, ok).client.stage) < CallLeft(c.stage)
         || (s.child != Exited && Advance(s, id, c, ok) == Local(s, c))
  {
  }

  lemma MoveAdvances(s: State, id: nat, c: Client, ok: bool)
    requires CallLeft(c.stage) > 0 && !c.stage.Wait?
    ensures CallLeft(Advance(s, id, c, ok).client.stage) < CallLeft(c.stage)
  {
    hide Outcome, Decremented, FreedBlock, ClosedBlock, CallLeft;
    var next := Advance(s, id, c, ok).client.stage;
    match c.stage {
      case Check => assert next in {Astray, Finished(Deadlock), Swap};
      case Swap => assert next in {Astray, Finished(Invalid), ReadHandle, Take};
      case ReadHandle => assert next == Astray || next.Wait?;
      case ReadResult => assert next in {Astray, Take};
      case Take => assert next == Astray || next.Close?;
      case Close(_) => assert next == Release;
      case Release => assert next in {Astray, Free} || next.Finished?;
      case Free => assert next.Finished?;
      case _ => NoneLeft(c.stage);
    }
    LeftFalls(c.stage, next);
  }

  lemma NoneLeft(t: Stage)
    requires CallLeft(t) > 0
    ensures !t.Finished? && !t.Astray?
  {
  }

  lemma LeftFalls(t: Stage, next: Stage)
    requires CallLeft(t) > 0 && !t.Wait?
    requires match t
             case Check => next in {Astray, Finished(Deadlock), Swap}
             case Swap => next in {Astray, Finished(Invalid), ReadHandle, Take}
             case ReadHandle => next == Astray || next.Wait?
             case ReadResult => next in {Astray, Take}
             case Take => next == Astray || next.Close?
             case Close(_) => next == Release
             case Release => next in {Astray, Free} || next.Finished?
             case _ => next.Finished?
    ensures CallLeft(next) < CallLeft(t)
  {
  }

  /** The ends a party can come to. */
  lemma NothingLeft(s: State, id: nat)
    requires Reachable(s)
    ensures CreatorLeft(s.creator) == 0 ==> s.creator in {Created, Failed}
    ensures ChildLeft(s.child) == 0 ==> s.child in {Unborn, Suspended, Terminated, Exited}
    ensures id in s.clients && CallLeft(s.clients[id].stage) == 0 ==>
              s.clients[id].stage.Finished? || s.clients[id].stage.Astray?
  {
    hide Reachable;
    NobodyAstray(s);
  }

  // When the system calls succeed

  /** Creation has not failed yet. */
  predicate OnCourse(c: Creator) {
    c !in {FreeUnborn, Terminate, AwaitDead, CloseDead, FreeDead, Failed, CreatorAstray}
  }

  /** Without a failing system call, no step of creation leaves its course. */
  lemma CreationSucceeds(s: State)
    requires Reachable(s) && OnCourse(s.creator)
    ensures OnCourse(CreatorStep(s, true).creator)
  {
    ReachableInvariant(s);
    if SharedOk(s) && CreatorHolds(s.creator) {
      HolderFindsLive(s);
    }
  }

  function Repeat(s: State, a: Action, n: nat): State
    decreases n
  {
    if n == 0 then s else Repeat(Next(s, a), a, n - 1)
  }

  /** n steps of one call, each of its system calls succeeding. */
  function Proceed(s: State, id: nat, n: nat): State { Repeat(s, ClientMoves(id, true), n) }

  lemma ProceedOne(s: State, id: nat, n: nat)
    requires n > 0 && id in s.clients
    ensures Proceed(s, id, n) == Proceed(ClientStep(s, id, true), id, n - 1)
  {
  }

  /** What a call holds on its way from winning to returning. */
  predicate Underway(s: State, id: nat, join: bool, wantsValue: bool, stage: Stage) {
    && SharedOk(s) && id in s.clients && s.child == Exited
    && var c := s.clients[id]; c.join == join && c.wantsValue == wantsValue && c.stage == stage
  }

  lemma SwapWins(s: State, id: nat, join: bool, wantsValue: bool)
    requires Underway(s, id, join, wantsValue, Swap) && s.block.completion == Joinable
    ensures Underway(ClientStep(s, id, true), id, join, wantsValue, if join then ReadHandle else Take)
  {
    HolderFindsLive(s);
    ClientKeeps(s, id, true);
  }

  lemma ReadsHandle(s: State, id: nat, wantsValue: bool)
    requires Underway(s, id, true, wantsValue, ReadHandle)
    ensures Underway(ClientStep(s, id, true), id, true, wantsValue, Wait(true))
  {
    ClientKeeps(s, id, true);
    HoldsHandle(s, id);
  }

  lemma HoldsHandle(s: State, id: nat)
    requires SharedOk(s) && id in s.clients && s.clients[id].stage in {ReadHandle, Take}
    ensures s.block.memory == Live && s.block.handle
  {
    HolderIs(s, id);
    HolderFindsLive(s);
  }

  lemma HolderIs(s: State, id: nat)
    requires HoldingOk(s) && id in s.clients && Holding(s.clients[id])
    ensures s.holder == ByClient(id)
  {
  }

  lemma WaitSucceeds(s: State, id: nat, wantsValue: bool)
    requires Underway(s, id, true, wantsValue, Wait(true))
    ensures var t := ClientStep(s, id, true);
            t.clients[id].waited && Underway(t, id, true, wantsValue, if wantsValue then ReadResult else Take)
  {
    ClientKeeps(s, id, true);
  }

  lemma ReadsResult(s: State, id: nat)
    requires Underway(s, id, true, true, ReadResult) && s.clients[id].waited
    ensures var t := ClientStep(s, id, true); t.clients[id].waited && Underway(t, id, true, true, Take)
  {
    HolderIs(s, id);
    HolderFindsLive(s);
    ClientKeeps(s, id, true);
  }

  /** On the way out, after a wait that succeeded if the call is a join. */
  predicate Leaving(s: State, id: nat, join: bool, wantsValue: bool, stage: Stage) {
    Underway(s, id, join, wantsValue, stage) && s.clients[id].won && (join ==> s.clients[id].waited)
  }

  lemma Takes(s: State, id: nat, join: bool, wantsValue: bool)
    requires Leaving(s, id, join, wantsValue, Take)
    ensures Leaving(ClientStep(s, id, true), id, join, wantsValue, Close(true))
  {
    HoldsHandle(s, id);
    ClientKeeps(s, id, true);
  }

  lemma Closes(s: State, id: nat, join: bool, wantsValue: bool)
    requires Leaving(s, id, join, wantsValue, Close(true))
    ensures Leaving(ClientStep(s, id, true), id, join, wantsValue, Release)
  {
    ClientKeeps(s, id, true);
  }

  /** Giving up the reference, and freeing the block if it was the last. */
  lemma GivesUp(s: State, id: nat, join: bool, wantsValue: bool)
    requires Leaving(s, id, join, wantsValue, Release)
    ensures Leaving(Proceed(s, id, 2), id, join, wantsValue, Finished(Success))
    ensures Proceed(s, id, 2).holder == Released
  {
    HolderIs(s, id);
    HolderFindsLive(s);
    ClientKeeps(s, id, true);
    ProceedOne(s, id, 2);
    var t := ClientStep(s, id, true);
    ClientKeeps(t, id, true);
    ProceedOne(t, id, 1);
    assert t.holder == Released;
  }

  lemma LeavingWinner(s: State, id: nat, join: bool, wantsValue: bool, stage: Stage)
    requires Underway(s, id, join, wantsValue, stage) && stage == Take && (join ==> s.clients[id].waited)
    ensures Leaving(s, id, join, wantsValue, stage)
  {
    assert ClientOk(s, s.clients[id]);
  }

  /** Taking and closing the handle and giving up the reference end with success. */
  lemma LastSteps(s: State, id: nat, join: bool, wantsValue: bool)
    requires Underway(s, id, join, wantsValue, Take) && (join ==> s.clients[id].waited)
    ensures Leaving(Proceed(s, id, 4), id, join, wantsValue, Finished(Success))
    ensures Proceed(s, id, 4).holder == Released
  {
    hide ClientStep, Proceed, Underway, Leaving;
    UnderwayIn(s, id, join, wantsValue, Take);
    LeavingWinner(s, id, join, wantsValue, Take);
    Takes(s, id, join, wantsValue);
    ProceedOne(s, id, 4);
    var t := ClientStep(s, id, true);
    LeavingIn(t, id, join, wantsValue, Close(true));
    Closes(t, id, join, wantsValue);
    ProceedOne(t, id, 3);
    GivesUp(ClientStep(t, id, true), id, join, wantsValue);
  }

  lemma LeavingIn(s: State, id: nat, join: bool, wantsValue: bool, stage: Stage)
    requires Leaving(s, id, join, wantsValue, stage)
    ensures id in s.clients
  {
  }

  lemma DetachRuns(s: State, id: nat, wantsValue: bool)
    requires Underway(s, id, false, wantsValue, Swap) && s.block.completion == Joinable
    ensures Leaving(Proceed(s, id, 5), id, false, wantsValue, Finished(Success))
    ensures Proceed(s, id, 5).holder == Released
  {
    hide ClientStep, Proceed, Underway;
    UnderwayIn(s, id, false, wantsValue, Swap);
    SwapWins(s, id, false, wantsValue);
    ProceedOne(s, id, 5);
    LastSteps(ClientStep(s, id, true), id, false, wantsValue);
  }

  lemma UnderwayIn(s: State, id: nat, join: bool, wantsValue: bool, stage: Stage)
    requires Underway(s, id, join, wantsValue, stage)
    ensures id in s.clients
  {
  }

  lemma JoinRuns(s: State, id: nat, wantsValue: bool)
    requires Underway(s, id, true, wantsValue, Swap) && s.block.completion == Joinable
    ensures var n := if wantsValue then 8 else 7;
            Leaving(Proceed(s, id, n), id, true, wantsValue, Finished(Success)) && Proceed(s, id, n).holder == Released
  {
    hide ClientStep, Proceed, Underway;
    var n := if wantsValue then 8 else 7;
    UnderwayIn(s, id, true, wantsValue, Swap);
    SwapWins(s, id, true, wantsValue);
    ProceedOne(s, id, n);
    var s1 := ClientStep(s, id, true);
    UnderwayIn(s1, id, true, wantsValue, ReadHandle);
    ReadsHandle(s1, id, wantsValue);
    ProceedOne(s1, id, n - 1);
    var s2 := ClientStep(s1, id, true);
    UnderwayIn(s2, id, true, wantsValue, Wait(true));
    WaitSucceeds(s2, id, wantsValue);
    ProceedOne(s2, id, n - 2);
    var s3 := ClientStep(s2, id, true);
    if wantsValue {
      UnderwayIn(s3, id, true, wantsValue, ReadResult);
      ReadsResult(s3, id);
      ProceedOne(s3, id, 5);
      LastSteps(ClientStep(s3, id, true), id, true, true);
    } else {
      LastSteps(s3, id, true, false);
    }
  }

  /** A join or detach that finds a finished thread still joinable, and whose system calls
      succeed, returns 0 within eight steps; a join stores the start routine's value, and the
      handle is closed. */
  lemma FirstCallSucceeds(s: State, id: nat)
    requires Reachable(s) && id in s.clients && s.clients[id].stage == Swap
    requires s.block.completion == Joinable && s.child == Exited
    ensures var c := s.clients[id];
            var t := Proceed(s, id, if !c.join then 5 else if c.wantsValue then 8 else 7);
            && id in t.clients && t.clients[id].stage == Finished(Success)
            && t.block.closes == 1
            && (c.join && c.wantsValue ==> |t.returned| == 1 && t.clients[id].value == t.returned[0])
  {
    hide Reachable, Proceed;
    var c := s.clients[id];
    ReachableInvariant(s);
    WithClientsIsShared(s, id);
    var t := Proceed(s, id, if !c.join then 5 else if c.wantsValue then 8 else 7);
    if c.join {
      JoinRuns(s, id, c.wantsValue);
    } else {
      DetachRuns(s, id, c.wantsValue);
    }
    assert ClientOk(t, t.clients[id]);
  }

  lemma WithClientsIsShared(s: State, id: nat)
    requires Invariant(s) && id in s.clients
    ensures SharedOk(s)
  {
  }

  // One whole life

  function Life(refs: int, handle: bool, result: int, frees: nat, closes: nat): Block {
    Block(if frees == 0 then Live else Freed, refs, Joinable, handle, result, frees, 1, closes)
  }

  /** After creation the thread runs, joinable, with two references and an open handle. */
  lemma CreationRuns()
    ensures Repeat(Initial(false), CreatorMoves(true), 7)
         == State(false, Life(2, true, 0, 0, 0), Created, CallStart, map[], [], Unclaimed, Nobody, [])
  {
    var a, b := CreatorMoves(true), Life(3, false, 0, 0, 0);
    var s1 := State(false, b.(opens := 0), Begin, Unborn, map[], [], Unclaimed, Nobody, []);
    assert Next(Initial(false), a) == s1;
    var s2 := s1.(block := b, child := Suspended, creator := StoreHandle);
    assert Next(s1, a) == s2;
    var s3 := s2.(block := Life(3, true, 0, 0, 0), creator := StoreId);
    assert Next(s2, a) == s3 && Next(s3, a) == s3.(creator := Resume);
    var s5 := s3.(child := CallStart, creator := Publish);
    assert Next(s3.(creator := Resume), a) == s5 && Next(s5, a) == s5.(creator := ReleaseOwn);
    RepeatThree(Initial(false), a, 7);
    RepeatThree(s3, a, 4);
  }

  lemma RepeatThree(s: State, a: Action, n: nat)
    requires n >= 3
    ensures Repeat(s, a, n) == Repeat(Next(Next(Next(s, a), a), a), a, n - 3)
  {
    assert Repeat(s, a, n) == Repeat(Next(s, a), a, n - 1);
    assert Repeat(Next(s, a), a, n - 1) == Repeat(Next(Next(s, a), a), a, n - 2);
  }

  lemma ThreadRuns(s: State, v: int)
    requires s.child == CallStart && s.block == Life(2, true, 0, 0, 0) && s.returned == []
    ensures Repeat(s, ChildMoves(v), 3) == s.(block := Life(1, true, v, 0, 0), child := Exited, returned := [v])
  {
    RepeatThree(s, ChildMoves(v), 3);
  }

  /** Create, run, join: the join returns 0 and the start routine's value, the handle has been
      closed once, and the block freed once. */
  lemma WholeLife(v: int)
    ensures var created := Repeat(Initial(false), CreatorMoves(true), 7);
            var exited := Repeat(created, ChildMoves(v), 3);
            var joining := Next(exited, ClientStarts(0, true, false, true));
            var t := Proceed(joining, 0, 9);
            && created.creator == Created && exited.child == Exited
            && t.clients == map[0 := Client(true, false, true, true, true, v, Finished(Success))]
            && t.block.frees == 1 && t.block.opens == 1 && t.block.closes == 1
  {
    hide Repeat;
    CreationRuns();
    var created := Repeat(Initial(false), CreatorMoves(true), 7);
    ThreadRuns(created, v);
    JoinLast(Repeat(created, ChildMoves(v), 3), v);
  }

  /** The state of a lone call on the finished thread. */
  function Alone(b: Block, holder: Holder, last: Last, c: Client, v: int): State {
    State(false, b, Created, Exited, map[0 := c], [v], holder, last, if c.won then [0] else [])
  }

  lemma AloneMoves(b: Block, holder: Holder, last: Last, c: Client, v: int, e: Effect)
    requires Advance(Alone(b, holder, last, c, v), 0, c, true) == e && (c.won ==> e.client.won)
    ensures Next(Alone(b, holder, last, c, v), ClientMoves(0, true)) == Alone(e.block, e.holder, e.last, e.client, v)
  {
    hide Advance;
    assert map[0 := c][0 := e.client] == map[0 := e.client];
    assert [] + [0] == [0];
  }

  lemma JoinClaims(v: int)
    ensures var b, c := Life(1, true, v, 0, 0), Client(true, false, true, false, false, 0, Check);
            Repeat(Alone(b, Unclaimed, Nobody, c, v), ClientMoves(0, true), 9)
            == Repeat(Alone(b.(completion := Joined), ByClient(0), Nobody,
                            c.(won := true, stage := Wait(true)), v), ClientMoves(0, true), 6)
  {
    hide Repeat, Next;
    var b, c := Life(1, true, v, 0, 0), Client(true, false, true, false, false, 0, Check);
    AloneMoves(b, Unclaimed, Nobody, c, v, Effect(b, Unclaimed, Nobody, c.(stage := Swap)));
    var claimed, won := b.(completion := Joined), c.(won := true, stage := ReadHandle);
    AloneMoves(b, Unclaimed, Nobody, c.(stage := Swap), v, Effect(claimed, ByClient(0), Nobody, won));
    AloneMoves(claimed, ByClient(0), Nobody, won, v, Effect(claimed, ByClient(0), Nobody, won.(stage := Wait(true))));
    RepeatThree(Alone(b, Unclaimed, Nobody, c, v), ClientMoves(0, true), 9);
  }

  lemma JoinWaits(b: Block, c: Client, v: int)
    requires b.memory == Live && b.handle && b.result == v
    requires c.stage == Wait(true) && c.wantsValue && c.won
    ensures Repeat(Alone(b, ByClient(0), Nobody, c, v), ClientMoves(0, true), 6)
         == Repeat(Alone(b.(handle := false), ByClient(0), Nobody,
                         c.(waited := true, value := v, stage := Close(true)), v), ClientMoves(0, true), 3)
  {
    hide Repeat, Next;
    var reading := c.(waited := true, stage := ReadResult);
    AloneMoves(b, ByClient(0), Nobody, c, v, Effect(b, ByClient(0), Nobody, reading));
    var taking := reading.(value := v, stage := Take);
    AloneMoves(b, ByClient(0), Nobody, reading, v, Effect(b, ByClient(0), Nobody, taking));
    AloneMoves(b, ByClient(0), Nobody, taking, v,
               Effect(b.(handle := false), ByClient(0), Nobody, taking.(stage := Close(true))));
    RepeatThree(Alone(b, ByClient(0), Nobody, c, v), ClientMoves(0, true), 6);
  }

  lemma JoinLeaves(b: Block, c: Client, v: int)
    requires b.memory == Live && b.refs == 1 && b.closes == 0 && b.frees == 0
    requires c.stage == Close(true) && c.won && c.join && c.waited
    ensures Repeat(Alone(b, ByClient(0), Nobody, c, v), ClientMoves(0, true), 3)
         == Alone(b.(closes := 1, refs := 0, memory := Freed, frees := 1), Released, LastClient(0),
                  c.(stage := Finished(Success)), v)
  {
    hide Repeat, Next;
    var closed := b.(closes := 1);
    AloneMoves(b, ByClient(0), Nobody, c, v, Effect(closed, ByClient(0), Nobody, c.(stage := Release)));
    var empty := closed.(refs := 0);
    AloneMoves(closed, ByClient(0), Nobody, c.(stage := Release), v,
               Effect(empty, Released, LastClient(0), c.(stage := Free)));
    AloneMoves(empty, Released, LastClient(0), c.(stage := Free), v,
               Effect(empty.(memory := Freed, frees := 1), Released, LastClient(0), c.(stage := Finished(Success))));
    RepeatThree(Alone(b, ByClient(0), Nobody, c, v), ClientMoves(0, true), 3);
    RepeatNone(Alone(empty.(memory := Freed, frees := 1), Released, LastClient(0), c.(stage := Finished(Success)), v),
               ClientMoves(0, true));
  }

  lemma RepeatNone(s: State, a: Action)
    ensures Repeat(s, a, 0) == s
  {
  }

  lemma JoinLast(s: State, v: int)
    requires s == State(false, Life(1, true, v, 0, 0), Created, Exited, map[], [v], Unclaimed, Nobody, [])
    ensures var t := Proceed(Next(s, ClientStarts(0, true, false, true)), 0, 9);
            && t.clients == map[0 := Client(true, false, true, true, true, v, Finished(Success))]
            && t.block.frees == 1 && t.block.opens == 1 && t.block.closes == 1
  {
    hide Repeat;
    var b, c := Life(1, true, v, 0, 0), Client(true, false, true, false, false, 0, Check);
    assert Next(s, ClientStarts(0, true, false, true)) == Alone(b, Unclaimed, Nobody, c, v);
    JoinClaims(v);
    var won := c.(won := true, stage := Wait(true));
    JoinWaits(b.(completion := Joined), won, v);
    JoinLeaves(b.(completion := Joined, handle := false), won.(waited := true, value := v, stage := Close(true)), v);
  }
}
