/** The thread protocol's promises, over every run. */
module PthreadTheorems {
  import opened PthreadProtocol
  import opened PthreadSafety

  ghost predicate Reachable(s: State) {
    exists detached, actions :: s == Run(Initial(detached), actions)
  }

  lemma ReachableInvariant(s: State)
    requires Reachable(s)
    ensures Invariant(s)
  {
    hide Run, Invariant;
    var detached, actions :| s == Run(Initial(detached), actions);
    InitialOk(detached);
    RunKeeps(Initial(detached), actions);
  }

  lemma InitialOk(detached: bool)
    ensures Invariant(Initial(detached))
  {
  }

  /** The block's reference count is the number of references not yet given up; the block is
      freed at most once, and once the thread has started only at zero. */
  lemma CountedAndFreedOnce(s: State)
    requires Reachable(s)
    ensures s.block.frees <= 1 && (s.block.memory == Freed <==> s.block.frees == 1)
    ensures s.child !in {Unborn, Suspended, Terminated} ==> RefsOk(s)
    ensures s.block.memory == Freed && s.creator != Failed ==> s.block.refs == 0
  {
    ReachableInvariant(s);
  }

  /** No step of the creator, of the new thread, or of a call whose compare-and-swap
      succeeded, before it or after it, has touched a freed block. */
  lemma NobodyAstray(s: State)
    requires Reachable(s)
    ensures s.creator != CreatorAstray && s.child != ChildAstray
    ensures forall id :: id in s.clients && s.clients[id].stage == Astray ==> !s.clients[id].won
  {
    ReachableInvariant(s);
    if SharedOk(s) {
      forall id | id in s.clients
        ensures s.clients[id].stage == Astray ==> !s.clients[id].won
      {
        assert ClientOk(s, s.clients[id]);
      }
    }
  }

  /** At most one join or detach ever wins, and none on a thread created detached. */
  lemma OneWinner(s: State, a: nat, b: nat)
    requires Reachable(s) && a in s.clients && b in s.clients && s.clients[a].won && s.clients[b].won
    ensures a == b && !s.detached
  {
    ReachableInvariant(s);
    assert a in s.winners && b in s.winners;
    OnlyElement(s.winners, a, b);
  }

  lemma OnlyElement(w: seq<nat>, a: nat, b: nat)
    requires |w| <= 1 && a in w && b in w
    ensures a == b
  {
  }

  /** A join that returns 0 won, returns after the thread has exited, and stores exactly the
      value that the start routine returned, which returned once. */
  lemma JoinedValue(s: State, id: nat)
    requires Reachable(s) && id in s.clients
    requires s.clients[id].join && s.clients[id].stage == Finished(Success)
    ensures s.clients[id].won && s.child == Exited && |s.returned| == 1
    ensures s.clients[id].wantsValue ==> s.clients[id].value == s.returned[0]
  {
    ReachableInvariant(s);
    assert ClientOk(s, s.clients[id]);
  }

  /** Every party has come to its end. */
  predicate Settled(s: State) {
    && s.creator in {Created, Failed}
    && s.child in {Unborn, Terminated, Exited}
    && forall id :: id in s.clients ==> s.clients[id].stage == Astray || s.clients[id].stage.Finished?
  }

  /** When every party has ended, the handle has been closed exactly once if it was ever
      opened, and the block freed exactly once if it was ever allocated; only a thread that
      nobody joined or detached keeps both, with the public reference outstanding. */
  lemma SettledAccounts(s: State)
    requires Reachable(s) && Settled(s) && s.block.memory != Absent
    ensures s.creator == Created ==> s.block.opens == 1
    ensures s.creator == Created && s.block.completion == Joinable ==>
              s.block.memory == Live && s.block.refs == 1 && s.block.closes == 0
    ensures s.creator == Failed || s.block.completion != Joinable ==>
              s.block.frees == 1 && s.block.closes == s.block.opens
  {
    ReachableInvariant(s);
    if SharedOk(s) {
      SettledReleases(s);
    }
  }

  lemma SettledReleases(s: State)
    requires SharedOk(s) && Settled(s)
    ensures s.holder in {Unclaimed, Released}
    ensures s.holder == Released ==> s.block.memory == Freed
  {
    assert s.holder.ByClient? ==> s.holder.id in s.clients && Holding(s.clients[s.holder.id]);
    assert s.last.LastClient? ==> s.last.id in s.clients;
  }

  /** A created thread's handle is never closed twice. */
  lemma ClosedAtMostOnce(s: State)
    requires Reachable(s)
    ensures s.block.closes <= s.block.opens <= 1
  {
    ReachableInvariant(s);
  }
}
