/** The reader/writer lock facade: a slim lock and one unprotected owner field, stored and
    cleared in steps of their own, used by any number of threads. */
module RwLock {

  /** Blocking, trying and timed forms of the two acquisitions, and release. */
  datatype Operation = Read | Write | TryRead | TryWrite | TimedRead | TimedWrite | Unlock

  datatype Code = Success | Busy | TimedOut

  /** Where a thread stands in its call. */
  datatype Stage =
    | Idle | Acquiring(op: Operation) | Storing | Comparing | Clearing | ReleasingExclusive | ReleasingShared | Broken

  datatype Thread = Thread(stage: Stage, code: Code)

  /** The slim lock keeps a writer bit and a reader count. `writer` (0 for none) and `holds`
      record who acquired what and has not released it; no step reads them, except that a
      client calls unlock only while it holds the lock. */
  datatype State = State(
    exclusive: bool, readers: nat, owner: nat, threads: map<nat, Thread>, writer: nat, holds: multiset<nat>)

  datatype Action =
    | Call(id: nat, op: Operation)
    | Move(id: nat, expired: bool)

  function Initial(ids: set<nat>): State {
    State(false, 0, 0, map id | id in ids :: Thread(Idle, Success), 0, multiset{})
  }

  predicate Holds(s: State, id: nat) { s.writer == id || id in s.holds }

  predicate Writing(op: Operation) { op in {Write, TryWrite, TimedWrite} }

  /** A thread that is not in a call makes one; unlock only when it holds the lock. */
  function Called(s: State, id: nat, op: Operation): State
    requires id in s.threads
  {
    if s.threads[id].stage != Idle || (op == Unlock && !Holds(s, id)) then s
    else s.(threads := s.threads[id := s.threads[id].(stage := if op == Unlock then Comparing else Acquiring(op))])
  }

  /** A failed attempt: the blocking forms wait on, the trying forms give up, the timed forms
      give up when the time has come. */
  function NotAcquired(th: Thread, op: Operation, expired: bool): Thread {
    match op
    case TryRead => Thread(Idle, Busy)
    case TryWrite => Thread(Idle, Busy)
    case TimedRead => if expired then Thread(Idle, TimedOut) else th
    case TimedWrite => if expired then Thread(Idle, TimedOut) else th
    case _ => th
  }

  /** The lock and the moving thread after its step. */
  function Advance(s: State, id: nat, th: Thread, expired: bool): (State, Thread) {
    match th.stage
    case Acquiring(op) =>
      if Writing(op) then
        if s.exclusive || s.readers > 0 then (s, NotAcquired(th, op, expired))
        else (s.(exclusive := true, writer := id), th.(stage := Storing))
      else
        if s.exclusive then (s, NotAcquired(th, op, expired))
        else (s.(readers := s.readers + 1, holds := s.holds + multiset{id}), Thread(Idle, Success))
    case Storing => (s.(owner := id), Thread(Idle, Success))
    case Comparing => (s, th.(stage := if s.owner == id then Clearing else ReleasingShared))
    case Clearing => (s.(owner := 0), th.(stage := ReleasingExclusive))
    case ReleasingExclusive =>
      if s.exclusive && s.writer == id then (s.(exclusive := false, writer := 0), Thread(Idle, Success))
      else (s, th.(stage := Broken))
    case ReleasingShared =>
      if s.readers > 0 && id in s.holds
      then (s.(readers := s.readers - 1, holds := s.holds - multiset{id}), Thread(Idle, Success))
      else (s, th.(stage := Broken))
    case _ => (s, th)
  }

  function Moved(s: State, id: nat, expired: bool): State
    requires id in s.threads
  {
    var e := Advance(s, id, s.threads[id], expired);
    e.0.(threads := s.threads[id := e.1])
  }

  function Next(s: State, a: Action): State {
    if a.id !in s.threads then s
    else
      match a
      case Call(id, op) => Called(s, id, op)
      case Move(id, expired) => Moved(s, id, expired)
  }

  function Run(s: State, actions: seq<Action>): State
    decreases |actions|
  {
    if actions == [] then s else Run(Next(s, actions[0]), actions[1..])
  }

  // What every interleaving keeps

  /** The stages in which a thread has the lock exclusively, and its field is (not) set. */
  predicate ThreadOk(s: State, id: nat, stage: Stage) {
    match stage
    case Idle => s.writer == id ==> s.owner == id
    case Acquiring(_) => s.writer == id ==> s.owner == id
    case Storing => s.writer == id && s.owner == 0
    case Comparing => Holds(s, id) && (s.writer == id ==> s.owner == id)
    case Clearing => s.writer == id && s.owner == id
    case ReleasingExclusive => s.writer == id && s.owner == 0
    case ReleasingShared => s.writer != id && id in s.holds
    case Broken => false
  }

  ghost predicate Invariant(s: State) {
    && 0 !in s.threads
    && (s.exclusive <==> s.writer != 0)
    && s.readers == |s.holds|
    && (s.writer != 0 ==> s.writer in s.threads && s.readers == 0)
    && (s.owner != 0 ==> s.owner == s.writer)
    && forall id :: id in s.threads ==> ThreadOk(s, id, s.threads[id].stage)
  }

  lemma CallKeeps(s: State, id: nat, op: Operation)
    requires Invariant(s) && id in s.threads
    ensures Invariant(Called(s, id, op))
  {
  }

  /** A step changes no other thread. */
  lemma MoverFrame(s: State, id: nat, expired: bool)
    requires id in s.threads
    ensures var t := Moved(s, id, expired);
            && t.threads.Keys == s.threads.Keys
            && forall other :: other in s.threads && other != id ==> t.threads[other] == s.threads[other]
  {
  }

  lemma MoverOk(s: State, id: nat, expired: bool)
    requires id in s.threads && id != 0 && ThreadOk(s, id, s.threads[id].stage)
    requires s.exclusive <==> s.writer != 0
    requires s.owner != 0 ==> s.owner == s.writer
    requires id in s.holds ==> s.readers > 0
    ensures var t := Moved(s, id, expired); id in t.threads && ThreadOk(t, id, t.threads[id].stage)
  {
  }

  lemma NoHoldsNoReaders(s: State)
    requires s.readers == |s.holds|
    ensures s.readers == 0 <==> s.holds == multiset{}
    ensures forall id :: id in s.holds ==> s.readers > 0
  {
  }

  lemma LockOk(s: State, id: nat, expired: bool)
    requires Invariant(s) && id in s.threads
    ensures var t := Moved(s, id, expired);
            && (t.exclusive <==> t.writer != 0)
            && t.readers == |t.holds|
            && (t.writer != 0 ==> t.writer in t.threads && t.readers == 0)
            && (t.owner != 0 ==> t.owner == t.writer)
  {
    assert ThreadOk(s, id, s.threads[id].stage);
    NoHoldsNoReaders(s);
  }

  lemma OthersOk(s: State, id: nat, expired: bool, other: nat)
    requires Invariant(s) && id in s.threads && other in s.threads && other != id
    ensures ThreadOk(Moved(s, id, expired), other, s.threads[other].stage)
  {
    assert ThreadOk(s, id, s.threads[id].stage);
    assert ThreadOk(s, other, s.threads[other].stage);
    NoHoldsNoReaders(s);
  }

  lemma MoveKeeps(s: State, id: nat, expired: bool)
    requires Invariant(s) && id in s.threads
    ensures Invariant(Moved(s, id, expired))
  {
    hide Moved, ThreadOk;
    NoHoldsNoReaders(s);
    MoverFrame(s, id, expired);
    MoverOk(s, id, expired);
    LockOk(s, id, expired);
    forall other | other in s.threads && other != id
      ensures ThreadOk(Moved(s, id, expired), other, s.threads[other].stage)
    {
      OthersOk(s, id, expired, other);
    }
  }

  lemma {:induction false} RunKeeps(s: State, actions: seq<Action>)
    requires Invariant(s)
    ensures Invariant(Run(s, actions))
    decreases |actions|
  {
    hide Invariant, Called, Moved;
    if actions != [] {
      var a := actions[0];
      if a.id in s.threads {
        match a {
          case Call(id, op) => CallKeeps(s, id, op);
          case Move(id, expired) => MoveKeeps(s, id, expired);
        }
      }
      RunKeeps(Next(s, a), actions[1..]);
    }
  }

  ghost predicate Reachable(s: State) {
    exists ids: set<nat>, actions :: 0 !in ids && s == Run(Initial(ids), actions)
  }

  lemma ReachableInvariant(s: State)
    requires Reachable(s)
    ensures Invariant(s)
  {
    var ids: set<nat>, actions :| 0 !in ids && s == Run(Initial(ids), actions);
    assert Invariant(Initial(ids));
    RunKeeps(Initial(ids), actions);
  }

  /** A non-zero owner field names the thread that holds the lock exclusively, and a writer
      excludes every other holder. */
  lemma OwnerNamesWriter(s: State)
    requires Reachable(s)
    ensures s.owner != 0 ==> s.exclusive && s.writer == s.owner && s.writer in s.threads
    ensures s.exclusive ==> s.readers == 0 && forall id :: Holds(s, id) && id != 0 ==> id == s.writer
  {
    ReachableInvariant(s);
    NoHoldsNoReaders(s);
  }

  /** Unlock takes the exclusive way exactly when its caller is the writer, and no release is
      ever made in a mode its caller does not hold. */
  lemma UnlockMatchesHold(s: State, id: nat)
    requires Reachable(s) && id in s.threads
    ensures s.threads[id].stage != Broken
    ensures s.threads[id].stage == Comparing ==> (s.owner == id <==> s.writer == id)
    ensures s.threads[id].stage == Comparing && s.owner != id ==> id in s.holds
  {
    ReachableInvariant(s);
    assert ThreadOk(s, id, s.threads[id].stage);
  }

  /** A call that returned success on the write side left the field naming its caller. */
  lemma WriterReturns(s: State, id: nat)
    requires Reachable(s) && id in s.threads && s.threads[id].stage == Idle && s.writer == id
    ensures s.owner == id && s.exclusive && s.holds == multiset{}
  {
    ReachableInvariant(s);
    assert ThreadOk(s, id, s.threads[id].stage);
    NoHoldsNoReaders(s);
  }

  // What the calls return

  /** Somebody holds the lock in a way that keeps the operation out. */
  predicate Conflicts(s: State, op: Operation) {
    s.writer != 0 || (op in {Write, TryWrite, TimedWrite} && s.holds != multiset{})
  }

  /** An attempt succeeds exactly when nobody's hold is in its way. Otherwise the trying forms
      return Busy, the timed forms return TimedOut once the time has come, and everything else
      waits on; a failed attempt changes nothing but its own thread. */
  lemma AttemptReturns(s: State, id: nat, op: Operation, expired: bool)
    requires Reachable(s) && id in s.threads && s.threads[id].stage == Acquiring(op) && op != Unlock
    ensures var t := Moved(s, id, expired);
            var th := t.threads[id];
            if !Conflicts(s, op) then
              if op in {Read, TryRead, TimedRead}
              then th == Thread(Idle, Success) && t.holds == s.holds + multiset{id} && t.writer == s.writer == 0
              else th.stage == Storing && t.writer == id && t.holds == s.holds == multiset{}
            else
              && t == s.(threads := s.threads[id := th])
              && th == (if op in {TryRead, TryWrite} then Thread(Idle, Busy)
                        else if op in {TimedRead, TimedWrite} && expired then Thread(Idle, TimedOut)
                        else s.threads[id])
  {
    ReachableInvariant(s);
    NoHoldsNoReaders(s);
    if Conflicts(s, op) {
      assert Advance(s, id, s.threads[id], expired).0 == s;
    }
  }

  /** The step after an exclusive acquisition returns 0 with the field naming the writer. */
  lemma WriteReturns(s: State, id: nat, expired: bool)
    requires Reachable(s) && id in s.threads && s.threads[id].stage == Storing
    ensures var t := Moved(s, id, expired);
            t.threads[id] == Thread(Idle, Success) && t.writer == t.owner == id && t.holds == s.holds == multiset{}
  {
    ReachableInvariant(s);
    assert ThreadOk(s, id, Storing);
    NoHoldsNoReaders(s);
  }

  /** A writer's unlock returns 0 and leaves the lock free. */
  lemma WriterUnlocks(s: State, id: nat, expired: bool)
    requires Reachable(s) && id in s.threads && s.threads[id].stage == Idle && s.writer == id
    ensures var m := Move(id, expired);
            var t := Next(Next(Next(Next(s, Call(id, Unlock)), m), m), m);
            && t.threads[id] == Thread(Idle, Success)
            && t.writer == 0 && !t.exclusive && t.owner == 0 && t.holds == s.holds
  {
    WriterReturns(s, id);
    var m := Move(id, expired);
    var t1 := s.(threads := s.threads[id := s.threads[id].(stage := Comparing)]);
    assert Next(s, Call(id, Unlock)) == t1;
    var t2 := s.(threads := s.threads[id := s.threads[id].(stage := Clearing)]);
    assert Next(t1, m) == t2;
    assert Next(t2, m).writer == id && Next(t2, m).exclusive && Next(t2, m).threads[id].stage == ReleasingExclusive;
  }

  /** A reader's unlock returns 0 and gives up one of its holds, and nothing else. */
  lemma ReaderUnlocks(s: State, id: nat, expired: bool)
    requires Reachable(s) && id in s.threads && s.threads[id].stage == Idle && id in s.holds
    ensures var m := Move(id, expired);
            var t := Next(Next(Next(s, Call(id, Unlock)), m), m);
            t.threads[id] == Thread(Idle, Success) && t.holds == s.holds - multiset{id} && t.writer == s.writer == 0
  {
    ReachableInvariant(s);
    NoHoldsNoReaders(s);
    var m := Move(id, expired);
    var t1 := s.(threads := s.threads[id := s.threads[id].(stage := Comparing)]);
    assert Next(s, Call(id, Unlock)) == t1;
    assert s.owner != id;
    var t2 := s.(threads := s.threads[id := s.threads[id].(stage := ReleasingShared)]);
    assert Next(t1, m) == t2;
  }
}
