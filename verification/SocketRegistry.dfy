/** The process-wide registry of socket descriptors, against a descriptor table that other
    threads change without the lock. */
module SocketRegistry {
  import opened Widths

  /** A socket is private to its opener until it is registered, and public from then on. */
  datatype Kind = Closed | File | PrivateSocket | PublicSocket

  type Table = map<int, Kind>

  function KindOf(t: Table, fd: int): Kind { if fd in t then t[fd] else Closed }

  function Public(t: Table): (s: set<int>)
    ensures forall fd :: fd in s <==> KindOf(t, fd) == PublicSocket
  {
    set fd | fd in t && t[fd] == PublicSocket
  }

  lemma PublicUpdate(t: Table, fd: int, kind: Kind)
    ensures Public(t[fd := kind]) == if kind == PublicSocket then Public(t) + {fd} else Public(t) - {fd}
  {
  }

  /** Unlocked steps of other threads: they open and close anything except public sockets
      and the descriptors in `kept`, which are private to the running operation. */
  ghost predicate Interference(before: Table, after: Table, kept: set<int>) {
    forall fd :: (KindOf(before, fd) == PublicSocket <==> KindOf(after, fd) == PublicSocket)
                 && (fd in kept ==> KindOf(after, fd) == KindOf(before, fd))
  }

  lemma PublicKept(before: Table, after: Table, kept: set<int>)
    requires Interference(before, after, kept)
    ensures Public(before) == Public(after)
  {
    forall fd
      ensures fd in Public(before) <==> fd in Public(after)
    {
      assert KindOf(before, fd) == PublicSocket <==> KindOf(after, fd) == PublicSocket;
    }
  }

  // What successful operations do to the set of public sockets

  datatype Event =
    | Registered(fd: int)
    | Unregistered(fd: int)
    | Shut(fd: int)
    | Duplicated(source: int, copy: int)
    | Replaced(source: int, copy: int)

  function Apply(e: Event, public: set<int>): set<int> {
    match e
    case Registered(fd) => public + {fd}
    case Unregistered(fd) => public - {fd}
    case Shut(fd) => public - {fd}
    case Duplicated(source, copy) => if source in public then public + {copy} else public
    case Replaced(source, copy) => if source in public then public + {copy} else public - {copy}
  }

  function After(events: seq<Event>): set<int> {
    if events == [] then {} else Apply(events[|events| - 1], After(events[..|events| - 1]))
  }

  lemma AfterAppend(events: seq<Event>, e: Event)
    ensures After(events + [e]) == Apply(e, After(events))
  {
    assert (events + [e])[..|events|] == events;
  }

  /** The event makes fd a public socket, or keeps it from being one. */
  predicate Publishes(e: Event, before: set<int>, fd: int) {
    match e
    case Registered(f) => f == fd
    case Duplicated(source, copy) => copy == fd && source in before
    case Replaced(source, copy) => copy == fd && source in before
    case _ => false
  }

  predicate Retracts(e: Event, before: set<int>, fd: int) {
    match e
    case Unregistered(f) => f == fd
    case Shut(f) => f == fd
    case Replaced(source, copy) => copy == fd && source !in before
    case _ => false
  }

  ghost predicate LastPublished(events: seq<Event>, fd: int, i: int) {
    && 0 <= i < |events| && Publishes(events[i], After(events[..i]), fd)
    && forall j :: i < j < |events| ==> !Retracts(events[j], After(events[..j]), fd)
  }

  lemma PrefixOfPrefix(events: seq<Event>, n: nat, i: nat)
    requires i <= n <= |events|
    ensures events[..n][..i] == events[..i]
  {
  }

  /** An event that does not decide about fd leaves the last publication as it was. */
  lemma UndecidedKeeps(events: seq<Event>, fd: int, i: int)
    requires events != []
    requires var n := |events| - 1;
             !Publishes(events[n], After(events[..n]), fd) && !Retracts(events[n], After(events[..n]), fd)
    ensures LastPublished(events, fd, i) <==> LastPublished(events[..|events| - 1], fd, i)
  {
    var n := |events| - 1;
    forall j | 0 <= j <= n
      ensures events[..n][..j] == events[..j]
    {
      PrefixOfPrefix(events, n, j);
    }
  }

  /** A descriptor is a public socket exactly when some event published it and no later event
      closed, unregistered or overwrote it: recycling never revives it. */
  lemma {:induction false} LastEventDecides(events: seq<Event>, fd: int)
    ensures fd in After(events) <==> exists i :: LastPublished(events, fd, i)
    decreases |events|
  {
    if events != [] {
      var n := |events| - 1;
      LastEventDecides(events[..n], fd);
      if Publishes(events[n], After(events[..n]), fd) {
        assert LastPublished(events, fd, n);
      } else if !Retracts(events[n], After(events[..n]), fd) {
        forall i
          ensures LastPublished(events, fd, i) <==> LastPublished(events[..n], fd, i)
        {
          UndecidedKeeps(events, fd, i);
        }
      }
    }
  }

  // The registry

  datatype Errno = NoError | BadDescriptor | OutOfMemory

  class Registry {
    /** Of length 0 until the first allocation. */
    var flags: array<bool>
    var capacity: nat
    ghost var table: Table
    /** The operations that succeeded so far. */
    ghost var history: seq<Event>

    constructor ()
      ensures Consistent() && history == [] && fresh(flags)
    {
      flags, capacity, table, history := new bool[0], 0, map[], [];
      new;
      assert Flags() == {};
    }

    ghost predicate Valid() reads this`flags, this`capacity { flags.Length == capacity }

    predicate Flagged(fd: int)
      requires Valid()
      reads this`flags, this`capacity, flags
    {
      0 <= fd < capacity && flags[fd]
    }

    ghost function Sockets(): set<int> reads this`table { Public(table) }

    ghost function Flags(): (s: set<int>)
      requires Valid()
      reads this`flags, this`capacity, flags
      ensures forall fd :: fd in s <==> Flagged(fd)
    {
      set fd | 0 <= fd < capacity && flags[fd]
    }

    /** A flag is set exactly for each public socket. */
    ghost predicate Agrees()
      requires Valid()
      reads this`flags, this`capacity, flags, this`table
    {
      Flags() == Sockets()
    }

    /** Holds whenever the lock is free: the flags name the public sockets, which are those
        that the operations so far leave public. */
    ghost predicate Consistent()
      reads this, flags
    {
      Valid() && Agrees() && Sockets() == After(history)
    }

    ghost method Record(e: Event)
      requires Sockets() == Apply(e, After(history))
      modifies this`history
      ensures history == old(history) + [e] && Sockets() == After(history)
    {
      AfterAppend(history, e);
      history := history + [e];
    }

    /** Other threads run for a while. */
    ghost method Interfere(kept: set<int>)
      modifies this`table
      ensures Interference(old(table), table, kept) && Sockets() == old(Sockets())
      ensures forall fd :: fd in kept ==> KindOf(table, fd) == old(KindOf(table, fd))
    {
      assert Interference(table, table, kept);
      var next: Table :| Interference(table, next, kept);
      PublicKept(table, next, kept);
      table := next;
    }

    /** Capacity for fd; `allocates` is whether the heap provides the memory. Growth keeps all
        flags and adds cleared ones. */
    method EnsureCapacity(fd: int, allocates: bool) returns (ok: bool, errno: Errno)
      requires Valid()
      modifies this`flags, this`capacity
      ensures Valid() && (flags == old(flags) || fresh(flags))
      ensures ok ==> fd < capacity
      ensures ok ==> fd >= 0 && (fd < old(capacity) || allocates)
      ensures fd <= INT_MAX && fd >= 0 && (fd < old(capacity) || allocates) ==> ok
      ensures errno == if ok then NoError else if fd < 0 then BadDescriptor else OutOfMemory
      ensures old(capacity) <= capacity
      ensures Flags() == old(Flags())
    {
      if fd < 0 {
        return false, BadDescriptor;
      }
      var needed := fd + 1;
      if needed <= capacity {
        return true, NoError;
      }
      var size := if capacity != 0 then capacity else 64;
      while size < needed
        invariant capacity <= size && size > 0
      {
        if size > SIZE_MAX / 2 {
          return false, OutOfMemory;
        }
        size := size * 2;
      }
      if !allocates {
        return false, OutOfMemory;
      }
      var replacement := Reallocated(size);
      ghost var before := Flags();
      flags, capacity := replacement, size;
      assert forall f :: f in before <==> Flagged(f);
      return true, NoError;
    }

    /** The heap's reallocation: the old contents, then zeros. */
    method Reallocated(size: nat) returns (replacement: array<bool>)
      requires Valid() && capacity <= size
      ensures fresh(replacement) && replacement.Length == size
      ensures forall i :: 0 <= i < size ==> (replacement[i] <==> Flagged(i))
    {
      replacement := new bool[size];
      for i := 0 to size
        invariant forall j :: 0 <= j < i ==> (replacement[j] <==> Flagged(j))
      {
        replacement[i] := if i < capacity then flags[i] else false;
      }
    }

    // The operations. The outcomes of system calls are parameters; `_close` and `_dup2`
    // succeed or change nothing.

    /** A descriptor comes to hold something of the given kind. */
    ghost method Becomes(fd: int, kind: Kind)
      modifies this`table
      ensures table == old(table)[fd := kind]
      ensures Sockets() == if kind == PublicSocket then old(Sockets()) + {fd} else old(Sockets()) - {fd}
    {
      PublicUpdate(table, fd, kind);
      table := table[fd := kind];
    }

    method SetFlag(fd: nat, on: bool)
      requires Valid() && fd < capacity
      modifies flags
      ensures Valid() && Flags() == if on then old(Flags()) + {fd} else old(Flags()) - {fd}
    {
      flags[fd] := on;
      assert forall f :: f != fd ==> Flagged(f) == old(Flagged(f));
    }

    /** The descriptor is flagged, whatever it holds. A socket becomes public; flagging anything
        else, and nothing but that, makes the flags disagree with the public sockets. */
    method Register(fd: int, allocates: bool) returns (result: int, errno: Errno)
      requires Consistent()
      modifies this, flags
      ensures Valid() && (flags == old(flags) || fresh(flags))
      ensures result == 0 || result == -1
      ensures Flags() == if result == 0 then old(Flags()) + {fd} else old(Flags())
      ensures Consistent() <==> result == -1 || KindOf(table, fd) == PublicSocket
      ensures history == if result == 0 && KindOf(table, fd) == PublicSocket then old(history) + [Registered(fd)]
                         else old(history)
      ensures old(KindOf(table, fd)) == PrivateSocket ==>
                KindOf(table, fd) == if result == 0 then PublicSocket else PrivateSocket
      ensures errno == if result == 0 then NoError else if fd < 0 then BadDescriptor else OutOfMemory
      ensures 0 <= fd <= INT_MAX && (fd < old(capacity) || allocates) ==> result == 0
    {
      hide Flags, Flagged, Public, Interference, After;
      var ok: bool;
      ok, errno := EnsureCapacity(fd, allocates);
      Interfere(if KindOf(table, fd) == PrivateSocket then {fd} else {});
      if ok {
        SetFlag(fd, true);
        if KindOf(table, fd) in {PrivateSocket, PublicSocket} {
          Becomes(fd, PublicSocket);
          Record(Registered(fd));
        } else {
          assert fd in Flags() && fd !in Sockets();
        }
      }
      result := if ok then 0 else -1;
    }

    /** A public socket becomes private to the caller again. */
    method Unregister(fd: int)
      requires Consistent()
      modifies this, flags
      ensures Consistent() && (flags == old(flags) || fresh(flags))
      ensures history == old(history) + [Unregistered(fd)]
    {
      if fd < 0 {
        assert !Flagged(fd) && fd !in Flags();
        Record(Unregistered(fd));
        return;
      }
      Interfere({});
      assert Flagged(fd) <==> fd in Flags();
      if fd < capacity {
        SetFlag(fd, false);
        if fd in Sockets() {
          Becomes(fd, PrivateSocket);
        }
      } else {
        OutOfRange(fd);
      }
      Record(Unregistered(fd));
    }

    /** A descriptor without a flag is left alone. */
    method WriteFlag(fd: int, on: bool)
      requires Valid() && (on ==> 0 <= fd < capacity)
      modifies flags
      ensures Valid() && Flags() == if on then old(Flags()) + {fd} else old(Flags()) - {fd}
    {
      hide Flags;
      if 0 <= fd < capacity {
        SetFlag(fd, on);
      } else {
        OutOfRange(fd);
      }
    }

    lemma OutOfRange(fd: int)
      requires Valid()
      ensures !(0 <= fd < capacity) ==> fd !in Flags()
    {
    }

    /** The flag test that every operation starts with. */
    method ReadFlag(fd: int) returns (set_: bool)
      requires Valid()
      ensures set_ <==> fd in Flags()
    {
      assert fd in Flags() <==> Flagged(fd);
      set_ := 0 <= fd < capacity && flags[fd];
    }

    /** The answer follows from the operations so far: some operation made fd a public socket,
        and no later one closed, unregistered or overwrote it. */
    method IsSocket(fd: int) returns (result: bool)
      requires Consistent()
      ensures result <==> KindOf(table, fd) == PublicSocket
      ensures result <==> exists i :: LastPublished(history, fd, i)
    {
      LastEventDecides(history, fd);
      if fd < 0 {
        assert fd !in Flags();
        return false;
      }
      result := ReadFlag(fd);
      assert fd in Sockets() <==> KindOf(table, fd) == PublicSocket;
    }

    method Close(fd: int, succeeds: bool) returns (result: int)
      requires Consistent()
      modifies this, flags
      ensures Consistent() && (flags == old(flags) || fresh(flags))
      ensures result == if succeeds then 0 else -1
      ensures history == if succeeds then old(history) + [Shut(fd)] else old(history)
    {
      hide Flags, Flagged, Public, Interference, KindOf, After;
      Interfere({});
      var wasSocket := ReadFlag(fd);
      OutOfRange(fd);
      if wasSocket {
        SetFlag(fd, false);
      }
      Interfere({});
      result := if succeeds then 0 else -1;
      if succeeds {
        Becomes(fd, Closed);
        Record(Shut(fd));
      }
      Interfere({});
      if result != 0 && wasSocket {
        SetFlag(fd, true);
      }
    }

    /** `copy` is what `_dup` returns: a descriptor that was not open, or a negative number. */
    method Duplicate(fd: int, copy: int, allocates: bool) returns (result: int)
      requires Consistent() && copy !in Sockets()
      modifies this, flags
      ensures Consistent() && (flags == old(flags) || fresh(flags))
      ensures history == if result >= 0 then old(history) + [Duplicated(fd, copy)] else old(history)
      ensures result == copy || result == -1
      ensures 0 <= copy <= INT_MAX && allocates ==> result == copy
    {
      hide Flags, Flagged, Public, Interference, KindOf, After;
      Interfere({});
      var sourceIsSocket := ReadFlag(fd);
      result := copy;
      if copy >= 0 && sourceIsSocket {
        result := PublishCopy(copy, allocates);
      }
      if result >= 0 {
        Record(Duplicated(fd, copy));
      }
      Interfere({});
    }

    /** The copy of a public socket is public once there is room for its flag; otherwise it is
        closed again. */
    method PublishCopy(copy: int, allocates: bool) returns (result: int)
      requires Valid() && Agrees() && copy >= 0 && copy !in Sockets()
      modifies this, flags
      ensures Valid() && (flags == old(flags) || fresh(flags)) && Agrees()
      ensures Sockets() == if result >= 0 then old(Sockets()) + {copy} else old(Sockets())
      ensures history == old(history)
      ensures result == copy || result == -1
      ensures copy <= INT_MAX && allocates ==> result == copy
    {
      hide Flags, Flagged, Public, Interference, KindOf, After;
      Becomes(copy, PrivateSocket);
      Interfere({copy});
      var ok, errno := EnsureCapacity(copy, allocates);
      if !ok {
        Becomes(copy, Closed);
        return -1;
      }
      SetFlag(copy, true);
      Becomes(copy, PublicSocket);
      return copy;
    }

    method Duplicate2(oldfd: int, newfd: int, succeeds: bool, allocates: bool) returns (result: int)
      requires Consistent()
      modifies this, flags
      ensures Consistent() && (flags == old(flags) || fresh(flags))
      ensures history == if result == 0 then old(history) + [Replaced(oldfd, newfd)] else old(history)
      ensures result == 0 || result == -1
      ensures succeeds && 0 <= newfd <= INT_MAX && allocates ==> result == 0
    {
      hide Flags, Flagged, Public, Interference, KindOf, After;
      Interfere({});
      var sourceIsSocket := ReadFlag(oldfd);
      if sourceIsSocket {
        var ok, errno := EnsureCapacity(newfd, allocates);
        if !ok {
          return -1;
        }
      }
      Interfere({});
      result := if succeeds then 0 else -1;
      if succeeds {
        Becomes(newfd, if sourceIsSocket then PublicSocket
                       else if KindOf(table, oldfd) == PrivateSocket then PrivateSocket
                       else File);
        Record(Replaced(oldfd, newfd));
      }
      Interfere({});
      if result >= 0 {
        WriteFlag(newfd, sourceIsSocket);
      }
    }
  }
}
