/** The growing buffer that the command line is written into. */
module CommandBuffer {
  import opened CommandLine
  import opened UnitText
  import opened Widths

  // How the capacity grows

  function Start(capacity: nat): nat { if capacity != 0 then capacity else 256 }

  function Grown(next: nat, required: nat): (r: nat)
    requires next > 0
    ensures r >= required
    decreases required - next
  {
    if next >= required then next
    else if next > SIZE_MAX / 2 then required
    else Grown(2 * next, required)
  }

  lemma {:induction false} GrownBound(next: nat, required: nat)
    requires next > 0
    ensures Grown(next, required) <= next || Grown(next, required) <= 2 * required
    decreases required - next
  {
    if next < required && next <= SIZE_MAX / 2 {
      GrownBound(2 * next, required);
    }
  }

  /** A capacity that suffices for `need` cells, whatever the order of the reservations. */
  function Enough(need: nat): nat { 256 + 2 * need }

  method Grow(capacity: nat, required: nat) returns (next: nat)
    ensures next == Grown(Start(capacity), required)
  {
    next := if capacity != 0 then capacity else 256;
    while next < required
      invariant next > 0 && Grown(next, required) == Grown(Start(capacity), required)
    {
      if next > SIZE_MAX / 2 {
        return required;
      }
      next := 2 * next;
    }
  }

  lemma EnoughIsGranted(capacity: nat, len: nat, add: nat, available: nat, need: nat)
    requires capacity <= Enough(need) && len + add < need
    ensures Grown(Start(capacity), len + add + 1) <= Enough(need)
    ensures Enough(need) <= available && Enough(need) <= SIZE_MAX / 2 ==> Granted(capacity, len, add, available)
  {
    GrownBound(Start(capacity), len + add + 1);
  }

  /** Whether a reservation succeeds; the heap has `available` cells to give at a time. */
  predicate Granted(capacity: nat, len: nat, add: nat, available: nat) {
    var required := len + add + 1;
    && required <= SIZE_MAX
    && (required <= capacity
        || (Grown(Start(capacity), required) <= SIZE_MAX / 2 && Grown(Start(capacity), required) <= available))
  }

  class Buffer {
    /** `cells.Length` is the capacity. */
    var cells: array<Cell>
    var len: nat
    const available: nat

    constructor (available: nat)
      ensures this.available == available && Valid() && fresh(cells)
      ensures Written() == [] && len == 0 && cells.Length == 0
    {
      this.available := available;
      cells, len := new Cell[0], 0;
    }

    ghost predicate Valid() reads this, cells {
      && len <= cells.Length && len < SIZE_MAX
      && forall k :: 0 <= k < len ==> cells[k] != 0
    }

    ghost function Written(): (s: seq<Cell>)
      requires Valid()
      reads this, cells
      ensures forall k :: 0 <= k < |s| ==> s[k] != 0
    {
      cells[..len]
    }

    /** Room for `add` more units and the terminator. */
    method Reserve(add: nat) returns (ok: bool)
      requires Valid()
      modifies this`cells
      ensures Valid() && (cells == old(cells) || fresh(cells))
      ensures Written() == old(Written())
      ensures ok ==> len + add < cells.Length && len + add < SIZE_MAX
      ensures ok == Granted(old(cells.Length), len, add, available)
      ensures cells.Length == old(cells.Length) || cells.Length == Grown(Start(old(cells.Length)), len + add + 1)
    {
      if add > SIZE_MAX - len - 1 {
        return false;
      }
      var required := len + add + 1;
      if required <= cells.Length {
        return true;
      }
      var next := Grow(cells.Length, required);
      if next > SIZE_MAX / 2 || next > available {
        return false;
      }
      cells := Reallocated(next);
      return true;
    }

    /** A larger block that starts with what was written. */
    method Reallocated(size: nat) returns (replacement: array<Cell>)
      requires Valid() && len <= size
      ensures fresh(replacement) && replacement.Length == size && replacement[..len] == Written()
    {
      replacement := new Cell[size];
      for k := 0 to len
        invariant replacement[..k] == cells[..k]
      {
        replacement[k] := cells[k];
      }
    }

    /** One unit, inside the reservation that ends at `limit`. */
    method Emit(c: Unit, ghost limit: nat, ghost t: Text)
      requires Valid() && len < limit < cells.Length && limit < SIZE_MAX
      modifies this`len, cells
      ensures Valid() && len == old(len) + 1
      ensures Prefixed(Written(), t) == Prefixed(old(Written()), Put(c, t))
    {
      ghost var before := Written();
      cells[len] := c;
      len := len + 1;
      assert Written() == before + [c];
      PrefixedStep(before, c, t);
    }

    method EmitSlashes(n: nat, ghost limit: nat, ghost t: Text)
      requires Valid() && len + n <= limit < cells.Length && limit < SIZE_MAX
      modifies this`len, cells
      ensures Valid() && len == old(len) + n
      ensures Prefixed(Written(), t) == Prefixed(old(Written()), Slashes(n, t))
    {
      for index := 0 to n
        invariant Valid() && len == old(len) + index
        invariant Prefixed(Written(), Slashes(n - index, t)) == Prefixed(old(Written()), Slashes(n, t))
      {
        Emit(BACKSLASH, limit, Slashes(n - index - 1, t));
      }
    }

    method Terminate()
      requires Valid() && len < cells.Length
      modifies cells
      ensures Valid() && cells[len] == 0 && Written() == old(Written())
    {
      cells[len] := 0;
    }

    /** An argument with the quoting it needs; no write passes the 2n + 2 units reserved for
        it and the terminator. */
    method AppendQuoted(arg: seq<Unit>, ghost tail: Text) returns (ok: bool)
      requires Valid()
      modifies this, cells
      ensures Valid() && (cells == old(cells) || fresh(cells))
      ensures ok == Granted(old(cells.Length), old(len), 2 * |arg| + 2, available)
      ensures ok ==> Prefixed(Written(), tail) == Prefixed(old(Written()), Quoted(From(arg, 0), tail))
      ensures ok ==> len <= old(len) + 2 * |arg| + 2 && len < cells.Length && cells[len] == 0
      ensures !ok ==> Written() == old(Written())
      ensures cells.Length == old(cells.Length)
           || cells.Length == Grown(Start(old(cells.Length)), old(len) + 2 * |arg| + 2 + 1)
    {
      var quotes := Scan(arg);
      ok := Reserve(2 * |arg| + 2);
      if !ok {
        return;
      }
      ghost var limit := len + 2 * |arg| + 2;
      if quotes {
        EmitQuoted(arg, limit, tail);
      } else {
        EmitPlain(arg, limit, tail);
      }
      Terminate();
    }

    /** The space before an argument. */
    method AppendSpace(ghost t: Text) returns (ok: bool)
      requires Valid()
      modifies this, cells
      ensures Valid() && (cells == old(cells) || fresh(cells))
      ensures ok == Granted(old(cells.Length), old(len), 1, available)
      ensures ok ==> len == old(len) + 1 && Prefixed(Written(), t) == Prefixed(old(Written()), Put(SPACE, t))
      ensures cells.Length == old(cells.Length) || cells.Length == Grown(Start(old(cells.Length)), old(len) + 2)
    {
      ok := Reserve(1);
      if ok {
        Emit(SPACE, len + 1, t);
        Terminate();
      }
    }

    method EmitPlain(arg: seq<Unit>, ghost limit: nat, ghost tail: Text)
      requires Valid() && len + |arg| <= limit < cells.Length && limit < SIZE_MAX
      modifies this`len, cells
      ensures Valid() && len <= limit
      ensures Prefixed(Written(), tail) == Prefixed(old(Written()), Plain(From(arg, 0), tail))
    {
      for i := 0 to |arg|
        invariant Valid() && len == old(len) + i
        invariant Prefixed(Written(), Plain(From(arg, i), tail)) == Prefixed(old(Written()), Plain(From(arg, 0), tail))
      {
        Emit(arg[i], limit, Plain(From(arg, i + 1), tail));
      }
    }

    method EmitQuoted(arg: seq<Unit>, ghost limit: nat, ghost tail: Text)
      requires Valid() && len + 2 * |arg| + 2 <= limit < cells.Length && limit < SIZE_MAX
      modifies this`len, cells
      ensures Valid() && len <= limit
      ensures Prefixed(Written(), tail) == Prefixed(old(Written()), Put(QUOTE, Body(From(arg, 0), 0, tail)))
    {
      BodyBound(From(arg, 0), 0);
      FromLength(arg, 0);
      Emit(QUOTE, limit, Body(From(arg, 0), 0, tail));
      var backslashes: nat := 0;
      for i := 0 to |arg|
        invariant Valid() && len + BodyLength(From(arg, i), backslashes) <= limit
        invariant Prefixed(Written(), Body(From(arg, i), backslashes, tail))
               == Prefixed(old(Written()), Put(QUOTE, Body(From(arg, 0), 0, tail)))
      {
        backslashes := EmitNext(arg[i], From(arg, i + 1), backslashes, limit, tail);
      }
      EmitSlashes(2 * backslashes, limit, Put(QUOTE, tail));
      Emit(QUOTE, limit, tail);
    }

    /** One unit of a quoted argument, after `backslashes` pending ones. */
    method EmitNext(c: Unit, ghost rest: Text, backslashes: nat, ghost limit: nat, ghost tail: Text)
        returns (pending: nat)
      requires Valid() && limit < cells.Length && limit < SIZE_MAX
      requires len + BodyLength(Put(c, rest), backslashes) <= limit
      modifies this`len, cells
      ensures Valid() && len + BodyLength(rest, pending) <= limit
      ensures Prefixed(Written(), Body(rest, pending, tail)) ==
              Prefixed(old(Written()), Body(Put(c, rest), backslashes, tail))
    {
      ghost var after := Body(rest, 0, tail);
      if c == BACKSLASH {
        return backslashes + 1;
      }
      BodyLengthPositive(rest, 0);
      EmitSlashes(if c == QUOTE then 2 * backslashes + 1 else backslashes, limit, Put(c, after));
      Emit(c, limit, after);
      return 0;
    }
  }

  lemma {:induction false} BodyLengthPositive(arg: Text, k: nat)
    ensures BodyLength(arg, k) > 0
  {
    if arg.Put? {
      BodyLengthPositive(arg.rest, if arg.c == BACKSLASH then k + 1 else 0);
    }
  }

  /** The scan that decides about quotes. */
  method Scan(arg: seq<Unit>) returns (quotes: bool)
    ensures quotes == NeedsQuotes(From(arg, 0))
  {
    quotes := |arg| == 0;
    var i := 0;
    while i < |arg| && !quotes
      invariant i <= |arg|
      invariant quotes ==> NeedsQuotes(From(arg, 0))
      invariant !quotes ==> |arg| > 0 && Special(From(arg, i)) == Special(From(arg, 0))
      decreases |arg| - i, !quotes
    {
      quotes := arg[i] == SPACE || arg[i] == TAB || arg[i] == QUOTE;
      i := i + 1;
    }
  }
}
