/** The unwind corpus generator, patching a fresh copy of the table for each case. */
module OatUnwindGenerator {
  import opened OatBytes
  import opened OatEdits
  import opened OatUnwind
  import opened OatUnwindCorpus
  import opened Options

  lemma FirstWithNext(p: Bytes, locals: seq<int>, odd: bool, i: nat)
    requires i < |locals| && forall k :: 0 <= k < |locals| ==> 0 <= locals[k] <= |p| - 4
    ensures FirstWith(p, locals[i..], odd)
         == if Wanted(p, locals[i], odd) then Some(locals[i]) else FirstWith(p, locals[i + 1..], odd)
  {
    hide Wanted;
    assert locals[i..][1..] == locals[i + 1..] && locals[i..][0] == locals[i];
  }

  lemma NoneWith(p: Bytes)
    ensures FirstWith(p, [], false) == None && FirstWith(p, [], true) == None
  {
  }

  /** The first descriptor with operations and the first with an odd slot count. */
  method SearchDescriptors(p: Bytes, locals: seq<int>) returns (operation: Option<int>, odd: Option<int>, usable: bool)
    requires Room(p) && forall k :: 0 <= k < |locals| ==> BlobAt(p) <= locals[k] <= |p| - 4
    ensures usable == LocalsUsable(p, locals)
    ensures usable ==> operation == FirstWith(p, locals, false) && odd == FirstWith(p, locals, true)
  {
    operation, odd := None, None;
    assert locals[0..] == locals;
    hide FirstWith;
    for i := 0 to |locals|
      invariant forall k :: 0 <= k < i ==> DescriptorEnd(p, locals[k]) <= |p|
      invariant FirstWith(p, locals, false) == OrElse(operation, FirstWith(p, locals[i..], false))
      invariant FirstWith(p, locals, true) == OrElse(odd, FirstWith(p, locals[i..], true))
    {
      var local := locals[i];
      FirstWithNext(p, locals, false, i);
      FirstWithNext(p, locals, true, i);
      var slots := SlotCount(p, local);
      if DescriptorEnd(p, local) > |p| {
        return operation, odd, false;
      }
      if slots > 0 && operation == None {
        operation := Some(local);
      }
      if slots % 2 == 1 && odd == None {
        odd := Some(local);
      }
    }
    assert locals[|locals|..] == [];
    NoneWith(p);
    return operation, odd, true;
  }

  function OrElse<T>(a: Option<T>, b: Option<T>): Option<T> { if a.Some? then a else b }

  method Build(p: Bytes, section: int) returns (r: Option<seq<Case>>)
    ensures r == Corpus(p, section)
  {
    if !Usable(p) {
      return None;
    }
    var locals := Locals(p, section);
    if locals == [] || exists k :: 0 <= k < |locals| && !(BlobAt(p) <= locals[k] <= |p| - 4) {
      return None;
    }
    var operation, odd, usable := SearchDescriptors(p, locals);
    if !usable || operation == None || odd == None {
      return None;
    }
    var t := Targets(locals[0], operation.value, odd.value);
    assert FindTargets(p, section) == Some(t);
    hide *;
    var cases := WriteCases(p, MutationTable(p, section, t), CHECKSUM_AT);
    return cases;
  }
}
