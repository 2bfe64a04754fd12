/** Windows path normalisation: its result, its shape, and its meaning as a stack of names. */
module WinPath {
  import opened Options
  import opened UnitText

  const SLASH: Unit := 47
  const COLON: Unit := 58
  const DOT: Unit := 46

  predicate IsSep(c: Unit) { c == SLASH || c == BACKSLASH }

  /** `isalpha` in the C locale. */
  predicate IsAlpha(c: Unit) { 65 <= c <= 90 || 97 <= c <= 122 }

  datatype Names = Nil | Seg(name: Text, rest: Names)

  const CURRENT: Text := Put(DOT, End)
  const PARENT: Text := Put(DOT, Put(DOT, End))

  // Splitting a path into names

  /** The units up to the first separator, and what is left from there on. */
  function Head(t: Text): Text { if t.End? || IsSep(t.c) then End else Put(t.c, Head(t.rest)) }

  function Beyond(t: Text): (r: Text)
    ensures Length(r) <= Length(t)
    ensures r.Put? ==> IsSep(r.c)
  {
    if t.End? || IsSep(t.c) then t else Beyond(t.rest)
  }

  /** The maximal runs of units that are no separators. */
  function NamesOf(t: Text): Names
    decreases Length(t)
  {
    if t.End? then Nil
    else if IsSep(t.c) then NamesOf(t.rest)
    else Seg(Head(t), NamesOf(Beyond(t)))
  }

  // The root

  datatype Root = Relative | Rooted | Drive(letter: Unit)

  predicate HasDrive(t: Text) { t.Put? && IsAlpha(t.c) && t.rest.Put? && t.rest.c == COLON }

  function RootOf(t: Text): Root {
    if HasDrive(t) then Drive(t.c) else if t.Put? && IsSep(t.c) then Rooted else Relative
  }

  /** The names after the root. */
  function PathNames(t: Text): Names { NamesOf(if HasDrive(t) then t.rest.rest else t) }

  // The stack of names

  const LIMIT := 256

  function Count(ns: Names): nat { if ns.Nil? then 0 else 1 + Count(ns.rest) }

  /** Names pushed so far, last one first. */
  type Stack = Names

  /** One name: `.` does nothing, `..` pops, or is pushed when an unrooted path has nothing to
      pop; None when the stack is full. */
  function Step(stack: Stack, name: Text, unrooted: bool): Option<Stack> {
    if name == CURRENT then Some(stack)
    else if name == PARENT then
      if stack.Seg? then Some(stack.rest) else Some(if unrooted then Seg(PARENT, Nil) else Nil)
    else if Count(stack) >= LIMIT then None
    else Some(Seg(name, stack))
  }

  function Steps(stack: Stack, names: Names, unrooted: bool): Option<Stack>
    decreases names
  {
    if names.Nil? then Some(stack)
    else
      match Step(stack, names.name, unrooted)
      case None => None
      case Some(next) => Steps(next, names.rest, unrooted)
  }

  /** The stack from the bottom up, followed by `tail`. */
  function Upright(stack: Stack, tail: Names): Names {
    if stack.Nil? then tail else Upright(stack.rest, Seg(stack.name, tail))
  }

  // The result

  function Append(t: Text, tail: Text): Text { if t.End? then tail else Put(t.c, Append(t.rest, tail)) }

  function Join(ns: Names): Text {
    if ns.Nil? then End
    else if ns.rest.Nil? then ns.name
    else Append(ns.name, Put(BACKSLASH, Join(ns.rest)))
  }

  /** A result of two units that ends in a colon gets a separator; an empty one is `.`. */
  function Finished(t: Text): Text {
    if t.End? then CURRENT
    else if t.rest.Put? && t.rest.rest.End? && t.rest.c == COLON then Put(t.c, Put(COLON, Put(BACKSLASH, End)))
    else t
  }

  function Rendered(root: Root, ns: Names): Text {
    match root
    case Drive(c) => Put(c, Put(COLON, Put(BACKSLASH, Join(ns))))
    case Rooted => Finished(Put(BACKSLASH, Join(ns)))
    case Relative => Finished(Join(ns))
  }

  /** None when the path has too many names. */
  function Normal(t: Text): Option<Text> {
    if t.End? then Some(End)
    else
      match Steps(Nil, PathNames(t), RootOf(t) == Relative)
      case None => None
      case Some(stack) => Some(Rendered(RootOf(t), Upright(stack, Nil)))
  }

  // Names come back from a joined path

  predicate CleanName(t: Text) { t.Put? && NoSep(t) }

  predicate NoSep(t: Text) { t.Put? ==> !IsSep(t.c) && NoSep(t.rest) }

  predicate Clean(ns: Names) { ns.Seg? ==> CleanName(ns.name) && Clean(ns.rest) }

  lemma {:induction false} HeadBack(name: Text, tail: Text)
    requires NoSep(name) && (tail.Put? ==> IsSep(tail.c))
    ensures Head(Append(name, tail)) == name && Beyond(Append(name, tail)) == tail
  {
    if name.Put? {
      HeadBack(name.rest, tail);
    }
  }

  lemma {:induction false} AppendEnd(t: Text)
    ensures Append(t, End) == t
  {
    if t.Put? {
      AppendEnd(t.rest);
    }
  }

  /** Splitting a joined list of names gives the list back, with or without a separator at
      the end. */
  lemma {:induction false} JoinBack(ns: Names, tail: Text)
    requires Clean(ns) && (tail == End || tail == Put(BACKSLASH, End))
    ensures NamesOf(Append(Join(ns), tail)) == ns
  {
    if ns.Seg? {
      if ns.rest.Nil? {
        HeadBack(ns.name, tail);
      } else {
        JoinBack(ns.rest, tail);
        var more := Put(BACKSLASH, Append(Join(ns.rest), tail));
        AppendTwice(ns.name, Put(BACKSLASH, Join(ns.rest)), tail);
        HeadBack(ns.name, more);
      }
    }
  }

  lemma {:induction false} AppendTwice(a: Text, b: Text, c: Text)
    ensures Append(Append(a, b), c) == Append(a, Append(b, c))
  {
    if a.Put? {
      AppendTwice(a.rest, b, c);
    }
  }

  lemma {:induction false} HeadClean(t: Text)
    ensures NoSep(Head(t))
  {
    if t.Put? && !IsSep(t.c) {
      HeadClean(t.rest);
    }
  }

  lemma {:induction false} NamesClean(t: Text)
    ensures Clean(NamesOf(t))
    decreases Length(t)
  {
    if t.Put? {
      if IsSep(t.c) {
        NamesClean(t.rest);
      } else {
        HeadClean(t);
        NamesClean(Beyond(t));
      }
    }
  }

  // What the stack can hold

  /** Proper names only. */
  predicate Proper(ns: Names) {
    ns.Seg? ==> CleanName(ns.name) && ns.name != CURRENT && ns.name != PARENT && Proper(ns.rest)
  }

  /** Proper names, over at most one `..` at the bottom, which only an unrooted path has. */
  predicate StackOk(stack: Stack, unrooted: bool) {
    stack.Seg? ==>
      || (unrooted && stack == Seg(PARENT, Nil))
      || (CleanName(stack.name) && stack.name != CURRENT && stack.name != PARENT && StackOk(stack.rest, unrooted))
  }

  lemma {:induction false} StepsKeep(stack: Stack, names: Names, unrooted: bool)
    requires StackOk(stack, unrooted) && Clean(names) && Count(stack) <= LIMIT
    ensures var r := Steps(stack, names, unrooted);
            r.Some? ==> StackOk(r.value, unrooted) && Count(r.value) <= LIMIT
    decreases names
  {
    if names.Seg? && Step(stack, names.name, unrooted).Some? {
      StepsKeep(Step(stack, names.name, unrooted).value, names.rest, unrooted);
    }
  }

  /** The normal names of a path: proper names, after at most one `..` if it is unrooted. */
  predicate NormalNames(ns: Names, unrooted: bool) {
    if unrooted && ns.Seg? && ns.name == PARENT then Proper(ns.rest) else Proper(ns)
  }

  lemma {:induction false} UprightNormal(stack: Stack, tail: Names, unrooted: bool)
    requires StackOk(stack, unrooted) && Proper(tail)
    ensures NormalNames(Upright(stack, tail), unrooted)
    ensures Count(Upright(stack, tail)) == Count(stack) + Count(tail)
  {
    if stack.Seg? && stack != Seg(PARENT, Nil) {
      UprightNormal(stack.rest, Seg(stack.name, tail), unrooted);
    }
  }

  lemma {:induction false} ProperClean(ns: Names)
    requires Proper(ns)
    ensures Clean(ns)
  {
    if ns.Seg? {
      ProperClean(ns.rest);
    }
  }

  lemma NormalClean(ns: Names, unrooted: bool)
    requires NormalNames(ns, unrooted)
    ensures Clean(ns)
  {
    ProperClean(if unrooted && ns.Seg? && ns.name == PARENT then ns.rest else ns);
  }

  // Normal names are pushed one by one

  lemma {:induction false} StepsProper(stack: Stack, ns: Names, unrooted: bool)
    requires Proper(ns) && Count(stack) + Count(ns) <= LIMIT
    ensures Steps(stack, ns, unrooted).Some?
    ensures forall tail :: Upright(Steps(stack, ns, unrooted).value, tail) == Upright(stack, Appended(ns, tail))
    decreases ns
  {
    if ns.Seg? {
      StepsProper(Seg(ns.name, stack), ns.rest, unrooted);
    }
  }

  function Appended(ns: Names, tail: Names): Names {
    if ns.Nil? then tail else Seg(ns.name, Appended(ns.rest, tail))
  }

  lemma {:induction false} AppendedNil(ns: Names)
    ensures Appended(ns, Nil) == ns
  {
    if ns.Seg? {
      AppendedNil(ns.rest);
    }
  }

  /** Going over normal names again leaves them as they are. */
  lemma StepsNormal(ns: Names, unrooted: bool)
    requires NormalNames(ns, unrooted) && Count(ns) <= LIMIT
    ensures Steps(Nil, ns, unrooted).Some? && Upright(Steps(Nil, ns, unrooted).value, Nil) == ns
  {
    AppendedNil(ns);
    if unrooted && ns.Seg? && ns.name == PARENT {
      AppendedNil(ns.rest);
      assert Steps(Nil, ns, unrooted) == Steps(Seg(PARENT, Nil), ns.rest, unrooted);
      StepsProper(Seg(PARENT, Nil), ns.rest, unrooted);
      assert Upright(Seg(PARENT, Nil), Appended(ns.rest, Nil)) == Upright(Nil, Seg(PARENT, ns.rest));
    } else {
      StepsProper(Nil, ns, unrooted);
    }
  }

  lemma ResultNames(t: Text) returns (ns: Names)
    requires t.Put? && Normal(t).Some?
    ensures NormalNames(ns, RootOf(t) == Relative) && Count(ns) <= LIMIT
    ensures Normal(t).value == Rendered(RootOf(t), ns)
  {
    var unrooted := RootOf(t) == Relative;
    NamesClean(if HasDrive(t) then t.rest.rest else t);
    StepsKeep(Nil, PathNames(t), unrooted);
    var stack := Steps(Nil, PathNames(t), unrooted).value;
    UprightNormal(stack, Nil, unrooted);
    ns := Upright(stack, Nil);
  }

  // The rendered path, read again

  /** The names of a rendered path without a drive. */
  lemma FinishedNames(t: Text, ns: Names)
    requires Clean(ns) && t.Put?
    requires NamesOf(t) == ns && NamesOf(Append(t, Put(BACKSLASH, End))) == ns
    ensures NamesOf(Finished(t)) == ns
  {
    if Finished(t) != t {
      assert Finished(t) == Append(t, Put(BACKSLASH, End));
    }
  }

  lemma JoinStart(ns: Names)
    requires Clean(ns) && ns.Seg?
    ensures Join(ns).Put? && Join(ns).c == ns.name.c
  {
  }

  lemma RenderedBack(root: Root, ns: Names)
    requires Clean(ns)
    ensures root.Drive? ==> NamesOf(Rendered(root, ns).rest.rest) == ns
    ensures root == Rooted || (root == Relative && ns.Seg?) ==> NamesOf(Rendered(root, ns)) == ns
  {
    AppendEnd(Join(ns));
    JoinBack(ns, End);
    JoinBack(ns, Put(BACKSLASH, End));
    if root == Rooted {
      FinishedNames(Put(BACKSLASH, Join(ns)), ns);
    } else if root == Relative && ns.Seg? {
      JoinStart(ns);
      FinishedNames(Join(ns), ns);
    }
  }

  /** The rendered path of a drive or from the root has that root again. */
  lemma RenderedRoot(root: Root, ns: Names)
    requires root != Relative && (root.Drive? ==> IsAlpha(root.letter))
    ensures RootOf(Rendered(root, ns)) == root
  {
  }

  /** A drive letter and colon not followed by a separator. */
  predicate DriveRelative(t: Text) { HasDrive(t) && !(t.rest.rest.Put? && t.rest.rest.c == BACKSLASH) }

  lemma AgainRooted(root: Root, ns: Names)
    requires root != Relative && (root.Drive? ==> IsAlpha(root.letter))
    requires NormalNames(ns, false) && Count(ns) <= LIMIT
    ensures Normal(Rendered(root, ns)) == Some(Rendered(root, ns))
  {
    RenderedRoot(root, ns);
    NormalClean(ns, false);
    RenderedBack(root, ns);
    StepsNormal(ns, false);
  }

  lemma AgainRelative(ns: Names)
    requires NormalNames(ns, true) && Count(ns) <= LIMIT && !HasDrive(Rendered(Relative, ns))
    ensures Normal(Rendered(Relative, ns)) == Some(Rendered(Relative, ns))
  {
    var n := Rendered(Relative, ns);
    NormalClean(ns, true);
    if ns.Nil? {
      assert Head(CURRENT) == CURRENT && Beyond(CURRENT) == End;
      assert PathNames(CURRENT) == Seg(CURRENT, Nil);
    } else {
      JoinStart(ns);
      assert RootOf(n) == Relative;
      RenderedBack(Relative, ns);
      StepsNormal(ns, true);
    }
  }

  /** A relative result that begins like a drive root is one: its first name was the drive. */
  lemma LikeDrive(ns: Names)
    requires NormalNames(ns, true) && ns.Seg?
    requires var n := Rendered(Relative, ns); HasDrive(n) && !DriveRelative(n)
    ensures var n := Rendered(Relative, ns);
            && ns.name == Put(n.c, Put(COLON, End)) && Proper(ns.rest)
            && n == Rendered(Drive(n.c), ns.rest)
  {
    NormalClean(ns, true);
    JoinStart(ns);
    var n := Rendered(Relative, ns);
    ColonName(ns);
  }

  lemma ColonName(ns: Names)
    requires Clean(ns) && ns.Seg? && HasDrive(Join(ns))
    requires Join(ns).rest.rest.End? || Join(ns).rest.rest.c == BACKSLASH
    ensures ns.name == Put(Join(ns).c, Put(COLON, End))
    ensures Join(ns).rest.rest == if ns.rest.Nil? then End else Put(BACKSLASH, Join(ns.rest))
  {
    var t := ns.name;
    var tail := if ns.rest.Nil? then End else Put(BACKSLASH, Join(ns.rest));
    AppendEnd(t);
    assert Join(ns) == Append(t, tail);
    assert Join(ns).rest == Append(t.rest, tail);
    if t.rest.Put? {
      assert Join(ns).rest.rest == Append(t.rest.rest, tail);
      assert NoSep(t.rest) && NoSep(t.rest.rest);
    }
  }

  /** Normalising a result again changes nothing, unless the result begins with a drive letter
      and colon without a separator after them. */
  lemma AgainExactlyWhen(t: Text)
    requires Normal(t).Some?
    ensures Normal(Normal(t).value) == Normal(t) <==> !DriveRelative(Normal(t).value)
  {
    if t.Put? {
      var n := Normal(t).value;
      var ns := ResultNames(t);
      if RootOf(t) != Relative {
        AgainRooted(RootOf(t), ns);
      } else if !HasDrive(n) {
        AgainRelative(ns);
      } else if !DriveRelative(n) {
        LikeDrive(ns);
        AgainRooted(Drive(n.c), ns.rest);
      } else if Normal(n).Some? {
        var ms := ResultNames(n);
      }
    }
  }

  // Inputs whose only colon is that of a leading drive letter

  predicate NoColon(t: Text) { t.Put? ==> t.c != COLON && NoColon(t.rest) }

  predicate OnlyDriveColon(t: Text) { NoColon(if HasDrive(t) then t.rest.rest else t) }

  predicate NoColons(ns: Names) { ns.Seg? ==> NoColon(ns.name) && NoColons(ns.rest) }

  lemma {:induction false} NamesNoColon(t: Text)
    requires NoColon(t)
    ensures NoColons(NamesOf(t)) && NoColon(Head(t)) && NoColon(Beyond(t))
    decreases Length(t)
  {
    if t.Put? {
      NamesNoColon(t.rest);
      if !IsSep(t.c) && Length(Beyond(t)) < Length(t) {
        NamesNoColon(Beyond(t));
      }
    }
  }

  lemma {:induction false} StepsNoColon(stack: Stack, names: Names, unrooted: bool)
    requires NoColons(stack) && NoColons(names)
    ensures Steps(stack, names, unrooted).Some? ==> NoColons(Steps(stack, names, unrooted).value)
    decreases names
  {
    if names.Seg? && Step(stack, names.name, unrooted).Some? {
      assert NoColon(PARENT);
      StepsNoColon(Step(stack, names.name, unrooted).value, names.rest, unrooted);
    }
  }

  lemma {:induction false} UprightNoColon(stack: Stack, tail: Names)
    requires NoColons(stack) && NoColons(tail)
    ensures NoColons(Upright(stack, tail))
  {
    if stack.Seg? {
      UprightNoColon(stack.rest, Seg(stack.name, tail));
    }
  }

  lemma {:induction false} JoinNoColon(ns: Names)
    requires NoColons(ns)
    ensures NoColon(Join(ns))
  {
    if ns.Seg? {
      JoinNoColon(ns.rest);
      AppendNoColon(ns.name, Put(BACKSLASH, Join(ns.rest)));
    }
  }

  lemma {:induction false} AppendNoColon(a: Text, b: Text)
    requires NoColon(a) && NoColon(b)
    ensures NoColon(Append(a, b))
  {
    if a.Put? {
      AppendNoColon(a.rest, b);
    }
  }

  /** On such inputs normalisation is idempotent. */
  lemma Idempotent(t: Text)
    requires OnlyDriveColon(t) && Normal(t).Some?
    ensures Normal(Normal(t).value) == Normal(t)
  {
    AgainExactlyWhen(t);
    if t.Put? && RootOf(t) == Relative {
      NamesNoColon(t);
      StepsNoColon(Nil, PathNames(t), true);
      var stack := Steps(Nil, PathNames(t), true).value;
      UprightNoColon(stack, Nil);
      JoinNoColon(Upright(stack, Nil));
    }
  }

  /** A relative name that is a drive-relative path once its `.` is gone. */
  lemma ExtraColonBreaks()
    ensures var t := Put(DOT, Put(BACKSLASH, Put(67, Put(COLON, Put(120, End)))));
            && Normal(t) == Some(Put(67, Put(COLON, Put(120, End))))
            && Normal(Normal(t).value) == Some(Put(67, Put(COLON, Put(BACKSLASH, Put(120, End)))))
  {
    var x := Put(120, End);
    var cx := Put(67, Put(COLON, x));
    assert NamesOf(x) == Seg(x, Nil);
    assert Head(cx) == cx && Beyond(cx) == End by {
      assert Head(Put(COLON, x)) == Put(COLON, x);
    }
    assert NamesOf(cx) == Seg(cx, Nil);
    assert Head(Put(DOT, Put(BACKSLASH, cx))) == CURRENT && Beyond(Put(DOT, Put(BACKSLASH, cx))) == Put(BACKSLASH, cx);
    assert NamesOf(Put(DOT, Put(BACKSLASH, cx))) == Seg(CURRENT, Seg(cx, Nil));
    assert Steps(Nil, Seg(CURRENT, Seg(cx, Nil)), true) == Some(Seg(cx, Nil));
  }

  // The meaning: a stack of names over a number of climbs

  datatype Meaning = Meaning(climbs: nat, stack: Stack)

  function MeaningStep(m: Meaning, name: Text, unrooted: bool): Meaning {
    if name == CURRENT then m
    else if name != PARENT then m.(stack := Seg(name, m.stack))
    else if m.stack.Seg? then m.(stack := m.stack.rest)
    else if unrooted then m.(climbs := m.climbs + 1)
    else m
  }

  function MeaningSteps(m: Meaning, names: Names, unrooted: bool): Meaning
    decreases names
  {
    if names.Nil? then m else MeaningSteps(MeaningStep(m, names.name, unrooted), names.rest, unrooted)
  }

  /** A drive letter and colon without a separator: a path relative to the drive's current
      directory. */
  predicate OnDrive(t: Text) { HasDrive(t) && !(t.rest.rest.Put? && IsSep(t.rest.rest.c)) }

  function MeaningOf(t: Text): Meaning {
    MeaningSteps(Meaning(0, Nil), PathNames(t), RootOf(t) == Relative || OnDrive(t))
  }

  function Climb(n: nat, ns: Names): Names { if n == 0 then ns else Seg(PARENT, Climb(n - 1, ns)) }

  /** What a path starts from: the current directory, the root, those of a drive, or the
      network, for a path that begins with two separators. */
  datatype Anchor = Here | Top | DriveHere(letter: Unit) | DriveTop(letter: Unit) | Network

  function AnchorOf(t: Text): Anchor {
    match RootOf(t)
    case Relative => Here
    case Rooted => if t.rest.Put? && IsSep(t.rest.c) then Network else Top
    case Drive(c) => if OnDrive(t) then DriveHere(c) else DriveTop(c)
  }

  /** The path that says what the meaning of t is. */
  function Spelled(t: Text): Text {
    var names := Climb(MeaningOf(t).climbs, Standing(t));
    match AnchorOf(t)
    case DriveHere(c) => Put(c, Put(COLON, Join(names)))
    case Network => Put(BACKSLASH, Put(BACKSLASH, Join(names)))
    case _ => Rendered(RootOf(t), names)
  }

  /** The stack with k climbs at its bottom. */
  function Over(k: nat, stack: Stack): Stack {
    if stack.Seg? then Seg(stack.name, Over(k, stack.rest)) else if k == 1 then Seg(PARENT, Nil) else Nil
  }

  lemma {:induction false} UprightOver(k: nat, stack: Stack, tail: Names)
    requires k <= 1
    ensures Upright(Over(k, stack), tail) == Climb(k, Upright(stack, tail))
  {
    if stack.Seg? {
      UprightOver(k, stack.rest, Seg(stack.name, tail));
    } else if k == 1 {
      assert Climb(1, tail) == Seg(PARENT, Climb(0, tail));
    }
  }

  /** The code keeps the names right, but the climbs only modulo two: a second `..` pops an
      earlier one. */
  lemma {:induction false} StepsMean(m: Meaning, names: Names, unrooted: bool)
    requires Steps(Over(m.climbs % 2, m.stack), names, unrooted).Some?
    requires !unrooted ==> m.climbs == 0
    ensures var r := MeaningSteps(m, names, unrooted);
            && Steps(Over(m.climbs % 2, m.stack), names, unrooted).value == Over(r.climbs % 2, r.stack)
            && (!unrooted ==> r.climbs == 0)
    decreases names
  {
    if names.Seg? {
      StepsMean(MeaningStep(m, names.name, unrooted), names.rest, unrooted);
    }
  }

  lemma {:induction false} CountClimb(n: nat, ns: Names)
    ensures Count(Climb(n, ns)) == n + Count(ns)
  {
    if n > 0 {
      CountClimb(n - 1, ns);
    }
  }

  lemma {:induction false} CleanClimb(n: nat, ns: Names)
    requires Clean(ns)
    ensures Clean(Climb(n, ns))
  {
    if n > 0 {
      CleanClimb(n - 1, ns);
    }
  }

  lemma {:induction false} ProperUpright(stack: Stack, tail: Names)
    requires Proper(stack) && Proper(tail)
    ensures Proper(Upright(stack, tail))
  {
    if stack.Seg? {
      ProperUpright(stack.rest, Seg(stack.name, tail));
    }
  }

  lemma {:induction false} ProperMeaning(m: Meaning, names: Names, unrooted: bool)
    requires Proper(m.stack) && Clean(names)
    ensures Proper(MeaningSteps(m, names, unrooted).stack)
    decreases names
  {
    if names.Seg? {
      ProperMeaning(MeaningStep(m, names.name, unrooted), names.rest, unrooted);
    }
  }

  /** The names that a path leaves standing. */
  function Standing(t: Text): Names { Upright(MeaningOf(t).stack, Nil) }

  lemma StandingProper(t: Text)
    ensures Proper(Standing(t)) && Clean(Standing(t))
  {
    NamesClean(if HasDrive(t) then t.rest.rest else t);
    ProperMeaning(Meaning(0, Nil), PathNames(t), RootOf(t) == Relative || OnDrive(t));
    ProperUpright(MeaningOf(t).stack, Nil);
    ProperClean(Standing(t));
  }

  /** Different numbers of climbs over the same names are different relative paths. */
  lemma ClimbsShow(a: nat, b: nat, ns: Names)
    requires Clean(ns) && b > 1 && a <= 1
    ensures Rendered(Relative, Climb(a, ns)) != Rendered(Relative, Climb(b, ns))
  {
    CleanClimb(a, ns);
    CleanClimb(b, ns);
    CountClimb(a, ns);
    CountClimb(b, ns);
    RenderedBack(Relative, Climb(b, ns));
    if Climb(a, ns).Nil? {
      assert NamesOf(CURRENT) == Seg(CURRENT, Nil) by {
        assert Head(CURRENT) == CURRENT && Beyond(CURRENT) == End;
      }
    } else {
      RenderedBack(Relative, Climb(a, ns));
    }
  }

  /** A result starts from the current directory, a root or a drive's root. */
  lemma RootedAnchor(root: Root, ns: Names)
    requires Clean(ns) && root != Relative && (root.Drive? ==> IsAlpha(root.letter))
    ensures AnchorOf(Rendered(root, ns)) == if root == Rooted then Top else DriveTop(root.letter)
  {
    RenderedRoot(root, ns);
    if ns.Seg? {
      JoinStart(ns);
    }
  }

  lemma SpelledAnchor(t: Text)
    requires AnchorOf(t).DriveHere? || AnchorOf(t).Network?
    ensures AnchorOf(Spelled(t)) == AnchorOf(t)
  {
    var names := Climb(MeaningOf(t).climbs, Standing(t));
    StandingProper(t);
    CleanClimb(MeaningOf(t).climbs, Standing(t));
    if names.Seg? {
      JoinStart(names);
    }
  }

  /** The result spells the path's meaning, clamped at the root, for every path from a root;
      for an unrooted path exactly when it climbs at most one level above its start; and never
      for a path relative to a drive's current directory or into the network. */
  lemma SpelledExactlyWhen(t: Text)
    requires t.Put? && Normal(t).Some?
    ensures Normal(t).value == Spelled(t) <==>
            match AnchorOf(t)
            case DriveHere(_) => false
            case Network => false
            case Here => MeaningOf(t).climbs <= 1
            case _ => true
  {
    var k := MeaningOf(t).climbs;
    StandingProper(t);
    if AnchorOf(t).DriveHere? || AnchorOf(t).Network? {
      var ns := ResultNames(t);
      NormalClean(ns, false);
      RootedAnchor(RootOf(t), ns);
      SpelledAnchor(t);
    } else if RootOf(t) != Relative {
      RootedNormal(t);
    } else {
      RelativeNormal(t);
      if k > 1 {
        ClimbsShow(k % 2, k, Standing(t));
      }
    }
  }

  /** A path from a root never climbs, and its result has the names left standing. */
  lemma RootedNormal(t: Text)
    requires RootOf(t) != Relative && !OnDrive(t) && Normal(t).Some?
    ensures MeaningOf(t).climbs == 0 && Normal(t).value == Rendered(RootOf(t), Standing(t))
  {
    StepsMean(Meaning(0, Nil), PathNames(t), false);
    UprightOver(0, MeaningOf(t).stack, Nil);
  }

  /** An unrooted path's result: at most one climb, then the names left standing. */
  lemma RelativeNormal(t: Text)
    requires t.Put? && RootOf(t) == Relative && Normal(t).Some?
    ensures Normal(t).value == Rendered(Relative, Climb(MeaningOf(t).climbs % 2, Standing(t)))
  {
    StepsMean(Meaning(0, Nil), PathNames(t), true);
    UprightOver(MeaningOf(t).climbs % 2, MeaningOf(t).stack, Nil);
  }

  // The place a path denotes, and whether its normal form denotes it too

  datatype Place = Place(anchor: Anchor, climbs: nat, names: Names)

  function PlaceOf(t: Text): Place { Place(AnchorOf(t), MeaningOf(t).climbs, Standing(t)) }

  lemma {:induction false} MeaningProper(m: Meaning, ns: Names, unrooted: bool)
    requires Proper(ns)
    ensures var r := MeaningSteps(m, ns, unrooted);
            r.climbs == m.climbs && forall tail :: Upright(r.stack, tail) == Upright(m.stack, Appended(ns, tail))
    decreases ns
  {
    if ns.Seg? {
      MeaningProper(m.(stack := Seg(ns.name, m.stack)), ns.rest, unrooted);
    }
  }

  /** The place that a rendered path from a root denotes. */
  lemma RootedPlace(root: Root, ns: Names)
    requires Proper(ns) && root != Relative && (root.Drive? ==> IsAlpha(root.letter))
    ensures PlaceOf(Rendered(root, ns)) == Place(if root == Rooted then Top else DriveTop(root.letter), 0, ns)
  {
    ProperClean(ns);
    RootedAnchor(root, ns);
    RenderedBack(root, ns);
    MeaningProper(Meaning(0, Nil), ns, false);
    AppendedNil(ns);
  }

  lemma ClimbedPlace(t: Text, k: nat, ns: Names)
    requires k <= 1 && Proper(ns) && RootOf(t) == Relative && NamesOf(t) == Climb(k, ns)
    ensures PlaceOf(t) == Place(Here, k, ns)
  {
    MeaningProper(Meaning(k, Nil), ns, true);
    AppendedNil(ns);
    if k == 1 {
      assert Climb(1, ns) == Seg(PARENT, Climb(0, ns));
    }
  }

  /** Whether a joined path begins like a drive, its first name tells. */
  lemma JoinDrive(ns: Names)
    requires Clean(ns) && ns.Seg?
    ensures HasDrive(Finished(Join(ns))) <==> HasDrive(ns.name)
    ensures DriveRelative(Finished(Join(ns))) <==> HasDrive(ns.name) && ns.name.rest.rest.Put?
  {
    var t, tail := ns.name, if ns.rest.Nil? then End else Put(BACKSLASH, Join(ns.rest));
    AppendEnd(t);
    assert Join(ns) == Append(t, tail);
    if t.rest.Put? {
      assert Join(ns).rest == Append(t.rest, tail) && Join(ns).rest.rest == Append(t.rest.rest, tail);
      assert NoSep(t.rest) && NoSep(t.rest.rest);
    }
  }

  /** The place that a rendered unrooted path denotes: the one it was rendered for, unless its
      first name reads as a drive. */
  lemma RelativePlace(k: nat, ns: Names)
    requires k <= 1 && Proper(ns)
    ensures var n := Rendered(Relative, Climb(k, ns));
            if k == 0 && ns.Seg? && HasDrive(ns.name) then AnchorOf(n) != Here else PlaceOf(n) == Place(Here, k, ns)
  {
    var n, all := Rendered(Relative, Climb(k, ns)), Climb(k, ns);
    ProperClean(ns);
    CleanClimb(k, ns);
    if all.Nil? {
      assert Head(CURRENT) == CURRENT && Beyond(CURRENT) == End;
      assert PathNames(CURRENT) == Seg(CURRENT, Nil);
    } else {
      assert k == 1 ==> all == Seg(PARENT, Climb(0, ns));
      JoinStart(all);
      JoinDrive(all);
      RenderedBack(Relative, all);
      if !HasDrive(n) {
        ClimbedPlace(n, k, ns);
      }
    }
  }

  /** Normalising keeps the place that a path denotes exactly unless the path is relative to a
      drive's current directory, leads into the network, or is unrooted and either climbs more
      than one level or brings a name that reads as a drive to the front. */
  lemma MeansExactlyWhen(t: Text)
    requires t.Put? && Normal(t).Some?
    ensures PlaceOf(Normal(t).value) == PlaceOf(t) <==>
            match AnchorOf(t)
            case DriveHere(_) => false
            case Network => false
            case Here => MeaningOf(t).climbs == 1 ||
                         (MeaningOf(t).climbs == 0 && !(Standing(t).Seg? && HasDrive(Standing(t).name)))
            case _ => true
  {
    StandingProper(t);
    if RootOf(t) == Relative {
      RelativeNormal(t);
      RelativePlace(MeaningOf(t).climbs % 2, Standing(t));
    } else if AnchorOf(t).DriveHere? || AnchorOf(t).Network? {
      var ns := ResultNames(t);
      NormalClean(ns, false);
      RootedAnchor(RootOf(t), ns);
    } else {
      RootedNormal(t);
      RootedPlace(RootOf(t), Standing(t));
    }
  }

  /** A path relative to the current directory of drive C becomes one from its root: `C:x` is
      taken for `C:\x`. */
  lemma DriveBecomesRoot()
    ensures var t, x := Put(67, Put(COLON, Put(120, End))), Put(120, End);
            && Normal(t) == Some(Put(67, Put(COLON, Put(BACKSLASH, x))))
            && PlaceOf(t) == Place(DriveHere(67), 0, Seg(x, Nil))
            && PlaceOf(Normal(t).value) == Place(DriveTop(67), 0, Seg(x, Nil))
  {
    var x := Put(120, End);
    assert Head(x) == x && NamesOf(x) == Seg(x, Nil);
    assert NamesOf(Put(BACKSLASH, x)) == Seg(x, Nil);
  }

  /** The first separator of a network path is dropped: `\\x` is taken for `\x`. */
  lemma NetworkBecomesRoot()
    ensures var t, x := Put(BACKSLASH, Put(BACKSLASH, Put(120, End))), Put(120, End);
            && Normal(t) == Some(Put(BACKSLASH, x))
            && PlaceOf(t) == Place(Network, 0, Seg(x, Nil))
            && PlaceOf(Normal(t).value) == Place(Top, 0, Seg(x, Nil))
  {
    var x := Put(120, End);
    assert Head(x) == x && NamesOf(x) == Seg(x, Nil);
    assert NamesOf(Put(BACKSLASH, x)) == Seg(x, Nil);
  }

  /** The second `..` of an unrooted path takes back the first. */
  lemma SecondClimbLost()
    ensures var t := Put(DOT, Put(DOT, Put(BACKSLASH, Put(DOT, Put(DOT, Put(BACKSLASH, Put(120, End)))))));
            && Normal(t) == Some(Put(120, End))
            && MeaningOf(t) == Meaning(2, Seg(Put(120, End), Nil))
            && PlaceOf(Normal(t).value) == Place(Here, 0, Seg(Put(120, End), Nil))
  {
    var x := Put(120, End);
    var upX := Put(DOT, Put(DOT, Put(BACKSLASH, x)));
    assert Head(x) == x && NamesOf(x) == Seg(x, Nil);
    TakesParent(x);
    TakesParent(upX);
    assert Steps(Nil, Seg(PARENT, Seg(PARENT, Seg(x, Nil))), true) == Steps(Nil, Seg(x, Nil), true);
  }

  lemma TakesParent(t: Text)
    ensures NamesOf(Put(DOT, Put(DOT, Put(BACKSLASH, t)))) == Seg(PARENT, NamesOf(t))
  {
    var tail := Put(BACKSLASH, t);
    assert Append(PARENT, tail) == Put(DOT, Append(Put(DOT, End), tail)) == Put(DOT, Put(DOT, tail));
    HeadBack(PARENT, tail);
  }

  // Normalising twice

  /** The first name that a path leaves standing is a drive letter, a colon and something
      more, and every `..` above the start is taken back by another one. */
  predicate SurfacesDrive(t: Text) {
    var names := Standing(t);
    && RootOf(t) == Relative && MeaningOf(t).climbs % 2 == 0
    && names.Seg? && HasDrive(names.name) && names.name.rest.rest.Put?
  }

  /** Normalising twice is normalising once, exactly unless the path brings a name that looks
      like a drive with more after it to the front. */
  lemma IdempotentExactlyWhen(t: Text)
    requires Normal(t).Some?
    ensures Normal(Normal(t).value) == Normal(t) <==> !SurfacesDrive(t)
  {
    AgainExactlyWhen(t);
    if t.Put? && RootOf(t) == Relative {
      StandingProper(t);
      RelativeNormal(t);
      if MeaningOf(t).climbs % 2 == 1 {
        assert Climb(1, Standing(t)) == Seg(PARENT, Climb(0, Standing(t)));
        JoinDrive(Climb(1, Standing(t)));
      } else if Standing(t).Seg? {
        JoinDrive(Standing(t));
      }
    }
  }

  // The shape of a result

  predicate NoSlash(t: Text) { t.Put? ==> t.c != SLASH && NoSlash(t.rest) }

  /** No two separators stand side by side: there is no empty segment. */
  predicate NoEmptySegment(t: Text) {
    t.Put? ==> !(t.c == BACKSLASH && t.rest.Put? && t.rest.c == BACKSLASH) && NoEmptySegment(t.rest)
  }

  lemma {:induction false} CleanNameShape(name: Text, tail: Text)
    requires NoSep(name) && NoSlash(tail) && NoEmptySegment(tail)
    ensures NoSlash(Append(name, tail)) && NoEmptySegment(Append(name, tail))
  {
    if name.Put? {
      CleanNameShape(name.rest, tail);
    }
  }

  lemma {:induction false} JoinShape(ns: Names)
    requires Clean(ns)
    ensures NoSlash(Join(ns)) && NoEmptySegment(Join(ns)) && (Join(ns).Put? ==> Join(ns).c != BACKSLASH)
  {
    if ns.Seg? {
      JoinShape(ns.rest);
      AppendEnd(ns.name);
      CleanNameShape(ns.name, if ns.rest.Nil? then End else Put(BACKSLASH, Join(ns.rest)));
    }
  }

  /** A result is `.`, or has no `/`, no empty segment, no `.` segment, and `..` only as the
      first segment of an unrooted path. */
  lemma ResultShape(t: Text) returns (ns: Names)
    requires t.Put? && Normal(t).Some?
    ensures NoSlash(Normal(t).value) && NoEmptySegment(Normal(t).value)
    ensures NormalNames(ns, RootOf(t) == Relative)
    ensures Normal(t).value == CURRENT
         || NamesOf(if RootOf(t).Drive? then Normal(t).value.rest.rest else Normal(t).value) == ns
  {
    ns := ResultNames(t);
    NormalClean(ns, RootOf(t) == Relative);
    JoinShape(ns);
    RenderedBack(RootOf(t), ns);
  }

  // When a path has too many names

  /** Going over the names, a proper one comes while 256 names stand, an odd number of climbs
      counting as one name. */
  predicate Overflows(m: Meaning, names: Names, unrooted: bool)
    decreases names
  {
    && names.Seg?
    && (|| (names.name != CURRENT && names.name != PARENT && Count(m.stack) + m.climbs % 2 >= 256)
        || Overflows(MeaningStep(m, names.name, unrooted), names.rest, unrooted))
  }

  lemma {:induction false} CountOver(k: nat, stack: Stack)
    requires k <= 1
    ensures Count(Over(k, stack)) == Count(stack) + k
  {
    if stack.Seg? {
      CountOver(k, stack.rest);
    }
  }

  lemma {:induction false} StepsFail(m: Meaning, names: Names, unrooted: bool)
    requires !unrooted ==> m.climbs == 0
    ensures Steps(Over(m.climbs % 2, m.stack), names, unrooted) == None <==> Overflows(m, names, unrooted)
    decreases names
  {
    CountOver(m.climbs % 2, m.stack);
    if names.Seg? {
      StepsFail(MeaningStep(m, names.name, unrooted), names.rest, unrooted);
    }
  }

  /** Normalisation fails exactly on such paths. */
  lemma FailsExactlyWhen(t: Text)
    ensures Normal(t) == None <==> t.Put? && Overflows(Meaning(0, Nil), PathNames(t), RootOf(t) == Relative)
  {
    StepsFail(Meaning(0, Nil), PathNames(t), RootOf(t) == Relative);
  }

  lemma {:induction false} FewNamesFit(m: Meaning, names: Names, unrooted: bool)
    requires Count(m.stack) + m.climbs % 2 + Count(names) <= 256
    ensures !Overflows(m, names, unrooted)
    decreases names
  {
    if names.Seg? {
      FewNamesFit(MeaningStep(m, names.name, unrooted), names.rest, unrooted);
    }
  }

  /** A path of at most 256 names never fails. */
  lemma ShortPathsFit(t: Text)
    requires Count(PathNames(t)) <= 256
    ensures Normal(t).Some?
  {
    FailsExactlyWhen(t);
    FewNamesFit(Meaning(0, Nil), PathNames(t), RootOf(t) == Relative);
  }

  /** The characters that the units stand for. */
  lemma UnitsAreCharacters(c: char)
    requires c as int != 0 && c as int < 0x1_0000
    ensures SLASH == '/' as int && BACKSLASH == '\\' as int && COLON == ':' as int && DOT == '.' as int
    ensures IsAlpha(c as int) <==> 'a' <= c <= 'z' || 'A' <= c <= 'Z'
    ensures IsSep(c as int) <==> c == '/' || c == '\\'
  {
  }
}
