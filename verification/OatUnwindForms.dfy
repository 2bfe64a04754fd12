/** The documented operations of AMD64 UNWIND_INFO that boot code may use, written out byte by
    byte, and the validator's agreement with them. */
module OatUnwindForms {
  import opened OatBytes
  import opened OatUnwindInfo
  import opened Options
  import opened Widths

  datatype Form =
    | PushNonvolatile(reg: int)
    | AllocLarge(eighths: Bytes)
    | AllocHuge(size: Bytes)
    | AllocSmall(info: int)
    | SetFrame
    | SaveNonvolatile(reg: int, at: Bytes)
    | SaveNonvolatileFar(reg: int, at: Bytes)
    | SaveXmm(reg: int, at: Bytes)
    | SaveXmmFar(reg: int, at: Bytes)
    | PushMachineFrame(errorCode: bool)

  /** RBX, RBP, RSI, RDI and R12 to R15. */
  predicate Nonvolatile(reg: int) { reg == 3 || reg == 5 || reg == 6 || reg == 7 || 12 <= reg <= 15 }

  predicate Documented(f: Form) {
    match f
    case PushNonvolatile(reg) => Nonvolatile(reg)
    case AllocLarge(eighths) => |eighths| == 2
    case AllocHuge(size) => |size| == 4
    case AllocSmall(info) => 0 <= info < 16
    case SetFrame => true
    case SaveNonvolatile(reg, at) => Nonvolatile(reg) && |at| == 2
    case SaveNonvolatileFar(reg, at) => Nonvolatile(reg) && |at| == 4
    case SaveXmm(reg, at) => 6 <= reg <= 15 && |at| == 2
    case SaveXmmFar(reg, at) => 6 <= reg <= 15 && |at| == 4
    case PushMachineFrame(_) => true
  }

  /** The operation's bytes: its prologue offset, four bits of code under four bits of
      information, and its operand. */
  function Written(offset: Byte, f: Form): Bytes
    requires Documented(f)
  {
    match f
    case PushNonvolatile(reg) => [offset, 16 * reg]
    case AllocLarge(eighths) => [offset, 0x01] + eighths
    case AllocHuge(size) => [offset, 0x11] + size
    case AllocSmall(info) => [offset, 16 * info + 2]
    case SetFrame => [offset, 0x03]
    case SaveNonvolatile(reg, at) => [offset, 16 * reg + 4] + at
    case SaveNonvolatileFar(reg, at) => [offset, 16 * reg + 5] + at
    case SaveXmm(reg, at) => [offset, 16 * reg + 8] + at
    case SaveXmmFar(reg, at) => [offset, 16 * reg + 9] + at
    case PushMachineFrame(errorCode) => [offset, if errorCode then 0x1a else 0x0a]
  }

  datatype Steps = Done | Step(offset: Byte, form: Form, rest: Steps)

  /** Documented operations at non-zero offsets that strictly fall, none beyond the prologue. */
  predicate Descending(steps: Steps, prologue: int, below: int) {
    steps.Step? ==>
      Documented(steps.form) && 0 < steps.offset <= prologue && steps.offset < below
      && Descending(steps.rest, prologue, steps.offset)
  }

  function Body(steps: Steps, prologue: int, below: int): Bytes
    requires Descending(steps, prologue, below)
  {
    if steps.Done? then [] else Written(steps.offset, steps.form) + Body(steps.rest, prologue, steps.offset)
  }

  function FrameSettings(steps: Steps): nat {
    if steps.Done? then 0 else (if steps.form == SetFrame then 1 else 0) + FrameSettings(steps.rest)
  }

  datatype Record = Record(prologue: Byte, frameRegister: int, frameOffset: int, steps: Steps)

  predicate WellFormed(r: Record) {
    && Descending(r.steps, r.prologue, 256)
    && |Body(r.steps, r.prologue, 256)| < 512
    && if r.frameRegister == 0 then r.frameOffset == 0 && FrameSettings(r.steps) == 0
       else Nonvolatile(r.frameRegister) && 0 <= r.frameOffset < 16 && FrameSettings(r.steps) == 1
  }

  /** Version 1, the prologue's size, the number of two-byte slots, the frame register under its
      scaled offset, the operations, and padding to a multiple of four bytes. */
  function RecordBytes(r: Record): Bytes
    requires WellFormed(r)
  {
    var body := Body(r.steps, r.prologue, 256);
    var head: Bytes := [1, r.prologue, |body| / 2, r.frameRegister + 16 * r.frameOffset];
    head + body + if |body| % 4 == 0 then [] else [0, 0]
  }

  // From the documented operations to the decoder's

  function OpOf(offset: Byte, f: Form): Op {
    match f
    case PushNonvolatile(reg) => Op(offset, 0, reg, [])
    case AllocLarge(eighths) => Op(offset, 1, 0, eighths)
    case AllocHuge(size) => Op(offset, 1, 1, size)
    case AllocSmall(info) => Op(offset, 2, info, [])
    case SetFrame => Op(offset, 3, 0, [])
    case SaveNonvolatile(reg, at) => Op(offset, 4, reg, at)
    case SaveNonvolatileFar(reg, at) => Op(offset, 5, reg, at)
    case SaveXmm(reg, at) => Op(offset, 8, reg, at)
    case SaveXmmFar(reg, at) => Op(offset, 9, reg, at)
    case PushMachineFrame(errorCode) => Op(offset, 10, if errorCode then 1 else 0, [])
  }

  lemma OpOfValid(offset: Byte, f: Form)
    requires Documented(f)
    ensures ValidOp(OpOf(offset, f)) && OpBytes(OpOf(offset, f)) == Written(offset, f)
    ensures OpOf(offset, f).code == 3 <==> f == SetFrame
  {
    assert [offset, 16 * 0 + 3] + [] == [offset, 3];
  }

  function FormOf(o: Op): Form {
    match o.code
    case 0 => PushNonvolatile(o.info)
    case 1 => if o.info == 0 then AllocLarge(o.operand) else AllocHuge(o.operand)
    case 2 => AllocSmall(o.info)
    case 3 => SetFrame
    case 4 => SaveNonvolatile(o.info, o.operand)
    case 5 => SaveNonvolatileFar(o.info, o.operand)
    case 8 => SaveXmm(o.info, o.operand)
    case 9 => SaveXmmFar(o.info, o.operand)
    case _ => PushMachineFrame(o.info == 1)
  }

  lemma FormOfBack(o: Op)
    requires ValidOp(o)
    ensures Documented(FormOf(o)) && OpOf(o.offset, FormOf(o)) == o
  {
  }

  function OpsOf(steps: Steps): Ops {
    if steps.Done? then Nil else Cons(OpOf(steps.offset, steps.form), OpsOf(steps.rest))
  }

  function StepsOf(ops: Ops): Steps {
    if ops.Nil? then Done else Step(ops.first.offset, FormOf(ops.first), StepsOf(ops.rest))
  }

  lemma {:induction false} OpsOfValid(steps: Steps, prologue: int, below: int)
    requires Descending(steps, prologue, below)
    ensures ValidOps(OpsOf(steps), prologue, below)
    ensures EncodeOps(OpsOf(steps), prologue, below) == Body(steps, prologue, below)
    ensures FrameSets(OpsOf(steps)) == FrameSettings(steps)
  {
    if steps.Step? {
      OpOfValid(steps.offset, steps.form);
      OpsOfValid(steps.rest, prologue, steps.offset);
    }
  }

  lemma {:induction false} StepsOfBack(ops: Ops, prologue: int, below: int)
    requires ValidOps(ops, prologue, below)
    ensures Descending(StepsOf(ops), prologue, below) && OpsOf(StepsOf(ops)) == ops
  {
    if ops.Cons? {
      FormOfBack(ops.first);
      StepsOfBack(ops.rest, prologue, ops.first.offset);
    }
  }

  function InfoOf(r: Record): UnwindInfo { UnwindInfo(r.prologue, r.frameRegister, r.frameOffset, OpsOf(r.steps)) }

  lemma InfoOfValid(r: Record)
    requires WellFormed(r)
    ensures ValidInfo(InfoOf(r)) && Encode(InfoOf(r)) == RecordBytes(r)
  {
    hide EncodeOps, Body;
    OpsOfValid(r.steps, r.prologue, 256);
    var slots, body := SlotCount(OpsOf(r.steps)), Body(r.steps, r.prologue, 256);
    assert |body| == 2 * slots;
    assert Zeros(2 * (slots % 2)) == if |body| % 4 == 0 then [] else [0, 0];
  }

  lemma RecordOf(u: UnwindInfo) returns (r: Record)
    requires ValidInfo(u)
    ensures WellFormed(r) && InfoOf(r) == u
  {
    StepsOfBack(u.ops, u.prologue, 256);
    r := Record(u.prologue, u.frameRegister, u.frameOffset, StepsOf(u.ops));
    OpsOfValid(r.steps, r.prologue, 256);
  }

  /** A byte string is accepted exactly when it is a documented record and zeros. */
  lemma AcceptsExactlyDocumented(d: Bytes)
    ensures Decode(d).Some? <==> exists r, n :: WellFormed(r) && d == RecordBytes(r) + Zeros(n)
  {
    hide Decode, ValidInfo, WellFormed;
    AcceptsExactlyEncodings(d);
    if Decode(d).Some? {
      var u, n :| ValidInfo(u) && d == Encode(u) + Zeros(n);
      var r := RecordOf(u);
      InfoOfValid(r);
      assert d == RecordBytes(r) + Zeros(n);
    }
    forall r, n | WellFormed(r) && d == RecordBytes(r) + Zeros(n)
      ensures Decode(d).Some?
    {
      InfoOfValid(r);
      assert ValidInfo(InfoOf(r)) && d == Encode(InfoOf(r)) + Zeros(n);
    }
  }

  /** What a documented record decodes to. */
  lemma DecodesDocumented(r: Record, n: nat)
    requires WellFormed(r)
    ensures Decode(RecordBytes(r) + Zeros(n)) == Some(InfoOf(r))
  {
    InfoOfValid(r);
    Complete(InfoOf(r), n);
  }
}
