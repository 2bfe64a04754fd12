/** The version-1 AMD64 UNWIND_INFO records that boot code may carry: a validator over
    bytes, and the grammar it recognises. */
module OatUnwindInfo {
  import opened OatBytes
  import opened Options
  import opened Widths

  const NONVOLATILE_GPRS: set<int> := {3, 5, 6, 7, 12, 13, 14, 15}

  /** One unwind operation: its prologue offset, operation code, register or size
      information, and the bytes of its further slots. */
  datatype Op = Op(offset: Byte, code: int, info: int, operand: Bytes)

  datatype Ops = Nil | Cons(first: Op, rest: Ops)

  datatype UnwindInfo = UnwindInfo(prologue: Byte, frameRegister: int, frameOffset: int, ops: Ops)

  const SET_FPREG := 3

  /** How many two-byte slots an operation occupies; 0 when it is not supported. */
  function Slots(code: int, info: int): (n: nat) {
    match code
    case 0 => if info in NONVOLATILE_GPRS then 1 else 0           // push a register
    case 1 => if info == 0 then 2 else if info == 1 then 3 else 0 // large allocation
    case 2 => 1                                                   // small allocation
    case 3 => if info == 0 then 1 else 0                          // set the frame register
    case 4 => if info in NONVOLATILE_GPRS then 2 else 0           // save a register
    case 5 => if info in NONVOLATILE_GPRS then 3 else 0
    case 8 => if 6 <= info < 16 then 2 else 0                     // save an XMM register
    case 9 => if 6 <= info < 16 then 3 else 0
    case 10 => if info <= 1 then 1 else 0                         // push a machine frame
    case _ => 0
  }

  function SlotCount(ops: Ops): (n: nat) {
    if ops.Nil? then 0 else Slots(ops.first.code, ops.first.info) + SlotCount(ops.rest)
  }

  function FrameSets(ops: Ops): (n: nat) {
    if ops.Nil? then 0 else (if ops.first.code == SET_FPREG then 1 else 0) + FrameSets(ops.rest)
  }

  // The grammar

  predicate ValidOp(o: Op) {
    && 0 <= o.code < 16 && 0 <= o.info < 16
    && Slots(o.code, o.info) > 0
    && |o.operand| == 2 * (Slots(o.code, o.info) - 1)
  }

  /** Operations are listed from the end of the prologue back: their non-zero offsets
      strictly decrease, starting below `prev`. */
  predicate ValidOps(ops: Ops, prologue: int, prev: int) {
    ops.Cons? ==>
      && ValidOp(ops.first)
      && 0 < ops.first.offset <= prologue && ops.first.offset < prev
      && ValidOps(ops.rest, prologue, ops.first.offset)
  }

  predicate ValidFrame(register: int, offset: int, sets: int) {
    if register == 0 then offset == 0 && sets == 0
    else register in NONVOLATILE_GPRS && 0 <= offset < 16 && sets == 1
  }

  predicate ValidInfo(u: UnwindInfo) {
    && ValidOps(u.ops, u.prologue, 256)
    && SlotCount(u.ops) < 256
    && ValidFrame(u.frameRegister, u.frameOffset, FrameSets(u.ops))
  }

  /** Two four-bit fields in one byte. */
  function Nibbles(low: int, high: int): (b: Byte)
    requires 0 <= low < 16 && 0 <= high < 16
    ensures b % 16 == low && b / 16 == high
  {
    low + 16 * high
  }

  lemma NibblesBack(b: Byte)
    ensures Nibbles(b % 16, b / 16) == b
  {
  }

  function OpBytes(o: Op): (b: Bytes)
    requires ValidOp(o)
    ensures |b| == 2 * Slots(o.code, o.info)
  {
    [o.offset, Nibbles(o.code, o.info)] + o.operand
  }

  function EncodeOps(ops: Ops, prologue: int, prev: int): (b: Bytes)
    requires ValidOps(ops, prologue, prev)
    ensures |b| == 2 * SlotCount(ops)
  {
    if ops.Nil? then [] else OpBytes(ops.first) + EncodeOps(ops.rest, prologue, ops.first.offset)
  }

  function Zeros(n: nat): (z: Bytes)
    ensures |z| == n && forall k :: 0 <= k < n ==> z[k] == 0
  {
    seq(n, _ => 0)
  }

  function Encode(u: UnwindInfo): Bytes
    requires ValidInfo(u)
  {
    var head: Bytes := [1, u.prologue, SlotCount(u.ops), Nibbles(u.frameRegister, u.frameOffset)];
    head + EncodeOps(u.ops, u.prologue, 256) + Zeros(2 * (SlotCount(u.ops) % 2))
  }

  // The validator

  /** The operations in the first `left` slots of b, each below offset `prev`. */
  function DecodeOps(b: Bytes, left: nat, prologue: int, prev: int): (r: Option<Ops>)
    requires |b| >= 2 * left
    decreases left
  {
    if left == 0 then Some(Nil)
    else
      var offset, code, info := b[0], b[1] % 16, b[1] / 16;
      var n := Slots(code, info);
      if offset == 0 || offset > prologue || offset >= prev || n == 0 || n > left then None
      else
        match DecodeOps(b[2 * n..], left - n, prologue, offset)
        case None => None
        case Some(ops) => Some(Cons(Op(offset, code, info, b[2..2 * n]), ops))
  }

  predicate AllZero(b: Bytes) { forall k :: 0 <= k < |b| ==> b[k] == 0 }

  function Decode(d: Bytes): (r: Option<UnwindInfo>) {
    if |d| < 4 || d[0] != 1 then None
    else
      var slots: int := d[2];
      var size := 4 + 2 * ((slots + 1) / 2 * 2);
      if size > |d| then None
      else
        match DecodeOps(d[4..], slots, d[1], 256)
        case None => None
        case Some(ops) =>
          if AllZero(d[4 + 2 * slots..]) && ValidFrame(d[3] % 16, d[3] / 16, FrameSets(ops))
          then Some(UnwindInfo(d[1], d[3] % 16, d[3] / 16, ops)) else None
  }

  /** The operation switch; 0 where it raises. */
  method OperationSlots(operation: int, info: int) returns (used: nat)
    requires 0 <= operation < 16 && 0 <= info < 16
    ensures used == Slots(operation, info)
  {
    used := 1;
    if operation == 0 {
      if info !in NONVOLATILE_GPRS { return 0; }
    } else if operation == 1 {
      if info > 1 { return 0; }
      used := if info == 0 then 2 else 3;
    } else if operation == 2 {
    } else if operation == 3 {
      if info != 0 { return 0; }
    } else if operation == 4 || operation == 5 {
      if info !in NONVOLATILE_GPRS { return 0; }
      used := if operation == 4 then 2 else 3;
    } else if operation == 8 || operation == 9 {
      if !(6 <= info < 16) { return 0; }
      used := if operation == 8 then 2 else 3;
    } else if operation == 10 {
      if info > 1 { return 0; }
    } else {
      return 0;
    }
  }

  /** What remains to decode from slot number `slot` on. */
  function Remaining(d: Bytes, slotCount: nat, prologueSize: int, slot: nat, previous: int): Option<Ops>
    requires slot <= slotCount && |d| >= 4 + 2 * slotCount
  {
    DecodeOps(d[4 + 2 * slot..], slotCount - slot, prologueSize, previous)
  }

  lemma Advance(d: Bytes, slotCount: nat, prologueSize: int, slot: nat, previous: int)
    requires slot < slotCount && |d| >= 4 + 2 * slotCount
    ensures var offset, code, info := d[4 + slot * 2], d[5 + slot * 2] % 16, d[5 + slot * 2] / 16;
            var n := Slots(code, info);
            var here := Remaining(d, slotCount, prologueSize, slot, previous);
            if offset == 0 || offset > prologueSize || offset >= previous || n == 0 || n > slotCount - slot then
              here == None
            else
              var after := Remaining(d, slotCount, prologueSize, slot + n, offset);
              && here.Some? == after.Some?
              && (here.Some? ==>
                    FrameSets(here.value) == (if code == SET_FPREG then 1 else 0) + FrameSets(after.value))
  {
    var b, left := d[4 + 2 * slot..], slotCount - slot;
    assert b[0] == d[4 + slot * 2] && b[1] == d[5 + slot * 2];
    var n := Slots(b[1] % 16, b[1] / 16);
    if n <= left {
      assert b[2 * n..] == d[4 + 2 * (slot + n)..];
    }
  }

  /** The slot loop; None where it raises, otherwise how often the frame register is set. */
  method ScanSlots(d: Bytes, slotCount: nat, prologueSize: int) returns (sets: Option<nat>)
    requires |d| >= 4 + 2 * slotCount
    ensures var r := DecodeOps(d[4..], slotCount, prologueSize, 256);
            sets == if r.Some? then Some(FrameSets(r.value)) else None
  {
    var slot, previous: int, setFrames := 0, 256, 0;
    ghost var all := Remaining(d, slotCount, prologueSize, 0, 256);
    while slot < slotCount
      invariant 0 <= slot <= slotCount
      invariant var rest := Remaining(d, slotCount, prologueSize, slot, previous);
                all.Some? == rest.Some? && (all.Some? ==> FrameSets(all.value) == setFrames + FrameSets(rest.value))
    {
      Advance(d, slotCount, prologueSize, slot, previous);
      var codeOffset := d[4 + slot * 2];
      var operation, info := d[5 + slot * 2] % 16, d[5 + slot * 2] / 16;
      if codeOffset == 0 || codeOffset > prologueSize || codeOffset >= previous {
        return None;
      }
      var usedSlots := OperationSlots(operation, info);
      if usedSlots == 0 {
        return None;
      }
      if operation == SET_FPREG {
        setFrames := setFrames + 1;
      }
      if usedSlots > slotCount - slot {
        return None;
      }
      previous := codeOffset;
      slot := slot + usedSlots;
    }
    return Some(setFrames);
  }

  /** The whole record; true means no error is raised. */
  method Validate(d: Bytes) returns (ok: bool)
    ensures ok == Decode(d).Some?
  {
    hide DecodeOps, FrameSets, ValidFrame;
    if |d| < 4 || d[0] != 1 {
      return false;
    }
    var prologueSize: int, slotCount: int := d[1], d[2];
    var frameRegister: int, frameOffset: int := d[3] % 16, d[3] / 16;
    var descriptorSize := 4 + (slotCount + 1) / 2 * 2 * 2;
    if descriptorSize > |d| {
      return false;
    }
    var sets := ScanSlots(d, slotCount, prologueSize);
    if sets == None {
      return false;
    }
    var used := 4 + 2 * slotCount;
    if slotCount % 2 == 1 && !(d[used] == 0 && d[used + 1] == 0) {
      assert d[used..][0] == d[used] && d[used..][1] == d[used + 1];
      return false;
    }
    if !ValidFrame(frameRegister, frameOffset, sets.value) {
      return false;
    }
    ok := TrailingZero(d, descriptorSize);
    assert d[used..][descriptorSize - used..] == d[descriptorSize..];
    PaddingZero(d[used..], descriptorSize - used);
  }

  method TrailingZero(d: Bytes, from: nat) returns (ok: bool)
    requires from <= |d|
    ensures ok == AllZero(d[from..])
  {
    for k := from to |d|
      invariant forall j :: from <= j < k ==> d[j] == 0
    {
      if d[k] != 0 {
        assert d[from..][k - from] != 0;
        return false;
      }
    }
    return true;
  }

  lemma PaddingZero(b: Bytes, n: nat)
    requires n <= |b| && forall k :: 0 <= k < n ==> b[k] == 0
    ensures AllZero(b) == AllZero(b[n..])
  {
    if AllZero(b[n..]) {
      forall k | n <= k < |b|
        ensures b[k] == 0
      {
        assert b[k] == b[n..][k - n];
      }
    }
  }

  // Soundness: what is accepted is an encoding

  /** The first operation's bytes, and the slots after it. */
  lemma FirstOp(b: Bytes, n: nat, left: nat)
    requires 0 < n <= left && |b| >= 2 * left
    ensures b[..2 * left] == ([b[0], b[1]] + b[2..2 * n]) + b[2 * n..][..2 * (left - n)]
  {
  }

  lemma {:induction false} OpsSound(b: Bytes, left: nat, prologue: int, prev: int)
    requires |b| >= 2 * left
    requires DecodeOps(b, left, prologue, prev).Some?
    ensures var ops := DecodeOps(b, left, prologue, prev).value;
            && ValidOps(ops, prologue, prev)
            && SlotCount(ops) == left
            && EncodeOps(ops, prologue, prev) == b[..2 * left]
    decreases left
  {
    if left > 0 {
      var n := Slots(b[1] % 16, b[1] / 16);
      OpsSound(b[2 * n..], left - n, prologue, b[0]);
      hide Slots;
      FirstOp(b, n, left);
      NibblesBack(b[1]);
    }
  }

  /** Zero bytes after position k are some padding followed by the rest. */
  lemma ZeroTail(d: Bytes, k: nat, pad: nat)
    requires k + pad <= |d| && AllZero(d[k..])
    ensures d == (d[..k] + Zeros(pad)) + Zeros(|d| - k - pad)
  {
    forall i | k <= i < |d|
      ensures d[i] == 0
    {
      assert d[k..][i - k] == 0;
    }
  }

  lemma Sound(d: Bytes)
    requires Decode(d).Some?
    ensures var u := Decode(d).value;
            ValidInfo(u) && |Encode(u)| <= |d| && d == Encode(u) + Zeros(|d| - |Encode(u)|)
  {
    hide DecodeOps, EncodeOps, ValidOps, ValidFrame, FrameSets;
    var u := Decode(d).value;
    var slots: int := d[2];
    OpsSound(d[4..], slots, d[1], 256);
    NibblesBack(d[3]);
    EvenUp(slots);
    assert d[..4] == [d[0], d[1], d[2], d[3]];
    assert d[..4 + 2 * slots] == d[..4] + d[4..][..2 * slots];
    ZeroTail(d, 4 + 2 * slots, 2 * (slots % 2));
  }

  // Completeness: every encoding is accepted and decoded

  lemma OpBytesBack(o: Op, rest: Bytes)
    requires ValidOp(o)
    ensures var b, n := OpBytes(o) + rest, Slots(o.code, o.info);
            && b[0] == o.offset && b[1] % 16 == o.code && b[1] / 16 == o.info
            && b[2..2 * n] == o.operand && b[2 * n..] == rest
  {
    assert (OpBytes(o) + rest)[1] == Nibbles(o.code, o.info);
  }

  lemma DecodeFirst(o: Op, tail: Bytes, left: nat, prologue: int, prev: int, ops: Ops)
    requires ValidOp(o) && 0 < o.offset <= prologue && o.offset < prev
    requires |tail| >= 2 * left && DecodeOps(tail, left, prologue, o.offset) == Some(ops)
    ensures DecodeOps(OpBytes(o) + tail, Slots(o.code, o.info) + left, prologue, prev) == Some(Cons(o, ops))
  {
    OpBytesBack(o, tail);
  }

  lemma {:induction false} OpsComplete(ops: Ops, prologue: int, prev: int, rest: Bytes)
    requires ValidOps(ops, prologue, prev)
    ensures DecodeOps(EncodeOps(ops, prologue, prev) + rest, SlotCount(ops), prologue, prev) == Some(ops)
  {
    if ops.Cons? {
      var o := ops.first;
      var code := EncodeOps(ops.rest, prologue, o.offset);
      OpsComplete(ops.rest, prologue, o.offset, rest);
      DecodeFirst(o, code + rest, SlotCount(ops.rest), prologue, prev, ops.rest);
      assert (OpBytes(o) + code) + rest == OpBytes(o) + (code + rest);
    }
  }

  lemma HeadAndPad(head: Bytes, body: Bytes, pad: Bytes, d: Bytes)
    requires |head| == 4
    requires d == head + (body + pad)
    ensures d[..4] == head && d[4..] == body + pad && d[4 + |body|..] == pad
    ensures d[0] == head[0] && d[1] == head[1] && d[2] == head[2] && d[3] == head[3]
  {
  }

  lemma Regroup(a: Bytes, b: Bytes, c: Bytes, d: Bytes)
    ensures ((a + b) + c) + d == a + (b + (c + d))
  {
  }

  lemma EvenUp(n: nat)
    ensures (n + 1) / 2 * 2 == n + n % 2
  {
  }

  lemma ZerosOnly(m: nat, n: nat)
    ensures AllZero(Zeros(m) + Zeros(n))
  {
  }

  lemma Complete(u: UnwindInfo, n: nat)
    requires ValidInfo(u)
    ensures Decode(Encode(u) + Zeros(n)) == Some(u)
  {
    hide DecodeOps, EncodeOps, ValidOps, ValidFrame, FrameSets, Decode;
    var slots := SlotCount(u.ops);
    var pad := Zeros(2 * (slots % 2)) + Zeros(n);
    var d, body := Encode(u) + Zeros(n), EncodeOps(u.ops, u.prologue, 256);
    var head: Bytes := [1, u.prologue, slots, Nibbles(u.frameRegister, u.frameOffset)];
    Regroup(head, body, Zeros(2 * (slots % 2)), Zeros(n));
    HeadAndPad(head, body, pad, d);
    OpsComplete(u.ops, u.prologue, 256, pad);
    ZerosOnly(2 * (slots % 2), n);
    EvenUp(slots);
    assert |d| == 4 + 2 * slots + 2 * (slots % 2) + n;
    DecodeParts(d, u);
  }

  /** What `Decode` does once its parts are known. */
  lemma DecodeParts(d: Bytes, u: UnwindInfo)
    requires ValidInfo(u) && |d| >= 4
    requires d[0] == 1 && d[1] == u.prologue && d[2] == SlotCount(u.ops)
    requires d[3] == Nibbles(u.frameRegister, u.frameOffset)
    requires |d| >= 4 + 2 * ((d[2] as int + 1) / 2 * 2)
    requires DecodeOps(d[4..], SlotCount(u.ops), u.prologue, 256) == Some(u.ops)
    requires AllZero(d[4 + 2 * SlotCount(u.ops)..])
    ensures Decode(d) == Some(u)
  {
  }

  /** A byte string is accepted exactly when it is the encoding of a well-formed record
      followed by zeros only, and that record is the only one it can encode. */
  lemma AcceptsExactlyEncodings(d: Bytes)
    ensures Decode(d).Some? <==> exists u, n :: ValidInfo(u) && d == Encode(u) + Zeros(n)
    ensures forall u, n :: ValidInfo(u) && d == Encode(u) + Zeros(n) ==> Decode(d) == Some(u)
  {
    if Decode(d).Some? {
      Sound(d);
      var u := Decode(d).value;
      assert ValidInfo(u) && d == Encode(u) + Zeros(|d| - |Encode(u)|);
    }
    forall u, n | ValidInfo(u) && d == Encode(u) + Zeros(n)
      ensures Decode(d) == Some(u)
    {
      Complete(u, n);
    }
  }
}
