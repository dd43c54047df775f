/** The other instructions of as68 (as68/opcode.c:588-1665): the opcodes and extension words that its
    functions generate, and what desa68 lists for them. */
module Instructions {
  import opened Options
  import opened BitStacks
  import opened Powers
  import opened Assembly
  import opened MoveCoding
  import D = Disassembly
  import L = OpcodeLines

  datatype Alu = AluOr | AluSub | AluCmp | AluEor | AluAnd | AluAdd

  /** Which instruction it is. Condition codes, kinds of shifts and of bit operations are numbers as in
      the opcode; `n` is a register. */
  datatype Op =
    // One operand.
    | Clear | Negate | NegateX | Complement | Test | NegateBcd | TestAndSet | SetIf(cond: nat)
    | Jump | Call | PushAddress | LoadAddress(n: nat) | Check(n: nat) | Multiply(signed: bool, n: nat)
    | Divide(signed: bool, n: nat)
    | FromSr | FromCcr | ToSr | ToCcr
    | ShiftMemory(kind: nat, left: bool)
    | ToData(alu: Alu, n: nat) | ToAddress(alu: Alu, n: nat) | FromData(alu: Alu, n: nat) | BitBy(kind: nat, n: nat)
    // An immediate, and perhaps an operand.
    | ImmediateTo(alu: Alu) | BitAt(kind: nat) | ToStatus(alu: Alu, sr: bool) | Link(n: nat) | Stop
    // MOVEM and MOVEP.
    | LoadMany(long: bool) | StoreMany(long: bool) | LoadApart(n: nat, long: bool) | StoreApart(n: nat, long: bool)
    // Registers alone.
    | AddX(memory: bool, x: nat, y: nat) | SubX(memory: bool, x: nat, y: nat)
    | AddBcd(memory: bool, x: nat, y: nat) | SubBcd(memory: bool, x: nat, y: nat) | CompareMemory(x: nat, y: nat)
    | ExchangeData(x: nat, y: nat) | ExchangeAddress(x: nat, y: nat) | ExchangeBoth(x: nat, y: nat)
    | Extend(n: nat) | Swap(n: nat)
    | ShiftBy(kind: nat, left: bool, count: int, n: nat) | ShiftByRegister(kind: nat, left: bool, x: nat, n: nat)
    | Trap(v: int) | Unlink(n: nat) | ToUsp(n: nat) | FromUsp(n: nat)
    | Reset | NoOperation | ReturnException | ReturnSubroutine | TrapOverflow | ReturnRestore | Illegal

  // ---- What as68 accepts.

  /** A flag of what op() returns. */
  predicate Has(o: Operand, flag: nat)
    requires Writable(o) && flag > 0
  {
    OpMode(o) / flag % 2 == 1
  }

  predicate Changeable(o: Operand)
    requires Writable(o)
  {
    Has(o, ALTERABLE) && Has(o, DATA)
  }

  /** An operand that is not there. */
  const NONE := D.DataReg(0)

  /** Whether there are operands: one, an immediate, or both. */
  predicate OneOperand(op: Op) {
    op.Clear? || op.Negate? || op.NegateX? || op.Complement? || op.Test? || op.NegateBcd? || op.TestAndSet?
    || op.SetIf? || op.Jump? || op.Call? || op.PushAddress? || op.LoadAddress? || op.Check? || op.Multiply?
    || op.Divide? || op.FromSr? || op.FromCcr? || op.ToSr? || op.ToCcr? || op.ShiftMemory? || op.ToData?
    || op.ToAddress? || op.FromData? || op.BitBy? || op.ToStatus? || op.LoadApart? || op.StoreApart?
  }

  predicate ImmediateOnly(op: Op) { op.Link? || op.Stop? }

  predicate TwoOperands(op: Op) { op.ImmediateTo? || op.BitAt? || op.LoadMany? || op.StoreMany? }

  /** `src` is the operand, or the immediate or mask before the operand `dst`; `t` is the size. */
  predicate Takes(op: Op, t: nat, src: Operand, dst: Operand) {
    && Writable(src) && Writable(dst) && t <= D.SZ_LONG
    && (OneOperand(op) || ImmediateOnly(op) ==> dst == NONE)
    && (TwoOperands(op) || ImmediateOnly(op) ==> src.Imm?)
    && (!OneOperand(op) && !ImmediateOnly(op) && !TwoOperands(op) ==> src == dst == NONE)
    && match op
       case Clear | Negate | NegateX | Complement | Test => Changeable(src)
       case NegateBcd | TestAndSet => t == D.SZ_BYTE && Changeable(src)
       case SetIf(cond) => cond < 16 && t == D.SZ_BYTE && Changeable(src)
       case Jump | Call => t == D.SZ_WORD && Has(src, CONTROL)
       case PushAddress => t == D.SZ_LONG && Has(src, CONTROL)
       case LoadAddress(n) => n < 8 && t == D.SZ_WORD && Has(src, CONTROL)
       case Check(n) => n < 8 && t == D.SZ_WORD && Has(src, DATA)
       case Multiply(_, n) => n < 8 && t == D.SZ_WORD && Has(src, DATA)
       case Divide(_, n) => n < 8 && t == D.SZ_WORD && Has(src, DATA)
       case FromSr | ToSr => t == D.SZ_WORD
       case FromCcr | ToCcr => t <= D.SZ_WORD
       case ShiftMemory(kind, _) => kind < 4 && t <= D.SZ_WORD && Has(src, ALTERABLE) && Has(src, MEMORY)
       case ToData(alu, n) => n < 8 && alu != AluEor && (src.Imm? ==> alu == AluCmp)
       case ToAddress(alu, n) => n < 8 && t >= D.SZ_WORD && alu in {AluSub, AluCmp, AluAdd}
       case FromData(alu, n) =>
         n < 8 && (if alu in {AluSub, AluAdd} then Has(src, ALTERABLE) && !src.DataReg? && !src.AddrReg?
                   else if alu == AluEor then Changeable(src)
                   else alu != AluCmp && Changeable(src) && !src.DataReg?)
       case BitBy(kind, n) =>
         kind < 4 && n < 8 && t == D.SZ_BYTE && Has(src, DATA) && (kind > 0 ==> Has(src, ALTERABLE))
       case ImmediateTo(_) => Changeable(dst)
       case BitAt(kind) => kind < 4 && t == D.SZ_BYTE && Has(dst, DATA) && (kind > 0 ==> Has(dst, ALTERABLE))
       case ToStatus(alu, sr) => alu in {AluOr, AluEor, AluAnd} && t <= D.SZ_WORD && (sr ==> t == D.SZ_WORD)
       case Link(n) => n < 8 && t == D.SZ_WORD
       case Stop => t == D.SZ_WORD
       case StoreMany(_) =>
         t == D.SZ_WORD && !dst.PostInc? && ((Has(dst, CONTROL) && Has(dst, ALTERABLE)) || dst.PreDec?)
       case LoadMany(_) => t == D.SZ_WORD && !dst.PreDec? && (Has(dst, CONTROL) || dst.PostInc?)
       case LoadApart(n, _) => n < 8 && t == D.SZ_WORD && src.Disp?
       case StoreApart(n, _) => n < 8 && t == D.SZ_WORD && src.Disp?
       case AddX(_, x, y) => x < 8 && y < 8
       case SubX(_, x, y) => x < 8 && y < 8
       case AddBcd(_, x, y) => x < 8 && y < 8 && t == D.SZ_BYTE
       case SubBcd(_, x, y) => x < 8 && y < 8 && t == D.SZ_BYTE
       case CompareMemory(x, y) => x < 8 && y < 8
       case ExchangeData(x, y) => x < 8 && y < 8 && t == D.SZ_LONG
       case ExchangeAddress(x, y) => x < 8 && y < 8 && t == D.SZ_LONG
       case ExchangeBoth(x, y) => x < 8 && y < 8 && t == D.SZ_LONG
       case Extend(n) => n < 8 && t >= D.SZ_WORD
       case Swap(n) => n < 8 && t == D.SZ_WORD
       case ShiftBy(kind, _, _, n) => kind < 4 && n < 8
       case ShiftByRegister(kind, _, x, n) => kind < 4 && x < 8 && n < 8
       case Unlink(n) => n < 8
       case ToUsp(n) => n < 8 && t >= D.SZ_WORD
       case FromUsp(n) => n < 8 && t >= D.SZ_WORD
       case _ => true
  }

  // ---- The opcodes.

  function AluBase(alu: Alu): nat {
    match alu
    case AluOr => 0x8000
    case AluSub => 0x9000
    case AluCmp | AluEor => 0xb000
    case AluAnd => 0xc000
    case AluAdd => 0xd000
  }

  function ImmediateBase(alu: Alu): nat {
    match alu
    case AluOr => 0
    case AluAnd => 0x200
    case AluSub => 0x400
    case AluAdd => 0x600
    case AluEor => 0xa00
    case AluCmp => 0xc00
  }

  /** The mode and the register. */
  function Ea(o: Operand): (r: nat)
    requires Writable(o)
    ensures r < 64
  {
    OpMode(o) % 64
  }

  function ModePart(o: Operand): (r: nat)
    requires Writable(o)
    ensures r < 8
  {
    Ea(o) / 8
  }

  function RegisterPart(o: Operand): (r: nat)
    requires Writable(o)
    ensures r < 8
  {
    Ea(o) % 8
  }

  lemma EaParts(o: Operand)
    requires Writable(o)
    ensures Ea(o) == ModePart(o) * 8 + RegisterPart(o) && Ea(o) % 8 == RegisterPart(o)
  {
    hide Ea;
  }

  function LowFour(v: int): (r: nat)
    ensures r < 16
  {
    v % 16
  }

  lemma FourBits(x: nat)
    requires x < 16
    ensures x / 8 < 2 && x == x / 8 * 8 + x % 8 && x / 8 % 2 * 8 + x % 8 == x
  {}

  function If(b: bool, x: nat): nat {
    if b then x else 0
  }

  function Opcode(op: Op, t: nat, src: Operand, dst: Operand): nat
    requires Takes(op, t, src, dst)
  {
    Encoded(op, t, Ea(src), Ea(dst))
  }

  /** `a` and `b` are the modes and registers of the operands. */
  function Encoded(op: Op, t: nat, a: nat, b: nat): nat {
    match op
    case Clear => 0x4200 + t * 0x40 + a
    case Negate => 0x4400 + t * 0x40 + a
    case NegateX => 0x4000 + t * 0x40 + a
    case Complement => 0x4600 + t * 0x40 + a
    case Test => 0x4a00 + t * 0x40 + a
    case NegateBcd => 0x4800 + a
    case TestAndSet => 0x4ac0 + a
    case SetIf(cond) => 0x50c0 + cond * 0x100 + a
    case Jump => 0x4ec0 + a
    case Call => 0x4e80 + a
    case PushAddress => 0x4840 + a
    case LoadAddress(n) => 0x41c0 + n * 0x200 + a
    case Check(n) => 0x4180 + n * 0x200 + a
    case Multiply(signed, n) => 0xc0c0 + n * 0x200 + If(signed, 0x100) + a
    case Divide(signed, n) => 0x80c0 + n * 0x200 + If(signed, 0x100) + a
    case FromSr => 0x40c0 + a
    case FromCcr => 0x42c0 + a
    case ToSr => 0x46c0 + a
    case ToCcr => 0x44c0 + a
    case ShiftMemory(kind, left) => 0xe0c0 + kind * 0x200 + If(left, 0x100) + a
    case ToData(alu, n) => AluBase(alu) + t * 0x40 + n * 0x200 + a
    case ToAddress(alu, n) => AluBase(alu) + (if t == D.SZ_WORD then 0xc0 else 0x1c0) + n * 0x200 + a
    case FromData(alu, n) => AluBase(alu) + 0x100 + t * 0x40 + n * 0x200 + a
    case BitBy(kind, n) => 0x100 + n * 0x200 + kind * 0x40 + a
    case ImmediateTo(alu) => ImmediateBase(alu) + t * 0x40 + b
    case BitAt(kind) => 0x800 + kind * 0x40 + b
    case ToStatus(alu, sr) => ImmediateBase(alu) + if sr then 0x7c else 0x3c
    case Link(n) => 0x4e50 + n
    case Stop => 0x4e72
    case StoreMany(long) => 0x4880 + If(long, 0x40) + b
    case LoadMany(long) => 0x4c80 + If(long, 0x40) + b
    case LoadApart(n, long) => 0x108 + n * 0x200 + If(long, 0x40) + a % 8
    case StoreApart(n, long) => 0x188 + n * 0x200 + If(long, 0x40) + a % 8
    case AddX(memory, x, y) => 0xd100 + If(memory, 8) + y * 0x200 + x + t * 0x40
    case SubX(memory, x, y) => 0x9100 + If(memory, 8) + y * 0x200 + x + t * 0x40
    case AddBcd(memory, x, y) => 0xc100 + If(memory, 8) + y * 0x200 + x
    case SubBcd(memory, x, y) => 0x8100 + If(memory, 8) + y * 0x200 + x
    case CompareMemory(x, y) => 0xb108 + y * 0x200 + t * 0x40 + x
    case ExchangeData(x, y) => 0xc140 + x * 0x200 + y
    case ExchangeAddress(x, y) => 0xc148 + y * 0x200 + x
    case ExchangeBoth(x, y) => 0xc188 + x * 0x200 + y
    case Extend(n) => (if t == D.SZ_WORD then 0x4880 else 0x48c0) + n
    case Swap(n) => 0x4840 + n
    case ShiftBy(kind, left, count, n) => 0xe000 + kind * 8 + If(left, 0x100) + count % 8 * 0x200 + n + t * 0x40
    case ShiftByRegister(kind, left, x, n) => 0xe020 + kind * 8 + If(left, 0x100) + x * 0x200 + n + t * 0x40
    case Trap(v) => 0x4e40 + LowFour(v)
    case Unlink(n) => 0x4e58 + n
    case ToUsp(n) => 0x4e60 + n
    case FromUsp(n) => 0x4e68 + n
    case Reset => 0x4e70
    case NoOperation => 0x4e71
    case ReturnException => 0x4e73
    case ReturnSubroutine => 0x4e75
    case TrapOverflow => 0x4e76
    case ReturnRestore => 0x4e77
    case Illegal => 0x4afc
  }

  // ---- The fields of an opcode.

  /** The line, the register field, bit 8, the size field, and the mode and register of the operand. */
  datatype Fields = Fields(line: nat, reg: nat, big: bool, size: nat, mode: nat, register: nat)

  function AluLine(alu: Alu): nat {
    match alu
    case AluOr => 8
    case AluSub => 9
    case AluCmp | AluEor => 0xb
    case AluAnd => 0xc
    case AluAdd => 0xd
  }

  function ImmediateReg(alu: Alu): nat {
    match alu
    case AluOr => 0
    case AluAnd => 1
    case AluSub => 2
    case AluAdd => 3
    case AluEor => 5
    case AluCmp => 6
  }

  function FieldsOf(op: Op, t: nat, src: Operand, dst: Operand): Fields
    requires Takes(op, t, src, dst)
  {
    var m, r, m', r' := ModePart(src), RegisterPart(src), ModePart(dst), RegisterPart(dst);
    match op
    case Clear => Fields(4, 1, false, t, m, r)
    case Negate => Fields(4, 2, false, t, m, r)
    case NegateX => Fields(4, 0, false, t, m, r)
    case Complement => Fields(4, 3, false, t, m, r)
    case Test => Fields(4, 5, false, t, m, r)
    case NegateBcd => Fields(4, 4, false, 0, m, r)
    case TestAndSet => Fields(4, 5, false, 3, m, r)
    case SetIf(cond) => Fields(5, cond / 2, cond % 2 == 1, 3, m, r)
    case Jump => Fields(4, 7, false, 3, m, r)
    case Call => Fields(4, 7, false, 2, m, r)
    case PushAddress => Fields(4, 4, false, 1, m, r)
    case LoadAddress(n) => Fields(4, n, true, 3, m, r)
    case Check(n) => Fields(4, n, true, 2, m, r)
    case Multiply(signed, n) => Fields(0xc, n, signed, 3, m, r)
    case Divide(signed, n) => Fields(8, n, signed, 3, m, r)
    case FromSr => Fields(4, 0, false, 3, m, r)
    case FromCcr => Fields(4, 1, false, 3, m, r)
    case ToSr => Fields(4, 3, false, 3, m, r)
    case ToCcr => Fields(4, 2, false, 3, m, r)
    case ShiftMemory(kind, left) => Fields(0xe, kind, left, 3, m, r)
    case ToData(alu, n) => Fields(AluLine(alu), n, false, t, m, r)
    case ToAddress(alu, n) => Fields(AluLine(alu), n, t == D.SZ_LONG, 3, m, r)
    case FromData(alu, n) => Fields(AluLine(alu), n, true, t, m, r)
    case BitBy(kind, n) => Fields(0, n, true, kind, m, r)
    case ImmediateTo(alu) => Fields(0, ImmediateReg(alu), false, t, m', r')
    case BitAt(kind) => Fields(0, 4, false, kind, m', r')
    case ToStatus(alu, sr) => Fields(0, ImmediateReg(alu), false, if sr then 1 else 0, 7, 4)
    case Link(n) => Fields(4, 7, false, 1, 2, n)
    case Stop => Fields(4, 7, false, 1, 6, 2)
    case StoreMany(long) => Fields(4, 4, false, if long then 3 else 2, m', r')
    case LoadMany(long) => Fields(4, 6, false, if long then 3 else 2, m', r')
    case LoadApart(n, long) => Fields(0, n, true, if long then 1 else 0, 1, r)
    case StoreApart(n, long) => Fields(0, n, true, if long then 3 else 2, 1, r)
    case AddX(memory, x, y) => Fields(0xd, y, true, t, if memory then 1 else 0, x)
    case SubX(memory, x, y) => Fields(9, y, true, t, if memory then 1 else 0, x)
    case AddBcd(memory, x, y) => Fields(0xc, y, true, 0, if memory then 1 else 0, x)
    case SubBcd(memory, x, y) => Fields(8, y, true, 0, if memory then 1 else 0, x)
    case CompareMemory(x, y) => Fields(0xb, y, true, t, 1, x)
    case ExchangeData(x, y) => Fields(0xc, x, true, 1, 0, y)
    case ExchangeAddress(x, y) => Fields(0xc, y, true, 1, 1, x)
    case ExchangeBoth(x, y) => Fields(0xc, x, true, 2, 1, y)
    case Extend(n) => Fields(4, 4, false, 1 + t, 0, n)
    case Swap(n) => Fields(4, 4, false, 1, 0, n)
    case ShiftBy(kind, left, count, n) => Fields(0xe, count % 8, left, t, kind, n)
    case ShiftByRegister(kind, left, x, n) => Fields(0xe, x, left, t, kind + 4, n)
    case Trap(v) => Fields(4, 7, false, 1, LowFour(v) / 8, LowFour(v) % 8)
    case Unlink(n) => Fields(4, 7, false, 1, 3, n)
    case ToUsp(n) => Fields(4, 7, false, 1, 4, n)
    case FromUsp(n) => Fields(4, 7, false, 1, 5, n)
    case Reset => Fields(4, 7, false, 1, 6, 0)
    case NoOperation => Fields(4, 7, false, 1, 6, 1)
    case ReturnException => Fields(4, 7, false, 1, 6, 3)
    case ReturnSubroutine => Fields(4, 7, false, 1, 6, 5)
    case TrapOverflow => Fields(4, 7, false, 1, 6, 6)
    case ReturnRestore => Fields(4, 7, false, 1, 6, 7)
    case Illegal => Fields(4, 5, false, 3, 7, 4)
  }

  predicate Right(w: nat, p: Fields) {
    && p.line < 16 && p.reg < 8 && p.size < 4 && p.mode < 8 && p.register < 8
    && w == p.line * 0x1000 + p.reg * 0x200 + If(p.big, 0x100) + p.size * 0x40 + p.mode * 8 + p.register
  }

  lemma OpcodePlace(op: Op, t: nat, src: Operand, dst: Operand)
    requires Takes(op, t, src, dst)
    ensures Right(Opcode(op, t, src, dst), FieldsOf(op, t, src, dst))
  {
    hide Takes, Opcode, FieldsOf, Right;
    if OneOperand(op) {
      OnePlace(op, t, src, dst);
    } else if TwoOperands(op) || ImmediateOnly(op) {
      TwoPlace(op, t, src, dst);
    } else {
      RegisterPlace(op, t, src, dst);
    }
  }

  lemma OnePlace(op: Op, t: nat, src: Operand, dst: Operand)
    requires Takes(op, t, src, dst) && OneOperand(op)
    ensures Right(Opcode(op, t, src, dst), FieldsOf(op, t, src, dst))
  {
    hide Ea, OpMode, Has, Changeable, Right;
    if op.ToData? || op.ToAddress? || op.FromData? {
      AluPlace(op, t, src, dst);
    } else if op.BitBy? || op.ShiftMemory? || op.ToStatus? {
      BitPlace(op, t, src, dst);
    } else if op.LoadApart? || op.StoreApart? {
      ApartPlace(op, t, src, dst);
    } else if op.SetIf? {
      SetPlace(op, t, src, dst);
    } else {
      SimplePlace(op, t, src, dst);
    }
  }

  lemma SimplePlace(op: Op, t: nat, src: Operand, dst: Operand)
    requires Takes(op, t, src, dst) && OneOperand(op)
    requires !op.ToData? && !op.ToAddress? && !op.FromData? && !op.BitBy? && !op.ShiftMemory? && !op.SetIf?
    requires !op.LoadApart? && !op.StoreApart? && !op.ToStatus?
    ensures Right(Opcode(op, t, src, dst), FieldsOf(op, t, src, dst))
  {
    hide Ea, ModePart, RegisterPart, OpMode, Has, Changeable;
    EaParts(src);
    EaParts(dst);
  }

  lemma AluPlace(op: Op, t: nat, src: Operand, dst: Operand)
    requires Takes(op, t, src, dst) && (op.ToData? || op.ToAddress? || op.FromData?)
    ensures Right(Opcode(op, t, src, dst), FieldsOf(op, t, src, dst))
  {
    hide Ea, ModePart, RegisterPart, OpMode, Has, Changeable;
    EaParts(src);
    EaParts(dst);
  }

  lemma BitPlace(op: Op, t: nat, src: Operand, dst: Operand)
    requires Takes(op, t, src, dst) && (op.BitBy? || op.ShiftMemory? || op.ToStatus?)
    ensures Right(Opcode(op, t, src, dst), FieldsOf(op, t, src, dst))
  {
    hide Ea, ModePart, RegisterPart, OpMode, Has, Changeable;
    EaParts(src);
    EaParts(dst);
  }

  lemma ApartPlace(op: Op, t: nat, src: Operand, dst: Operand)
    requires Takes(op, t, src, dst) && (op.LoadApart? || op.StoreApart?)
    ensures Right(Opcode(op, t, src, dst), FieldsOf(op, t, src, dst))
  {
    hide Ea, ModePart, RegisterPart, OpMode, Has, Changeable;
    EaParts(src);
    EaParts(dst);
  }

  lemma SetPlace(op: Op, t: nat, src: Operand, dst: Operand)
    requires Takes(op, t, src, dst) && op.SetIf?
    ensures Right(Opcode(op, t, src, dst), FieldsOf(op, t, src, dst))
  {
    hide Ea, ModePart, RegisterPart, OpMode, Has, Changeable;
    EaParts(src);
    EaParts(dst);
    assert op.cond / 2 * 0x200 + op.cond % 2 * 0x100 == op.cond * 0x100;
  }

  lemma TwoPlace(op: Op, t: nat, src: Operand, dst: Operand)
    requires Takes(op, t, src, dst) && (TwoOperands(op) || ImmediateOnly(op))
    ensures Right(Opcode(op, t, src, dst), FieldsOf(op, t, src, dst))
  {
    hide Ea, ModePart, RegisterPart, OpMode, Has, Changeable;
    EaParts(src);
    EaParts(dst);
  }

  lemma RegisterPlace(op: Op, t: nat, src: Operand, dst: Operand)
    requires Takes(op, t, src, dst) && !OneOperand(op) && !TwoOperands(op) && !ImmediateOnly(op)
    ensures Right(Opcode(op, t, src, dst), FieldsOf(op, t, src, dst))
  {
    hide Opcode, FieldsOf, Right, Ea, ModePart, RegisterPart, OpMode, Has, Changeable;
    if op.Trap? {
      TrapPlace(op, t, src, dst);
    } else if op.ShiftBy? || op.ShiftByRegister? {
      ShiftPlace(op, t, src, dst);
    } else if op.AddX? || op.SubX? || op.AddBcd? || op.SubBcd? || op.CompareMemory? {
      PairPlace(op, t, src, dst);
    } else {
      PlainPlace(op, t, src, dst);
    }
  }

  lemma TrapPlace(op: Op, t: nat, src: Operand, dst: Operand)
    requires Takes(op, t, src, dst) && op.Trap?
    ensures Right(Opcode(op, t, src, dst), FieldsOf(op, t, src, dst))
  {
    hide LowFour, Ea, ModePart, RegisterPart, OpMode, Has, Changeable;
    EaParts(src);
    EaParts(dst);
    FourBits(LowFour(op.v));
  }

  lemma ShiftPlace(op: Op, t: nat, src: Operand, dst: Operand)
    requires Takes(op, t, src, dst) && (op.ShiftBy? || op.ShiftByRegister?)
    ensures Right(Opcode(op, t, src, dst), FieldsOf(op, t, src, dst))
  {
    hide Ea, ModePart, RegisterPart, OpMode, Has, Changeable;
    EaParts(src);
    EaParts(dst);
  }

  lemma PairPlace(op: Op, t: nat, src: Operand, dst: Operand)
    requires Takes(op, t, src, dst) && (op.AddX? || op.SubX? || op.AddBcd? || op.SubBcd? || op.CompareMemory?)
    ensures Right(Opcode(op, t, src, dst), FieldsOf(op, t, src, dst))
  {
    hide Ea, ModePart, RegisterPart, OpMode, Has, Changeable;
    EaParts(src);
    EaParts(dst);
  }

  lemma PlainPlace(op: Op, t: nat, src: Operand, dst: Operand)
    requires Takes(op, t, src, dst) && !OneOperand(op) && !TwoOperands(op) && !ImmediateOnly(op)
    requires !op.Trap? && !op.ShiftBy? && !op.ShiftByRegister?
    requires !op.AddX? && !op.SubX? && !op.AddBcd? && !op.SubBcd? && !op.CompareMemory?
    ensures Right(Opcode(op, t, src, dst), FieldsOf(op, t, src, dst))
  {
    hide Ea, ModePart, RegisterPart, OpMode, Has, Changeable;
    EaParts(src);
    EaParts(dst);
  }

  /** What the disassembler sees in an opcode. */
  predicate At(w: nat, p: Fields) {
    && w < 0x1_0000 && D.LineOf(w) == p.line && D.Reg9(w) == p.reg && D.Mode6(w) == If(p.big, 4) + p.size
    && D.OpSz(w) == p.size && D.Bit8(w) == p.big && D.Bit7(w) == (p.size >= 2)
    && D.Mode3(w) == p.mode && D.Reg0(w) == p.register && D.Condition(w) == p.reg * 2 + If(p.big, 1)
    && LowAt(w, p)
  }

  /** The fields that shifts and TRAP have in the low bits. */
  predicate LowAt(w: nat, p: Fields) {
    D.Bit5(w) == (p.mode >= 4) && w / 8 % 4 == p.mode % 4 && w % 16 == p.mode % 2 * 8 + p.register
  }

  lemma FieldsAt(w: nat, p: Fields)
    requires Right(w, p)
    ensures At(w, p)
  {
    hide D.LineOf, D.Reg9, D.Mode6, D.Mode3, D.Reg0, D.OpSz, D.Bit5, D.Bit7, D.Bit8, D.Condition;
    var mode, low := If(p.big, 4) + p.size, p.mode * 8 + p.register;
    NamedFields(w, p.line, p.reg, mode, low);
    NamedBits(w, p.line * 8 + p.reg, mode, low);
    LowParts(p.mode, p.register, p.big, p.size);
    assert (p.line * 8 + p.reg) % 8 == p.reg;
  }

  lemma LowParts(mode: nat, register: nat, big: bool, size: nat)
    requires mode < 8 && register < 8 && size < 4
    ensures var low := mode * 8 + register;
            && low < 64 && low / 8 == mode && low % 8 == register && low % 16 == mode % 2 * 8 + register
            && (low >= 32 <==> mode >= 4)
    ensures var m := If(big, 4) + size; m < 8 && m % 4 == size && m / 4 == If(big, 1)
  {}

  lemma NamedFields(w: nat, line: nat, reg: nat, mode: nat, low: nat)
    requires line < 16 && reg < 8 && mode < 8 && low < 64
    requires w == line * 0x1000 + reg * 0x200 + mode * 0x40 + low
    ensures w < 0x1_0000 && D.LineOf(w) == line && D.Reg9(w) == reg && D.Mode6(w) == mode && D.Mode3(w) == low / 8
    ensures D.Reg0(w) == low % 8
  {
    HighFields(w, line, reg, mode, low);
  }

  lemma NamedBits(w: nat, high: nat, mode: nat, low: nat)
    requires w == high * 0x200 + mode * 0x40 + low && mode < 8 && low < 64
    ensures D.OpSz(w) == mode % 4 && D.Bit8(w) == (mode >= 4) && D.Bit7(w) == (mode % 4 >= 2)
    ensures D.Bit5(w) == (low >= 32) && D.Condition(w) == high % 8 * 2 + mode / 4
    ensures w / 8 % 4 == low / 8 % 4 && w % 16 == low % 16
  {
    LowBits(w, high, mode, low);
    Modes(w, high, mode, low);
  }

  lemma HighFields(w: nat, line: nat, reg: nat, mode: nat, low: nat)
    requires line < 16 && reg < 8 && mode < 8 && low < 64
    requires w == line * 0x1000 + reg * 0x200 + mode * 0x40 + low
    ensures w < 0x1_0000 && w / 4096 % 16 == line && w / 512 % 8 == reg && w / 64 % 8 == mode && w / 8 % 8 == low / 8
    ensures w % 8 == low % 8
  {
    DivUnique(w, 4096, line, reg * 0x200 + mode * 0x40 + low);
    DivUnique(w, 512, line * 8 + reg, mode * 0x40 + low);
    DivUnique(w, 64, line * 0x40 + reg * 8 + mode, low);
    DivUnique(w, 8, line * 0x200 + reg * 0x40 + mode * 8 + low / 8, low % 8);
    AddMultiple(reg, line, 8);
    AddMultiple(mode, line * 8 + reg, 8);
    AddMultiple(low / 8, line * 0x40 + reg * 8 + mode, 8);
  }

  lemma LowBits(w: nat, high: nat, mode: nat, low: nat)
    requires w == high * 0x200 + mode * 0x40 + low && mode < 8 && low < 64
    ensures w / 32 % 2 == low / 32 && w / 8 % 4 == low / 8 % 4 && w % 16 == low % 16
  {
    DivUnique(w, 32, high * 0x10 + mode * 2 + low / 32, low % 32);
    DivUnique(w, 8, high * 0x40 + mode * 8 + low / 8, low % 8);
    AddMultiple(low / 32, high * 8 + mode, 2);
    AddMultiple(low / 8, high * 0x10 + mode * 2, 4);
    AddMultiple(low, high * 0x20 + mode * 4, 16);
  }

  lemma Modes(w: nat, high: nat, mode: nat, low: nat)
    requires w == high * 0x200 + mode * 0x40 + low && mode < 8 && low < 64
    ensures w / 64 % 4 == mode % 4 && w / 256 % 2 == mode / 4 && w / 128 % 2 == mode / 2 % 2
    ensures w / 256 % 16 == high % 8 * 2 + mode / 4
  {
    DivUnique(w, 64, high * 8 + mode, low);
    DivUnique(w, 128, high * 4 + mode / 2, mode % 2 * 0x40 + low);
    DivUnique(w, 256, high * 2 + mode / 4, mode % 4 * 0x40 + low);
    AddMultiple(mode, high * 2, 4);
    AddMultiple(mode / 2, high * 2, 2);
    AddMultiple(mode / 4, high, 2);
    AddMultiple(high % 8 * 2 + mode / 4, high / 8, 16);
  }

  // ---- What is listed.

  function AluName(alu: Alu): string {
    match alu
    case AluOr => "OR"
    case AluSub => "SUB"
    case AluCmp => "CMP"
    case AluEor => "EOR"
    case AluAnd => "AND"
    case AluAdd => "ADD"
  }

  function BitName(kind: nat): string {
    if kind == 0 then "BTST" else if kind == 1 then "BCHG" else if kind == 2 then "BCLR" else "BSET"
  }

  function ShiftName(kind: nat, left: bool): string {
    if kind == 0 then if left then "ASL" else "ASR"
    else if kind == 1 then if left then "LSL" else "LSR"
    else if kind == 2 then if left then "ROXL" else "ROXR"
    else if left then "ROL" else "ROR"
  }

  function NameOf(op: Op): string
    requires op.SetIf? ==> op.cond < 16
  {
    match op
    case Clear => "CLR"
    case Negate => "NEG"
    case NegateX => "NEGX"
    case Complement => "NOT"
    case Test => "TST"
    case NegateBcd => "NBCD"
    case TestAndSet => "TAS"
    case SetIf(cond) => "S" + D.SCC[cond]
    case Jump => "JMP"
    case Call => "JSR"
    case PushAddress => "PEA"
    case LoadAddress(_) => "LEA"
    case Check(_) => "CHK"
    case Multiply(signed, _) => if signed then "MULS" else "MULU"
    case Divide(signed, _) => if signed then "DIVS" else "DIVU"
    case FromSr | FromCcr | ToSr | ToCcr | ToUsp(_) | FromUsp(_) => "MOVE"
    case ShiftMemory(kind, left) => ShiftName(kind, left)
    case ToData(alu, _) => AluName(alu)
    case ToAddress(alu, _) => AluName(alu) + "A"
    case FromData(alu, _) => AluName(alu)
    case BitBy(kind, _) => BitName(kind)
    case ImmediateTo(alu) => AluName(alu) + "I"
    case BitAt(kind) => BitName(kind)
    case ToStatus(alu, _) => AluName(alu) + "I"
    case Link(_) => "LINK"
    case Stop => "STOP"
    case LoadMany(_) | StoreMany(_) => "MOVEM"
    case LoadApart(_, _) | StoreApart(_, _) => "MOVEP"
    case AddX(_, _, _) => "ADDX"
    case SubX(_, _, _) => "SUBX"
    case AddBcd(_, _, _) => "ABCD"
    case SubBcd(_, _, _) => "SBCD"
    case CompareMemory(_, _) => "CMPM"
    case ExchangeData(_, _) | ExchangeAddress(_, _) | ExchangeBoth(_, _) => "EXG"
    case Extend(_) => "EXT"
    case Swap(_) => "SWAP"
    case ShiftBy(kind, left, _, _) => ShiftName(kind, left)
    case ShiftByRegister(kind, left, _, _) => ShiftName(kind, left)
    case Trap(_) => "TRAP"
    case Unlink(_) => "UNLK"
    case Reset => "RESET"
    case NoOperation => "NOP"
    case ReturnException => "RTE"
    case ReturnSubroutine => "RTS"
    case TrapOverflow => "TRAPV"
    case ReturnRestore => "RTR"
    case Illegal => "ILLEGAL"
  }

  /** The size behind the name, if there is one. */
  predicate SizeIs(op: Op, t: nat, size: nat) {
    match op
    case Clear | Negate | NegateX | Complement | Test | ToData(_, _) | ToAddress(_, _) | FromData(_, _) => size == t
    case ImmediateTo(_) | AddX(_, _, _) | SubX(_, _, _) | Extend(_) => size == t
    case ShiftBy(_, _, _, _) | ShiftByRegister(_, _, _, _) => size == t
    case LoadMany(long) => size == if long then D.SZ_LONG else D.SZ_WORD
    case StoreMany(long) => size == if long then D.SZ_LONG else D.SZ_WORD
    case LoadApart(_, long) => size == if long then D.SZ_LONG else D.SZ_WORD
    case StoreApart(_, long) => size == if long then D.SZ_LONG else D.SZ_WORD
    case _ => size > D.SZ_LONG
  }

  predicate Alone(t: nat, mask: nat, at: int, o: Operand, ops: seq<Operand>) {
    |ops| == 1 && Same(t, mask, at, o, ops[0])
  }

  predicate First(t: nat, mask: nat, at: int, o: Operand, other: Operand, ops: seq<Operand>) {
    |ops| == 2 && Same(t, mask, at, o, ops[0]) && ops[1] == other
  }

  predicate Second(t: nat, mask: nat, at: int, other: Operand, o: Operand, ops: seq<Operand>) {
    |ops| == 2 && ops[0] == other && Same(t, mask, at, o, ops[1])
  }

  /** The operands in the order of the listing; extension words start at `at`, those of `dst` at `mid`. */
  predicate OpsAre(op: Op, t: nat, src: Operand, dst: Operand, mask: nat, at: int, mid: int, ops: seq<Operand>) {
    match op
    case Clear | Negate | NegateX | Complement | Test | NegateBcd | TestAndSet => Alone(t, mask, at, src, ops)
    case SetIf(_) | Jump | Call | PushAddress | ShiftMemory(_, _) | Stop => Alone(t, mask, at, src, ops)
    case LoadAddress(n) => First(t, mask, at, src, D.AddrReg(n), ops)
    case Check(n) => First(t, mask, at, src, D.DataReg(n), ops)
    case Multiply(_, n) => First(t, mask, at, src, D.DataReg(n), ops)
    case Divide(_, n) => First(t, mask, at, src, D.DataReg(n), ops)
    case FromSr => Second(t, mask, at, D.SpecialReg("SR"), src, ops)
    case FromCcr => Second(t, mask, at, D.SpecialReg("CCR"), src, ops)
    case ToSr => First(t, mask, at, src, D.SpecialReg("SR"), ops)
    case ToCcr => First(D.SZ_BYTE, mask, at, src, D.SpecialReg("CCR"), ops)
    case ToData(_, n) => First(t, mask, at, src, D.DataReg(n), ops)
    case ToAddress(_, n) => First(t, mask, at, src, D.AddrReg(n), ops)
    case FromData(_, n) => Second(t, mask, at, D.DataReg(n), src, ops)
    case BitBy(_, n) => Second(t, mask, at, D.DataReg(n), src, ops)
    case ImmediateTo(_) => |ops| == 2 && Same(t, mask, at, src, ops[0]) && Same(t, mask, mid, dst, ops[1])
    case BitAt(_) => src.Imm? && Second(t, mask, mid, D.Imm(src.v % 256), dst, ops)
    case ToStatus(_, sr) => First(t, mask, at, src, D.SpecialReg(if sr then "SR" else "CCR"), ops)
    case Link(n) => Second(t, mask, at, D.AddrReg(n), src, ops)
    case LoadMany(_) => src.Imm? && First(t, mask, mid, dst, D.RegList(src.v % 0x1_0000, false), ops)
    case StoreMany(_) => src.Imm? && Second(t, mask, mid, D.RegList(src.v % 0x1_0000, dst.PreDec?), dst, ops)
    case LoadApart(n, _) => First(t, mask, at, src, D.DataReg(n), ops)
    case StoreApart(n, _) => Second(t, mask, at, D.DataReg(n), src, ops)
    case AddX(memory, x, y) => ops == if memory then [D.PreDec(x), D.PreDec(y)] else [D.DataReg(x), D.DataReg(y)]
    case SubX(memory, x, y) => ops == if memory then [D.PreDec(x), D.PreDec(y)] else [D.DataReg(x), D.DataReg(y)]
    case AddBcd(memory, x, y) => ops == if memory then [D.PreDec(x), D.PreDec(y)] else [D.DataReg(x), D.DataReg(y)]
    case SubBcd(memory, x, y) => ops == if memory then [D.PreDec(x), D.PreDec(y)] else [D.DataReg(x), D.DataReg(y)]
    case CompareMemory(x, y) => ops == [D.PostInc(x), D.PostInc(y)]
    case ExchangeData(x, y) => ops == [D.DataReg(x), D.DataReg(y)]
    case ExchangeAddress(x, y) => ops == [D.AddrReg(y), D.AddrReg(x)]
    case ExchangeBoth(x, y) => ops == [D.DataReg(x), D.AddrReg(y)]
    case Extend(n) => ops == [D.DataReg(n)]
    case Swap(n) => ops == [D.DataReg(n)]
    case ShiftBy(_, _, count, n) =>
      |ops| == 2 && ops[0].Imm? && 1 <= ops[0].v <= 8 && (ops[0].v - count) % 8 == 0 && ops[1] == D.DataReg(n)
    case ShiftByRegister(_, _, x, n) => ops == [D.DataReg(x), D.DataReg(n)]
    case Trap(v) => ops == [D.Imm(v % 16)]
    case Unlink(n) => ops == [D.AddrReg(n)]
    case ToUsp(n) => ops == [D.AddrReg(n), D.SpecialReg("USP")]
    case FromUsp(n) => ops == [D.SpecialReg("USP"), D.AddrReg(n)]
    case _ => ops == []
  }

  /** The listing is this instruction, without an error and with as many bytes as as68 made. */
  predicate ListedAs(op: Op, t: nat, src: Operand, dst: Operand, mask: nat, at: int, l: D.Listing, length: nat)
    requires Takes(op, t, src, dst)
  {
    && l.name == NameOf(op) && SizeIs(op, t, l.size) && !l.error
    && OpsAre(op, t, src, dst, mask, at, at + Sizes(OpFields(t, src)), l.ops)
    && length == 2 + Sizes(OpFields(t, src)) + Sizes(OpFields(t, dst))
  }

  /** What as68 accepts and desa68 does not take for the same: moves from CCR, which the 68000 does not
      have; moves from SR to what cannot be changed; address registers moved to SR or CCR, as the source of
      OR, AND and byte operations, and compared as long words; a word other than a byte moved to CCR; bits
      tested in a constant or relative to the PC; and immediate operations on SR or CCR without an
      immediate. */
  predicate Agreed(op: Op, t: nat, src: Operand, dst: Operand)
    requires Takes(op, t, src, dst)
  {
    match op
    case FromSr => Changeable(src)
    case FromCcr => false
    case ToSr => !src.AddrReg?
    case ToCcr => !src.AddrReg? && (src.Imm? && t == D.SZ_WORD ==> -128 <= src.v <= 255 || src.v >= 0xff80)
    case ToData(alu, _) => src.AddrReg? ==> t != D.SZ_BYTE && alu != AluOr && alu != AluAnd
    case ToAddress(alu, _) => !(alu == AluCmp && t == D.SZ_LONG && src.AddrReg?)
    case BitBy(_, _) => Has(src, ALTERABLE)
    case BitAt(_) => Has(dst, ALTERABLE)
    case ToStatus(_, _) => src.Imm?
    case _ => true
  }

  /** How it is listed then: mostly as data. */
  predicate ListedOtherwise(op: Op, src: Operand, l: D.Listing, length: nat)
    requires Writable(src)
  {
    match op
    case FromCcr => if Changeable(src) then l.name == "CLR" else l == D.DATA_WORD && length == 2
    case ToCcr => if src.AddrReg? then l == D.DATA_WORD && length == 2 else l.error
    case ToAddress(_, n) => src.AddrReg? && l.name == "CMPM" && l.ops == [D.PostInc(src.n), D.PostInc(n)]
    case ToStatus(alu, _) => l.name == AluName(alu) + "I" && length == 4
    case _ => l == D.DATA_WORD && length == 2
  }

  // ---- Operands as the disassembler sees them.

  /** The flags of op() are the sets of modes of desa68. */
  lemma FlagsAre(o: Operand)
    requires Writable(o)
    ensures Has(o, ALTERABLE) <==> D.Alterable(ModeOf(o))
    ensures Has(o, CONTROL) <==> D.ControlMode(ModeOf(o))
    ensures Has(o, MEMORY) <==> ModeOf(o) >= 2
    ensures Has(o, DATA) <==> D.DataMode(ModeOf(o))
    ensures ModeOf(o) <= 11 && (o.Imm? <==> ModeOf(o) == 11) && (o.AddrReg? <==> ModeOf(o) == 1)
    ensures (o.DataReg? <==> ModeOf(o) == 0) && (o.PostInc? <==> ModeOf(o) == 3) && (o.PreDec? <==> ModeOf(o) == 4)
  {}

  lemma ModeAt(o: Operand, w: nat)
    requires Writable(o) && D.Mode3(w) == ModePart(o) && D.Reg0(w) == RegisterPart(o)
    ensures D.Adrm0(w) == ModeOf(o) && D.Reg0(w) == OpMode(o) % 8
  {
    hide OpMode, ModeOf, D.Extended, D.Mode3, D.Reg0, Writable;
    ModeParts(o);
    LowSix(OpMode(o));
  }

  lemma LowSix(m: nat)
    ensures m % 64 / 8 == m / 8 % 8 && m % 64 % 8 == m % 8
  {}

  /** The operand that is listed is the one that was written, if an immediate is read with its size. */
  lemma OperandAt(t: nat, o: Operand, w: nat, mem: D.Memory, mask: nat, at: int, sz: nat)
    requires Writable(o) && D.Mode3(w) == ModePart(o) && D.Reg0(w) == RegisterPart(o)
    requires Shown(t, o, mem, mask, at) && (o.Imm? ==> sz == t)
    ensures D.Adrm0(w) == ModeOf(o)
    ensures Same(t, mask, at, o, D.EaOperand(mem, mask, at, D.Adrm0(w), D.Reg0(w), sz))
    ensures !D.EaError(mem, at, D.Adrm0(w), sz) && D.EaSize(D.Adrm0(w), sz) == Sizes(OpFields(t, o))
  {
    ModeAt(o, w);
    AnySize(o, mem, mask, at, D.Reg0(w), sz, t);
    hide OpMode, ModeOf, Same, OpFields, Sizes, D.EaOperand, D.EaError, D.EaSize;
  }

  lemma AnySize(o: Operand, mem: D.Memory, mask: nat, at: int, reg: nat, sz: nat, t: nat)
    requires Writable(o) && (o.Imm? ==> sz == t)
    ensures D.EaOperand(mem, mask, at, ModeOf(o), reg, sz) == D.EaOperand(mem, mask, at, ModeOf(o), reg, t)
    ensures D.EaError(mem, at, ModeOf(o), sz) == D.EaError(mem, at, ModeOf(o), t)
    ensures D.EaSize(ModeOf(o), sz) == D.EaSize(ModeOf(o), t)
  {
    hide D.SW, D.SL, D.S8, D.Masked, D.BadWord, D.BadLong, D.BadImmediate;
  }

  lemma NoWords(t: nat)
    ensures OpFields(t, NONE) == [] && Sizes([]) == 0
  {}

  /** The operand behind the opcode. */
  lemma ImmediateAt(t: nat, o: Operand, mem: D.Memory, mask: nat, at: int)
    requires o.Imm? && Shown(t, o, mem, mask, at)
    ensures Same(t, mask, at, o, D.EaOperand(mem, mask, at, D.MODE_IMM, 0, t))
    ensures !D.EaError(mem, at, D.MODE_IMM, t) && D.EaSize(D.MODE_IMM, t) == Sizes(OpFields(t, o))
  {
    hide Same, OpFields, Sizes, D.SW, D.SL, D.S8, D.EaError, D.EaSize;
  }

  /** The word that an immediate of a byte or a word was stored as. */
  predicate WordStored(t: nat, o: Operand, mem: D.Memory, at: int) {
    o.Imm? && t <= D.SZ_WORD ==>
      && D.SW(mem, at) == D.S16(o.v) && !D.BadWord(mem, at)
      && -32768 <= o.v <= 65535 && (t == D.SZ_BYTE ==> -128 <= o.v <= 255)
  }

  /** What a line of the disassembler is given. */
  predicate Given(op: Op, t: nat, src: Operand, dst: Operand, w: nat, mem: D.Memory, mask: nat, at: int) {
    && Takes(op, t, src, dst) && At(w, FieldsOf(op, t, src, dst)) && w == Opcode(op, t, src, dst)
    && Shown(t, src, mem, mask, at) && Shown(t, dst, mem, mask, at + Sizes(OpFields(t, src)))
    && WordStored(t, src, mem, at)
  }

  predicate Settled(op: Op, t: nat, src: Operand, dst: Operand, mask: nat, at: int, l: D.Listing, length: nat)
    requires Takes(op, t, src, dst)
  {
    if Agreed(op, t, src, dst) then ListedAs(op, t, src, dst, mask, at, l, length)
    else ListedOtherwise(op, src, l, length)
  }

  /** An operand alone, before a register, or after one. */
  lemma OneListed(t: nat, o: Operand, w: nat, mem: D.Memory, mask: nat, at: int, sz: nat, name: string, size: nat,
        before: seq<Operand>, after: seq<Operand>)
    requires Writable(o) && D.Mode3(w) == ModePart(o) && D.Reg0(w) == RegisterPart(o)
    requires Shown(t, o, mem, mask, at) && (o.Imm? ==> sz == t) && |before| + |after| <= 1
    ensures D.Adrm0(w) == ModeOf(o) && D.Ea0(w, sz) == Sizes(OpFields(t, o))
    ensures var l := D.ListOperand(mem, mask, at, w, sz, name, size, before, after);
            && l.name == name && l.size == size && !l.error
            && (if before != [] then Second(t, mask, at, before[0], o, l.ops)
                else if after != [] then First(t, mask, at, o, after[0], l.ops)
                else Alone(t, mask, at, o, l.ops))
  {
    hide OpMode, ModeOf, ModePart, RegisterPart, Same, OpFields, Sizes, Shown, D.Mode3, D.Reg0, D.EaOperand,
      D.EaError, D.EaSize, D.Adrm0;
    OperandAt(t, o, w, mem, mask, at, sz);
  }

  // ---- One kind of opcode after the other.

  lemma UnaryListed(op: Op, t: nat, src: Operand, dst: Operand, w: nat, mem: D.Memory, mask: nat, at: int)
    requires op.Clear? || op.Negate? || op.NegateX? || op.Complement? || op.Test?
    requires Given(op, t, src, dst, w, mem, mask, at)
    ensures Settled(op, t, src, dst, mask, at, D.ListLine(mem, mask, at, w), D.Length(w))
  {
    hide OpMode, ModeOf, Has, Writable, ModePart, RegisterPart, Opcode, Same, OpFields, Sizes, Shown, D.LineOf,
      D.Reg9, D.Mode6, D.OpSz, D.Bit8, D.Bit7, D.Bit5, D.Mode3, D.Reg0, D.Adrm0, D.Condition, D.EaOperand,
      D.EaError, D.EaSize, D.ListLine, D.Length, D.Ea0, D.ListOperand, Alone, First, Second, LowAt, WordStored;
    FlagsAre(src);
    NoWords(t);
    OneListed(t, src, w, mem, mask, at, D.SZ_NDEF, D.UNARY_OPS[D.Reg9(w)], D.OpSz(w), [], []);
    L.Unary(mem, mask, at, w);
  }

  lemma ByteListed(op: Op, t: nat, src: Operand, dst: Operand, w: nat, mem: D.Memory, mask: nat, at: int)
    requires op.NegateBcd? || op.TestAndSet?
    requires Given(op, t, src, dst, w, mem, mask, at)
    ensures Settled(op, t, src, dst, mask, at, D.ListLine(mem, mask, at, w), D.Length(w))
  {
    hide OpMode, ModeOf, Has, Writable, ModePart, RegisterPart, Opcode, Same, OpFields, Sizes, Shown, D.LineOf,
      D.Reg9, D.Mode6, D.OpSz, D.Bit8, D.Bit7, D.Bit5, D.Mode3, D.Reg0, D.Adrm0, D.Condition, D.EaOperand,
      D.EaError, D.EaSize, D.ListLine, D.Length, D.Ea0, D.ListOperand, Alone, First, Second, LowAt, WordStored;
    FlagsAre(src);
    NoWords(t);
    if op.NegateBcd? {
      OneListed(t, src, w, mem, mask, at, D.SZ_NDEF, "NBCD", D.SZ_ADDR, [], []);
      L.NegateBcd(mem, mask, at, w);
    } else {
      OneListed(t, src, w, mem, mask, at, D.SZ_NDEF, "TAS", D.SZ_ADDR, [], []);
      L.TestAndSet(mem, mask, at, w);
    }
  }

  lemma SetIfListed(op: Op, t: nat, src: Operand, dst: Operand, w: nat, mem: D.Memory, mask: nat, at: int)
    requires op.SetIf?
    requires Given(op, t, src, dst, w, mem, mask, at)
    ensures Settled(op, t, src, dst, mask, at, D.ListLine(mem, mask, at, w), D.Length(w))
  {
    hide OpMode, ModeOf, Has, Writable, ModePart, RegisterPart, Opcode, Same, OpFields, Sizes, Shown, D.LineOf,
      D.Reg9, D.Mode6, D.OpSz, D.Bit8, D.Bit7, D.Bit5, D.Mode3, D.Reg0, D.Adrm0, D.Condition, D.EaOperand,
      D.EaError, D.EaSize, D.ListLine, D.Length, D.Ea0, D.ListOperand, Alone, First, Second, LowAt, WordStored,
      D.SccName;
    FlagsAre(src);
    NoWords(t);
    ConditionName(w, op.cond);
    OneListed(t, src, w, mem, mask, at, D.SZ_NDEF, D.SccName(w), D.SZ_NDEF, [], []);
    L.SetIf(mem, mask, at, w);
  }

  lemma ConditionName(w: nat, cond: nat)
    requires cond < 16 && D.Condition(w) == cond / 2 * 2 + If(cond % 2 == 1, 1)
    ensures D.SccName(w) == "S" + D.SCC[cond]
  {
    hide D.Condition;
  }

  lemma ControlListed(op: Op, t: nat, src: Operand, dst: Operand, w: nat, mem: D.Memory, mask: nat, at: int)
    requires op.Jump? || op.Call? || op.PushAddress? || op.LoadAddress?
    requires Given(op, t, src, dst, w, mem, mask, at)
    ensures Settled(op, t, src, dst, mask, at, D.ListLine(mem, mask, at, w), D.Length(w))
  {
    hide OpMode, ModeOf, Has, Writable, ModePart, RegisterPart, Opcode, Same, OpFields, Sizes, Shown, D.LineOf,
      D.Reg9, D.Mode6, D.OpSz, D.Bit8, D.Bit7, D.Bit5, D.Mode3, D.Reg0, D.Adrm0, D.Condition, D.EaOperand,
      D.EaError, D.EaSize, D.ListLine, D.Length, D.Ea0, D.ListOperand, Alone, First, Second, LowAt, WordStored;
    FlagsAre(src);
    NoWords(t);
    ModeNonZero(src);
    ModeAt(src, w);
    L.Control(mem, mask, at, w);
    if op.LoadAddress? {
      OneListed(t, src, w, mem, mask, at, D.SZ_NDEF, "LEA", D.SZ_NDEF, [], [D.AddrReg(D.Reg9(w))]);
    } else if op.PushAddress? {
      OneListed(t, src, w, mem, mask, at, D.SZ_NDEF, "PEA", D.SZ_ADDR, [], []);
    } else {
      OneListed(t, src, w, mem, mask, at, D.SZ_NDEF, if D.Mode6(w) == 2 then "JSR" else "JMP", D.SZ_NDEF, [], []);
    }
  }

  lemma ToRegisterListed(op: Op, t: nat, src: Operand, dst: Operand, w: nat, mem: D.Memory, mask: nat, at: int)
    requires op.Check? || op.Multiply? || op.Divide?
    requires Given(op, t, src, dst, w, mem, mask, at)
    ensures Settled(op, t, src, dst, mask, at, D.ListLine(mem, mask, at, w), D.Length(w))
  {
    hide OpMode, ModeOf, Has, Writable, ModePart, RegisterPart, Opcode, Same, OpFields, Sizes, Shown, D.LineOf,
      D.Reg9, D.Mode6, D.OpSz, D.Bit8, D.Bit7, D.Bit5, D.Mode3, D.Reg0, D.Adrm0, D.Condition, D.EaOperand,
      D.EaError, D.EaSize, D.ListLine, D.Length, D.Ea0, D.ListOperand, Alone, First, Second, LowAt, WordStored;
    FlagsAre(src);
    NoWords(t);
    if op.Check? {
      OneListed(t, src, w, mem, mask, at, D.SZ_WORD, "CHK", D.SZ_NDEF, [], [D.DataReg(D.Reg9(w))]);
      L.Check(mem, mask, at, w);
    } else {
      var name := (if D.LineOf(w) == 0xc then "MUL" else "DIV") + if D.Bit8(w) then "S" else "U";
      OneListed(t, src, w, mem, mask, at, D.SZ_WORD, name, D.SZ_NDEF, [], [D.DataReg(D.Reg9(w))]);
      L.MultiplyOrDivide(mem, mask, at, w);
    }
  }

  lemma ModeNonZero(o: Operand)
    requires Writable(o)
    ensures Has(o, CONTROL) ==> ModePart(o) != 0
    ensures !o.DataReg? && !o.AddrReg? ==> ModePart(o) >= 2
    ensures ModePart(o) == 1 <==> o.AddrReg?
    ensures o.AddrReg? ==> RegisterPart(o) == o.n
  {}

  lemma FromSrListed(op: Op, t: nat, src: Operand, dst: Operand, w: nat, mem: D.Memory, mask: nat, at: int)
    requires op.FromSr?
    requires Given(op, t, src, dst, w, mem, mask, at)
    ensures Settled(op, t, src, dst, mask, at, D.ListLine(mem, mask, at, w), D.Length(w))
  {
    hide OpMode, ModeOf, Has, Writable, ModePart, RegisterPart, Opcode, Same, OpFields, Sizes, Shown, D.LineOf,
      D.Reg9, D.Mode6, D.OpSz, D.Bit8, D.Bit7, D.Bit5, D.Mode3, D.Reg0, D.Adrm0, D.Condition, D.EaOperand,
      D.EaError, D.EaSize, D.ListLine, D.Length, D.Ea0, D.ListOperand, Alone, First, Second, LowAt, WordStored;
    FlagsAre(src);
    NoWords(t);
    ModeAt(src, w);
    L.FromStatus(mem, mask, at, w);
    if Changeable(src) {
      OneListed(t, src, w, mem, mask, at, D.SZ_NDEF, "MOVE", D.SZ_NDEF, [D.SpecialReg("SR")], []);
      NoImmediate(w, mem, mask, at, D.SZ_WORD, D.SZ_NDEF, "MOVE", D.SZ_NDEF, [D.SpecialReg("SR")], []);
    }
  }

  lemma FromCcrListed(op: Op, t: nat, src: Operand, dst: Operand, w: nat, mem: D.Memory, mask: nat, at: int)
    requires op.FromCcr?
    requires Given(op, t, src, dst, w, mem, mask, at)
    ensures Settled(op, t, src, dst, mask, at, D.ListLine(mem, mask, at, w), D.Length(w))
  {
    hide OpMode, ModeOf, Has, Writable, ModePart, RegisterPart, Opcode, Same, OpFields, Sizes, Shown, D.LineOf,
      D.Reg9, D.Mode6, D.OpSz, D.Bit8, D.Bit7, D.Bit5, D.Mode3, D.Reg0, D.Adrm0, D.Condition, D.EaOperand,
      D.EaError, D.EaSize, D.ListLine, D.Length, D.Ea0, D.ListOperand, Alone, First, Second, LowAt, WordStored;
    FlagsAre(src);
    ModeAt(src, w);
    L.FromStatus(mem, mask, at, w);
    if Changeable(src) {
      ListedName(w, mem, mask, at, D.SZ_NDEF, "CLR", D.OpSz(w), [], []);
    }
  }

  lemma ToStatusRegisterListed(op: Op, t: nat, src: Operand, dst: Operand, w: nat, mem: D.Memory, mask: nat, at: int)
    requires op.ToSr? || (op.ToCcr? && !(src.Imm? && t == D.SZ_WORD))
    requires Given(op, t, src, dst, w, mem, mask, at)
    ensures Settled(op, t, src, dst, mask, at, D.ListLine(mem, mask, at, w), D.Length(w))
  {
    hide OpMode, ModeOf, Has, Writable, ModePart, RegisterPart, Opcode, Same, OpFields, Sizes, Shown, D.LineOf,
      D.Reg9, D.Mode6, D.OpSz, D.Bit8, D.Bit7, D.Bit5, D.Mode3, D.Reg0, D.Adrm0, D.Condition, D.EaOperand,
      D.EaError, D.EaSize, D.ListLine, D.Length, D.Ea0, D.ListOperand, Alone, First, Second, LowAt, WordStored;
    FlagsAre(src);
    NoWords(t);
    ModeAt(src, w);
    L.ToStatus(mem, mask, at, w);
    ByteAsWord(w);
    if op.ToSr? && !src.AddrReg? {
      OneListed(t, src, w, mem, mask, at, D.SZ_WORD, "MOVE", D.SZ_NDEF, [], [D.SpecialReg("SR")]);
    } else if !src.AddrReg? {
      OneListed(t, src, w, mem, mask, at, D.SZ_BYTE, "MOVE", D.SZ_NDEF, [], [D.SpecialReg("CCR")]);
      SameAnySize(t, mask, at, src, D.SpecialReg("CCR"), D.ListLine(mem, mask, at, w).ops);
    }
  }

  /** Without an immediate its size does not matter. */
  lemma NoImmediate(w: nat, mem: D.Memory, mask: nat, at: int, sz: nat, sz': nat, name: string, size: nat,
        before: seq<Operand>, after: seq<Operand>)
    requires D.Adrm0(w) < D.MODE_IMM
    ensures D.ListOperand(mem, mask, at, w, sz, name, size, before, after)
            == D.ListOperand(mem, mask, at, w, sz', name, size, before, after)
    ensures D.Ea0(w, sz) == D.Ea0(w, sz')
  {
    hide D.Adrm0, D.Reg0, D.SW, D.SL, D.S8, D.Masked, D.BadWord, D.BadLong, D.BadImmediate;
  }

  lemma ListedName(w: nat, mem: D.Memory, mask: nat, at: int, sz: nat, name: string, size: nat,
        before: seq<Operand>, after: seq<Operand>)
    requires D.Adrm0(w) <= D.MODE_IMM
    ensures D.ListOperand(mem, mask, at, w, sz, name, size, before, after).name == name
  {
    hide D.Adrm0, D.Reg0, D.EaOperand, D.EaError;
  }

  lemma ByteAsWord(w: nat)
    ensures D.Ea0(w, D.SZ_BYTE) == D.Ea0(w, D.SZ_WORD)
  {
    hide D.Adrm0;
  }

  /** Sameness of an operand that is no immediate, or one of a byte, as a byte. */
  lemma SameAnySize(t: nat, mask: nat, at: int, o: Operand, other: Operand, ops: seq<Operand>)
    requires First(t, mask, at, o, other, ops) && (o.Imm? ==> t == D.SZ_BYTE)
    ensures First(D.SZ_BYTE, mask, at, o, other, ops)
  {
    hide OperandValue, D.Masked;
  }

  /** A word moved to CCR is read as a byte: an error unless it is one. */
  lemma WordToCcrListed(op: Op, t: nat, src: Operand, dst: Operand, w: nat, mem: D.Memory, mask: nat, at: int)
    requires op.ToCcr? && src.Imm? && t == D.SZ_WORD
    requires Given(op, t, src, dst, w, mem, mask, at)
    ensures Settled(op, t, src, dst, mask, at, D.ListLine(mem, mask, at, w), D.Length(w))
  {
    hide OpMode, ModeOf, Has, Writable, ModePart, RegisterPart, Opcode, Same, OpFields, Sizes, Shown, D.LineOf,
      D.Reg9, D.Mode6, D.OpSz, D.Bit8, D.Bit7, D.Bit5, D.Mode3, D.Reg0, D.Adrm0, D.Condition, D.EaOperand,
      D.EaError, D.EaSize, D.ListLine, D.Length, D.Ea0, D.ListOperand, Alone, First, Second, LowAt;
    FlagsAre(src);
    NoWords(t);
    ModeAt(src, w);
    L.ToStatus(mem, mask, at, w);
    ImmediateAt(t, src, mem, mask, at);
    ByteOfWord(src.v, mem, mask, at, w);
    WordSize(t, src, w, D.SZ_WORD);
  }

  lemma WordSize(t: nat, o: Operand, w: nat, sz: nat)
    requires o.Imm? && t <= D.SZ_WORD && D.Adrm0(w) == D.MODE_IMM && sz <= D.SZ_WORD
    ensures D.Ea0(w, sz) == 2 == Sizes(OpFields(t, o))
  {
    hide D.Adrm0;
    assert OpFields(t, o)[1..] == [];
  }

  lemma ByteOfWord(v: int, mem: D.Memory, mask: nat, at: int, w: nat)
    requires -32768 <= v <= 65535 && D.SW(mem, at) == D.S16(v) && !D.BadWord(mem, at) && D.Adrm0(w) == D.MODE_IMM
    ensures var l := D.ListOperand(mem, mask, at, w, D.SZ_BYTE, "MOVE", D.SZ_NDEF, [], [D.SpecialReg("CCR")]);
            && l.name == "MOVE" && l.size == D.SZ_NDEF && (l.error <==> !(-128 <= v <= 255 || v >= 0xff80))
            && (!l.error ==> First(D.SZ_BYTE, mask, at, D.Imm(v), D.SpecialReg("CCR"), l.ops))
  {
    hide D.SW, D.BadWord, D.Adrm0, D.Reg0, D.S8, D.S16;
    EaImmediate(mem, mask, at, D.Reg0(w));
    ByteIfByte(v);
  }

  lemma ByteIfByte(v: int)
    requires -32768 <= v <= 65535
    ensures var w := D.S16(v);
            var b := D.S8(w);
            && (D.BadImmediate(w) <==> !(-128 <= v <= 255 || v >= 0xff80))
            && (v - (if b < -0x3f then b % 256 else b)) % 256 == 0
  {
    hide D.S8, D.BadImmediate;
    var w := if v < 32768 then v else v - 0x1_0000;
    assert D.S16(v) == w;
    BadByte(w, w / 256, w % 256);
  }

  lemma BadByte(w: int, h: int, lo: int)
    requires w == h * 256 + lo && -128 <= h < 128 && 0 <= lo < 256
    ensures D.S8(w) == (if lo < 128 then lo else lo - 256)
    ensures D.BadImmediate(w) <==> !(-128 <= w <= 255)
  {
    AddMultiple(lo + 128, h, 256);
    DivUnique(w, 256, h, lo);
    assert D.S8(w) == (lo + 128) % 256 - 128;
  }

  lemma ToDataListed(op: Op, t: nat, src: Operand, dst: Operand, w: nat, mem: D.Memory, mask: nat, at: int)
    requires op.ToData?
    requires Given(op, t, src, dst, w, mem, mask, at)
    ensures Settled(op, t, src, dst, mask, at, D.ListLine(mem, mask, at, w), D.Length(w))
  {
    hide OpMode, ModeOf, Has, Writable, ModePart, RegisterPart, Opcode, Same, OpFields, Sizes, Shown, D.LineOf,
      D.Reg9, D.Mode6, D.OpSz, D.Bit8, D.Bit7, D.Bit5, D.Mode3, D.Reg0, D.Adrm0, D.Condition, D.EaOperand,
      D.EaError, D.EaSize, D.ListLine, D.Length, D.Ea0, D.ListOperand, Alone, First, Second, LowAt, WordStored;
    FlagsAre(src);
    NoWords(t);
    OneListed(t, src, w, mem, mask, at, D.OpSz(w), AluName(op.alu), D.OpSz(w), [], [D.DataReg(D.Reg9(w))]);
    L.ToDataRegister(mem, mask, at, w, AluName(op.alu));
  }

  lemma ToAddressListed(op: Op, t: nat, src: Operand, dst: Operand, w: nat, mem: D.Memory, mask: nat, at: int)
    requires op.ToAddress?
    requires Given(op, t, src, dst, w, mem, mask, at)
    ensures Settled(op, t, src, dst, mask, at, D.ListLine(mem, mask, at, w), D.Length(w))
  {
    hide OpMode, ModeOf, Has, Writable, ModePart, RegisterPart, Opcode, Same, OpFields, Sizes, Shown, D.LineOf,
      D.Reg9, D.Mode6, D.OpSz, D.Bit8, D.Bit7, D.Bit5, D.Mode3, D.Reg0, D.Adrm0, D.Condition, D.EaOperand,
      D.EaError, D.EaSize, D.ListLine, D.Length, D.Ea0, D.ListOperand, Alone, First, Second, LowAt, WordStored;
    FlagsAre(src);
    NoWords(t);
    ModeNonZero(src);
    OneListed(t, src, w, mem, mask, at, t, AluName(op.alu) + "A", t, [], [D.AddrReg(D.Reg9(w))]);
    L.ToAddressRegister(mem, mask, at, w, AluName(op.alu) + "A");
  }

  lemma FromDataListed(op: Op, t: nat, src: Operand, dst: Operand, w: nat, mem: D.Memory, mask: nat, at: int)
    requires op.FromData?
    requires Given(op, t, src, dst, w, mem, mask, at)
    ensures Settled(op, t, src, dst, mask, at, D.ListLine(mem, mask, at, w), D.Length(w))
  {
    hide OpMode, ModeOf, Has, Writable, ModePart, RegisterPart, Opcode, Same, OpFields, Sizes, Shown, D.LineOf,
      D.Reg9, D.Mode6, D.OpSz, D.Bit8, D.Bit7, D.Bit5, D.Mode3, D.Reg0, D.Adrm0, D.Condition, D.EaOperand,
      D.EaError, D.EaSize, D.ListLine, D.Length, D.Ea0, D.ListOperand, Alone, First, Second, LowAt, WordStored;
    FlagsAre(src);
    NoWords(t);
    ModeNonZero(src);
    OneListed(t, src, w, mem, mask, at, D.OpSz(w), AluName(op.alu), D.OpSz(w), [D.DataReg(D.Reg9(w))], []);
    L.FromDataRegister(mem, mask, at, w, AluName(op.alu));
  }

  lemma BitByListed(op: Op, t: nat, src: Operand, dst: Operand, w: nat, mem: D.Memory, mask: nat, at: int)
    requires op.BitBy?
    requires Given(op, t, src, dst, w, mem, mask, at)
    ensures Settled(op, t, src, dst, mask, at, D.ListLine(mem, mask, at, w), D.Length(w))
  {
    hide OpMode, ModeOf, Has, Writable, ModePart, RegisterPart, Opcode, Same, OpFields, Sizes, Shown, D.LineOf,
      D.Reg9, D.Mode6, D.OpSz, D.Bit8, D.Bit7, D.Bit5, D.Mode3, D.Reg0, D.Adrm0, D.Condition, D.EaOperand,
      D.EaError, D.EaSize, D.ListLine, D.Length, D.Ea0, D.ListOperand, Alone, First, Second, LowAt, WordStored;
    FlagsAre(src);
    NoWords(t);
    ModeNonZero(src);
    ModeAt(src, w);
    L.BitByRegister(mem, mask, at, w);
    if Has(src, ALTERABLE) {
      OneListed(t, src, w, mem, mask, at, D.SZ_NDEF, D.BIT_OPS[D.OpSz(w)], D.SZ_NDEF, [D.DataReg(D.Reg9(w))], []);
    }
  }

  lemma BitAtListed(op: Op, t: nat, src: Operand, dst: Operand, w: nat, mem: D.Memory, mask: nat, at: int)
    requires op.BitAt?
    requires Given(op, t, src, dst, w, mem, mask, at)
    ensures Settled(op, t, src, dst, mask, at, D.ListLine(mem, mask, at, w), D.Length(w))
  {
    hide OpMode, ModeOf, Has, Writable, ModePart, RegisterPart, Opcode, Same, OpFields, Sizes, Shown, D.LineOf,
      D.Reg9, D.Mode6, D.OpSz, D.Bit8, D.Bit7, D.Bit5, D.Mode3, D.Reg0, D.Adrm0, D.Condition, D.EaOperand,
      D.EaError, D.EaSize, D.ListLine, D.Length, D.Ea0, D.ListOperand, Alone, First, Second, LowAt;
    FlagsAre(dst);
    ModeAt(dst, w);
    L.BitByNumber(mem, mask, at, w);
    WordSizes(t, src);
    if Has(dst, ALTERABLE) {
      OperandAt(t, dst, w, mem, mask, at + 2, D.SZ_NDEF);
      LowByte(src.v, mem, at);
      SecondIs(t, mask, at + 2, D.Imm(src.v % 256), dst, D.ListLine(mem, mask, at, w).ops);
      SizeAt(w, D.SZ_NDEF);
    }
  }

  lemma SecondIs(t: nat, mask: nat, at: int, other: Operand, o: Operand, ops: seq<Operand>)
    requires |ops| == 2 && ops[0] == other && Same(t, mask, at, o, ops[1])
    ensures Second(t, mask, at, other, o, ops)
  {
    hide Same;
  }

  lemma FirstIs(t: nat, mask: nat, at: int, o: Operand, other: Operand, ops: seq<Operand>)
    requires |ops| == 2 && ops[1] == other && Same(t, mask, at, o, ops[0])
    ensures First(t, mask, at, o, other, ops)
  {
    hide Same;
  }

  lemma SizeAt(w: nat, sz: nat)
    ensures D.Ea0(w, sz) == D.EaSize(D.Adrm0(w), sz)
  {
    hide D.Adrm0, D.EaSize;
  }

  lemma WordSizes(t: nat, o: Operand)
    requires o.Imm? && t <= D.SZ_WORD
    ensures Sizes(OpFields(t, o)) == 2
  {
    assert OpFields(t, o)[1..] == [];
  }

  lemma LowByte(v: int, mem: D.Memory, at: int)
    requires -32768 <= v <= 65535 && D.SW(mem, at) == D.S16(v)
    ensures D.SW(mem, at) % 256 == v % 256 && D.SW(mem, at) % 0x1_0000 == v % 0x1_0000
  {
    hide D.SW;
  }

  lemma ImmediateToListed(op: Op, t: nat, src: Operand, dst: Operand, w: nat, mem: D.Memory, mask: nat, at: int)
    requires op.ImmediateTo?
    requires Given(op, t, src, dst, w, mem, mask, at)
    ensures Settled(op, t, src, dst, mask, at, D.ListLine(mem, mask, at, w), D.Length(w))
  {
    hide OpMode, ModeOf, Has, Writable, ModePart, RegisterPart, Opcode, Same, OpFields, Sizes, Shown, D.LineOf,
      D.Reg9, D.Mode6, D.OpSz, D.Bit8, D.Bit7, D.Bit5, D.Mode3, D.Reg0, D.Adrm0, D.Condition, D.EaOperand,
      D.EaError, D.EaSize, D.ListLine, D.Length, D.Ea0, D.ListOperand, Alone, First, Second, LowAt, WordStored;
    FlagsAre(dst);
    ModeAt(dst, w);
    L.ImmediateTo(mem, mask, at, w);
    ImmediateAt(t, src, mem, mask, at);
    OperandAt(t, dst, w, mem, mask, at + Sizes(OpFields(t, src)), D.SZ_NDEF);
    SizeAt(w, D.SZ_NDEF);
  }

  lemma ToStatusListed(op: Op, t: nat, src: Operand, dst: Operand, w: nat, mem: D.Memory, mask: nat, at: int)
    requires op.ToStatus? && src.Imm?
    requires Given(op, t, src, dst, w, mem, mask, at)
    ensures Settled(op, t, src, dst, mask, at, D.ListLine(mem, mask, at, w), D.Length(w))
  {
    hide OpMode, ModeOf, Has, Writable, ModePart, RegisterPart, Opcode, Same, OpFields, Sizes, Shown, D.LineOf,
      D.Reg9, D.Mode6, D.OpSz, D.Bit8, D.Bit7, D.Bit5, D.Mode3, D.Reg0, D.Adrm0, D.Condition, D.EaOperand,
      D.EaError, D.EaSize, D.ListLine, D.Length, D.Ea0, D.ListOperand, Alone, First, Second, LowAt, AluName,
      ImmediateReg;
    NoWords(t);
    ConstantMode(w);
    ImmediateName(op.alu);
    L.ImmediateToStatus(mem, mask, at, w);
    WordSizes(t, src);
    ImmediateWord(t, src.v, mem, mask, at, w, AluName(op.alu) + "I", D.SpecialReg(if op.sr then "SR" else "CCR"));
  }

  lemma ToStatusWithout(op: Op, t: nat, src: Operand, dst: Operand, w: nat, mem: D.Memory, mask: nat, at: int)
    requires op.ToStatus? && !src.Imm?
    requires Given(op, t, src, dst, w, mem, mask, at)
    ensures Settled(op, t, src, dst, mask, at, D.ListLine(mem, mask, at, w), D.Length(w))
  {
    hide OpMode, ModeOf, Has, Writable, ModePart, RegisterPart, Opcode, Same, OpFields, Sizes, Shown, D.LineOf,
      D.Reg9, D.Mode6, D.OpSz, D.Bit8, D.Bit7, D.Bit5, D.Mode3, D.Reg0, D.Adrm0, D.Condition, D.EaOperand,
      D.EaError, D.EaSize, D.ListLine, D.Length, D.Ea0, D.ListOperand, Alone, First, Second, LowAt, WordStored,
      AluName, ImmediateReg;
    ConstantMode(w);
    ImmediateName(op.alu);
    L.ImmediateToStatus(mem, mask, at, w);
    ListedName(w, mem, mask, at, D.SZ_WORD, AluName(op.alu) + "I", D.SZ_NDEF, [],
      [D.SpecialReg(if op.sr then "SR" else "CCR")]);
  }

  lemma ImmediateName(alu: Alu)
    ensures D.IMMEDIATE_OPS[ImmediateReg(alu)] == AluName(alu) + "I"
    ensures alu in {AluOr, AluEor, AluAnd} ==> ImmediateReg(alu) in {0, 1, 5}
  {}

  lemma ConstantMode(w: nat)
    requires D.Mode3(w) == 7 && D.Reg0(w) == 4
    ensures D.Adrm0(w) == D.MODE_IMM
  {}

  /** An immediate of a byte or a word, read as a word. */
  lemma ImmediateWord(t: nat, v: int, mem: D.Memory, mask: nat, at: int, w: nat, name: string, other: Operand)
    requires t <= D.SZ_WORD && -32768 <= v <= 65535 && (t == D.SZ_BYTE ==> -128 <= v <= 255)
    requires D.SW(mem, at) == D.S16(v) && !D.BadWord(mem, at) && D.Adrm0(w) == D.MODE_IMM
    ensures var l := D.ListOperand(mem, mask, at, w, D.SZ_WORD, name, D.SZ_NDEF, [], [other]);
            && l.name == name && l.size == D.SZ_NDEF && !l.error && First(t, mask, at, D.Imm(v), other, l.ops)
  {
    hide D.SW, D.BadWord, D.Adrm0, D.Reg0, D.S16;
    EaImmediate(mem, mask, at, D.Reg0(w));
    WordImmediate(v);
    var s := D.S16(v);
    AsByte(v - (if s < -0x3fff then s % 0x1_0000 else s));
  }

  lemma AsByte(d: int)
    requires d % 0x1_0000 == 0
    ensures d % 0x100 == 0
  {}

  lemma ManyListed(op: Op, t: nat, src: Operand, dst: Operand, w: nat, mem: D.Memory, mask: nat, at: int)
    requires op.LoadMany? || op.StoreMany?
    requires Given(op, t, src, dst, w, mem, mask, at)
    ensures Settled(op, t, src, dst, mask, at, D.ListLine(mem, mask, at, w), D.Length(w))
  {
    hide OpMode, ModeOf, Has, Writable, ModePart, RegisterPart, Opcode, Same, OpFields, Sizes, Shown, D.LineOf,
      D.Reg9, D.Mode6, D.OpSz, D.Bit8, D.Bit7, D.Bit5, D.Mode3, D.Reg0, D.Adrm0, D.Condition, D.EaOperand,
      D.EaError, D.EaSize, D.ListLine, D.Length, D.Ea0, D.ListOperand, Alone, First, Second, LowAt, D.SW,
      D.BadWord;
    FlagsAre(dst);
    ModeAt(dst, w);
    SteppedDown(w);
    L.Many(mem, mask, at, w);
    WordSizes(t, src);
    LowByte(src.v, mem, at);
    OperandAt(t, dst, w, mem, mask, at + 2, D.SZ_NDEF);
    SizeAt(w, D.SZ_NDEF);
    var regs, ops := D.RegList(src.v % 0x1_0000, op.StoreMany? && dst.PreDec?), D.ListLine(mem, mask, at, w).ops;
    if op.LoadMany? { FirstIs(t, mask, at + 2, dst, regs, ops); } else { SecondIs(t, mask, at + 2, regs, dst, ops); }
  }

  lemma SteppedDown(w: nat)
    ensures D.Adrm0(w) == 4 <==> D.Mode3(w) == 4
    ensures D.Adrm0(w) != 0 ==> D.Mode3(w) != 0
  {}

  lemma ApartListed(op: Op, t: nat, src: Operand, dst: Operand, w: nat, mem: D.Memory, mask: nat, at: int)
    requires op.LoadApart? || op.StoreApart?
    requires Given(op, t, src, dst, w, mem, mask, at)
    ensures Settled(op, t, src, dst, mask, at, D.ListLine(mem, mask, at, w), D.Length(w))
  {
    hide OpMode, ModeOf, Has, Writable, ModePart, RegisterPart, Opcode, Same, OpFields, Sizes, Shown, D.LineOf,
      D.Reg9, D.Mode6, D.OpSz, D.Bit8, D.Bit7, D.Bit5, D.Mode3, D.Reg0, D.Adrm0, D.Condition, D.EaOperand,
      D.EaError, D.EaSize, D.ListLine, D.Length, D.Ea0, D.ListOperand, Alone, First, Second, LowAt, WordStored;
    NoWords(t);
    RegisterOf(src);
    L.Peripheral(mem, mask, at, w);
    DisplacementAt(t, src, mem, mask, at);
    var l := D.ListLine(mem, mask, at, w);
    var d := D.DataReg(op.n);
    if op.LoadApart? { FirstIs(t, mask, at, src, d, l.ops); } else { SecondIs(t, mask, at, d, src, l.ops); }
  }

  lemma DisplacementAt(t: nat, o: Operand, mem: D.Memory, mask: nat, at: int)
    requires o.Disp? && o.n < 8 && Shown(t, o, mem, mask, at)
    ensures Same(t, mask, at, o, D.EaOperand(mem, mask, at, D.MODE_DAN, o.n, D.SZ_NDEF))
    ensures !D.EaError(mem, at, D.MODE_DAN, D.SZ_NDEF) && Sizes(OpFields(t, o)) == 2
  {
    AnySize(o, mem, mask, at, o.n, D.SZ_NDEF, t);
    assert OpMode(o) % 8 == o.n;
    hide Same, D.EaOperand, D.EaError;
  }

  lemma RegisterOf(o: Operand)
    requires o.Disp? && Writable(o)
    ensures o.n < 8 && RegisterPart(o) == o.n
  {}

  lemma WordListed(op: Op, t: nat, src: Operand, dst: Operand, w: nat, mem: D.Memory, mask: nat, at: int)
    requires op.Link? || op.Stop?
    requires Given(op, t, src, dst, w, mem, mask, at)
    ensures Settled(op, t, src, dst, mask, at, D.ListLine(mem, mask, at, w), D.Length(w))
  {
    hide OpMode, ModeOf, Has, Writable, ModePart, RegisterPart, Opcode, Same, OpFields, Sizes, Shown, D.LineOf,
      D.Reg9, D.Mode6, D.OpSz, D.Bit8, D.Bit7, D.Bit5, D.Mode3, D.Reg0, D.Adrm0, D.Condition, D.EaOperand,
      D.EaError, D.EaSize, D.ListLine, D.Length, D.Ea0, D.ListOperand, Alone, First, Second, LowAt, WordStored;
    NoWords(t);
    L.Special(mem, mask, at, w);
    ImmediateAt(t, src, mem, mask, at);
    WordSizes(t, src);
    var l := D.ListLine(mem, mask, at, w);
    if op.Link? { SecondIs(t, mask, at, D.AddrReg(op.n), src, l.ops); } else { AloneIs(t, mask, at, src, l.ops); }
  }

  lemma TrapListed(op: Op, t: nat, src: Operand, dst: Operand, w: nat, mem: D.Memory, mask: nat, at: int)
    requires op.Trap?
    requires Given(op, t, src, dst, w, mem, mask, at)
    ensures Settled(op, t, src, dst, mask, at, D.ListLine(mem, mask, at, w), D.Length(w))
  {
    hide OpMode, ModeOf, Has, Writable, ModePart, RegisterPart, Opcode, Same, OpFields, Sizes, Shown, D.LineOf,
      D.Reg9, D.Mode6, D.OpSz, D.Bit8, D.Bit7, D.Bit5, D.Mode3, D.Reg0, D.Adrm0, D.Condition, D.EaOperand,
      D.EaError, D.EaSize, D.ListLine, D.Length, D.Ea0, D.ListOperand, Alone, First, Second, WordStored;
    FourBits(LowFour(op.v));
    NoWords(t);
    L.Special(mem, mask, at, w);
  }

  lemma UnlinkListed(op: Op, t: nat, src: Operand, dst: Operand, w: nat, mem: D.Memory, mask: nat, at: int)
    requires op.Unlink?
    requires Given(op, t, src, dst, w, mem, mask, at)
    ensures Settled(op, t, src, dst, mask, at, D.ListLine(mem, mask, at, w), D.Length(w))
  {
    hide OpMode, ModeOf, Has, Writable, ModePart, RegisterPart, Opcode, Same, OpFields, Sizes, Shown, D.LineOf,
      D.Reg9, D.Mode6, D.OpSz, D.Bit8, D.Bit7, D.Bit5, D.Mode3, D.Reg0, D.Adrm0, D.Condition, D.EaOperand,
      D.EaError, D.EaSize, D.ListLine, D.Length, D.Ea0, D.ListOperand, Alone, First, Second, LowAt, WordStored;
    NoWords(t);
    L.Special(mem, mask, at, w);
  }

  lemma UspListed(op: Op, t: nat, src: Operand, dst: Operand, w: nat, mem: D.Memory, mask: nat, at: int)
    requires op.ToUsp? || op.FromUsp?
    requires Given(op, t, src, dst, w, mem, mask, at)
    ensures Settled(op, t, src, dst, mask, at, D.ListLine(mem, mask, at, w), D.Length(w))
  {
    hide OpMode, ModeOf, Has, Writable, ModePart, RegisterPart, Opcode, Same, OpFields, Sizes, Shown, D.LineOf,
      D.Reg9, D.Mode6, D.OpSz, D.Bit8, D.Bit7, D.Bit5, D.Mode3, D.Reg0, D.Adrm0, D.Condition, D.EaOperand,
      D.EaError, D.EaSize, D.ListLine, D.Length, D.Ea0, D.ListOperand, Alone, First, Second, LowAt, WordStored;
    NoWords(t);
    L.Special(mem, mask, at, w);
  }

  lemma PlainListed(op: Op, t: nat, src: Operand, dst: Operand, w: nat, mem: D.Memory, mask: nat, at: int)
    requires op.Reset? || op.NoOperation? || op.ReturnException?
    requires Given(op, t, src, dst, w, mem, mask, at)
    ensures Settled(op, t, src, dst, mask, at, D.ListLine(mem, mask, at, w), D.Length(w))
  {
    hide OpMode, ModeOf, Has, Writable, ModePart, RegisterPart, Opcode, Same, OpFields, Sizes, Shown, D.LineOf,
      D.Reg9, D.Mode6, D.OpSz, D.Bit8, D.Bit7, D.Bit5, D.Mode3, D.Reg0, D.Adrm0, D.Condition, D.EaOperand,
      D.EaError, D.EaSize, D.ListLine, D.Length, D.Ea0, D.ListOperand, Alone, First, Second, LowAt, WordStored;
    NoWords(t);
    L.Special(mem, mask, at, w);
  }

  lemma ReturnListed(op: Op, t: nat, src: Operand, dst: Operand, w: nat, mem: D.Memory, mask: nat, at: int)
    requires op.ReturnSubroutine? || op.TrapOverflow? || op.ReturnRestore?
    requires Given(op, t, src, dst, w, mem, mask, at)
    ensures Settled(op, t, src, dst, mask, at, D.ListLine(mem, mask, at, w), D.Length(w))
  {
    hide OpMode, ModeOf, Has, Writable, ModePart, RegisterPart, Opcode, Same, OpFields, Sizes, Shown, D.LineOf,
      D.Reg9, D.Mode6, D.OpSz, D.Bit8, D.Bit7, D.Bit5, D.Mode3, D.Reg0, D.Adrm0, D.Condition, D.EaOperand,
      D.EaError, D.EaSize, D.ListLine, D.Length, D.Ea0, D.ListOperand, Alone, First, Second, LowAt, WordStored;
    NoWords(t);
    L.Special(mem, mask, at, w);
  }

  lemma AloneIs(t: nat, mask: nat, at: int, o: Operand, ops: seq<Operand>)
    requires |ops| == 1 && Same(t, mask, at, o, ops[0])
    ensures Alone(t, mask, at, o, ops)
  {
    hide Same;
  }

  lemma AddXListed(op: Op, t: nat, src: Operand, dst: Operand, w: nat, mem: D.Memory, mask: nat, at: int)
    requires op.AddX?
    requires Given(op, t, src, dst, w, mem, mask, at)
    ensures Settled(op, t, src, dst, mask, at, D.ListLine(mem, mask, at, w), D.Length(w))
  {
    hide OpMode, ModeOf, Has, Writable, ModePart, RegisterPart, Opcode, Same, OpFields, Sizes, Shown, D.LineOf,
      D.Reg9, D.Mode6, D.OpSz, D.Bit8, D.Bit7, D.Bit5, D.Mode3, D.Reg0, D.Adrm0, D.Condition, D.EaOperand,
      D.EaError, D.EaSize, D.ListLine, D.Length, D.Ea0, D.ListOperand, Alone, First, Second, LowAt, WordStored,
      D.ListRyRx;
    NoWords(t);
    RegisterMode(w);
    L.TwoRegisters(mem, mask, at, w);
    PairOf(w, op.memory, op.x, op.y, "ADDX", t);
  }

  lemma SubXListed(op: Op, t: nat, src: Operand, dst: Operand, w: nat, mem: D.Memory, mask: nat, at: int)
    requires op.SubX?
    requires Given(op, t, src, dst, w, mem, mask, at)
    ensures Settled(op, t, src, dst, mask, at, D.ListLine(mem, mask, at, w), D.Length(w))
  {
    hide OpMode, ModeOf, Has, Writable, ModePart, RegisterPart, Opcode, Same, OpFields, Sizes, Shown, D.LineOf,
      D.Reg9, D.Mode6, D.OpSz, D.Bit8, D.Bit7, D.Bit5, D.Mode3, D.Reg0, D.Adrm0, D.Condition, D.EaOperand,
      D.EaError, D.EaSize, D.ListLine, D.Length, D.Ea0, D.ListOperand, Alone, First, Second, LowAt, WordStored,
      D.ListRyRx;
    NoWords(t);
    RegisterMode(w);
    L.TwoRegisters(mem, mask, at, w);
    PairOf(w, op.memory, op.x, op.y, "SUBX", t);
  }

  lemma AddBcdListed(op: Op, t: nat, src: Operand, dst: Operand, w: nat, mem: D.Memory, mask: nat, at: int)
    requires op.AddBcd?
    requires Given(op, t, src, dst, w, mem, mask, at)
    ensures Settled(op, t, src, dst, mask, at, D.ListLine(mem, mask, at, w), D.Length(w))
  {
    hide OpMode, ModeOf, Has, Writable, ModePart, RegisterPart, Opcode, Same, OpFields, Sizes, Shown, D.LineOf,
      D.Reg9, D.Mode6, D.OpSz, D.Bit8, D.Bit7, D.Bit5, D.Mode3, D.Reg0, D.Adrm0, D.Condition, D.EaOperand,
      D.EaError, D.EaSize, D.ListLine, D.Length, D.Ea0, D.ListOperand, Alone, First, Second, LowAt, WordStored,
      D.ListRyRx;
    NoWords(t);
    RegisterMode(w);
    L.TwoRegisters(mem, mask, at, w);
    PairOf(w, op.memory, op.x, op.y, "ABCD", D.SZ_ADDR);
  }

  lemma SubBcdListed(op: Op, t: nat, src: Operand, dst: Operand, w: nat, mem: D.Memory, mask: nat, at: int)
    requires op.SubBcd?
    requires Given(op, t, src, dst, w, mem, mask, at)
    ensures Settled(op, t, src, dst, mask, at, D.ListLine(mem, mask, at, w), D.Length(w))
  {
    hide OpMode, ModeOf, Has, Writable, ModePart, RegisterPart, Opcode, Same, OpFields, Sizes, Shown, D.LineOf,
      D.Reg9, D.Mode6, D.OpSz, D.Bit8, D.Bit7, D.Bit5, D.Mode3, D.Reg0, D.Adrm0, D.Condition, D.EaOperand,
      D.EaError, D.EaSize, D.ListLine, D.Length, D.Ea0, D.ListOperand, Alone, First, Second, LowAt, WordStored,
      D.ListRyRx;
    NoWords(t);
    RegisterMode(w);
    L.TwoRegisters(mem, mask, at, w);
    PairOf(w, op.memory, op.x, op.y, "SBCD", D.SZ_ADDR);
  }

  lemma PairOf(w: nat, memory: bool, x: nat, y: nat, name: string, size: nat)
    requires D.Mode3(w) == (if memory then 1 else 0) && D.Reg0(w) == x && D.Reg9(w) == y
    ensures var l := D.ListRyRx(w, name, size);
            && l.name == name && l.size == size && !l.error
            && l.ops == if memory then [D.PreDec(x), D.PreDec(y)] else [D.DataReg(x), D.DataReg(y)]
  {
    hide D.Mode3, D.Reg0, D.Reg9;
  }

  lemma CompareListed(op: Op, t: nat, src: Operand, dst: Operand, w: nat, mem: D.Memory, mask: nat, at: int)
    requires op.CompareMemory?
    requires Given(op, t, src, dst, w, mem, mask, at)
    ensures Settled(op, t, src, dst, mask, at, D.ListLine(mem, mask, at, w), D.Length(w))
  {
    hide OpMode, ModeOf, Has, Writable, ModePart, RegisterPart, Opcode, Same, OpFields, Sizes, Shown, D.LineOf,
      D.Reg9, D.Mode6, D.OpSz, D.Bit8, D.Bit7, D.Bit5, D.Mode3, D.Reg0, D.Adrm0, D.Condition, D.EaOperand,
      D.EaError, D.EaSize, D.ListLine, D.Length, D.Ea0, D.ListOperand, Alone, First, Second, LowAt, WordStored;
    NoWords(t);
    RegisterMode(w);
    L.TwoRegisters(mem, mask, at, w);
  }

  lemma ExchangeListed(op: Op, t: nat, src: Operand, dst: Operand, w: nat, mem: D.Memory, mask: nat, at: int)
    requires op.ExchangeData? || op.ExchangeAddress?
    requires Given(op, t, src, dst, w, mem, mask, at)
    ensures Settled(op, t, src, dst, mask, at, D.ListLine(mem, mask, at, w), D.Length(w))
  {
    hide OpMode, ModeOf, Has, Writable, ModePart, RegisterPart, Opcode, Same, OpFields, Sizes, Shown, D.LineOf,
      D.Reg9, D.Mode6, D.OpSz, D.Bit8, D.Bit7, D.Bit5, D.Mode3, D.Reg0, D.Adrm0, D.Condition, D.EaOperand,
      D.EaError, D.EaSize, D.ListLine, D.Length, D.Ea0, D.ListOperand, Alone, First, Second, LowAt, WordStored;
    NoWords(t);
    RegisterMode(w);
    L.TwoRegisters(mem, mask, at, w);
  }

  lemma ExchangeBothListed(op: Op, t: nat, src: Operand, dst: Operand, w: nat, mem: D.Memory, mask: nat, at: int)
    requires op.ExchangeBoth?
    requires Given(op, t, src, dst, w, mem, mask, at)
    ensures Settled(op, t, src, dst, mask, at, D.ListLine(mem, mask, at, w), D.Length(w))
  {
    hide OpMode, ModeOf, Has, Writable, ModePart, RegisterPart, Opcode, Same, OpFields, Sizes, Shown, D.LineOf,
      D.Reg9, D.Mode6, D.OpSz, D.Bit8, D.Bit7, D.Bit5, D.Mode3, D.Reg0, D.Adrm0, D.Condition, D.EaOperand,
      D.EaError, D.EaSize, D.ListLine, D.Length, D.Ea0, D.ListOperand, Alone, First, Second, LowAt, WordStored;
    NoWords(t);
    RegisterMode(w);
    L.TwoRegisters(mem, mask, at, w);
  }

  lemma RegisterMode(w: nat)
    ensures D.Mode3(w) <= 1 ==> D.Adrm0(w) == D.Mode3(w)
  {}

  lemma ShiftMemoryListed(op: Op, t: nat, src: Operand, dst: Operand, w: nat, mem: D.Memory, mask: nat, at: int)
    requires op.ShiftMemory?
    requires Given(op, t, src, dst, w, mem, mask, at)
    ensures Settled(op, t, src, dst, mask, at, D.ListLine(mem, mask, at, w), D.Length(w))
  {
    hide OpMode, ModeOf, Has, Writable, ModePart, RegisterPart, Opcode, Same, OpFields, Sizes, Shown, D.LineOf,
      D.Reg9, D.Mode6, D.OpSz, D.Bit8, D.Bit7, D.Bit5, D.Mode3, D.Reg0, D.Adrm0, D.Condition, D.EaOperand,
      D.EaError, D.EaSize, D.ListLine, D.Length, D.Ea0, D.ListOperand, Alone, First, Second, LowAt, WordStored,
      ShiftName;
    FlagsAre(src);
    NoWords(t);
    ShiftNamed(op.kind, op.left);
    OneListed(t, src, w, mem, mask, at, D.SZ_NDEF, ShiftName(op.kind, op.left), D.SZ_NDEF, [], []);
    L.ShiftMemory(mem, mask, at, w);
  }

  lemma ShiftByListed(op: Op, t: nat, src: Operand, dst: Operand, w: nat, mem: D.Memory, mask: nat, at: int)
    requires op.ShiftBy?
    requires Given(op, t, src, dst, w, mem, mask, at)
    ensures Settled(op, t, src, dst, mask, at, D.ListLine(mem, mask, at, w), D.Length(w))
  {
    hide OpMode, ModeOf, Has, Writable, ModePart, RegisterPart, Opcode, Same, OpFields, Sizes, Shown, D.LineOf,
      D.Reg9, D.Mode6, D.OpSz, D.Bit8, D.Bit7, D.Bit5, D.Mode3, D.Reg0, D.Adrm0, D.Condition, D.EaOperand,
      D.EaError, D.EaSize, D.ListLine, D.Length, D.Ea0, D.ListOperand, Alone, First, Second, WordStored, ShiftName;
    NoWords(t);
    ShiftNamed(op.kind, op.left);
    L.ShiftData(mem, mask, at, w);
    CountListed(op.count);
  }

  lemma ShiftByRegisterListed(op: Op, t: nat, src: Operand, dst: Operand, w: nat, mem: D.Memory, mask: nat, at: int)
    requires op.ShiftByRegister?
    requires Given(op, t, src, dst, w, mem, mask, at)
    ensures Settled(op, t, src, dst, mask, at, D.ListLine(mem, mask, at, w), D.Length(w))
  {
    hide OpMode, ModeOf, Has, Writable, ModePart, RegisterPart, Opcode, Same, OpFields, Sizes, Shown, D.LineOf,
      D.Reg9, D.Mode6, D.OpSz, D.Bit8, D.Bit7, D.Bit5, D.Mode3, D.Reg0, D.Adrm0, D.Condition, D.EaOperand,
      D.EaError, D.EaSize, D.ListLine, D.Length, D.Ea0, D.ListOperand, Alone, First, Second, WordStored, ShiftName;
    NoWords(t);
    ShiftNamed(op.kind, op.left);
    L.ShiftData(mem, mask, at, w);
  }

  lemma ShiftNamed(kind: nat, left: bool)
    requires kind < 4
    ensures D.SHIFTS[kind] + (if left then "L" else "R") == ShiftName(kind, left)
  {}

  lemma CountListed(count: int)
    ensures var v := if count % 8 == 0 then 8 else count % 8; 1 <= v <= 8 && (v - count) % 8 == 0
  {}

  lemma LoneListed(op: Op, t: nat, src: Operand, dst: Operand, w: nat, mem: D.Memory, mask: nat, at: int)
    requires op.Extend? || op.Swap?
    requires Given(op, t, src, dst, w, mem, mask, at)
    ensures Settled(op, t, src, dst, mask, at, D.ListLine(mem, mask, at, w), D.Length(w))
  {
    hide OpMode, ModeOf, Has, Writable, ModePart, RegisterPart, Opcode, Same, OpFields, Sizes, Shown, D.LineOf,
      D.Reg9, D.Mode6, D.OpSz, D.Bit8, D.Bit7, D.Bit5, D.Mode3, D.Reg0, D.Adrm0, D.Condition, D.EaOperand,
      D.EaError, D.EaSize, D.ListLine, D.Length, D.Ea0, D.ListOperand, Alone, First, Second, LowAt, WordStored;
    NoWords(t);
    L.ExtendOrSwap(mem, mask, at, w);
  }

  lemma IllegalListed(op: Op, t: nat, src: Operand, dst: Operand, w: nat, mem: D.Memory, mask: nat, at: int)
    requires op.Illegal?
    requires Given(op, t, src, dst, w, mem, mask, at)
    ensures Settled(op, t, src, dst, mask, at, D.ListLine(mem, mask, at, w), D.Length(w))
  {
    hide OpMode, ModeOf, Has, Writable, ModePart, RegisterPart, Opcode, Same, OpFields, Sizes, Shown, D.LineOf,
      D.Reg9, D.Mode6, D.OpSz, D.Bit8, D.Bit7, D.Bit5, D.Mode3, D.Reg0, D.Adrm0, D.Condition, D.EaOperand,
      D.EaError, D.EaSize, D.ListLine, D.Length, D.Ea0, D.ListOperand, Alone, First, Second, LowAt, WordStored;
    NoWords(t);
    IllegalOpcode(t, src, dst);
    L.Illegal(mem, mask, at);
  }

  lemma IllegalOpcode(t: nat, src: Operand, dst: Operand)
    requires Takes(Illegal, t, src, dst)
    ensures Opcode(Illegal, t, src, dst) == 0x4afc
  {}

  /** Every instruction is listed as it was written, exactly when the two programs agree on it. */
  lemma OpcodeListed(op: Op, t: nat, src: Operand, dst: Operand, w: nat, mem: D.Memory, mask: nat, at: int)
    requires Given(op, t, src, dst, w, mem, mask, at)
    ensures Settled(op, t, src, dst, mask, at, D.ListLine(mem, mask, at, w), D.Length(w))
  {
    hide Given, Takes, FieldsOf, Opcode, At, Shown, WordStored, Settled, D.ListLine, D.Length;
    match op
    case Clear | Negate | NegateX | Complement | Test => UnaryListed(op, t, src, dst, w, mem, mask, at);
    case NegateBcd | TestAndSet => ByteListed(op, t, src, dst, w, mem, mask, at);
    case SetIf(_) => SetIfListed(op, t, src, dst, w, mem, mask, at);
    case Jump | Call | PushAddress | LoadAddress(_) => ControlListed(op, t, src, dst, w, mem, mask, at);
    case Check(_) | Multiply(_, _) | Divide(_, _) => ToRegisterListed(op, t, src, dst, w, mem, mask, at);
    case FromSr => FromSrListed(op, t, src, dst, w, mem, mask, at);
    case FromCcr => FromCcrListed(op, t, src, dst, w, mem, mask, at);
    case ToSr => ToStatusRegisterListed(op, t, src, dst, w, mem, mask, at);
    case ToCcr =>
      if src.Imm? && t == D.SZ_WORD { WordToCcrListed(op, t, src, dst, w, mem, mask, at); }
      else { ToStatusRegisterListed(op, t, src, dst, w, mem, mask, at); }
    case ToData(_, _) => ToDataListed(op, t, src, dst, w, mem, mask, at);
    case ToAddress(_, _) => ToAddressListed(op, t, src, dst, w, mem, mask, at);
    case FromData(_, _) => FromDataListed(op, t, src, dst, w, mem, mask, at);
    case BitBy(_, _) => BitByListed(op, t, src, dst, w, mem, mask, at);
    case BitAt(_) => BitAtListed(op, t, src, dst, w, mem, mask, at);
    case ImmediateTo(_) => ImmediateToListed(op, t, src, dst, w, mem, mask, at);
    case ToStatus(_, _) =>
      if src.Imm? { ToStatusListed(op, t, src, dst, w, mem, mask, at); }
      else { ToStatusWithout(op, t, src, dst, w, mem, mask, at); }
    case LoadMany(_) | StoreMany(_) => ManyListed(op, t, src, dst, w, mem, mask, at);
    case LoadApart(_, _) | StoreApart(_, _) => ApartListed(op, t, src, dst, w, mem, mask, at);
    case Link(_) | Stop => WordListed(op, t, src, dst, w, mem, mask, at);
    case Trap(_) => TrapListed(op, t, src, dst, w, mem, mask, at);
    case Unlink(_) => UnlinkListed(op, t, src, dst, w, mem, mask, at);
    case ToUsp(_) | FromUsp(_) => UspListed(op, t, src, dst, w, mem, mask, at);
    case Reset | NoOperation | ReturnException => PlainListed(op, t, src, dst, w, mem, mask, at);
    case ReturnSubroutine | TrapOverflow | ReturnRestore => ReturnListed(op, t, src, dst, w, mem, mask, at);
    case AddX(_, _, _) => AddXListed(op, t, src, dst, w, mem, mask, at);
    case SubX(_, _, _) => SubXListed(op, t, src, dst, w, mem, mask, at);
    case AddBcd(_, _, _) => AddBcdListed(op, t, src, dst, w, mem, mask, at);
    case SubBcd(_, _, _) => SubBcdListed(op, t, src, dst, w, mem, mask, at);
    case CompareMemory(_, _) => CompareListed(op, t, src, dst, w, mem, mask, at);
    case ExchangeData(_, _) | ExchangeAddress(_, _) => ExchangeListed(op, t, src, dst, w, mem, mask, at);
    case ExchangeBoth(_, _) => ExchangeBothListed(op, t, src, dst, w, mem, mask, at);
    case ShiftMemory(_, _) => ShiftMemoryListed(op, t, src, dst, w, mem, mask, at);
    case ShiftBy(_, _, _, _) => ShiftByListed(op, t, src, dst, w, mem, mask, at);
    case ShiftByRegister(_, _, _, _) => ShiftByRegisterListed(op, t, src, dst, w, mem, mask, at);
    case Extend(_) | Swap(_) => LoneListed(op, t, src, dst, w, mem, mask, at);
    case Illegal => IllegalListed(op, t, src, dst, w, mem, mask, at);
  }
}
