/** What the as68 assembler does in one pass: expressions, symbols, fields of code, and the table
    of places to relocate (as68/expression.c, as68/as68.c, as68/opcode.c). */
module Assembly {
  import opened BitStacks
  import opened Options
  import opened Words

  type Name = string

  /** A C int from any integer. */
  function Int32(x: int): (r: int)
    ensures -0x8000_0000 <= r < 0x8000_0000
  {
    (x + 0x8000_0000) % 0x1_0000_0000 - 0x8000_0000
  }

  /** What labels are moved by in the third pass. */
  const SHIFTED := 0x12345678

  const MAX_REL := 4096 * 3

  datatype BinOp = Mul | BitAnd | BitOr | BitXor | Equal | NotEqual | Less | AtMost | Greater | AtLeast | Both | Either

  datatype Expr =
    | Num(n: int)
    | Sym(name: Name)
    | Here                    // '*': where the line starts
    | Pc                      // where the next byte goes
    | Neg(e: Expr)
    | Com(e: Expr)
    | Not(e: Expr)
    | Add(a: Expr, b: Expr)
    | Sub(a: Expr, b: Expr)
    | Bin(op: BinOp, a: Expr, b: Expr)

  function BinValue(op: BinOp, a: int, b: int): int {
    match op
    case Mul => Int32(a * b)
    case BitAnd => Int32(Bitwise(AND, a % 0x1_0000_0000, b % 0x1_0000_0000))
    case BitOr => Int32(Bitwise(OR, a % 0x1_0000_0000, b % 0x1_0000_0000))
    case BitXor => Int32(Bitwise(XOR, a % 0x1_0000_0000, b % 0x1_0000_0000))
    case Equal => AsInt(a == b)
    case NotEqual => AsInt(a != b)
    case Less => AsInt(a < b)
    case AtMost => AsInt(a <= b)
    case Greater => AsInt(a > b)
    case AtLeast => AsInt(a >= b)
    case Both => AsInt(a != 0 && b != 0)
    case Either => AsInt(a != 0 || b != 0)
  }

  /** The left operand of `and` or `or` settles the value: the right one is not looked at. */
  predicate Decided(op: BinOp, a: int) {
    if a == 0 then op.Both? else op.Either?
  }

  /** A label or a variable: its value, and the one that the third pass uses. */
  datatype Symbol = Symbol(isLabel: bool, value: int, value2: int)

  datatype Mode = Mode(relocatable: bool, pass: nat, org: int) {
    predicate Third() { relocatable && pass == 3 }

    /** genB, genW, gen24 and putW store only then. */
    predicate Writes() { !relocatable || pass == 3 }
  }

  /** An expression's value; `undefined` is the flag notdef, `error` an error reported. */
  datatype Value = Value(v: int, undefined: bool, error: bool)

  function Eval(mode: Mode, syms: map<Name, Symbol>, here: int, pc: int, e: Expr): Value {
    match e
    case Num(n) => Value(Int32(n), false, false)
    case Sym(name) =>
      if name in syms then
        Value(if mode.Third() then syms[name].value2 else syms[name].value, false, false)
      else if mode.pass == 1 then Value(0, true, false)
      else Value(1, false, true)
    case Here => Value(Int32(here + mode.org), false, false)
    case Pc => Value(Int32(pc + mode.org), false, false)
    case Neg(a) => var x := Eval(mode, syms, here, pc, a); x.(v := Int32(0 - x.v))
    case Com(a) => var x := Eval(mode, syms, here, pc, a); x.(v := Int32(-1 - x.v))
    case Not(a) => var x := Eval(mode, syms, here, pc, a); x.(v := AsInt(x.v == 0))
    case Add(a, b) =>
      var x, y := Eval(mode, syms, here, pc, a), Eval(mode, syms, here, pc, b);
      Value(Int32(x.v + y.v), x.undefined || y.undefined, x.error || y.error)
    case Sub(a, b) =>
      var x, y := Eval(mode, syms, here, pc, a), Eval(mode, syms, here, pc, b);
      Value(Int32(x.v - y.v), x.undefined || y.undefined, x.error || y.error)
    case Bin(op, a, b) =>
      var x := Eval(mode, syms, here, pc, a);
      if Decided(op, x.v) then x.(v := AsInt(op.Either?)) else
      var y := Eval(mode, syms, here, pc, b);
      Value(BinValue(op, x.v, y.v), x.undefined || y.undefined, x.error || y.error)
  }

  /** How a value is laid down: as a byte, a word, the low byte of a fixed word, three bytes, or a
      long word, which alone can be relocated. */
  datatype Shape = ByteShape | WordShape | LowShape(base: nat) | TriShape | LongShape {
    function Size(): nat {
      match this
      case ByteShape => 1
      case WordShape | LowShape(_) => 2
      case TriShape => 3
      case LongShape => 4
    }

    function Bytes(a: int): (r: seq<Byte>)
      ensures |r| == Size()
    {
      match this
      case ByteShape => [a % 256]
      case WordShape => [a / 256 % 256, a % 256]
      case LowShape(base) => [(a % 256 + base) / 256 % 256, (a % 256 + base) % 256]
      case TriShape => [a / 0x1_0000 % 256, a / 256 % 256, a % 256]
      case LongShape => [a / 0x100_0000 % 256, a / 0x1_0000 % 256, a / 256 % 256, a % 256]
    }
  }

  /** One piece of code or data with its expression. */
  datatype Field =
    | FByte(e: Expr)                 // dc.b
    | FWord(e: Expr)                 // dc.w, #e of a word
    | FShort(e: Expr)                // e.w
    | FImmByte(e: Expr)              // #e of a byte
    | FDisp(e: Expr)                 // e(An), e(pc)
    | FIndex(e: Expr, base: nat)     // e(An,Rn), e(pc,Rn)
    | FRel(e: Expr)                  // a branch
    | FLoop(e: Expr)                 // dbcc
    | FRelShort(e: Expr, base: nat)  // a short branch, with its opcode
    | FQuick(e: Expr, base: nat)     // moveq, with its opcode
    | FTri(e: Expr)                  // dc.v
    | FLong(e: Expr)                 // dc.l, #e of a long, e.l
  {
    function Shape(): Shape {
      match this
      case FByte(_) => ByteShape
      case FWord(_) | FShort(_) | FImmByte(_) | FDisp(_) | FRel(_) | FLoop(_) => WordShape
      case FIndex(_, base) => LowShape(base)
      case FRelShort(_, base) => LowShape(base)
      case FQuick(_, base) => LowShape(base)
      case FTri(_) => TriShape
      case FLong(_) => LongShape
    }

    /** The expression that is stored: a branch stores its distance. */
    function Stored(): Expr {
      if FRel? || FLoop? || FRelShort? then Sub(Sub(e, Here), Num(2)) else e
    }
  }

  function StoredValue(mode: Mode, syms: map<Name, Symbol>, here: int, pc: int, f: Field): Value {
    var v := Eval(mode, syms, here, pc, f.Stored());
    if v.undefined && (f.FRel? || f.FRelShort?) then v.(v := 2) else v
  }

  /** tstb and tstw are silent in the third pass. */
  predicate LostBits(mode: Mode, a: int, low: int, high: int) {
    !mode.Third() && (a < low || a > high)
  }

  /** The errors that storing `v` as `f` reports. */
  predicate FieldError(mode: Mode, f: Field, v: Value) {
    var a := v.v;
    v.error ||
    match f
    case FByte(_) => mode.Writes() && LostBits(mode, a, -128, 255)
    case FWord(_) => mode.Writes() && LostBits(mode, a, -32768, 65535)
    case FShort(_) => a >= 32768 || LostBits(mode, a, -32768, 65535)
    case FImmByte(_) => LostBits(mode, a, -128, 255) || (mode.Writes() && LostBits(mode, a, -32768, 65535))
    case FDisp(_) => (mode.pass > 1 && !v.undefined && a >= 32768)
                     || (!v.undefined && mode.Writes() && LostBits(mode, a, -32768, 65535))
    case FIndex(_, base) => (!v.undefined && LostBits(mode, a, -128, 255))
                            || (mode.Writes() && LostBits(mode, a % 256 + base, -32768, 65535))
    case FRel(_) => (a == 0 && mode.pass >= 2) || a % 2 != 0 || LostBits(mode, a, -32768, 65535) || a >= 32768
    case FLoop(_) => (a == 0 && mode.pass >= 2) || a % 2 != 0 || LostBits(mode, a, -32768, 65535) || a >= 32768
    case FRelShort(_, base) => (a == 0 && mode.pass >= 2) || a % 2 != 0 || LostBits(mode, a, -128, 255) || a >= 128
                               || (mode.Writes() && LostBits(mode, a % 256 + base, -32768, 65535))
    case FQuick(_, base) => LostBits(mode, a, -128, 255)
                            || (mode.Writes() && LostBits(mode, a % 256 + base, -32768, 65535))
    case FTri(_) => mode.Writes() && (a > 0xff_ffff || a < -0x80_0000)
    case FLong(_) => false
  }

  /** The assembler's state: `code` is the whole buffer. */
  datatype State = State(code: seq<Byte>, pc: nat, maxPc: nat, syms: map<Name, Symbol>, rel: seq<nat>, errors: bool)

  /** The buffer with `bytes` at `at`; the buffer is large enough. */
  function Store(code: seq<Byte>, at: nat, bytes: seq<Byte>): (r: seq<Byte>)
    requires at + |bytes| <= |code|
    ensures |r| == |code|
  {
    code[..at] + bytes + code[at + |bytes|..]
  }

  function Max(a: int, b: int): int {
    if a >= b then a else b
  }

  function Advance(st: State, n: nat): State {
    st.(pc := st.pc + n, maxPc := Max(st.maxPc, st.pc + n))
  }

  function GetL(code: seq<Byte>, at: nat): int
    requires at + 4 <= |code|
  {
    Int32(code[at] as int * 0x100_0000 + code[at + 1] as int * 0x1_0000 + code[at + 2] as int * 0x100 + code[at + 3])
  }

  /** genL records the place when the third pass moves the value by exactly what labels move. */
  predicate Records(mode: Mode, code: seq<Byte>, at: nat, a: int)
    requires at + 4 <= |code|
  {
    mode.Third() && Int32(a - GetL(code, at)) == SHIFTED
  }

  /** genB, genW, gen24 and genL. */
  function Gen(mode: Mode, st: State, shape: Shape, a: int): (r: State)
    requires st.pc + shape.Size() <= |st.code|
    ensures |r.code| == |st.code| && r.pc == st.pc + shape.Size()
  {
    if shape.LongShape? then
      if Records(mode, st.code, st.pc, a) then
        Advance(if |st.rel| >= MAX_REL then st.(errors := true) else st.(rel := st.rel + [st.pc]), 4)
      else Advance(st.(code := Store(st.code, st.pc, shape.Bytes(a))), 4)
    else if mode.Writes() then Advance(st.(code := Store(st.code, st.pc, shape.Bytes(a))), shape.Size())
    else Advance(st, shape.Size())
  }

  function GenField(mode: Mode, st: State, here: nat, f: Field): (r: State)
    requires st.pc + f.Shape().Size() <= |st.code|
    ensures |r.code| == |st.code| && r.pc == st.pc + f.Shape().Size()
  {
    var v := StoredValue(mode, st.syms, here, st.pc, f);
    var st1 := st.(errors := st.errors || FieldError(mode, f, v));
    if f.FDisp? && v.undefined then st1.(pc := st.pc + 2) else Gen(mode, st1, f.Shape(), v.v)
  }

  function Sizes(fs: seq<Field>): nat {
    if fs == [] then 0 else fs[0].Shape().Size() + Sizes(fs[1..])
  }

  function GenFields(mode: Mode, st: State, here: nat, fs: seq<Field>): (r: State)
    requires st.pc + Sizes(fs) <= |st.code|
    ensures |r.code| == |st.code| && r.pc == st.pc + Sizes(fs)
    decreases |fs|
  {
    if fs == [] then st else GenFields(mode, GenField(mode, st, here, fs[0]), here, fs[1..])
  }

  /** putW of an opcode at the start of its line. */
  function PutW(mode: Mode, st: State, at: nat, a: nat): (r: State)
    requires at + 2 <= |st.code|
    ensures |r.code| == |st.code| && r.pc == st.pc
  {
    var st1 := st.(maxPc := Max(st.maxPc, at + 2));
    if mode.Writes() then
      st1.(code := Store(st.code, at, WordShape.Bytes(a)), errors := st.errors || LostBits(mode, a, -32768, 65535))
    else st1
  }

  datatype Body =
    | Nothing
    | Data(fields: seq<Field>)
    | Instr(opcode: nat, exts: seq<Field>)

  /** A source line: an equate, or code after an optional label. */
  datatype Line = Equate(name: Name, e: Expr) | Code(mark: Option<Name>, body: Body)

  /** The bytes that a line takes; no pass and no value changes it. */
  function LineSize(line: Line): nat {
    match line
    case Equate(_, _) => 0
    case Code(_, body) =>
      match body
      case Nothing => 0
      case Data(fs) => Sizes(fs)
      case Instr(_, fs) => 2 + Sizes(fs)
  }

  function DefineLabel(mode: Mode, st: State, name: Name): State {
    if name !in st.syms then
      st.(syms := st.syms[name := Symbol(true, Int32(st.pc + mode.org), Int32(st.pc + mode.org))])
    else if mode.pass == 1 then
      SetLabel(mode, st.(errors := true), name)
    else SetLabel(mode, st, name)
  }

  /** In the first pass the code reports the label and then leaves its value alone. */
  function SetLabel(mode: Mode, st: State, name: Name): State
    requires name in st.syms
  {
    if mode.pass == 1 then st
    else if mode.relocatable then
      st.(syms := st.syms[name := st.syms[name].(value := st.pc, value2 := Int32(st.pc + SHIFTED))])
    else st.(syms := st.syms[name := st.syms[name].(value := Int32(st.pc + mode.org))])
  }

  /** `junk` is what the allocator left in the second value of a new variable. */
  function Assign(mode: Mode, st: State, name: Name, e: Expr, junk: int): State {
    var v := Eval(mode, st.syms, st.pc, st.pc, e);
    if name !in st.syms then
      if v.undefined then st.(errors := st.errors || v.error)
      else st.(syms := st.syms[name := Symbol(false, v.v, junk)], errors := st.errors || v.error)
    else
      var w := st.syms[name].(isLabel := false);
      st.(syms := st.syms[name := if mode.Third() then w.(value2 := v.v) else w.(value := v.v, value2 := v.v)],
          errors := st.errors || v.error || v.undefined || (st.syms[name].isLabel && mode.pass == 1))
  }

  /** assemble_line. */
  function RunLine(mode: Mode, st: State, line: Line, junk: int): (r: State)
    requires st.pc + LineSize(line) <= |st.code|
    ensures |r.code| == |st.code| && r.pc == st.pc + LineSize(line)
  {
    match line
    case Equate(name, e) => Assign(mode, st, name, e, junk)
    case Code(mark, body) =>
      var st1 := if mark.Some? then DefineLabel(mode, st, mark.value) else st;
      match body
      case Nothing => st1
      case Data(fs) => GenFields(mode, st1, st.pc, fs)
      case Instr(opcode, fs) => PutW(mode, GenFields(mode, st1.(pc := st.pc + 2), st.pc, fs), st.pc, opcode)
  }

  function Extent(lines: seq<Line>): nat {
    if lines == [] then 0 else LineSize(lines[0]) + Extent(lines[1..])
  }

  function RunLines(mode: Mode, st: State, lines: seq<Line>, junk: int): (r: State)
    requires st.pc + Extent(lines) <= |st.code|
    ensures |r.code| == |st.code| && r.pc == st.pc + Extent(lines)
    decreases |lines|
  {
    if lines == [] then st else RunLines(mode, RunLine(mode, st, lines[0], junk), lines[1..], junk)
  }

  /** One turn of the pass loop of assemble. */
  function RunPass(mode: Mode, st: State, lines: seq<Line>, junk: int): (r: State)
    requires Extent(lines) <= |st.code|
    ensures |r.code| == |st.code|
  {
    RunLines(mode, st.(pc := 0, maxPc := 0), lines, junk)
  }

  /** What is left to write out when all passes went without errors. */
  datatype Output = Failure | Image(code: seq<Byte>, rel: seq<nat>)

  function OutputOf(st: State): Output {
    if st.errors || st.maxPc > |st.code| then Failure else Image(st.code[..st.maxPc], st.rel)
  }

  function Initial(buffer: seq<Byte>): State {
    State(buffer, 0, 0, map[], [], false)
  }

  /** Two passes at a fixed origin. */
  function AssembleAt(lines: seq<Line>, buffer: seq<Byte>, org: int, junk: int): Output
    requires Extent(lines) <= |buffer|
  {
    var st1 := RunPass(Mode(false, 1, org), Initial(buffer), lines, junk);
    if st1.errors then Failure else OutputOf(RunPass(Mode(false, 2, org), st1, lines, junk))
  }

  /** Three passes, the last one with every label moved. */
  function AssembleRelocatable(lines: seq<Line>, buffer: seq<Byte>, junk: int): Output
    requires Extent(lines) <= |buffer|
  {
    var st1 := RunPass(Mode(true, 1, 0), Initial(buffer), lines, junk);
    if st1.errors then Failure else
    var st2 := RunPass(Mode(true, 2, 0), st1, lines, junk);
    if st2.errors then Failure else
    OutputOf(RunPass(Mode(true, 3, SHIFTED), st2, lines, junk))
  }
}
