/**
  The Sigma16 instruction set on logical words: sixteen registers, a word memory, and one step of
  execution. Nothing here knows about byte order, bit-fields or the instruction register.
 */
module Isa {
  import opened Words

  /** The emulator maps 1 << 16 bytes: half of the 16-bit address space. */
  const MEM_WORDS := 0x8000

  type Regs = r: seq<word> | |r| == 16 witness seq(16, _ => 0)
  type Memory = m: seq<word> | |m| == MEM_WORDS witness seq(MEM_WORDS, _ => 0)

  datatype RrrOp = Add | Sub | Mul | Div | Cmp | CmpLt | CmpEq | CmpGt | Inv | And | Or | Xor | Nop | Trap
  datatype RxOp = Lea | Load | Store | Jump | JumpC0 | JumpC1 | JumpF | JumpT | Jal

  /** An instruction as the machine decodes it. */
  datatype Inst =
    | RRR(op: RrrOp, d: nibble, sa: nibble, sb: nibble)
    | RX(rx: RxOp, d: nibble, sa: nibble, disp: word)
  {
    function Size(): nat { if RRR? then 1 else 2 }
  }

  /** Everything an instruction can change except the program counter. */
  datatype Core = Core(regs: Regs, adr: word, mem: Memory, out: seq<byte>)
  datatype State = State(pc: word, core: Core)

  // ----- opcodes -----

  function RrrCode(op: RrrOp): (n: nibble)
    ensures n < 14
  {
    match op
    case Add => 0 case Sub => 1 case Mul => 2 case Div => 3
    case Cmp => 4 case CmpLt => 5 case CmpEq => 6 case CmpGt => 7
    case Inv => 8 case And => 9 case Or => 10 case Xor => 11
    case Nop => 12 case Trap => 13
  }

  function RxCode(op: RxOp): (n: nibble)
    ensures n < 9
  {
    match op
    case Lea => 0 case Load => 1 case Store => 2 case Jump => 3 case JumpC0 => 4
    case JumpC1 => 5 case JumpF => 6 case JumpT => 7 case Jal => 8
  }

  function RrrOpOf(n: nibble): (op: RrrOp)
    requires n < 14
    ensures RrrCode(op) == n
  {
    match n
    case 0 => Add case 1 => Sub case 2 => Mul case 3 => Div
    case 4 => Cmp case 5 => CmpLt case 6 => CmpEq case 7 => CmpGt
    case 8 => Inv case 9 => And case 10 => Or case 11 => Xor
    case 12 => Nop case _ => Trap
  }

  function RxOpOf(n: nibble): (op: RxOp)
    requires n < 9
    ensures RxCode(op) == n
  {
    match n
    case 0 => Lea case 1 => Load case 2 => Store case 3 => Jump case 4 => JumpC0
    case 5 => JumpC1 case 6 => JumpF case 7 => JumpT case _ => Jal
  }

  // ----- fetch and decode -----

  datatype Fetched = Decoded(inst: Inst) | BadRx | Exp | Outside

  /** The instruction a word encodes; an RX instruction needs a second word before it is decoded. */
  function DecodeWord(w: word, second: Option<word>): Fetched {
    var op, d, sa, sb := w / 0x1000, w / 0x100 % 16, w / 16 % 16, w % 16;
    if op < 14 then Decoded(RRR(RrrOpOf(op), d, sa, sb))
    else if op == 14 then Exp
    else if second.None? then Outside
    else if sb < 9 then Decoded(RX(RxOpOf(sb), d, sa, second.value))
    else BadRx
  }

  function Fetch(mem: Memory, pc: word): Fetched {
    if pc >= MEM_WORDS then Outside
    else DecodeWord(mem[pc], if pc + 1 < MEM_WORDS then Some(mem[pc + 1]) else None)
  }

  // ----- execute -----

  /** Register writes to R0 are discarded. */
  function SetReg(r: Regs, d: nibble, v: word): Regs {
    if d == 0 then r else r[d := v]
  }

  /** What an operator instruction computes from its two source registers. */
  function Alu(op: RrrOp, a: word, b: word): word {
    match op
    case Add => Wrap(a + b)
    case Sub => Wrap(a - b)
    case Mul => Wrap(a * b)
    case CmpLt => if a < b then 1 else 0
    case CmpEq => if a == b then 1 else 0
    case CmpGt => if a > b then 1 else 0
    case Inv => 0xFFFF - a
    case And => Bitwise16(BitAnd, a, b)
    case Or => Bitwise16(BitOr, a, b)
    case Xor => Bitwise16(BitXor, a, b)
    case _ => 0
  }

  /** The flags ADD leaves behind depend on the number of its destination register only. */
  function AddFlags(d: nibble): word {
    if d > 0 then 0xC700 else 0x2800
  }

  /** G, g, E, l, L: unsigned and signed greater, equal, signed and unsigned less. */
  function CmpFlags(a: word, b: word): word {
    (if a > b then 0x8000 else 0) + (if Signed(a) > Signed(b) then 0x4000 else 0) +
    (if a == b then 0x2000 else 0) +
    (if Signed(a) < Signed(b) then 0x1000 else 0) + (if a < b then 0x0800 else 0)
  }

  /** Bit `pos` of a word, bit 0 being the most significant one. */
  predicate SelectBit(w: word, pos: nibble) {
    w / Exp2(15 - pos) % 2 == 1
  }

  /** The address of the `i`-th word TRAP prints. */
  function TrapAddr(addr: word, i: nat): word {
    Wrap(addr + i)
  }

  predicate TrapInBounds(addr: word, n: nat) {
    forall i: nat | i < n :: TrapAddr(addr, i) < MEM_WORDS
  }

  /** The low bytes of the `n` words from `addr`, with addresses wrapping at 16 bits. */
  function TrapBytes(mem: Memory, addr: word, n: nat): seq<byte>
    requires TrapInBounds(addr, n)
  {
    if n == 0 then [] else TrapBytes(mem, addr, n - 1) + [mem[TrapAddr(addr, n - 1)] % 0x100]
  }

  /** What one instruction does: fall through, jump, stop, or touch memory that is not there. */
  datatype Effect = Next(core: Core) | Goto(core: Core, target: word) | Halt | Fault

  function ExecRRR(op: RrrOp, d: nibble, sa: nibble, sb: nibble, c: Core): Effect {
    var a, b := c.regs[sa], c.regs[sb];
    match op
    case Add => Next(c.(regs := SetReg(c.regs, d, Alu(Add, a, b))[15 := AddFlags(d)]))
    case Sub | Mul => Next(c.(regs := SetReg(c.regs, d, Alu(op, a, b))))
    case Div =>
      if b == 0 then Next(c)
      else if d == 15 then Next(c.(regs := c.regs[15 := a / b]))
      else Next(c.(regs := SetReg(c.regs, d, a / b)[15 := a % b]))
    case Cmp =>
      var cleared := c.regs[15 := 0];
      Next(c.(regs := c.regs[15 := CmpFlags(cleared[sa], cleared[sb])]))
    case Nop => Next(c.(regs := c.regs[15 := 0]))
    case Trap =>
      if c.regs[d] == 0 then Halt
      else if c.regs[d] != 2 then Next(c.(regs := c.regs[15 := 0]))
      else if !TrapInBounds(a, b) then Fault
      else Next(c.(regs := c.regs[15 := 0], out := c.out + TrapBytes(c.mem, a, b)))
    case _ => Next(c.(regs := SetReg(c.regs, d, Alu(op, a, b))[15 := 0]))
  }

  /** `link` is the address of the instruction that follows. */
  function ExecRX(op: RxOp, d: nibble, sa: nibble, disp: word, link: word, c: Core): Effect {
    var ea := Wrap(c.regs[sa] + disp);
    var jump := Goto(c.(adr := ea), ea);
    match op
    case Lea => if d == 0 then Next(c) else Next(c.(adr := ea, regs := c.regs[d := ea]))
    case Load =>
      if d == 0 then Next(c)
      else if ea >= MEM_WORDS then Fault
      else Next(c.(adr := ea, regs := c.regs[d := c.mem[ea]]))
    case Store =>
      if ea >= MEM_WORDS then Fault
      else Next(c.(adr := ea, mem := c.mem[ea := c.regs[d]]))
    case Jump => jump
    case JumpC0 => if !SelectBit(c.regs[15], d) then jump else Next(c)
    case JumpC1 => if SelectBit(c.regs[15], d) then jump else Next(c)
    case JumpF => if c.regs[d] == 0 then jump else Next(c)
    case JumpT => if c.regs[d] != 0 then jump else Next(c)
    case Jal =>
      // the link register is written before the target is computed
      var linked := SetReg(c.regs, d, link);
      var target := Wrap(linked[sa] + disp);
      Goto(c.(regs := linked, adr := target), target)
  }

  function Exec(i: Inst, link: word, c: Core): Effect {
    match i
    case RRR(op, d, sa, sb) => ExecRRR(op, d, sa, sb, c)
    case RX(op, d, sa, disp) => ExecRX(op, d, sa, disp, link, c)
  }

  /** The outcome of execution; after an out-of-range access or an EXP instruction nothing is promised. */
  datatype Outcome = Running(s: State) | Halted(s: State) | BadOp(s: State) | Undefined

  /** Where execution continues after an instruction's effect; `next` is the following instruction's address. */
  function After(e: Effect, next: word, s: State): Outcome {
    match e
    case Next(c) => Running(State(next, c))
    case Goto(c, t) => Running(State(t, c))
    case Halt => Halted(s)
    case Fault => Undefined
  }

  /** Executing instruction `i`, found at the program counter. */
  function Apply(i: Inst, s: State): Outcome {
    var next := Wrap(s.pc + i.Size());
    After(Exec(i, next, s.core), next, s)
  }

  function Step(s: State): Outcome {
    match Fetch(s.core.mem, s.pc)
    case Outside => Undefined
    case Exp => Undefined
    case BadRx => BadOp(s)
    case Decoded(i) => Apply(i, s)
  }

  /** At most `n` steps, stopping early when the machine stops. */
  function Run(s: State, n: nat): Outcome
    decreases n
  {
    if n == 0 then Running(s)
    else
      match Step(s)
      case Running(s') => Run(s', n - 1)
      case stopped => stopped
  }

  // ----- loading -----

  /** Bytes of an image past its end read as zero: memory is mapped zeroed. */
  function ImageByte(image: seq<byte>, k: nat): byte {
    if k < |image| then image[k] else 0
  }

  /** Word `i` of an image: images are big-endian. */
  function ImageWord(image: seq<byte>, i: nat): word {
    0x100 * ImageByte(image, 2 * i) + ImageByte(image, 2 * i + 1)
  }

  function ImageMemory(image: seq<byte>): Memory {
    seq(MEM_WORDS, i requires 0 <= i < MEM_WORDS => ImageWord(image, i))
  }

  /** The machine before its first step. */
  function Boot(image: seq<byte>): State {
    State(0, Core(seq(16, _ => 0), 0, ImageMemory(image), []))
  }

  lemma {:induction false} RunSplit(s: State, m: nat, n: nat)
    ensures Run(s, m + n) == match Run(s, m) case Running(t) => Run(t, n) case stopped => stopped
    decreases m
  {
    hide Step;
    if m > 0 {
      match Step(s)
      case Running(s') => RunSplit(s', m - 1, n);
      case _ =>
    }
  }

  lemma RunOneMore(s: State, n: nat)
    ensures Run(s, n + 1) == match Run(s, n) case Running(t) => Step(t) case stopped => stopped
  {
    hide Step;
    RunSplit(s, n, 1);
    match Run(s, n)
    case Running(t) => assert Run(t, 1) == Step(t);
    case _ =>
  }

  lemma StoppedStays(s: State, n: nat, m: nat)
    requires n <= m && !Run(s, n).Running?
    ensures Run(s, m) == Run(s, n)
  {
    hide Step, Run;
    RunSplit(s, n, m - n);
  }
}
