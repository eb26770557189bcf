/**
  The emulator's interpreter as it is written: registers, byte-swapped memory and instruction register are
  updated in place. Every handler is proved against one step of the word-level instruction set.
 */
module Machine {
  import opened Words
  import opened Isa

  /** The instruction register: the bit-field overlays share their first two bytes, `disp` follows them. */
  datatype Ir = Ir(d: nibble, op: nibble, sb: nibble, sa: nibble, disp: word)

  /** The RRR overlay of a word in host (little-endian) order: d and op in its first byte, sb and sa in its second. */
  function Overlay(raw: word, disp: word): Ir {
    var byte0, byte1 := raw % 0x100, raw / 0x100;
    Ir(byte0 % 16, byte0 / 16, byte1 % 16, byte1 / 16, disp)
  }

  /** The words a program sees: host words with their bytes exchanged. */
  function Logical(raw: Memory): Memory {
    seq(MEM_WORDS, i requires 0 <= i < MEM_WORDS => Bswap(raw[i]))
  }

  /** The overlay reads the fields that the logical word holds from its top nibble down. */
  lemma OverlayReadsLogicalWord(raw: word, disp: word)
    ensures var w, ir := Bswap(raw), Overlay(raw, disp);
      && ir.op == w / 0x1000 && ir.d == w / 0x100 % 16 && ir.sa == w / 16 % 16 && ir.sb == w % 16
  {
    var byte0, byte1 := raw % 0x100, raw / 0x100;
    assert Bswap(raw) == 0x100 * byte0 + byte1;
    assert (0x100 * byte0 + byte1) / 0x100 == byte0;
    assert byte0 == 16 * (byte0 / 16) + byte0 % 16 && byte1 == 16 * (byte1 / 16) + byte1 % 16;
  }

  /** Decoding through the overlays of the host's words is decoding the logical words. */
  lemma FetchThroughOverlay(raw: Memory, pc: word, disp: word)
    requires pc < MEM_WORDS
    ensures var ir := Overlay(raw[pc], disp);
      Fetch(Logical(raw), pc) ==
        if ir.op < 14 then Decoded(RRR(RrrOpOf(ir.op), ir.d, ir.sa, ir.sb))
        else if ir.op == 14 then Exp
        else if pc + 1 >= MEM_WORDS then Outside
        else if ir.sb < 9 then Decoded(RX(RxOpOf(ir.sb), ir.d, ir.sa, Bswap(raw[pc + 1])))
        else BadRx
  {
    OverlayReadsLogicalWord(raw[pc], disp);
    assert Logical(raw)[pc] == Bswap(raw[pc]);
  }

  /** The dispatch index is the overlay's opcode field. */
  lemma DispatchReadsOpcode(raw: word, disp: word)
    ensures LowNibble(raw / 16) == Overlay(raw, disp).op
  {
    assert raw / 16 % 16 == raw % 0x100 / 16;
  }

  /** A store through `bswap_16` is a store of the logical word. */
  lemma StoreIsLogical(raw: Memory, a: nat, v: word)
    requires a < MEM_WORDS
    ensures Bswap(Bswap(v)) == v
    ensures Logical(raw[a := Bswap(v)]) == Logical(raw)[a := v]
  {
    var high, low := v / 0x100, v % 0x100;
    assert v == 0x100 * high + low;
    assert (0x100 * low + high) % 0x100 == high && (0x100 * low + high) / 0x100 == low;
  }

  /** Two consecutive file bytes as the little-endian host reads them. */
  function HostWord(image: seq<byte>, i: nat): word {
    ImageByte(image, 2 * i) + 0x100 * ImageByte(image, 2 * i + 1)
  }

  lemma HostWordIsSwapped(image: seq<byte>, i: nat)
    ensures Bswap(HostWord(image, i)) == ImageWord(image, i)
  {
    var low: int, high: int := ImageByte(image, 2 * i), ImageByte(image, 2 * i + 1);
    var w: int := low + 0x100 * high;
    assert w % 0x100 == low && w / 0x100 == high;
  }

  lemma DivisionBounds(a: nat, b: nat)
    requires b > 0
    ensures 0 <= a / b <= a && 0 <= a % b < b
  {
    var q := a / b;
    assert a == q * b + a % b;
    if q > 0 {
      assert q * b >= q by { assert b >= 1; }
    }
  }

  // ----- condition flags: bit-fields of the second byte of R15 -----

  datatype Flag = FlagC | Flagv | FlagV | FlagL | Flagl | FlagE | Flagg | FlagG

  /** Bit-fields are allocated from the bottom of the second byte: C is bit 8, G is bit 15. */
  function FlagMask(f: Flag): nat {
    match f
    case FlagC => 0x100 case Flagv => 0x200 case FlagV => 0x400 case FlagL => 0x800
    case Flagl => 0x1000 case FlagE => 0x2000 case Flagg => 0x4000 case FlagG => 0x8000
  }

  predicate FlagIsSet(w: word, f: Flag) {
    match f
    case FlagC => w / 0x100 % 2 == 1 case Flagv => w / 0x200 % 2 == 1
    case FlagV => w / 0x400 % 2 == 1 case FlagL => w / 0x800 % 2 == 1
    case Flagl => w / 0x1000 % 2 == 1 case FlagE => w / 0x2000 % 2 == 1
    case Flagg => w / 0x4000 % 2 == 1 case FlagG => w / 0x8000 % 2 == 1
  }

  /** Assigning 0 or 1 to one bit-field of the status register. */
  function PutFlag(w: word, f: Flag, v: bool): word {
    if FlagIsSet(w, f) == v then w
    else if v then Wrap(w + FlagMask(f))
    else Wrap(w - FlagMask(f))
  }

  /** The value of a C operator expression on two `uint16_t` operands, which C computes as `int`. */
  function Promoted(op: RrrOp, a: word, b: word): int {
    match op
    case Add => a + b
    case Sub => a - b
    case Mul => a * b
    case CmpLt => if a < b then 1 else 0
    case CmpEq => if a == b then 1 else 0
    case CmpGt => if a > b then 1 else 0
    case And => Bitwise16(BitAnd, a, b)
    case Or => Bitwise16(BitOr, a, b)
    case Xor => Bitwise16(BitXor, a, b)
    case _ => 0
  }

  datatype Status = Continue | ExitOk | ExitError | OutOfModel

  class VM {
    const regs: array<word>
    const mem: array<word>
    var pc: word
    var adr: word
    var ir: Ir
    var out: seq<byte>

    ghost predicate Valid() {
      regs.Length == 16 && mem.Length == MEM_WORDS && regs != mem
    }

    /** The abstract state: the memory a program sees instead of the host's words. */
    ghost function View(): State
      requires Valid()
      reads this, regs, mem
    {
      State(pc, Core(regs[..], adr, Logical(mem[..]), out))
    }

    ghost function Fetched(): Isa.Fetched
      requires Valid()
      reads this, mem
    {
      Isa.Fetch(Logical(mem[..]), pc)
    }

    ghost predicate AtRRR(op: RrrOp)
      requires Valid()
      reads this, mem
    {
      pc < MEM_WORDS && Fetched().Decoded? && Fetched().inst.RRR? && Fetched().inst.op == op
    }

    /** Zeroed registers and memory, with the image copied to the start of memory in file order. */
    constructor (image: seq<byte>)
      requires |image| <= 2 * MEM_WORDS
      ensures Valid() && fresh(regs) && fresh(mem)
      ensures View() == Boot(image)
    {
      regs := new word[16](_ => 0);
      mem := new word[MEM_WORDS](i => HostWord(image, i));
      pc, adr, ir, out := 0, 0, Ir(0, 0, 0, 0, 0), [];
      new;
      assert regs[..] == seq(16, _ => 0);
      forall i | 0 <= i < MEM_WORDS
        ensures Logical(mem[..])[i] == ImageWord(image, i)
      {
        HostWordIsSwapped(image, i);
      }
      assert Logical(mem[..]) == Boot(image).core.mem;
    }

    // ----- memory and register access -----

    method ReadMem(addr: word) returns (v: word)
      requires Valid() && addr < MEM_WORDS
      ensures v == Logical(mem[..])[addr]
    {
      v := Bswap(mem[addr]);
    }

    method WriteMem(addr: word, val: word)
      requires Valid() && addr < MEM_WORDS
      modifies mem
      ensures Logical(mem[..]) == old(Logical(mem[..]))[addr := val]
    {
      StoreIsLogical(mem[..], addr, val);
      mem[addr] := Bswap(val);
      assert mem[..] == old(mem[..])[addr := Bswap(val)];
    }

    method SafeUpdate(dst: nibble, val: int)
      requires Valid()
      modifies regs
      ensures regs[..] == SetReg(old(regs[..]), dst, Wrap(val))
    {
      if dst != 0 {
        regs[dst] := Wrap(val);
      }
    }

    method ClearFlags()
      requires Valid()
      modifies regs
      ensures regs[..] == old(regs[..])[15 := 0]
    {
      regs[15] := 0;
    }

    method SetFlag(f: Flag, v: bool)
      requires Valid()
      modifies regs
      ensures regs[15] == PutFlag(old(regs[15]), f, v)
      ensures forall i | 0 <= i < 15 :: regs[i] == old(regs[i])
    {
      regs[15] := PutFlag(regs[15], f, v);
    }

    method ComputeRxEaddr() returns (ea: word)
      requires Valid()
      modifies this`adr
      ensures ea == adr == Wrap(regs[ir.sa] + ir.disp)
    {
      adr := Wrap(regs[ir.sa] + ir.disp);
      ea := adr;
    }

    /** The flag assignments of ADD, which look at the destination register's number. */
    method SetAddFlags(d: nibble)
      requires Valid()
      modifies regs
      ensures regs[..] == old(regs[..])[15 := AddFlags(d)]
    {
      ClearFlags();
      SetFlag(FlagG, d > 0);
      SetFlag(Flagg, d > 0);
      assert regs[15] == if d > 0 then 0xC000 else 0;
      SetFlag(FlagE, d == 0);
      SetFlag(FlagL, d < 0);
      SetFlag(FlagL, d == 0);
      assert regs[15] == if d > 0 then 0xC000 else 0x2800;
      SetFlag(FlagV, d > 0);
      SetFlag(Flagv, d > 0);
      assert regs[15] == if d > 0 then 0xC600 else 0x2800;
      SetFlag(FlagC, d > 0);
    }

    /** The flag assignments of CMP on a cleared R15. */
    method SetCmpFlags(a: word, b: word)
      requires Valid() && regs[15] == 0
      modifies regs
      ensures regs[..] == old(regs[..])[15 := CmpFlags(a, b)]
    {
      SetFlag(FlagG, a > b);
      SetFlag(Flagg, Signed(a) > Signed(b));
      assert regs[15] == (if a > b then 0x8000 else 0) + (if Signed(a) > Signed(b) then 0x4000 else 0);
      SetFlag(FlagE, a == b);
      SetFlag(Flagl, Signed(a) < Signed(b));
      SetFlag(FlagL, a < b);
    }

    // ----- loading the instruction register -----

    method InterpRRR()
      requires Valid() && pc < MEM_WORDS
      modifies this`ir
      ensures ir == Overlay(mem[pc], old(ir).disp)
      ensures Fetched().Decoded? && Fetched().inst.RRR? ==>
        Fetched().inst == RRR(Fetched().inst.op, ir.d, ir.sa, ir.sb) && ir.op == RrrCode(Fetched().inst.op)
    {
      ir := Overlay(mem[pc], ir.disp);
      OverlayReadsLogicalWord(mem[pc], ir.disp);
    }

    method InterpRX()
      requires Valid() && pc + 1 < MEM_WORDS
      modifies this`ir
      ensures ir == Overlay(mem[pc], Logical(mem[..])[pc + 1])
    {
      ir := Overlay(mem[pc], mem[pc + 1]);
      ir := ir.(disp := Bswap(ir.disp));
    }

    // ----- RRR handlers -----

    /** APPLY_OP_RRR: decode, operate, write the destination, advance. */
    method ApplyOpRRR(op: RrrOp)
      requires Valid() && AtRRR(op) && !(op.Div? || op.Cmp? || op.Inv? || op.Nop? || op.Trap?)
      modifies this`ir, this`pc, regs
      ensures old(Fetched()) == Decoded(RRR(op, ir.d, ir.sa, ir.sb)) && ir.op == RrrCode(op)
      ensures pc == old(pc) + 1
      ensures regs[..] == SetReg(old(regs[..]), ir.d, Alu(op, old(regs[..])[ir.sa], old(regs[..])[ir.sb]))
    {
      hide Fetch;
      InterpRRR();
      SafeUpdate(ir.d, Promoted(op, regs[ir.sa], regs[ir.sb]));
      pc := Wrap(pc + 1);
    }

    method DoAdd()
      requires Valid() && AtRRR(Add)
      modifies this`ir, this`pc, regs
      ensures Apply(old(Fetched()).inst, old(View())) == Running(View())
      ensures IrHolds(old(Fetched()).inst)
    {
      hide Fetch;
      ApplyOpRRR(Add);
      SetAddFlags(ir.d);
    }

    /** SUB and MUL. */
    method DoOp(op: RrrOp)
      requires Valid() && AtRRR(op) && (op.Sub? || op.Mul?)
      modifies this`ir, this`pc, regs
      ensures Apply(old(Fetched()).inst, old(View())) == Running(View())
      ensures IrHolds(old(Fetched()).inst)
    {
      ApplyOpRRR(op);
    }

    /** CMPLT, CMPEQ, CMPGT, AND, OR and XOR. */
    method DoOpAndClear(op: RrrOp)
      requires Valid() && AtRRR(op) && (op.CmpLt? || op.CmpEq? || op.CmpGt? || op.And? || op.Or? || op.Xor?)
      modifies this`ir, this`pc, regs
      ensures Apply(old(Fetched()).inst, old(View())) == Running(View())
      ensures IrHolds(old(Fetched()).inst)
    {
      hide Alu, Fetch;
      ApplyOpRRR(op);
      ghost var written := regs[..];
      ClearFlags();
      assert regs[..] == written[15 := 0];
    }

    method OpDiv()
      requires Valid()
      modifies regs
      ensures forall c: Core | c.regs == old(regs[..]) ::
        ExecRRR(Div, ir.d, ir.sa, ir.sb, c) == Next(c.(regs := regs[..]))
    {
      var a: int, b: int := regs[ir.sa], regs[ir.sb];
      if b == 0 {
        return;
      }
      var quotient := a / b;
      assert 0 <= quotient <= a && 0 <= a % b < b by { DivisionBounds(a, b); }
      SafeUpdate(ir.d, quotient);
      if ir.d != 15 {
        regs[15] := a % b;
      }
    }

    method DoDiv()
      requires Valid() && AtRRR(Div)
      modifies this`ir, this`pc, regs
      ensures Apply(old(Fetched()).inst, old(View())) == Running(View())
      ensures IrHolds(old(Fetched()).inst)
    {
      hide Fetch;
      InterpRRR();
      OpDiv();
      pc := Wrap(pc + 1);
    }

    method DoCmp()
      requires Valid() && AtRRR(Cmp)
      modifies this`ir, this`pc, regs
      ensures Apply(old(Fetched()).inst, old(View())) == Running(View())
      ensures IrHolds(old(Fetched()).inst)
    {
      hide Fetch;
      InterpRRR();
      ClearFlags();
      SetCmpFlags(regs[ir.sa], regs[ir.sb]);
      pc := Wrap(pc + 1);
    }

    method DoInv()
      requires Valid() && AtRRR(Inv)
      modifies this`ir, this`pc, regs
      ensures Apply(old(Fetched()).inst, old(View())) == Running(View())
      ensures IrHolds(old(Fetched()).inst)
    {
      hide Fetch;
      InterpRRR();
      var v: int := regs[ir.sa];
      SafeUpdate(ir.d, -v - 1);
      pc := Wrap(pc + 1);
      ClearFlags();
    }

    /** NOP does not load the instruction register. */
    method DoNop()
      requires Valid() && AtRRR(Nop)
      modifies this`pc, regs
      ensures Apply(old(Fetched()).inst, old(View())) == Running(View())
    {
      ClearFlags();
      pc := Wrap(pc + 1);
    }

    method TrapWrite() returns (ok: bool)
      requires Valid()
      modifies this`out
      ensures ok <==> TrapInBounds(regs[ir.sa], regs[ir.sb])
      ensures ok ==> out == old(out) + TrapBytes(Logical(mem[..]), regs[ir.sa], regs[ir.sb])
    {
      var addr: int := regs[ir.sa];
      var i: nat := 0;
      while i < regs[ir.sb]
        invariant i <= regs[ir.sb] && TrapInBounds(addr, i)
        invariant out == old(out) + TrapBytes(Logical(mem[..]), addr, i)
      {
        if TrapAddr(addr, i) >= MEM_WORDS {
          return false;
        }
        var w := ReadMem(Wrap(addr + i));
        out := out + [w % 0x100];
        i := i + 1;
      }
      ok := true;
    }

    method DoTrap() returns (status: Status)
      requires Valid() && AtRRR(Trap)
      modifies this`ir, this`pc, this`out, regs
      ensures Agrees(status, Apply(old(Fetched()).inst, old(View())))
      ensures IrHolds(old(Fetched()).inst)
    {
      hide Fetch;
      InterpRRR();
      if regs[ir.d] == 0 {
        return ExitOk;
      } else if regs[ir.d] == 2 {
        var ok := TrapWrite();
        if !ok {
          return OutOfModel;
        }
      }
      pc := Wrap(pc + 1);
      ClearFlags();
      status := Continue;
    }

    // ----- RX handlers -----

    method DoLea()
      requires Valid()
      modifies this`pc, this`adr, regs
      ensures Apply(RX(Lea, ir.d, ir.sa, ir.disp), old(View())) == Running(View())
    {
      if ir.d != 0 {
        var ea := ComputeRxEaddr();
        SafeUpdate(ir.d, ea);
      }
      pc := Wrap(pc + 2);
    }

    method DoLoad() returns (status: Status)
      requires Valid()
      modifies this`pc, this`adr, regs
      ensures Agrees(status, Apply(RX(Load, ir.d, ir.sa, ir.disp), old(View())))
    {
      if ir.d != 0 {
        var ea := ComputeRxEaddr();
        if ea >= MEM_WORDS {
          return OutOfModel;
        }
        var v := ReadMem(ea);
        SafeUpdate(ir.d, v);
      }
      pc := Wrap(pc + 2);
      status := Continue;
    }

    method DoStore() returns (status: Status)
      requires Valid()
      modifies this`pc, this`adr, mem
      ensures Agrees(status, Apply(RX(Store, ir.d, ir.sa, ir.disp), old(View())))
    {
      var ea := ComputeRxEaddr();
      if ea >= MEM_WORDS {
        return OutOfModel;
      }
      WriteMem(ea, regs[ir.d]);
      pc := Wrap(pc + 2);
      status := Continue;
    }

    method DoJump()
      requires Valid()
      modifies this`pc, this`adr
      ensures Apply(RX(Jump, ir.d, ir.sa, ir.disp), old(View())) == Running(View())
    {
      pc := ComputeRxEaddr();
    }

    /** JUMPC0, JUMPC1, JUMPF and JUMPT share the shape "jump if, else fall through". */
    method DoJumpIf(op: RxOp)
      requires Valid() && (op.JumpC0? || op.JumpC1? || op.JumpF? || op.JumpT?)
      modifies this`pc, this`adr
      ensures Apply(RX(op, ir.d, ir.sa, ir.disp), old(View())) == Running(View())
    {
      var taken :=
        if op.JumpC0? then !SelectBit(regs[15], ir.d)
        else if op.JumpC1? then SelectBit(regs[15], ir.d)
        else if op.JumpF? then regs[ir.d] == 0
        else regs[ir.d] != 0;
      if taken {
        pc := ComputeRxEaddr();
      } else {
        pc := Wrap(pc + 2);
      }
    }

    method DoJal()
      requires Valid()
      modifies this`pc, this`adr, regs
      ensures Apply(RX(Jal, ir.d, ir.sa, ir.disp), old(View())) == Running(View())
    {
      SafeUpdate(ir.d, pc + 2);
      pc := ComputeRxEaddr();
    }

    // ----- dispatch -----

    /** How a handler's exit corresponds to an outcome of the instruction set. */
    ghost predicate Agrees(status: Status, o: Outcome)
      requires Valid()
      reads this, regs, mem
    {
      match status
      case Continue => o == Running(View())
      case ExitOk => o == Halted(View())
      case ExitError => o == BadOp(View())
      case OutOfModel => o == Undefined
    }

    /** After a step the instruction register holds the fields of the instruction that was executed. */
    ghost predicate IrHolds(i: Inst)
      reads this
    {
      match i
      case RRR(op, d, sa, sb) => op == Nop || ir == Ir(d, RrrCode(op), sb, sa, ir.disp)
      case RX(op, d, sa, disp) => ir == Ir(d, 15, RxCode(op), sa, disp)
    }

    method DispatchRRR(op: RrrOp) returns (status: Status)
      requires Valid() && AtRRR(op)
      modifies this`ir, this`pc, this`out, regs
      ensures Agrees(status, Apply(old(Fetched()).inst, old(View())))
      ensures IrHolds(old(Fetched()).inst)
    {
      status := Continue;
      match op
      case Add => DoAdd();
      case Sub | Mul => DoOp(op);
      case Div => DoDiv();
      case Cmp => DoCmp();
      case Inv => DoInv();
      case Nop => DoNop();
      case Trap => status := DoTrap();
      case _ => DoOpAndClear(op);
    }

    method DispatchRX(op: RxOp) returns (status: Status)
      requires Valid()
      modifies this`pc, this`adr, regs, mem
      ensures Agrees(status, Apply(RX(op, ir.d, ir.sa, ir.disp), old(View())))
    {
      status := Continue;
      match op
      case Lea => DoLea();
      case Load => status := DoLoad();
      case Store => status := DoStore();
      case Jump => DoJump();
      case Jal => DoJal();
      case _ => DoJumpIf(op);
    }

    /** One trip through the dispatch loop. */
    method StepInPlace() returns (status: Status)
      requires Valid()
      modifies this, regs, mem
      ensures Agrees(status, Step(old(View())))
      ensures old(Fetched()).Decoded? ==> IrHolds(old(Fetched()).inst)
    {
      hide Isa.Exec;
      if pc >= MEM_WORDS {
        return OutOfModel;
      }
      FetchThroughOverlay(mem[..], pc, ir.disp);
      DispatchReadsOpcode(mem[pc], ir.disp);
      ghost var fetched := Fetched();
      assert fetched.Decoded? ==> Step(View()) == Apply(fetched.inst, View());
      var opcode := LowNibble(mem[pc] / 16);
      if opcode < 14 {
        status := DispatchRRR(RrrOpOf(opcode));
      } else if opcode == 14 || pc + 1 >= MEM_WORDS {
        status := OutOfModel;
      } else {
        InterpRX();
        if ir.sb < 9 {
          status := DispatchRX(RxOpOf(ir.sb));
        } else {
          status := ExitError;
        }
      }
    }

    /** At most `fuel` trips through the loop. */
    method Exec(fuel: nat) returns (status: Status)
      requires Valid()
      modifies this, regs, mem
      ensures Agrees(status, Run(old(View()), fuel))
    {
      ghost var start := View();
      status := Continue;
      var n: nat := 0;
      while n < fuel && status == Continue
        invariant n <= fuel
        invariant Agrees(status, Run(start, n))
      {
        RunOneMore(start, n);
        status := StepInPlace();
        n := n + 1;
      }
      if status != Continue {
        StoppedStays(start, n, fuel);
      }
    }
  }
}
