/**
  What each machine instruction does, stated about one step of a machine that has decoded it and in terms
  of arithmetic on register contents only.
 */
module Instructions {
  import opened Words
  import opened Isa
  import opened Runs

  /** The machine is about to execute instruction `i`. */
  predicate At(s: State, i: Inst) {
    Fetch(s.core.mem, s.pc) == Decoded(i)
  }

  /** Only registers `d` and 15 may differ, and R0 does not. */
  predicate SameElsewhere(c: Core, c': Core, d: nibble) {
    && c'.mem == c.mem && c'.out == c.out && c'.adr == c.adr
    && forall r: nibble | r != 15 && (r != d || r == 0) :: c'.regs[r] == c.regs[r]
  }

  // ----- arithmetic -----

  lemma Addition(s: State, d: nibble, a: nibble, b: nibble)
    requires At(s, RRR(Add, d, a, b))
    ensures Step(s).Running? && Step(s).s.pc == s.pc + 1 && SameElsewhere(s.core, Step(s).s.core, d)
    ensures var x: int, y: int, v: int := s.core.regs[a], s.core.regs[b], Step(s).s.core.regs[d];
      d != 0 && d != 15 ==> v == x + y || v + 65536 == x + y
    ensures Step(s).s.core.regs[15] == if d == 0 then 0x2800 else 0xC700
  {
  }

  lemma Subtraction(s: State, d: nibble, a: nibble, b: nibble)
    requires At(s, RRR(Sub, d, a, b))
    ensures Step(s).Running? && Step(s).s.pc == s.pc + 1 && SameElsewhere(s.core, Step(s).s.core, d)
    ensures var x: int, y: int, v: int := s.core.regs[a], s.core.regs[b], Step(s).s.core.regs[d];
      d != 0 ==> v + y == x || v + y == x + 65536
    ensures d != 15 ==> Step(s).s.core.regs[15] == s.core.regs[15]
  {
  }

  /** Adding back what was subtracted restores the minuend, for all operands. */
  lemma SubtractThenAdd(s: State, d: nibble, a: nibble, b: nibble, e: nibble, s1: State)
    requires At(s, RRR(Sub, d, a, b)) && Step(s) == Running(s1) && At(s1, RRR(Add, e, d, b))
    requires d != 0 && d != 15 && d != b && e != 0 && e != 15
    ensures Step(s1).Running? && Step(s1).s.core.regs[e] == s.core.regs[a]
  {
    hide Step;
    Subtraction(s, d, a, b);
    Addition(s1, e, d, b);
  }

  lemma Multiplication(s: State, d: nibble, a: nibble, b: nibble)
    requires At(s, RRR(Mul, d, a, b))
    ensures Step(s).Running? && Step(s).s.pc == s.pc + 1 && SameElsewhere(s.core, Step(s).s.core, d)
    ensures var x: int, y: int, v: int := s.core.regs[a], s.core.regs[b], Step(s).s.core.regs[d];
      d != 0 ==> v == x * y % 65536
    ensures d != 15 ==> Step(s).s.core.regs[15] == s.core.regs[15]
  {
  }

  /** The quotient goes to the destination and the remainder to R15, unless R15 is the destination. */
  lemma Division(s: State, d: nibble, a: nibble, b: nibble)
    requires At(s, RRR(Div, d, a, b)) && s.core.regs[b] != 0
    ensures Step(s).Running? && Step(s).s.pc == s.pc + 1 && SameElsewhere(s.core, Step(s).s.core, d)
    ensures var x: int, y: int, v: int, r: int :=
        s.core.regs[a], s.core.regs[b], Step(s).s.core.regs[d], Step(s).s.core.regs[15];
      && (d == 0 ==> r < y && exists q: nat :: x == q * y + r)
      && (d != 0 && d != 15 ==> r < y && x == v * y + r)
      && (d == 15 ==> v * y <= x < v * y + y)
  {
    var x: int, y: int := s.core.regs[a], s.core.regs[b];
    var q: nat := x / y;
    assert x == q * y + x % y;
  }

  /** CMP's operands are read after R15 was cleared. */
  function Operand(s: State, r: nibble): int {
    if r == 15 then 0 else s.core.regs[r]
  }

  lemma Comparison(s: State, d: nibble, a: nibble, b: nibble)
    requires At(s, RRR(Cmp, d, a, b))
    ensures Step(s).Running? && Step(s).s.pc == s.pc + 1 && SameElsewhere(s.core, Step(s).s.core, 0)
    ensures var x, y, f: int := Operand(s, a), Operand(s, b), Step(s).s.core.regs[15];
      && (f / 0x8000 % 2 == 1 <==> x > y)
      && (f / 0x4000 % 2 == 1 <==> Signed(x) > Signed(y))
      && (f / 0x2000 % 2 == 1 <==> x == y)
      && (f / 0x1000 % 2 == 1 <==> Signed(x) < Signed(y))
      && (f / 0x0800 % 2 == 1 <==> x < y)
      && f % 0x0800 == 0
  {
    hide DecodeWord;
  }

  // ----- comparisons to a register -----

  lemma CompareLess(s: State, d: nibble, a: nibble, b: nibble)
    requires At(s, RRR(CmpLt, d, a, b))
    ensures Step(s).Running? && Step(s).s.pc == s.pc + 1 && SameElsewhere(s.core, Step(s).s.core, d)
    ensures d != 0 && d != 15 ==> Step(s).s.core.regs[d] == if s.core.regs[a] < s.core.regs[b] then 1 else 0
    ensures Step(s).s.core.regs[15] == 0
  {
  }

  lemma CompareEqual(s: State, d: nibble, a: nibble, b: nibble)
    requires At(s, RRR(CmpEq, d, a, b))
    ensures Step(s).Running? && Step(s).s.pc == s.pc + 1 && SameElsewhere(s.core, Step(s).s.core, d)
    ensures d != 0 && d != 15 ==> Step(s).s.core.regs[d] == if s.core.regs[a] == s.core.regs[b] then 1 else 0
    ensures Step(s).s.core.regs[15] == 0
  {
  }

  lemma CompareGreater(s: State, d: nibble, a: nibble, b: nibble)
    requires At(s, RRR(CmpGt, d, a, b))
    ensures Step(s).Running? && Step(s).s.pc == s.pc + 1 && SameElsewhere(s.core, Step(s).s.core, d)
    ensures d != 0 && d != 15 ==> Step(s).s.core.regs[d] == if s.core.regs[a] > s.core.regs[b] then 1 else 0
    ensures Step(s).s.core.regs[15] == 0
  {
  }

  /** On the same operands exactly one of the three comparisons gives 1. */
  lemma ComparisonsPartition(lt: State, eq: State, gt: State, d: nibble, a: nibble, b: nibble)
    requires At(lt, RRR(CmpLt, d, a, b)) && At(eq, RRR(CmpEq, d, a, b)) && At(gt, RRR(CmpGt, d, a, b))
    requires lt.core.regs == eq.core.regs == gt.core.regs && d != 0 && d != 15
    ensures Step(lt).Running? && Step(eq).Running? && Step(gt).Running?
    ensures var l: int, e: int, g: int :=
        Step(lt).s.core.regs[d], Step(eq).s.core.regs[d], Step(gt).s.core.regs[d];
      l + e + g == 1
  {
    hide Step;
    CompareLess(lt, d, a, b);
    CompareEqual(eq, d, a, b);
    CompareGreater(gt, d, a, b);
  }

  // ----- logic -----

  /** Bit `i` of a word, from the bottom. */
  predicate BitAt(w: word, i: nat) {
    w / Exp2(i) % 2 == 1
  }

  lemma BitwiseBits(o: BitOp, a: word, b: word, i: nat)
    requires i < 16
    ensures BitAt(Bitwise16(o, a, b), i) <==> match o
      case BitAnd => BitAt(a, i) && BitAt(b, i)
      case BitOr => BitAt(a, i) || BitAt(b, i)
      case BitXor => BitAt(a, i) != BitAt(b, i)
  {
    hide Bitwise, Bit;
    BitwiseMeaning(o, a, b, 16, i);
    BitIsShifted(a, i);
    BitIsShifted(b, i);
    BitIsShifted(Bitwise16(o, a, b), i);
  }

  lemma Logic(s: State, op: RrrOp, d: nibble, a: nibble, b: nibble)
    requires At(s, RRR(op, d, a, b)) && (op == And || op == Or || op == Xor)
    ensures Step(s).Running? && Step(s).s.pc == s.pc + 1 && SameElsewhere(s.core, Step(s).s.core, d)
    ensures Step(s).s.core.regs[15] == 0
    ensures forall i: nat | i < 16 && d != 0 && d != 15 ::
      var x, y, v := BitAt(s.core.regs[a], i), BitAt(s.core.regs[b], i), BitAt(Step(s).s.core.regs[d], i);
      match op
      case And => v <==> x && y
      case Or => v <==> x || y
      case _ => v <==> x != y
  {
    var o := if op == And then BitAnd else if op == Or then BitOr else BitXor;
    var x, y := s.core.regs[a], s.core.regs[b];
    LogicStep(s, op, o, d, a, b);
    hide Step, BitAt, Bitwise16;
    forall i: nat | i < 16 {
      BitwiseBits(o, x, y, i);
    }
  }

  lemma LogicStep(s: State, op: RrrOp, o: BitOp, d: nibble, a: nibble, b: nibble)
    requires At(s, RRR(op, d, a, b))
    requires (op == And && o == BitAnd) || (op == Or && o == BitOr) || (op == Xor && o == BitXor)
    ensures Step(s).Running? && Step(s).s.pc == s.pc + 1 && SameElsewhere(s.core, Step(s).s.core, d)
    ensures Step(s).s.core.regs[15] == 0
    ensures d != 0 && d != 15 ==> Step(s).s.core.regs[d] == Bitwise16(o, s.core.regs[a], s.core.regs[b])
  {
    hide DecodeWord, Bitwise16;
  }

  lemma Inversion(s: State, d: nibble, a: nibble, b: nibble)
    requires At(s, RRR(Inv, d, a, b))
    ensures Step(s).Running? && Step(s).s.pc == s.pc + 1 && SameElsewhere(s.core, Step(s).s.core, d)
    ensures Step(s).s.core.regs[15] == 0
    ensures forall i: nat | i < 16 && d != 0 && d != 15 ::
      BitAt(Step(s).s.core.regs[d], i) <==> !BitAt(s.core.regs[a], i)
  {
    InversionStep(s, d, a, b);
    hide Step;
    forall i: nat | i < 16 {
      ComplementBits(s.core.regs[a], i);
    }
  }

  lemma InversionStep(s: State, d: nibble, a: nibble, b: nibble)
    requires At(s, RRR(Inv, d, a, b))
    ensures Step(s).Running? && Step(s).s.pc == s.pc + 1 && SameElsewhere(s.core, Step(s).s.core, d)
    ensures Step(s).s.core.regs[15] == 0
    ensures d != 0 && d != 15 ==> Step(s).s.core.regs[d] == 0xFFFF - s.core.regs[a]
  {
  }

  lemma ComplementBits(w: word, i: nat)
    requires i < 16
    ensures BitAt(0xFFFF - w, i) <==> !BitAt(w, i)
  {
    hide Bit;
    assert Exp2(4) == 16 && Exp2(8) == 0x100 && Exp2(12) == 0x1000 && Exp2(16) == 0x10000;
    ComplementFlips(w, 16, i);
    BitIsShifted(w, i);
    BitIsShifted(0xFFFF - w, i);
  }

  // ----- NOP and TRAP -----

  lemma NoOperation(s: State, d: nibble, a: nibble, b: nibble)
    requires At(s, RRR(Nop, d, a, b))
    ensures Step(s).Running? && Step(s).s.pc == s.pc + 1 && SameElsewhere(s.core, Step(s).s.core, 0)
    ensures Step(s).s.core.regs[15] == 0
  {
  }

  /** TRAP halts exactly when R[d] is 0; with any code other than 0 and 2 it does nothing but clear R15. */
  lemma Trapping(s: State, d: nibble, a: nibble, b: nibble)
    requires At(s, RRR(Trap, d, a, b))
    ensures s.core.regs[d] == 0 <==> Step(s) == Halted(s)
    ensures s.core.regs[d] != 0 && s.core.regs[d] != 2 ==>
      Step(s).Running? && Step(s).s.pc == s.pc + 1 && SameElsewhere(s.core, Step(s).s.core, 0)
    ensures Step(s).Running? ==> Step(s).s.core.regs[15] == 0
  {
    hide TrapBytes;
  }

  /** With code 2, TRAP appends the low bytes of the R[b] words from R[a], addresses taken modulo 2^16. */
  lemma TrapPrinting(s: State, d: nibble, a: nibble, b: nibble)
    requires At(s, RRR(Trap, d, a, b)) && s.core.regs[d] == 2
    ensures forall i: nat :: var x: int := s.core.regs[a]; TrapAddr(s.core.regs[a], i) == (x + i) % 65536
    ensures Step(s).Running? <==> forall i: nat | i < s.core.regs[b] :: TrapAddr(s.core.regs[a], i) < 32768
    ensures Step(s).Running? || Step(s) == Undefined
    ensures Step(s).Running? ==>
      && Step(s).s.pc == s.pc + 1 && SameElsewhere(s.core.(out := Step(s).s.core.out), Step(s).s.core, 0)
      && |Step(s).s.core.out| == |s.core.out| + s.core.regs[b] && s.core.out <= Step(s).s.core.out
      && forall i: nat | i < s.core.regs[b] :: TrapAddr(s.core.regs[a], i) < 32768 &&
           Step(s).s.core.out[|s.core.out| + i] == s.core.mem[TrapAddr(s.core.regs[a], i)] % 0x100
  {
    hide TrapBytes, DecodeWord;
    TrapStep(s, d, a, b);
    hide Step;
    var x, n := s.core.regs[a], s.core.regs[b];
    if TrapInBounds(x, n) {
      TrapLength(s.core.mem, x, n);
      forall i: nat | i < n
        ensures TrapBytes(s.core.mem, x, n)[i] == s.core.mem[TrapAddr(x, i)] % 0x100
      {
        TrapPrints(s.core.mem, x, n, i);
      }
    }
  }

  lemma TrapStep(s: State, d: nibble, a: nibble, b: nibble)
    requires At(s, RRR(Trap, d, a, b)) && s.core.regs[d] == 2
    ensures var x, n := s.core.regs[a], s.core.regs[b];
      if TrapInBounds(x, n) then
        && Step(s).Running? && Step(s).s.pc == s.pc + 1
        && SameElsewhere(s.core.(out := Step(s).s.core.out), Step(s).s.core, 0)
        && Step(s).s.core.out == s.core.out + TrapBytes(s.core.mem, x, n)
      else Step(s) == Undefined
  {
    hide TrapBytes;
  }

  lemma TrapLength(mem: Memory, addr: word, n: nat)
    requires TrapInBounds(addr, n)
    ensures |TrapBytes(mem, addr, n)| == n
  {
    if n > 0 {
      TrapPrints(mem, addr, n, 0);
    }
  }

  // ----- memory -----

  /** Only the address register, and register `d` unless it is R0, may differ. */
  predicate SameRegsElsewhere(c: Core, c': Core, d: nibble) {
    c'.out == c.out && forall r: nibble | r != d || r == 0 :: c'.regs[r] == c.regs[r]
  }

  lemma LoadAddress(s: State, d: nibble, sa: nibble, disp: word)
    requires At(s, RX(Lea, d, sa, disp))
    ensures Step(s).Running? && Step(s).s.pc == s.pc + 2
    ensures SameRegsElsewhere(s.core, Step(s).s.core, d) && Step(s).s.core.mem == s.core.mem
    ensures var base: int := s.core.regs[sa]; d != 0 ==> Step(s).s.core.regs[d] == (base + disp) % 65536
  {
  }

  /** LOAD reads the word at base plus displacement; an address past memory is undefined; R0 is never loaded. */
  lemma Loading(s: State, d: nibble, sa: nibble, disp: word)
    requires At(s, RX(Load, d, sa, disp))
    ensures var base: int := s.core.regs[sa]; var ea := (base + disp) % 65536;
      Step(s).Running? <==> d == 0 || ea < 32768
    ensures Step(s).Running? || Step(s) == Undefined
    ensures Step(s).Running? ==>
      && Step(s).s.pc == s.pc + 2
      && SameRegsElsewhere(s.core, Step(s).s.core, d) && Step(s).s.core.mem == s.core.mem
    ensures var base: int := s.core.regs[sa]; var ea := (base + disp) % 65536;
      Step(s).Running? && d != 0 ==> Step(s).s.core.regs[d] == s.core.mem[ea]
  {
  }

  /** STORE writes R[d] at base plus displacement and nothing else. */
  lemma Storing(s: State, d: nibble, sa: nibble, disp: word)
    requires At(s, RX(Store, d, sa, disp))
    ensures var base: int := s.core.regs[sa]; var ea := (base + disp) % 65536;
      && (Step(s).Running? <==> ea < 32768) && (Step(s).Running? || Step(s) == Undefined)
      && (Step(s).Running? ==>
          && Step(s).s.pc == s.pc + 2 && Step(s).s.core.regs == s.core.regs && Step(s).s.core.out == s.core.out
          && Step(s).s.core.mem == s.core.mem[ea := s.core.regs[d]])
  {
  }

  /** A word loaded from where it was stored, with no other store there in between, is the stored word. */
  lemma LoadAfterStore(s: State, s1: State, n: nat, t: State,
    d: nibble, sa: nibble, disp: word, e: nibble, sb: nibble, disp': word)
    requires At(s, RX(Store, d, sa, disp)) && Step(s) == Running(s1) && Run(s1, n) == Running(t)
    requires At(t, RX(Load, e, sb, disp')) && e != 0
    requires var x: int, y: int := s.core.regs[sa], t.core.regs[sb]; (x + disp) % 65536 == (y + disp') % 65536
    requires var x: int := s.core.regs[sa];
      forall k | 0 <= k < |History(s1, n)| :: History(s1, n)[k].Stored? ==> History(s1, n)[k].a != (x + disp) % 65536
    ensures Step(t).Running? && Step(t).s.core.regs[e] == s.core.regs[d]
  {
    hide Step, Run, History;
    var x: int := s.core.regs[sa];
    Storing(s, d, sa, disp);
    Loading(t, e, sb, disp');
    UnstoredWordsKeep(s1, n, (x + disp) % 65536);
  }

  // ----- jumps -----

  /** A jump changes nothing but the address register and the program counter. */
  predicate Jumped(s: State, s': State, sa: nibble, disp: word, taken: bool) {
    var base: int := s.core.regs[sa];
    && s'.pc == (if taken then (base + disp) % 65536 else s.pc + 2)
    && s'.core.regs == s.core.regs && s'.core.mem == s.core.mem && s'.core.out == s.core.out
  }

  lemma Jumping(s: State, d: nibble, sa: nibble, disp: word)
    requires At(s, RX(Jump, d, sa, disp))
    ensures Step(s).Running? && Jumped(s, Step(s).s, sa, disp, true)
  {
  }

  lemma JumpingOnFalse(s: State, d: nibble, sa: nibble, disp: word)
    requires At(s, RX(JumpF, d, sa, disp))
    ensures Step(s).Running? && Jumped(s, Step(s).s, sa, disp, s.core.regs[d] == 0)
  {
  }

  lemma JumpingOnTrue(s: State, d: nibble, sa: nibble, disp: word)
    requires At(s, RX(JumpT, d, sa, disp))
    ensures Step(s).Running? && Jumped(s, Step(s).s, sa, disp, s.core.regs[d] != 0)
  {
  }

  /** JUMPC0 and JUMPC1 test bit `d` of R15, counted from the top. */
  lemma JumpingOnFlag(s: State, op: RxOp, d: nibble, sa: nibble, disp: word)
    requires At(s, RX(op, d, sa, disp)) && (op == JumpC0 || op == JumpC1)
    ensures Step(s).Running?
    ensures Jumped(s, Step(s).s, sa, disp, BitAt(s.core.regs[15], 15 - d) == (op == JumpC1))
  {
    hide Exp2;
  }

  /** JAL links before it computes its target, so a link register used as base gives the linked address. */
  lemma JumpingAndLinking(s: State, d: nibble, sa: nibble, disp: word)
    requires At(s, RX(Jal, d, sa, disp))
    ensures Step(s).Running? && Step(s).s.core.mem == s.core.mem
    ensures SameRegsElsewhere(s.core, Step(s).s.core, d) && (d != 0 ==> Step(s).s.core.regs[d] == s.pc + 2)
    ensures var base: int := if sa == d && d != 0 then s.pc + 2 else s.core.regs[sa];
      Step(s).s.pc == (base + disp) % 65536
  {
  }

  // ----- the edge of memory -----

  /** Memory has 32768 words: no instruction is fetched past them, and no RX instruction across their end. */
  lemma FetchEndsWithMemory(s: State)
    ensures s.pc >= 32768 ==> Step(s) == Undefined
    ensures s.pc == 32767 && s.core.mem[32767] / 0x1000 == 15 ==> Step(s) == Undefined
    ensures s.pc < 32768 && s.core.mem[s.pc] / 0x1000 < 14 ==> Fetch(s.core.mem, s.pc).Decoded?
  {
  }
}
