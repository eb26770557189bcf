/** CMP followed, any number of flag-preserving steps later, by a relational jump. */
module Branches {
  import opened Words
  import opened Isa
  import opened Assembly
  import opened LabelMachine

  predicate Holds(rel: Relation, a: int, b: int) {
    match rel
    case LT => a < b
    case LE => a <= b
    case EQ => a == b
    case NE => a != b
    case GE => a >= b
    case GT => a > b
  }

  /** CMP clears R15 before it reads its operands. */
  function CmpOperand(regs: Regs, r: nibble): word {
    if r == 15 then 0 else regs[r]
  }

  /** The bits that the relational jumps test. */
  lemma CmpFlagBits(a: word, b: word)
    ensures SelectBit(CmpFlags(a, b), 1) <==> Signed(a) > Signed(b)
    ensures SelectBit(CmpFlags(a, b), 2) <==> Signed(a) == Signed(b)
    ensures SelectBit(CmpFlags(a, b), 3) <==> Signed(a) < Signed(b)
  {
    assert Exp2(4) == 16 && Exp2(8) == 0x100;
    assert Exp2(12) == 0x1000 && Exp2(13) == 0x2000 && Exp2(14) == 0x4000;
  }

  /** Instructions that never write R15: SUB, MUL, LEA, LOAD and JAL to another register, STORE and the jumps. */
  predicate KeepsFlags(i: Inst) {
    match i
    case RRR(op, d, _, _) => (op.Sub? || op.Mul?) && d != 15
    case RX(rx, d, _, _) => d != 15 || !(rx.Lea? || rx.Load? || rx.Jal?)
  }

  lemma FlagKeepers(d: nibble, sa: nibble, sb: nibble, disp: word)
    ensures d != 15 ==> KeepsFlags(RRR(Sub, d, sa, sb)) && KeepsFlags(RRR(Mul, d, sa, sb))
    ensures d != 15 ==> KeepsFlags(RX(Lea, d, sa, disp)) && KeepsFlags(RX(Load, d, sa, disp))
    ensures KeepsFlags(RX(Store, d, sa, disp)) && KeepsFlags(RX(Jump, d, sa, disp))
    ensures KeepsFlags(RX(JumpC0, d, sa, disp)) && KeepsFlags(RX(JumpC1, d, sa, disp))
    ensures KeepsFlags(RX(JumpF, d, sa, disp)) && KeepsFlags(RX(JumpT, d, sa, disp))
    ensures d != 15 ==> KeepsFlags(RX(Jal, d, sa, disp))
  {
  }

  lemma ExecKeepsR15(i: Inst, link: word, c: Core)
    requires KeepsFlags(i)
    ensures var e := Exec(i, link, c); e.Next? || e.Goto? ==> e.core.regs[15] == c.regs[15]
  {
  }

  /** A run of `n` steps that all execute flag-preserving instructions ends with the flags it started with. */
  lemma {:induction false} RunKeepsR15(s: State, n: nat, t: State)
    requires Run(s, n) == Running(t)
    requires forall k: nat | k < n :: Run(s, k).Running? && AtFlagKeeper(Run(s, k).s)
    ensures t.core.regs[15] == s.core.regs[15]
    decreases n
  {
    hide Run, Step, AtFlagKeeper;
    if n == 0 {
      RunOfNothing(s);
    } else {
      var u := Run(s, n - 1).s;
      RunOneMore(s, n - 1);
      RunKeepsR15(s, n - 1, u);
      StepKeepsR15(u, t);
    }
  }

  lemma RunOfNothing(s: State)
    ensures Run(s, 0) == Running(s)
  {
  }

  /** The instruction about to be executed preserves the flags. */
  predicate AtFlagKeeper(s: State) {
    Fetch(s.core.mem, s.pc).Decoded? && KeepsFlags(Fetch(s.core.mem, s.pc).inst)
  }

  lemma StepKeepsR15(s: State, t: State)
    requires AtFlagKeeper(s) && Step(s) == Running(t)
    ensures t.core.regs[15] == s.core.regs[15]
  {
    var i := Fetch(s.core.mem, s.pc).inst;
    ExecKeepsR15(i, Wrap(s.pc + i.Size()), s.core);
  }

  lemma CmpStep(s: State, d: nibble, a: nibble, b: nibble)
    requires Fetch(s.core.mem, s.pc) == Decoded(RRR(Cmp, d, a, b))
    ensures Step(s).Running?
    ensures Step(s).s.core.regs[15] == CmpFlags(CmpOperand(s.core.regs, a), CmpOperand(s.core.regs, b))
  {
  }

  /** What the lowered jump does with the flags of a comparison. */
  lemma JumpDecides(rel: Relation, disp: word, sa: nibble, a: word, b: word, s: State)
    requires Fetch(s.core.mem, s.pc) == Decoded(RX(JumpAlias(rel).0, JumpAlias(rel).1, sa, disp))
    requires s.core.regs[15] == CmpFlags(a, b)
    ensures Step(s).Running?
    ensures Step(s).s.pc == if Holds(rel, Signed(a), Signed(b)) then Wrap(s.core.regs[sa] + disp) else Wrap(s.pc + 2)
    ensures Step(s).s.core.(adr := s.core.adr) == s.core
  {
    CmpFlagBits(a, b);
  }

  /**
    `cmp a,b` ... `jump<rel> disp[sa]`: as lowered by the assembler and run by the machine, the jump goes to
    its target exactly when the signed relation holds between the compared registers, whatever
    flag-preserving code runs in between.
   */
  lemma CompareAndBranch(p: Program, s: State, a: nibble, b: nibble, s1: State, n: nat, t: State,
    rel: Relation, disp: Disp, sa: nibble)
    requires WellFormed(p)
    requires Fetch(s.core.mem, s.pc) == Decoded(InstOf(p, Lower(CmpStmt(a, b))))
    requires Step(s) == Running(s1) && Run(s1, n) == Running(t)
    requires forall k: nat | k < n :: Run(s1, k).Running? && AtFlagKeeper(Run(s1, k).s)
    requires Fetch(t.core.mem, t.pc) == Decoded(InstOf(p, Lower(JumpRelStmt(rel, disp, sa))))
    ensures var x, y := Signed(CmpOperand(s.core.regs, a)), Signed(CmpOperand(s.core.regs, b));
      && Step(t).Running?
      && Step(t).s.pc == (if Holds(rel, x, y) then Wrap(t.core.regs[sa] + DispWord(p, disp)) else Wrap(t.pc + 2))
      && Step(t).s.core.(adr := t.core.adr) == t.core
  {
    hide Run, Step, Fetch, AtFlagKeeper, Holds, DispWord;
    CmpStep(s, 0, a, b);
    RunKeepsR15(s1, n, t);
    JumpDecides(rel, DispWord(p, disp), sa, CmpOperand(s.core.regs, a), CmpOperand(s.core.regs, b), t);
  }
}
