/** What the statements of a source do when the machine reaches them. */
module Statements {
  import opened Words
  import opened Isa
  import opened Assembly
  import opened LabelMachine
  import opened Instructions

  /** The machine is about to execute what statement `st` was lowered to. */
  predicate AtStatement(p: Program, s: State, st: Statement)
    requires WellFormed(p)
  {
    !Lower(st).DataObj? && At(s, InstOf(p, Lower(st)))
  }

  /** A numeric displacement is taken modulo 2^16; a symbol stands for its label's offset. */
  lemma DisplacementMeaning(p: Program, disp: Disp)
    requires Assembles(p)
    ensures disp.Num? ==> DispWord(p, disp) == disp.n % 65536
    ensures disp.Sym? && disp.name in p.labels ==> DispWord(p, disp) == Addr(p.objs, p.labels[disp.name])
  {
    if disp.Sym? && disp.name in p.labels {
      AddrMonotone(p.objs, p.labels[disp.name], |p.objs|);
    }
  }

  /** `inv d,a` complements every bit of `a` into `d`. */
  lemma Inverts(p: Program, s: State, d: nibble, a: nibble)
    requires WellFormed(p) && AtStatement(p, s, InvStmt(d, a)) && d != 0 && d != 15
    ensures Step(s).Running? && Step(s).s.pc == s.pc + 1 && SameElsewhere(s.core, Step(s).s.core, d)
    ensures forall i: nat | i < 16 :: BitAt(Step(s).s.core.regs[d], i) <==> !BitAt(s.core.regs[a], i)
  {
    hide Step, Fetch, BitAt;
    Inversion(s, d, a, 0);
  }

  /** `jump disp[a]` goes to base plus displacement and changes no register. */
  lemma Jumps(p: Program, s: State, disp: Disp, a: nibble)
    requires WellFormed(p) && AtStatement(p, s, JumpStmt(disp, a))
    ensures Step(s).Running? && Jumped(s, Step(s).s, a, DispWord(p, disp), true)
  {
    hide Step, Fetch, DispWord;
    Jumping(s, 0, a, DispWord(p, disp));
  }

  /** `jump x[r0]` goes to the object that label `x` precedes. */
  lemma JumpsToLabel(p: Program, s: State, x: Identifier)
    requires Assembles(p) && x in p.labels && AtStatement(p, s, JumpStmt(Sym(x), 0)) && s.core.regs[0] == 0
    ensures Step(s).Running? && Step(s).s.pc == Addr(p.objs, p.labels[x])
  {
    hide Step, Fetch, DispWord;
    DisplacementMeaning(p, Sym(x));
    Jumps(p, s, Sym(x), 0);
  }

  /** `mov d,a` copies register `a`. */
  lemma Moves(p: Program, s: State, d: nibble, a: nibble)
    requires WellFormed(p) && AtStatement(p, s, MovRegStmt(d, a)) && d != 0
    ensures Step(s).Running? && Step(s).s.pc == s.pc + 2
    ensures SameRegsElsewhere(s.core, Step(s).s.core, d) && Step(s).s.core.mem == s.core.mem
    ensures Step(s).s.core.regs[d] == s.core.regs[a]
  {
    hide Step, Fetch;
    LoadAddress(s, d, a, 0);
  }

  /** `mov d,v` puts `v` modulo 2^16 into `d`. */
  lemma MovesNumber(p: Program, s: State, d: nibble, v: int)
    requires WellFormed(p) && AtStatement(p, s, MovNumStmt(d, v)) && d != 0 && s.core.regs[0] == 0
    ensures Step(s).Running? && Step(s).s.pc == s.pc + 2
    ensures SameRegsElsewhere(s.core, Step(s).s.core, d) && Step(s).s.core.mem == s.core.mem
    ensures Step(s).s.core.regs[d] == v % 65536
  {
    hide Step, Fetch;
    LoadAddress(s, d, 0, Wrap(v));
  }

  /** `data v` puts `v` modulo 2^16 at its address, where any label in front of it points. */
  lemma DataIsLoaded(p: Program, i: nat, v: int)
    requires Assembles(p) && i < |p.objs| && p.objs[i] == Lower(DataStmt(v))
    ensures Addr(p.objs, i) < 32768 && Boot(Image(Linked(p))).core.mem[Addr(p.objs, i)] == v % 65536
  {
    LinkFrame(p);
    AddrMonotone(p.objs, i + 1, |p.objs|);
    ImageWordOf(Linked(p), i, 0);
    EncodedWords(Linked(p)[i]);
  }
}
