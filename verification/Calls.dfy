/** Subroutine calls in assembled programs. */
module Calls {
  import opened Words
  import opened Isa
  import opened Assembly
  import opened LabelMachine

  /** JAL leaves the address of the next object in its link register and goes to its target. */
  lemma CallLinks(p: Program, i: nat, d: nibble, sa: nibble, disp: Disp, s: State)
    requires Assembles(p) && i < |p.objs| && p.objs[i] == RXObj(Jal, d, sa, disp) && d != 0
    requires s.pc == Addr(p.objs, i) && Intact(p, s.core.mem)
    ensures Step(s).Running?
    ensures Step(s).s.core == s.core.(regs := s.core.regs[d := Addr(p.objs, i + 1)], adr := Step(s).s.pc)
    ensures Step(s).s.pc == Wrap((if sa == d then Addr(p.objs, i + 1) else s.core.regs[sa]) + DispWord(p, disp))
  {
    FetchObject(p, s.core.mem, i);
  }

  /**
    A call returns: after any run that preserves the link register and the code, JUMP 0[Rd] resumes at the
    object after the call, and at no other.
   */
  lemma CallReturns(p: Program, i: nat, d: nibble, sa: nibble, disp: Disp, s: State, n: nat, t: State, x: nibble)
    requires Assembles(p) && i < |p.objs| && p.objs[i] == RXObj(Jal, d, sa, disp) && d != 0
    requires s.pc == Addr(p.objs, i) && Intact(p, s.core.mem)
    requires Step(s).Running? && Run(Step(s).s, n) == Running(t)
    requires t.core.regs[d] == Step(s).s.core.regs[d] && Intact(p, t.core.mem)
    requires Fetch(t.core.mem, t.pc) == Decoded(RX(Jump, x, d, 0))
    ensures Step(t).Running? && Step(t).s.pc == Addr(p.objs, i + 1) && Step(t).s.core == t.core.(adr := Step(t).s.pc)
    ensures forall j | 0 <= j <= |p.objs| && Addr(p.objs, j) == Step(t).s.pc :: j == i + 1
    ensures i + 1 < |p.objs| && !p.objs[i + 1].DataObj? ==>
      Fetch(Step(t).s.core.mem, Step(t).s.pc) == Decoded(InstOf(p, p.objs[i + 1]))
  {
    CallLinks(p, i, d, sa, disp, s);
    ReturnJumps(t, x, d);
    AddressIsUnique(p, i + 1);
    if i + 1 < |p.objs| && !p.objs[i + 1].DataObj? {
      FetchObject(p, t.core.mem, i + 1);
    }
  }

  lemma ReturnJumps(t: State, x: nibble, d: nibble)
    requires Fetch(t.core.mem, t.pc) == Decoded(RX(Jump, x, d, 0))
    ensures Step(t) == Running(State(t.core.regs[d], t.core.(adr := t.core.regs[d])))
  {
  }

  lemma AddressIsUnique(p: Program, i: nat)
    requires Assembles(p) && i <= |p.objs|
    ensures Addr(p.objs, i) <= MEM_WORDS
    ensures forall j | 0 <= j <= |p.objs| && Addr(p.objs, j) == Addr(p.objs, i) :: j == i
  {
    AddrMonotone(p.objs, i, |p.objs|);
    forall j | 0 <= j <= |p.objs| && Addr(p.objs, j) == Addr(p.objs, i)
      ensures j == i
    {
      AddrInjective(p.objs, j, i);
    }
  }
}
