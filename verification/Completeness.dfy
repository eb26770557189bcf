/**
  When a labelled program can be run object by object: the conditions on the machine's own run under which
  the simulation speaks, and the proof that there are no others.
 */
module Completeness {
  import opened Words
  import opened Isa
  import opened Assembly
  import opened LabelMachine
  import opened Runs

  /** The program counter stands at an instruction of the program. */
  predicate AtCode(p: Program, pc: word) {
    exists k | 0 <= k < |p.objs| :: !p.objs[k].DataObj? && Addr(p.objs, k) == pc
  }

  /** The program counter stands at some object or at the end of the program. */
  predicate AtPosition(p: Program, pc: word) {
    exists k | 0 <= k <= |p.objs| :: Addr(p.objs, k) == pc
  }

  /** No store of the history hits a word of an instruction. */
  predicate SparesCode(p: Program, h: seq<Event>) {
    forall i, k | 0 <= i < |h| && h[i].Stored? && 0 <= k < |p.objs| && !p.objs[k].DataObj? ::
      h[i].a < Addr(p.objs, k) || Addr(p.objs, k + 1) <= h[i].a
  }

  /** Each of the first `n` machine states is running and at an instruction. */
  predicate StaysInProgram(p: Program, s: State, n: nat) {
    forall k: nat | k < n :: Run(s, k).Running? && AtCode(p, Run(s, k).s.pc)
  }

  // ----- runs one step longer -----

  lemma {:induction false} HistorySnoc(s: State, n: nat, t: State)
    requires Run(s, n) == Running(t)
    ensures History(s, n + 1) == History(s, n) + if Step(t).Running? then EventsOf(t) else []
    decreases n
  {
    hide Step, EventsOf;
    if n > 0 {
      var s' := Step(s).s;
      HistorySnoc(s', n - 1, t);
      AppendAssociates(EventsOf(s), History(s', n - 1), if Step(t).Running? then EventsOf(t) else []);
    } else {
      HistoryOfOne(s);
    }
  }

  lemma HistoryOfOne(s: State)
    ensures History(s, 0) == []
    ensures History(s, 1) == if Step(s).Running? then [] + EventsOf(s) else []
  {
    hide Step, EventsOf;
    match Step(s)
    case Running(s') =>
      assert History(s', 0) == [];
      assert History(s, 1) == EventsOf(s) + [];
    case _ =>
  }

  lemma {:induction false} LRunOneMore(p: Program, l: LState, n: nat)
    requires WellFormed(p)
    ensures LRun(p, l, n + 1) == match LRun(p, l, n) case AtObject(l') => LStep(p, l') case stopped => stopped
    decreases n
  {
    hide LStep;
    if n > 0 {
      match LStep(p, l)
      case AtObject(l') => LRunOneMore(p, l', n - 1);
      case _ =>
    } else {
      LRunOfOne(p, l);
    }
  }

  lemma LRunOfOne(p: Program, l: LState)
    requires WellFormed(p)
    ensures LRun(p, l, 0) == AtObject(l) && LRun(p, l, 1) == LStep(p, l)
  {
    hide LStep;
    match LStep(p, l)
    case AtObject(l') => assert LRun(p, l', 0) == AtObject(l');
    case _ =>
  }

  lemma SparesAppend(p: Program, h: seq<Event>, e: seq<Event>)
    ensures SparesCode(p, h + e) <==> SparesCode(p, h) && SparesCode(p, e)
  {
    hide Addr;
    var both := h + e;
    assert forall i | 0 <= i < |h| :: both[i] == h[i];
    assert forall i | 0 <= i < |e| :: both[|h| + i] == e[i];
    if SparesCode(p, both) {
      forall i, k | 0 <= i < |e| && e[i].Stored? && 0 <= k < |p.objs| && !p.objs[k].DataObj?
        ensures e[i].a < Addr(p.objs, k) || Addr(p.objs, k + 1) <= e[i].a
      {
        assert both[|h| + i] == e[i];
      }
    }
  }

  // ----- one step -----

  /** The machine state of a label-level state is at an instruction exactly when the object there is one. */
  lemma AtCodeExactly(p: Program, l: LState)
    requires Assembles(p) && l.at <= |p.objs|
    ensures AtCode(p, Concrete(p, l).pc) <==> l.at < |p.objs| && !p.objs[l.at].DataObj?
  {
    AddrMonotone(p.objs, l.at, |p.objs|);
    if AtCode(p, Concrete(p, l).pc) {
      var k :| 0 <= k < |p.objs| && !p.objs[k].DataObj? && Addr(p.objs, k) == Concrete(p, l).pc;
      AddrInjective(p.objs, k, l.at);
    }
  }

  /** The store about to be executed spares the code exactly when it is not a store into code. */
  lemma EventSparesExactly(p: Program, l: LState)
    requires Assembles(p) && l.at < |p.objs| && !p.objs[l.at].DataObj? && Intact(p, l.core.mem)
    ensures StoresIntoCode(p, InstOf(p, p.objs[l.at]), l.core) <==> !SparesCode(p, EventsOf(Concrete(p, l)))
  {
    FetchObject(p, l.core.mem, l.at);
    AddrMonotone(p.objs, l.at, |p.objs|);
    var i, es := InstOf(p, p.objs[l.at]), EventsOf(Concrete(p, l));
    assert Fetch(l.core.mem, Concrete(p, l).pc) == Decoded(i);
    if i.RX? && i.rx == Store {
      StoreEvent(p, i, l.core, Concrete(p, l));
    } else {
      NoStoreEvent(p, i, Concrete(p, l));
    }
  }

  lemma StoreEvent(p: Program, i: Inst, c: Core, s: State)
    requires Fetch(s.core.mem, s.pc) == Decoded(i) && i.RX? && i.rx == Store && s.core == c
    ensures StoresIntoCode(p, i, c) <==> !SparesCode(p, EventsOf(s))
  {
    hide Fetch, Addr;
    var ea := Wrap(c.regs[i.sa] + i.disp);
    assert EventsOf(s) == [Stored(ea, c.regs[i.d])];
    if IsCode(p.objs, ea) {
      var k :| 0 <= k < |p.objs| && IsCodeOf(p.objs, k, ea);
      assert EventsOf(s)[0].Stored? && EventsOf(s)[0].a == ea;
    } else {
      forall k | 0 <= k < |p.objs| && !p.objs[k].DataObj?
        ensures ea < Addr(p.objs, k) || Addr(p.objs, k + 1) <= ea
      {
        assert !IsCodeOf(p.objs, k, ea);
      }
    }
  }

  lemma NoStoreEvent(p: Program, i: Inst, s: State)
    requires Fetch(s.core.mem, s.pc) == Decoded(i) && !(i.RX? && i.rx == Store)
    ensures SparesCode(p, EventsOf(s))
  {
    hide Fetch, Addr;
  }

  /** A step from an instruction that spares the code is stuck only when it jumps between objects. */
  lemma StepNotStuck(p: Program, l: LState)
    requires Assembles(p) && l.at <= |p.objs| && Intact(p, l.core.mem)
    requires AtCode(p, Concrete(p, l).pc) && SparesCode(p, EventsOf(Concrete(p, l)))
    ensures LStep(p, l) == Stuck ==>
      Step(Concrete(p, l)).Running? && !AtPosition(p, Step(Concrete(p, l)).s.pc)
  {
    hide Exec, Fetch, EventsOf, Intact, DispWord;
    AtCodeExactly(p, l);
    EventSparesExactly(p, l);
    FetchObject(p, l.core.mem, l.at);
    assert InstOf(p, p.objs[l.at]).Size() == Sizeof(p.objs[l.at]);
  }

  /** A step that is not stuck starts at an instruction and spares the code. */
  lemma StepStays(p: Program, l: LState)
    requires Assembles(p) && l.at <= |p.objs| && Intact(p, l.core.mem) && LStep(p, l) != Stuck
    ensures AtCode(p, Concrete(p, l).pc) && SparesCode(p, EventsOf(Concrete(p, l)))
  {
    hide Exec, Fetch, EventsOf, Intact, DispWord;
    AtCodeExactly(p, l);
    EventSparesExactly(p, l);
  }

  /** A step that stops the run was about to store nothing, or outside memory. */
  lemma StoppingSpares(p: Program, l: LState)
    requires Assembles(p) && l.at < |p.objs| && !p.objs[l.at].DataObj? && Intact(p, l.core.mem)
    ensures !Step(Concrete(p, l)).Running? ==> SparesCode(p, EventsOf(Concrete(p, l)))
  {
    hide Step, EventsOf, SparesCode, Intact;
    FetchObject(p, l.core.mem, l.at);
    var i, s := InstOf(p, p.objs[l.at]), Concrete(p, l);
    if i.RX? && i.rx == Store {
      if !Step(s).Running? {
        StoreStops(p, i, s);
      }
    } else {
      NoStoreEvent(p, i, s);
    }
  }

  lemma StoreStops(p: Program, i: Inst, s: State)
    requires Assembles(p) && Fetch(s.core.mem, s.pc) == Decoded(i) && i.RX? && i.rx == Store && !Step(s).Running?
    ensures SparesCode(p, EventsOf(s))
  {
    hide Fetch, Addr, Assembles;
    var ea := Wrap(s.core.regs[i.sa] + i.disp);
    assert EventsOf(s) == [Stored(ea, s.core.regs[i.d])] && ea >= MEM_WORDS;
    CodeInMemory(p);
  }

  lemma CodeInMemory(p: Program)
    requires Assembles(p)
    ensures forall k | 0 <= k < |p.objs| && !p.objs[k].DataObj? :: Addr(p.objs, k + 1) <= MEM_WORDS
  {
    forall k | 0 <= k < |p.objs| && !p.objs[k].DataObj?
      ensures Addr(p.objs, k + 1) <= MEM_WORDS
    {
      AddrMonotone(p.objs, k + 1, |p.objs|);
    }
  }

  // ----- whole runs -----

  /** The machine keeps to the program for `n` steps: at instructions throughout, and no store into one. */
  predicate KeepsToProgram(p: Program, s: State, n: nat) {
    StaysInProgram(p, s, n) && SparesCode(p, History(s, n))
  }

  lemma KeptOneLess(p: Program, s: State, n: nat)
    requires KeepsToProgram(p, s, n + 1)
    ensures KeepsToProgram(p, s, n) && Run(s, n).Running? && AtCode(p, Run(s, n).s.pc)
    ensures var t := Run(s, n).s; Step(t).Running? ==> SparesCode(p, EventsOf(t))
  {
    hide Step, EventsOf, History, SparesCode, AtCode;
    assert Run(s, n).Running?;
    var t := Run(s, n).s;
    HistorySnoc(s, n, t);
    SparesAppend(p, History(s, n), if Step(t).Running? then EventsOf(t) else []);
  }

  lemma AtCodeIsPosition(p: Program, pc: word)
    requires AtCode(p, pc)
    ensures AtPosition(p, pc)
  {
    var k :| 0 <= k < |p.objs| && !p.objs[k].DataObj? && Addr(p.objs, k) == pc;
  }

  /**
    The simulation speaks whenever the machine keeps to the program and, if still running, stands at an
    object or the end: the labelled program is then at that object, has finished, or has faulted as well.
   */
  lemma {:induction false} RunNotStuck(p: Program, n: nat)
    requires Assembles(p) && KeepsToProgram(p, Boot(Image(Linked(p))), n)
    requires var o := Run(Boot(Image(Linked(p))), n); o.Running? ==> AtPosition(p, o.s.pc)
    ensures match Run(Boot(Image(Linked(p))), n)
      case Running(t) => exists l | LRun(p, Start(p), n) == AtObject(l) :: l.at <= |p.objs| && Concrete(p, l) == t
      case Halted(t) => exists l | LRun(p, Start(p), n) == Finished(l) :: l.at <= |p.objs| && Concrete(p, l) == t
      case Undefined => LRun(p, Start(p), n) == Faulted
      case BadOp(_) => false
    decreases n
  {
    hide Step, LStep, Run, LRun, EventsOf, Intact, AtCode, AtPosition, SparesCode,
         KeepsToProgram, Boot, Start, Concrete;
    var boot, start := Boot(Image(Linked(p))), Start(p);
    StartIsBoot(p);
    if n == 0 {
      StartInRange(p);
      RunOfNone(p, start);
    } else {
      KeptOneLess(p, boot, n - 1);
      AtCodeIsPosition(p, Run(boot, n - 1).s.pc);
      RunNotStuck(p, n - 1);
      var l := LRun(p, start, n - 1).l;
      StartInRange(p);
      RunSimulates(p, start, n - 1);
      StepKept(p, l);
      RunOneMore(boot, n - 1);
      LRunOneMore(p, start, n - 1);
    }
  }

  lemma RunOfNone(p: Program, l: LState)
    requires WellFormed(p) && l.at <= |p.objs|
    ensures LRun(p, l, 0) == AtObject(l) && Run(Concrete(p, l), 0) == Running(Concrete(p, l))
  {
  }

  lemma StartInRange(p: Program)
    requires Assembles(p)
    ensures Start(p).at <= |p.objs|
  {
  }

  /** One step of a machine that keeps to the program, and the step of the labelled program that matches it. */
  lemma StepKept(p: Program, l: LState)
    requires Assembles(p) && l.at <= |p.objs| && Intact(p, l.core.mem) && AtCode(p, Concrete(p, l).pc)
    requires Step(Concrete(p, l)).Running? ==> SparesCode(p, EventsOf(Concrete(p, l)))
    ensures match LStep(p, l)
      case AtObject(l') => l'.at <= |p.objs| && Step(Concrete(p, l)) == Running(Concrete(p, l'))
      case Finished(l') => l'.at <= |p.objs| && Step(Concrete(p, l)) == Halted(Concrete(p, l'))
      case Faulted => Step(Concrete(p, l)) == Undefined
      case Stuck => Step(Concrete(p, l)).Running? && !AtPosition(p, Step(Concrete(p, l)).s.pc)
  {
    hide Step, LStep, EventsOf, Intact, AtCode, AtPosition, SparesCode, Concrete;
    AtCodeExactly(p, l);
    StoppingSpares(p, l);
    StepNotStuck(p, l);
    StepSimulates(p, l);
  }

  /** Whenever the labelled program has come to an object, the machine has kept to the program. */
  lemma {:induction false} NotStuckKeeps(p: Program, n: nat, l: LState)
    requires Assembles(p) && LRun(p, Start(p), n) == AtObject(l)
    ensures KeepsToProgram(p, Boot(Image(Linked(p))), n)
    decreases n
  {
    hide Step, LStep, Run, LRun, EventsOf, History, Intact, AtCode, SparesCode, Boot, Start, Concrete;
    var boot, start := Boot(Image(Linked(p))), Start(p);
    StartIsBoot(p);
    if n == 0 {
      HistoryOfOne(boot);
      assert SparesCode(p, []) by { NothingSpares(p); }
    } else {
      LRunOneMore(p, start, n - 1);
      var before := LRun(p, start, n - 1).l;
      NotStuckKeeps(p, n - 1, before);
      StartInRange(p);
      RunSimulates(p, start, n - 1);
      StepStays(p, before);
      StepSimulates(p, before);
      HistorySnoc(boot, n - 1, Concrete(p, before));
      SparesAppend(p, History(boot, n - 1), EventsOf(Concrete(p, before)));
    }
  }

  lemma NothingSpares(p: Program)
    ensures SparesCode(p, [])
  {
  }

  /**
    The labelled program comes to an object after `n` steps exactly when the machine, after `n` steps from
    boot, is still running at an object or the end, was at an instruction of the program at every step, and
    stored into none of them.
   */
  lemma SpeaksExactly(p: Program, n: nat)
    requires Assembles(p)
    ensures var boot := Boot(Image(Linked(p)));
      LRun(p, Start(p), n).AtObject? <==>
        && StaysInProgram(p, boot, n)
        && Run(boot, n).Running? && AtPosition(p, Run(boot, n).s.pc)
        && SparesCode(p, History(boot, n))
  {
    hide Step, LStep, Run, LRun, History, Intact, StaysInProgram, AtCode, AtPosition, SparesCode, Boot, Start, Concrete;
    var boot := Boot(Image(Linked(p)));
    if LRun(p, Start(p), n).AtObject? {
      ReachedObject(p, n);
    }
    if KeepsToProgram(p, boot, n) && Run(boot, n).Running? && AtPosition(p, Run(boot, n).s.pc) {
      RunNotStuck(p, n);
      assert Run(boot, n) == Running(Run(boot, n).s);
    }
  }

  lemma ReachedObject(p: Program, n: nat)
    requires Assembles(p) && LRun(p, Start(p), n).AtObject?
    ensures var boot := Boot(Image(Linked(p)));
      KeepsToProgram(p, boot, n) && Run(boot, n).Running? && AtPosition(p, Run(boot, n).s.pc)
  {
    hide Step, LStep, Run, LRun, History, Intact, AtCode, AtPosition, SparesCode, KeepsToProgram, Boot, Start, Concrete;
    var l := LRun(p, Start(p), n).l;
    NotStuckKeeps(p, n, l);
    StartIsBoot(p);
    StartInRange(p);
    RunSimulates(p, Start(p), n);
    PositionReached(p, l);
  }

  lemma PositionReached(p: Program, l: LState)
    requires Assembles(p) && l.at <= |p.objs|
    ensures AtPosition(p, Concrete(p, l).pc)
  {
    AddrMonotone(p.objs, l.at, |p.objs|);
  }
}
