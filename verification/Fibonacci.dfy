/** The Fibonacci program of the manual, assembled and run as machine code. */
module Fibonacci {
  import opened Words
  import opened Isa
  import opened Assembly
  import opened LabelMachine

  /** The source, with the counter's literal as a parameter; label names are upper-cased by the parser. */
  function Source(n: int): seq<Line> {
    [ Label("START"),
      Stmt(MovNumStmt(1, 0)),
      Stmt(MovNumStmt(2, 1)),
      Stmt(MovNumStmt(3, n)),
      Stmt(MovNumStmt(4, 1)),
      Label("FIB"),
      Stmt(RrrStmt(Add, 5, 1, 2)),
      Stmt(MovRegStmt(1, 2)),
      Stmt(MovRegStmt(2, 5)),
      Stmt(RrrStmt(Sub, 3, 3, 4)),
      Stmt(RrrStmt(CmpEq, 6, 3, 0)),
      Stmt(RxStmt(JumpF, 6, Sym("FIB"), 0)),
      Label("EXIT"),
      Stmt(RrrStmt(Trap, 0, 0, 0)) ]
  }

  function Objs(n: int): seq<Object> {
    [ RXObj(Lea, 1, 0, Num(0)),
      RXObj(Lea, 2, 0, Num(1)),
      RXObj(Lea, 3, 0, Num(n)),
      RXObj(Lea, 4, 0, Num(1)),
      RRRObj(Add, 5, 1, 2),
      RXObj(Lea, 1, 2, Num(0)),
      RXObj(Lea, 2, 5, Num(0)),
      RRRObj(Sub, 3, 3, 4),
      RRRObj(CmpEq, 6, 3, 0),
      RXObj(JumpF, 6, 0, Sym("FIB")),
      RRRObj(Trap, 0, 0, 0) ]
  }

  function Fib(k: nat): nat {
    if k < 2 then k else Fib(k - 2) + Fib(k - 1)
  }

  /** How often the loop runs: the counter as a 16-bit word, or 2^16 when that word is zero. */
  function Rounds(n: int): (r: nat)
    ensures 1 <= r <= 0x10000 && Wrap(r) == Wrap(n)
  {
    if Wrap(n) == 0 then 0x10000 else Wrap(n)
  }

  function Labels(): map<Identifier, nat> {
    map["START" := 0]["FIB" := 4]["EXIT" := 10]
  }

  function Prog(n: int): Program {
    Program(Objs(n), Labels())
  }

  lemma ParseNothing(lines: seq<Line>, all: seq<Object>)
    ensures ParseTo(lines, 0) == Parsed(Program(all[..0], map[]))
  {
  }

  lemma ParseStmt(lines: seq<Line>, k: nat, all: seq<Object>, m: nat, labels: map<Identifier, nat>)
    requires k < |lines| && m < |all| && lines[k].Stmt? && Lower(lines[k].s) == all[m]
    requires ParseTo(lines, k) == Parsed(Program(all[..m], labels))
    ensures ParseTo(lines, k + 1) == Parsed(Program(all[..m + 1], labels))
  {
    assert all[..m + 1] == all[..m] + [all[m]];
  }

  lemma ParseLabel(lines: seq<Line>, k: nat, all: seq<Object>, m: nat, labels: map<Identifier, nat>, x: Identifier)
    requires k < |lines| && m <= |all| && lines[k] == Label(x) && x !in labels
    requires ParseTo(lines, k) == Parsed(Program(all[..m], labels))
    ensures ParseTo(lines, k + 1) == Parsed(Program(all[..m], labels[x := m]))
  {
  }

  lemma SourceStart(n: int)
    ensures |Source(n)| == 14 && |Objs(n)| == 11
    ensures var s, o := Source(n), Objs(n);
      && s[0] == Label("START") && s[5] == Label("FIB")
      && (forall k | 1 <= k <= 4 :: s[k].Stmt? && Lower(s[k].s) == o[k - 1])
  {
  }

  lemma SourceLoop(n: int)
    ensures |Source(n)| == 14 && |Objs(n)| == 11
    ensures var s, o := Source(n), Objs(n);
      && s[12] == Label("EXIT")
      && (forall k | 6 <= k <= 11 :: s[k].Stmt? && Lower(s[k].s) == o[k - 2])
      && s[13].Stmt? && Lower(s[13].s) == o[10]
  {
  }

  lemma ParseSource(n: int)
    ensures Parse(Source(n)) == Parsed(Prog(n))
  {
    hide ParseTo, Source, Objs, Labels;
    ParseStart(n);
    ParseLoop(n);
  }

  lemma ParseStart(n: int)
    ensures |Objs(n)| == 11 && |Source(n)| == 14
    ensures ParseTo(Source(n), 6) == Parsed(Program(Objs(n)[..4], map["START" := 0]["FIB" := 4]))
  {
    SourceStart(n);
    hide ParseTo, Source, Objs, Lower;
    var s, o := Source(n), Objs(n);
    var labels: map<Identifier, nat> := map["START" := 0];
    ParseNothing(s, o);
    ParseLabel(s, 0, o, 0, map[], "START");
    ParseStmt(s, 1, o, 0, labels);
    ParseStmt(s, 2, o, 1, labels);
    ParseStmt(s, 3, o, 2, labels);
    ParseStmt(s, 4, o, 3, labels);
    ParseLabel(s, 5, o, 4, labels, "FIB");
  }

  lemma ParseLoop(n: int)
    requires |Objs(n)| == 11 && |Source(n)| == 14
    requires ParseTo(Source(n), 6) == Parsed(Program(Objs(n)[..4], map["START" := 0]["FIB" := 4]))
    ensures ParseTo(Source(n), 14) == Parsed(Program(Objs(n), Labels()))
  {
    SourceLoop(n);
    hide ParseTo, Source, Objs, Lower;
    var s, o := Source(n), Objs(n);
    var labels: map<Identifier, nat> := map["START" := 0]["FIB" := 4];
    ParseStmt(s, 6, o, 4, labels);
    ParseStmt(s, 7, o, 5, labels);
    ParseStmt(s, 8, o, 6, labels);
    ParseStmt(s, 9, o, 7, labels);
    ParseStmt(s, 10, o, 8, labels);
    ParseStmt(s, 11, o, 9, labels);
    ParseLabel(s, 12, o, 10, labels, "EXIT");
    ParseStmt(s, 13, o, 10, Labels());
    assert o[..11] == o;
  }

  /** The program's shape, object by object. */
  lemma Layout(n: int)
    ensures var p := Prog(n);
      && WellFormed(p) && |p.objs| == 11 && "FIB" in p.labels && p.labels["FIB"] == 4
      && p.objs[0] == RXObj(Lea, 1, 0, Num(0)) && p.objs[1] == RXObj(Lea, 2, 0, Num(1))
      && p.objs[2] == RXObj(Lea, 3, 0, Num(n)) && p.objs[3] == RXObj(Lea, 4, 0, Num(1))
      && p.objs[4] == RRRObj(Add, 5, 1, 2)
      && p.objs[5] == RXObj(Lea, 1, 2, Num(0)) && p.objs[6] == RXObj(Lea, 2, 5, Num(0))
      && p.objs[7] == RRRObj(Sub, 3, 3, 4) && p.objs[8] == RRRObj(CmpEq, 6, 3, 0)
      && p.objs[9] == RXObj(JumpF, 6, 0, Sym("FIB")) && p.objs[10] == RRRObj(Trap, 0, 0, 0)
  {
  }

  /** The program assembles for every literal that fits the displacement field. */
  lemma ProgAssembles(n: int)
    requires FitsShort(n)
    ensures Assembles(Prog(n)) && Addr(Prog(n).objs, 4) < 0x8000
  {
    hide Addr, Prog, Objs, Offsets, Linked;
    Layout(n);
    var p := Prog(n);
    AddrMonotone(p.objs, 0, 4);
    AddrMonotone(p.objs, 0, 11);
    AddrAtZero(p.objs);
    LinkFrame(p);
    forall i | 0 <= i < |p.objs|
      ensures Writable(Linked(p)[i])
    {
      if i != 9 {
        assert !IsSymbolic(p.objs[i]) && Writable(p.objs[i]);
      }
    }
  }

  lemma AddrAtZero(objs: seq<Object>)
    ensures Addr(objs, 0) == 0
  {
  }

  // ----- single steps -----

  lemma LeaStep(p: Program, l: LState, d: nibble, sa: nibble, v: int)
    requires WellFormed(p) && l.at < |p.objs| && p.objs[l.at] == RXObj(Lea, d, sa, Num(v)) && d != 0
    ensures var w := Wrap(l.core.regs[sa] + Wrap(v));
      LStep(p, l) == AtObject(LState(l.at + 1, l.core.(adr := w, regs := l.core.regs[d := w])))
  {
  }

  lemma RrrStep(p: Program, l: LState, op: RrrOp, d: nibble, sa: nibble, sb: nibble)
    requires WellFormed(p) && l.at < |p.objs| && p.objs[l.at] == RRRObj(op, d, sa, sb)
    requires (op.Add? || op.Sub? || op.CmpEq?) && d != 0 && d != 15
    ensures LStep(p, l).AtObject?
    ensures var l', v := LStep(p, l).l, Alu(op, l.core.regs[sa], l.core.regs[sb]);
      && l'.at == l.at + 1 && l'.core == l.core.(regs := l'.core.regs)
      && forall r: nibble | r != 15 :: l'.core.regs[r] == if r == d then v else l.core.regs[r]
  {
  }

  lemma JumpStep(p: Program, l: LState, d: nibble, x: Identifier)
    requires WellFormed(p) && l.at < |p.objs| && p.objs[l.at] == RXObj(JumpF, d, 0, Sym(x))
    requires x in p.labels && Addr(p.objs, p.labels[x]) < 0x10000 && l.core.regs[0] == 0
    ensures LStep(p, l).AtObject?
    ensures var l' := LStep(p, l).l;
      && l'.at == (if l.core.regs[d] == 0 then p.labels[x] else l.at + 1)
      && l'.core == l.core.(adr := l'.core.adr)
  {
    var t := Addr(p.objs, p.labels[x]);
    match PositionOf(p.objs, t, |p.objs|)
    case Some(j) => AddrInjective(p.objs, j, p.labels[x]);
    case None =>
  }

  lemma RunFirst(p: Program, l: LState, l': LState, n: nat)
    requires WellFormed(p) && LStep(p, l) == AtObject(l')
    ensures LRun(p, l, n + 1) == LRun(p, l', n)
  {
  }

  // ----- the loop -----

  /** What holds at the label FIB after `j` rounds, and at the exit. */
  predicate Inv(n: int, j: nat, c: Core, c0: Core) {
    && c.regs[0] == 0 && c.regs[4] == 1
    && c.regs[1] == Wrap(Fib(j)) && c.regs[2] == Wrap(Fib(j + 1)) && c.regs[3] == Wrap(n - j)
    && c.mem == c0.mem && c.out == c0.out
  }

  /** Four moves establish the invariant. */
  lemma Setup(n: int, l: LState, k: nat) returns (l4: LState)
    requires FitsShort(n) && l.at == 0 && l.core.regs[0] == 0
    ensures WellFormed(Prog(n)) && LRun(Prog(n), l, k + 4) == LRun(Prog(n), l4, k)
    ensures l4.at == 4 && Inv(n, 0, l4.core, l.core)
  {
    hide LStep, LRun, Prog, Objs, WellFormed, Addr;
    Layout(n);
    var p := Prog(n);
    LeaStep(p, l, 1, 0, 0);
    var l1 := LStep(p, l).l;
    LeaStep(p, l1, 2, 0, 1);
    var l2 := LStep(p, l1).l;
    LeaStep(p, l2, 3, 0, n);
    var l3 := LStep(p, l2).l;
    LeaStep(p, l3, 4, 0, 1);
    l4 := LStep(p, l3).l;
    RunFirst(p, l, l1, k + 3);
    RunFirst(p, l1, l2, k + 2);
    RunFirst(p, l2, l3, k + 1);
    RunFirst(p, l3, l4, k);
  }

  lemma WrapSum(a: nat, b: nat)
    ensures Wrap(Wrap(a) + Wrap(b)) == Wrap(a + b)
  {
  }

  lemma FibSum(j: nat)
    ensures Wrap(Wrap(Fib(j)) + Wrap(Fib(j + 1))) == Wrap(Fib(j + 2))
  {
    hide Wrap;
    WrapSum(Fib(j), Fib(j + 1));
  }

  /** The first three instructions of the loop: the pair of Fibonacci numbers advances. */
  lemma AdvancePair(n: int, l: LState, j: nat, c0: Core, k: nat) returns (l3: LState)
    requires FitsShort(n) && l.at == 4 && Inv(n, j, l.core, c0)
    ensures WellFormed(Prog(n)) && LRun(Prog(n), l, k + 3) == LRun(Prog(n), l3, k)
    ensures l3.at == 7 && l3.core.mem == c0.mem && l3.core.out == c0.out
    ensures l3.core.regs[0] == 0 && l3.core.regs[4] == 1 && l3.core.regs[3] == Wrap(n - j)
    ensures l3.core.regs[1] == Wrap(Fib(j + 1)) && l3.core.regs[2] == Wrap(Fib(j + 2))
  {
    hide LStep, LRun, Prog, Objs, WellFormed, Addr, Fib;
    Layout(n);
    var p := Prog(n);
    FibSum(j);
    RrrStep(p, l, Add, 5, 1, 2);
    var l1 := LStep(p, l).l;
    LeaStep(p, l1, 1, 2, 0);
    var l2 := LStep(p, l1).l;
    LeaStep(p, l2, 2, 5, 0);
    l3 := LStep(p, l2).l;
    RunFirst(p, l, l1, k + 2);
    RunFirst(p, l1, l2, k + 1);
    RunFirst(p, l2, l3, k);
  }

  /** One round: six instructions, back to FIB until the counter is zero. */
  lemma Round(n: int, l: LState, j: nat, c0: Core, k: nat) returns (l6: LState)
    requires FitsShort(n) && l.at == 4 && Inv(n, j, l.core, c0)
    ensures WellFormed(Prog(n)) && LRun(Prog(n), l, k + 6) == LRun(Prog(n), l6, k)
    ensures Inv(n, j + 1, l6.core, c0)
    ensures l6.at == (if Wrap(n - (j + 1)) == 0 then 10 else 4)
    ensures l6.core.regs[6] == if Wrap(n - (j + 1)) == 0 then 1 else 0
  {
    hide LStep, LRun, Prog, Objs, WellFormed, Addr, Fib;
    Layout(n);
    var p := Prog(n);
    ProgAssembles(n);
    var l3 := AdvancePair(n, l, j, c0, k + 3);
    RrrStep(p, l3, Sub, 3, 3, 4);
    var l4 := LStep(p, l3).l;
    RrrStep(p, l4, CmpEq, 6, 3, 0);
    var l5 := LStep(p, l4).l;
    JumpStep(p, l5, 6, "FIB");
    l6 := LStep(p, l5).l;
    RunFirst(p, l3, l4, k + 2);
    RunFirst(p, l4, l5, k + 1);
    RunFirst(p, l5, l6, k);
  }

  /** The remaining rounds; the counter reaches zero in the last one and not before. */
  lemma {:induction false} Loop(n: int, l: LState, j: nat, c0: Core) returns (end: LState)
    requires FitsShort(n) && l.at == 4 && Inv(n, j, l.core, c0) && j < Rounds(n)
    ensures WellFormed(Prog(n)) && LRun(Prog(n), l, 6 * (Rounds(n) - j)) == AtObject(end)
    ensures end.at == 10 && Inv(n, Rounds(n), end.core, c0) && end.core.regs[6] == 1
    decreases Rounds(n) - j
  {
    hide LStep, Prog, Objs, WellFormed, Inv;
    var next := Round(n, l, j, c0, 6 * (Rounds(n) - j) - 6);
    if j + 1 == Rounds(n) {
      end := next;
    } else {
      assert Wrap(n - (j + 1)) != 0;
      end := Loop(n, next, j + 1, c0);
    }
  }

  /** The whole run at the level of objects, up to the TRAP. */
  lemma LabelRun(n: int) returns (end: LState)
    requires FitsShort(n)
    ensures Assembles(Prog(n))
    ensures LRun(Prog(n), Start(Prog(n)), 4 + 6 * Rounds(n)) == AtObject(end)
    ensures LStep(Prog(n), end) == Finished(end)
    ensures Inv(n, Rounds(n), end.core, Start(Prog(n)).core) && end.core.regs[6] == 1
  {
    hide LRun, Prog, Objs, WellFormed, Inv, Rounds, Assembles;
    Layout(n);
    ProgAssembles(n);
    StartsClear(n);
    var start := Start(Prog(n));
    var l4 := Setup(n, start, 6 * Rounds(n));
    end := Loop(n, l4, 0, start.core);
    HaltsAtTrap(n, end, start.core);
  }

  lemma StartsClear(n: int)
    requires Assembles(Prog(n))
    ensures Start(Prog(n)).at == 0 && Start(Prog(n)).core.regs[0] == 0 && Start(Prog(n)).core.out == []
  {
  }

  lemma HaltsAtTrap(n: int, end: LState, c0: Core)
    requires end.at == 10 && Inv(n, Rounds(n), end.core, c0)
    ensures WellFormed(Prog(n)) && LStep(Prog(n), end) == Finished(end)
  {
    hide Prog, Objs, WellFormed, Rounds;
    Layout(n);
  }

  /**
    Total correctness of the assembled machine code: from boot it reaches the halting TRAP after exactly
    4 + 6 * rounds steps with consecutive Fibonacci numbers modulo 2^16.
   */
  lemma FibonacciRuns(n: int) returns (t: State)
    requires FitsShort(n)
    ensures Parse(Source(n)) == Parsed(Prog(n)) && Assembles(Prog(n))
    ensures var boot := Boot(Image(Linked(Prog(n))));
      && Run(boot, 4 + 6 * Rounds(n)) == Running(t) && Step(t) == Halted(t)
      && t.core.mem == boot.core.mem && t.core.out == []
    ensures t.core.regs[1] == Fib(Rounds(n)) % 0x10000 && t.core.regs[2] == Fib(Rounds(n) + 1) % 0x10000
    ensures t.core.regs[3] == 0 && t.core.regs[6] == 1
  {
    hide LStep, LRun, Step, Run, Parse, Image, Linked, Prog, Source, Boot, Start, Fib, Intact;
    var p := Prog(n);
    ParseSource(n);
    var end := LabelRun(n);
    StartsClear(n);
    StartIsBoot(p);
    RunSimulates(p, Start(p), 4 + 6 * Rounds(n));
    StepSimulates(p, end);
    t := Concrete(p, end);
  }

  /** The manual's run: counter 10 ends with 55 and 89. */
  lemma ManualExample() returns (t: State)
    ensures Assembles(Prog(10)) && Run(Boot(Image(Linked(Prog(10)))), 64) == Running(t) && Step(t) == Halted(t)
    ensures t.core.regs[1] == 55 && t.core.regs[2] == 89 && t.core.regs[3] == 0 && t.core.regs[6] == 1
  {
    hide *;
    FibTen();
    t := FibonacciRuns(10);
  }

  lemma FibTen()
    ensures FitsShort(10) && Rounds(10) == 10 && Fib(10) == 55 && Fib(11) == 89
  {
  }

  // ----- the image, byte by byte -----

  lemma Addresses(n: int)
    ensures var o := Objs(n);
      && |o| == 11 && Addr(o, 0) == 0 && Addr(o, 1) == 2 && Addr(o, 2) == 4 && Addr(o, 3) == 6 && Addr(o, 4) == 8
      && Addr(o, 5) == 9 && Addr(o, 6) == 11 && Addr(o, 7) == 13 && Addr(o, 8) == 14 && Addr(o, 9) == 15
      && Addr(o, 10) == 17 && Addr(o, 11) == 18
  {
  }

  /** The bytes from `2 * a` on. */
  predicate HasBytes(image: seq<byte>, a: nat, bytes: seq<byte>) {
    2 * a + |bytes| <= |image| && image[2 * a..2 * a + |bytes|] == bytes
  }

  lemma ObjectBytes(n: int, i: nat, o: Object, a: nat, bytes: seq<byte>)
    requires FitsShort(n) && i < |Prog(n).objs| && Addr(Prog(n).objs, i) == a
    requires Writable(o) && Encode(o) == bytes && Resolve(Prog(n).objs[i], Offsets(Prog(n))) == o
    ensures AllWritable(Linked(Prog(n))) && HasBytes(Image(Linked(Prog(n))), a, bytes)
  {
    hide Prog, Objs, Encode, Image, Resolve, Offsets, Addr;
    ProgAssembles(n);
    LinkFrame(Prog(n));
    EncodedAt(Linked(Prog(n)), i);
  }

  lemma LeaBytes(n: int, i: nat, d: nibble, sa: nibble, v: int)
    requires FitsShort(n) && i < |Prog(n).objs| && Prog(n).objs[i] == RXObj(Lea, d, sa, Num(v)) && FitsShort(v)
    ensures AllWritable(Linked(Prog(n)))
    ensures HasBytes(Image(Linked(Prog(n))), Addr(Prog(n).objs, i),
      [0xF0 + d as int, 16 * sa as int, v % 0x10000 / 0x100, v % 0x100])
  {
    hide Prog, Objs, Image, Linked, Addr, HasBytes;
    var bytes: seq<byte> := [0xF0 + d as int, 16 * sa as int, v % 0x10000 / 0x100, v % 0x100];
    assert Encode(RXObj(Lea, d, sa, Num(v))) == bytes;
    ObjectBytes(n, i, RXObj(Lea, d, sa, Num(v)), Addr(Prog(n).objs, i), bytes);
  }

  lemma RrrBytes(n: int, i: nat, op: RrrOp, d: nibble, sa: nibble, sb: nibble)
    requires FitsShort(n) && i < |Prog(n).objs| && Prog(n).objs[i] == RRRObj(op, d, sa, sb)
    ensures AllWritable(Linked(Prog(n)))
    ensures HasBytes(Image(Linked(Prog(n))), Addr(Prog(n).objs, i),
      [16 * RrrCode(op) as int + d as int, 16 * sa as int + sb as int])
  {
    hide Prog, Objs, Image, Linked, Addr, HasBytes, RrrCode;
    var bytes: seq<byte> := [16 * RrrCode(op) as int + d as int, 16 * sa as int + sb as int];
    assert Encode(RRRObj(op, d, sa, sb)) == bytes;
    ObjectBytes(n, i, RRRObj(op, d, sa, sb), Addr(Prog(n).objs, i), bytes);
  }

  lemma JumpBytes(n: int)
    requires FitsShort(n)
    ensures AllWritable(Linked(Prog(n))) && HasBytes(Image(Linked(Prog(n))), 15, [0xF6, 0x06, 0x00, 0x08])
  {
    hide Objs, Image, Linked, Addr, HasBytes;
    Layout(n);
    Addresses(n);
    ObjectBytes(n, 9, RXObj(JumpF, 6, 0, Num(8)), 15, [0xF6, 0x06, 0x00, 0x08]);
  }

  /** The file the assembler writes for the manual's program. */
  lemma ImageBytes(n: int)
    requires FitsShort(n)
    ensures AllWritable(Linked(Prog(n))) && |Image(Linked(Prog(n)))| == 36
    ensures var b := Image(Linked(Prog(n)));
      && HasBytes(b, 0, [0xF1, 0x00, 0x00, 0x00]) && HasBytes(b, 2, [0xF2, 0x00, 0x00, 0x01])
      && HasBytes(b, 4, [0xF3, 0x00, n % 0x10000 / 0x100, n % 0x100]) && HasBytes(b, 6, [0xF4, 0x00, 0x00, 0x01])
      && HasBytes(b, 8, [0x05, 0x12])
      && HasBytes(b, 9, [0xF1, 0x20, 0x00, 0x00]) && HasBytes(b, 11, [0xF2, 0x50, 0x00, 0x00])
      && HasBytes(b, 13, [0x13, 0x34]) && HasBytes(b, 14, [0x66, 0x30])
      && HasBytes(b, 15, [0xF6, 0x06, 0x00, 0x08]) && HasBytes(b, 17, [0xD0, 0x00])
  {
    hide Objs, Image, Linked, HasBytes, AllWritable, Addr, WellFormed;
    Layout(n);
    Addresses(n);
    ProgAssembles(n);
    ImageSize(Prog(n));
    LeaBytes(n, 0, 1, 0, 0);
    LeaBytes(n, 1, 2, 0, 1);
    LeaBytes(n, 2, 3, 0, n);
    LeaBytes(n, 3, 4, 0, 1);
    RrrBytes(n, 4, Add, 5, 1, 2);
    LeaBytes(n, 5, 1, 2, 0);
    LeaBytes(n, 6, 2, 5, 0);
    RrrBytes(n, 7, Sub, 3, 3, 4);
    RrrBytes(n, 8, CmpEq, 6, 3, 0);
    JumpBytes(n);
    RrrBytes(n, 10, Trap, 0, 0, 0);
  }
}
