/**
  An interpreter for labelled programs that steps from object to object and never sees an encoding, and
  the proof that the machine running the assembled image simulates it.
 */
module LabelMachine {
  import opened Words
  import opened Isa
  import opened Assembly

  /** Execution stands before object `at` (or at the end of the program). */
  datatype LState = LState(at: nat, core: Core)

  /** A run is stuck when it leaves the program, executes data, jumps between objects or overwrites code. */
  datatype LOutcome = AtObject(l: LState) | Finished(l: LState) | Faulted | Stuck

  /** Word `a` belongs to the instruction at position `k`. */
  predicate IsCodeOf(objs: seq<Object>, k: nat, a: nat)
    requires k < |objs|
  {
    !objs[k].DataObj? && Addr(objs, k) <= a < Addr(objs, k + 1)
  }

  predicate IsCode(objs: seq<Object>, a: nat) {
    exists k | 0 <= k < |objs| :: IsCodeOf(objs, k, a)
  }

  /** The position whose address is `t`, searching from the end. */
  function PositionOf(objs: seq<Object>, t: nat, from: nat): (r: Option<nat>)
    requires from <= |objs|
    ensures r.Some? ==> r.value <= from && Addr(objs, r.value) == t
    ensures r.None? ==> forall j | 0 <= j <= from :: Addr(objs, j) != t
  {
    if Addr(objs, from) == t then Some(from)
    else if from == 0 then None
    else PositionOf(objs, t, from - 1)
  }

  /** The meaning of a displacement: a number modulo 2^16, or the address of a label's object. */
  function DispWord(p: Program, disp: Disp): word
    requires WellFormed(p)
  {
    match disp
    case Num(n) => Wrap(n)
    case Sym(x) => if x in p.labels then Wrap(Addr(p.objs, p.labels[x])) else 0
  }

  function InstOf(p: Program, o: Object): Inst
    requires WellFormed(p) && !o.DataObj?
  {
    match o
    case RRRObj(op, d, sa, sb) => RRR(op, d, sa, sb)
    case RXObj(rx, d, sa, disp) => RX(rx, d, sa, DispWord(p, disp))
  }

  predicate StoresIntoCode(p: Program, i: Inst, c: Core) {
    i.RX? && i.rx == Store && IsCode(p.objs, Wrap(c.regs[i.sa] + i.disp))
  }

  /** Falling through goes to the next object; a jump goes to the object at the target address. */
  function LAfter(p: Program, e: Effect, l: LState): LOutcome {
    match e
    case Next(c) => AtObject(LState(l.at + 1, c))
    case Goto(c, t) =>
      (match PositionOf(p.objs, t, |p.objs|)
       case Some(j) => AtObject(LState(j, c))
       case None => Stuck)
    case Halt => Finished(l)
    case Fault => Faulted
  }

  function LStep(p: Program, l: LState): LOutcome
    requires WellFormed(p)
  {
    if l.at >= |p.objs| || p.objs[l.at].DataObj? then Stuck
    else
      var i := InstOf(p, p.objs[l.at]);
      if StoresIntoCode(p, i, l.core) then Stuck
      else LAfter(p, Exec(i, Wrap(Addr(p.objs, l.at + 1)), l.core), l)
  }

  function LRun(p: Program, l: LState, n: nat): LOutcome
    requires WellFormed(p)
    decreases n
  {
    if n == 0 then AtObject(l)
    else
      match LStep(p, l)
      case AtObject(l') => LRun(p, l', n - 1)
      case stopped => stopped
  }

  // ----- the assembled program in memory -----

  /** The program links, every number fits its field, and the image fits in memory. */
  predicate Assembles(p: Program) {
    WellFormed(p) && Closed(p) && AllWritable(Linked(p)) && Size(p.objs) <= MEM_WORDS
  }

  function Start(p: Program): LState
    requires Assembles(p)
  {
    LState(0, Boot(Image(Linked(p))).core)
  }

  /** Code words hold what the assembler wrote. */
  predicate Intact(p: Program, mem: Memory)
    requires Assembles(p)
  {
    forall a: nat | a < MEM_WORDS && IsCode(p.objs, a) :: mem[a] == ImageWord(Image(Linked(p)), a)
  }

  /** The machine state that represents a label-level state. */
  function Concrete(p: Program, l: LState): State
    requires WellFormed(p) && l.at <= |p.objs|
  {
    State(Wrap(Addr(p.objs, l.at)), l.core)
  }

  function FieldsWord(op: nibble, d: nibble, sa: nibble, sb: nibble): word {
    0x1000 * op + 0x100 * d + 16 * sa + sb
  }

  lemma FieldsSplit(op: nibble, d: nibble, sa: nibble, sb: nibble)
    ensures var w := FieldsWord(op, d, sa, sb);
      w / 0x1000 == op && w / 0x100 % 16 == d && w / 16 % 16 == sa && w % 16 == sb
  {
    var w := FieldsWord(op, d, sa, sb);
    assert w / 0x100 == 16 * op + d && w / 16 == 0x100 * op + 16 * d + sa;
  }

  /** Decoding a word assembled from instruction fields gives the fields back. */
  lemma FetchFields(mem: Memory, a: word, op: nibble, d: nibble, sa: nibble, sb: nibble)
    requires a < MEM_WORDS && mem[a] == FieldsWord(op, d, sa, sb)
    ensures op < 14 ==> Fetch(mem, a) == Decoded(RRR(RrrOpOf(op), d, sa, sb))
    ensures op == 15 && sb < 9 && a + 1 < MEM_WORDS ==> Fetch(mem, a) == Decoded(RX(RxOpOf(sb), d, sa, mem[a + 1]))
  {
    FieldsSplit(op, d, sa, sb);
  }

  lemma WordOfSlice(image: seq<byte>, code: seq<byte>, a: nat, k: nat)
    requires 2 * a + |code| <= |image| && image[2 * a..2 * a + |code|] == code && 2 * k + 1 < |code|
    ensures ImageWord(image, a + k) == ImageWord(code, k)
  {
    assert image[2 * a + 2 * k] == code[2 * k] && image[2 * a + (2 * k + 1)] == code[2 * k + 1];
  }

  /** Word `k` of an encoded object, read from the image. */
  lemma ImageWordOf(objs: seq<Object>, i: nat, k: nat)
    requires AllWritable(objs) && i < |objs| && k < Sizeof(objs[i])
    ensures ImageWord(Image(objs), Addr(objs, i) + k) == ImageWord(Encode(objs[i]), k)
  {
    hide Encode, ImageTo, Addr, ImageWord, Writable;
    EncodedAt(objs, i);
    WordOfSlice(Image(objs), Encode(objs[i]), Addr(objs, i), k);
  }

  lemma EncodedWords(o: Object)
    requires Writable(o)
    ensures match o
      case RRRObj(op, d, sa, sb) => ImageWord(Encode(o), 0) == FieldsWord(RrrCode(op), d, sa, sb)
      case RXObj(rx, d, sa, disp) =>
        ImageWord(Encode(o), 0) == FieldsWord(15, d, sa, RxCode(rx)) && ImageWord(Encode(o), 1) == Wrap(disp.n)
      case DataObj(v) => ImageWord(Encode(o), 0) == Wrap(v)
  {
  }

  lemma CodesInvert(op: RrrOp, rx: RxOp)
    ensures RrrOpOf(RrrCode(op)) == op && RxOpOf(RxCode(rx)) == rx
  {
  }

  lemma IntactWord(p: Program, mem: Memory, i: nat, k: nat)
    requires Assembles(p) && Intact(p, mem) && i < |p.objs| && !p.objs[i].DataObj? && k < Sizeof(p.objs[i])
    ensures Addr(p.objs, i + 1) <= MEM_WORDS
    ensures mem[Addr(p.objs, i) + k] == ImageWord(Encode(Linked(p)[i]), k)
  {
    hide Encode, ImageTo, ImageWord;
    LinkFrame(p);
    AddrMonotone(p.objs, i + 1, |p.objs|);
    assert IsCodeOf(p.objs, i, Addr(p.objs, i) + k);
    ImageWordOf(Linked(p), i, k);
  }

  /** While code is intact the machine fetches, at an object's address, the instruction of that object. */
  lemma FetchObject(p: Program, mem: Memory, i: nat)
    requires Assembles(p) && Intact(p, mem) && i < |p.objs| && !p.objs[i].DataObj?
    ensures Addr(p.objs, i) < Addr(p.objs, i + 1) <= MEM_WORDS
    ensures Fetch(mem, Addr(p.objs, i)) == Decoded(InstOf(p, p.objs[i]))
  {
    var o, a := Linked(p)[i], Addr(p.objs, i);
    EncodedWords(o);
    IntactWord(p, mem, i, 0);
    match o
    case RRRObj(op, d, sa, sb) =>
      CodesInvert(op, Lea);
      FetchFields(mem, a, RrrCode(op), d, sa, sb);
    case RXObj(rx, d, sa, _) =>
      CodesInvert(Add, rx);
      IntactWord(p, mem, i, 1);
      FetchFields(mem, a, 15, d, sa, RxCode(rx));
  }

  // ----- simulation -----

  lemma StepKeepsIntact(p: Program, i: Inst, link: word, c: Core)
    requires Assembles(p) && Intact(p, c.mem) && !StoresIntoCode(p, i, c)
    ensures var e := Exec(i, link, c); e.Next? || e.Goto? ==> Intact(p, e.core.mem)
  {
  }

  lemma AfterSimulates(p: Program, e: Effect, l: LState)
    requires Assembles(p) && l.at < |p.objs|
    ensures match LAfter(p, e, l)
      case AtObject(l') => l'.at <= |p.objs| && (e.Next? || e.Goto?) && l'.core == e.core
        && After(e, Wrap(Addr(p.objs, l.at + 1)), Concrete(p, l)) == Running(Concrete(p, l'))
      case Finished(l') => l' == l
        && After(e, Wrap(Addr(p.objs, l.at + 1)), Concrete(p, l)) == Halted(Concrete(p, l))
      case Faulted => After(e, Wrap(Addr(p.objs, l.at + 1)), Concrete(p, l)) == Undefined
      case Stuck => true
  {
  }

  /** One label-level step is one machine step. */
  lemma StepSimulates(p: Program, l: LState)
    requires Assembles(p) && l.at <= |p.objs| && Intact(p, l.core.mem)
    ensures match LStep(p, l)
      case AtObject(l') => l'.at <= |p.objs| && Intact(p, l'.core.mem)
                          && Step(Concrete(p, l)) == Running(Concrete(p, l'))
      case Finished(l') => l' == l && Step(Concrete(p, l)) == Halted(Concrete(p, l))
      case Faulted => Step(Concrete(p, l)) == Undefined
      case Stuck => true
  {
    hide Exec, Fetch, StoresIntoCode, After, LAfter, Intact, DispWord;
    if LStep(p, l) != Stuck {
      FetchObject(p, l.core.mem, l.at);
      var i, link := InstOf(p, p.objs[l.at]), Wrap(Addr(p.objs, l.at + 1));
      var e := Exec(i, link, l.core);
      StepKeepsIntact(p, i, link, l.core);
      AfterSimulates(p, e, l);
      assert Wrap(Concrete(p, l).pc + i.Size()) == link;
    }
  }

  /** Assembly preserves meaning, for any number of steps. */
  lemma {:induction false} RunSimulates(p: Program, l: LState, n: nat)
    requires Assembles(p) && l.at <= |p.objs| && Intact(p, l.core.mem)
    ensures match LRun(p, l, n)
      case AtObject(l') =>
        l'.at <= |p.objs| && Intact(p, l'.core.mem) && Run(Concrete(p, l), n) == Running(Concrete(p, l'))
      case Finished(l') => l'.at <= |p.objs| && Run(Concrete(p, l), n) == Halted(Concrete(p, l'))
      case Faulted => Run(Concrete(p, l), n) == Undefined
      case Stuck => true
    decreases n
  {
    hide Step, LStep, Intact, Concrete;
    if n > 0 {
      StepSimulates(p, l);
      match LStep(p, l)
      case AtObject(l') => RunSimulates(p, l', n - 1);
      case _ =>
    }
  }

  lemma StartIsBoot(p: Program)
    requires Assembles(p)
    ensures Concrete(p, Start(p)) == Boot(Image(Linked(p))) && Intact(p, Start(p).core.mem)
  {
  }
}
