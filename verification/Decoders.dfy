/** The disassembler and the machine decode alike. */
module Decoders {
  import opened Words
  import opened Isa
  import opened Assembly
  import opened LabelMachine
  import opened Disassembler
  import opened Completeness

  /** The machine instruction that a listed instruction denotes. */
  function Denotes(i: DInst): Inst
    requires i.Valid()
  {
    match i
    case DRrr(opcode, d, sa, sb) => RRR(RrrOpOf(opcode), d, sa, sb)
    case DRx(_, d, sa, sb, disp) => RX(RxOpOf(sb), d, sa, disp)
  }

  lemma BytesAreFields(x: byte, y: byte)
    ensures var (d, op) := SplitByte(x); var (sb, sa) := SplitByte(y);
      BigEndian(x, y) == FieldsWord(op, d, sa, sb)
  {
    JoinSplit(x);
    JoinSplit(y);
  }

  lemma ImageFields(b: seq<byte>, a: nat)
    requires 2 * a + 1 < |b|
    ensures var (d, op) := SplitByte(b[2 * a]); var (sb, sa) := SplitByte(b[2 * a + 1]);
      ImageWord(b, a) == FieldsWord(op, d, sa, sb)
    ensures 2 * a + 4 <= |b| ==> ImageWord(b, a + 1) == BigEndian(b[2 * a + 2], b[2 * a + 3])
  {
    hide SplitByte, FieldsWord;
    BytesAreFields(b[2 * a], b[2 * a + 1]);
    assert 2 * (a + 1) == 2 * a + 2;
  }

  /**
    At any word boundary of any binary that fits in memory: same instruction, same invalid opcodes, same EXP
    words. They differ only on an RX instruction cut off by the end of the binary: the disassembler raises, the
    machine takes its displacement from the memory that follows, if there is any.
   */
  lemma DecodersAgree(b: seq<byte>, mem: Memory, a: word)
    requires 2 * a + 1 < |b| <= 2 * MEM_WORDS
    requires mem[a] == ImageWord(b, a) && (a + 1 < MEM_WORDS ==> mem[a + 1] == ImageWord(b, a + 1))
    ensures match DecodeAt(b, 2 * a)
      case Raises(IndexError) => Fetch(mem, a) == Exp
      case Raises(StructError) =>
        && |b| < 2 * a + 4
        && if a + 1 < MEM_WORDS then Fetch(mem, a).Decoded? && Fetch(mem, a).inst.RX? else Fetch(mem, a) == Outside
      case Yields(Item(end, None)) =>
        end == 2 * a + 4 && Fetch(mem, a) == if a + 1 < MEM_WORDS then BadRx else Outside
      case Yields(Item(end, Some(i))) => Fetch(mem, a) == Decoded(Denotes(i)) && end == 2 * a + 2 * Denotes(i).Size()
  {
    ImageFields(b, a);
    hide FieldsWord, ImageWord, SplitByte, BigEndian, RrrOpOf, RxOpOf;
    var (d, op) := SplitByte(b[2 * a]);
    var (sb, sa) := SplitByte(b[2 * a + 1]);
    FieldsSplit(op, d, sa, sb);
  }

  /** The machine is about to execute the `k`-th listed instruction, and decodes it as listed. */
  predicate StandsAt(items: seq<Item>, k: nat, s: State) {
    && k < |items| && 2 * s.pc == StartOf(items, 0, k)
    && items[k].inst.Some? && items[k].inst.value.Valid()
    && Fetch(s.core.mem, s.pc) == Decoded(Denotes(items[k].inst.value))
  }

  /**
    Along every run of an assembled pure-code program the program counter stands at the start of a listed
    instruction, and the machine decodes exactly that instruction.
   */
  lemma RunsFollowListing(p: Program, n: nat, l: LState)
    requires Assembles(p) && IsPureCode(p.objs) && LRun(p, Start(p), n) == AtObject(l)
    ensures l.at <= |p.objs| && Run(Boot(Image(Linked(p))), n) == Running(Concrete(p, l))
    ensures Sweep(Image(Linked(p)), 0).error.None? && |Sweep(Image(Linked(p)), 0).items| == |p.objs|
    ensures l.at < |p.objs| ==> StandsAt(Sweep(Image(Linked(p)), 0).items, l.at, Concrete(p, l))
  {
    StartIsBoot(p);
    RunSimulates(p, Start(p), n);
    LinkFrame(p);
    DisassembleImage(Linked(p));
    if l.at < |p.objs| {
      ListedObject(p, l);
    }
  }

  /** The same, from what the machine does alone: it keeps to the program and stands at one of its objects. */
  lemma KeptRunsFollowListing(p: Program, n: nat, t: State)
    requires Assembles(p) && IsPureCode(p.objs) && KeepsToProgram(p, Boot(Image(Linked(p))), n)
    requires Run(Boot(Image(Linked(p))), n) == Running(t) && AtCode(p, t.pc)
    ensures exists k: nat :: StandsAt(Sweep(Image(Linked(p)), 0).items, k, t)
  {
    hide Run, LRun, Sweep, StandsAt, KeepsToProgram, AtCode, Boot, Start, IsPureCode;
    AtCodeIsPosition(p, t.pc);
    RunNotStuck(p, n);
    var l := LRun(p, Start(p), n).l;
    RunsFollowListing(p, n, l);
    AtCodeExactly(p, l);
  }

  lemma ListedObject(p: Program, l: LState)
    requires Assembles(p) && IsPureCode(p.objs) && IsPureCode(Linked(p))
    requires l.at < |p.objs| && Intact(p, l.core.mem)
    ensures StandsAt(ItemsOf(Linked(p)), l.at, Concrete(p, l))
  {
    hide Fetch, InstOf, Denotes, Encode, ImageTo;
    LinkFrame(p);
    FetchObject(p, l.core.mem, l.at);
    DenotesObject(p, l.at);
  }

  lemma DenotesObject(p: Program, i: nat)
    requires Assembles(p) && i < |p.objs| && !p.objs[i].DataObj?
    ensures Writable(Linked(p)[i]) && !Linked(p)[i].DataObj? && DInstOf(Linked(p)[i]).Valid()
    ensures Denotes(DInstOf(Linked(p)[i])) == InstOf(p, p.objs[i])
  {
    match p.objs[i]
    case RRRObj(op, _, _, _) => CodesInvert(op, Lea);
    case RXObj(rx, _, _, _) => CodesInvert(Add, rx);
  }
}
