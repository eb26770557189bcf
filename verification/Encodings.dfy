/** The numbers of the instruction formats: the bytes the assembler writes and the words the machine decodes. */
module Encodings {
  import opened Words
  import opened Isa
  import opened Assembly
  import opened LabelMachine

  // ----- bytes of instructions -----

  /** An RRR instruction is two bytes: operation and destination, then the two sources. */
  predicate WritesRRR(op: RrrOp, code: nat, d: nibble, sa: nibble, sb: nibble) {
    var o := RRRObj(op, d, sa, sb);
    var d': int, a: int, b: int := d, sa, sb;
    AllWritable([o]) && |Image([o])| == 2 && Image([o])[0] == 16 * code + d' && Image([o])[1] == 16 * a + b
  }

  lemma SingleImage(o: Object)
    requires Writable(o)
    ensures AllWritable([o]) && Image([o]) == Encode(o)
  {
    assert ImageTo([o], 1) == ImageTo([o], 0) + Encode(o);
  }

  lemma RRRWritten(op: RrrOp, d: nibble, sa: nibble, sb: nibble)
    ensures WritesRRR(op, RrrCode(op), d, sa, sb)
  {
    hide RrrCode, Image;
    SingleImage(RRRObj(op, d, sa, sb));
  }

  /** Every RRR operation, with its number written out. */
  lemma RRRBytes(d: nibble, sa: nibble, sb: nibble)
    ensures WritesRRR(Add, 0x0, d, sa, sb) && WritesRRR(Sub, 0x1, d, sa, sb)
    ensures WritesRRR(Mul, 0x2, d, sa, sb) && WritesRRR(Div, 0x3, d, sa, sb)
    ensures WritesRRR(Cmp, 0x4, d, sa, sb) && WritesRRR(CmpLt, 0x5, d, sa, sb)
    ensures WritesRRR(CmpEq, 0x6, d, sa, sb) && WritesRRR(CmpGt, 0x7, d, sa, sb)
    ensures WritesRRR(Inv, 0x8, d, sa, sb) && WritesRRR(And, 0x9, d, sa, sb)
    ensures WritesRRR(Or, 0xA, d, sa, sb) && WritesRRR(Xor, 0xB, d, sa, sb)
    ensures WritesRRR(Nop, 0xC, d, sa, sb) && WritesRRR(Trap, 0xD, d, sa, sb)
  {
    hide WritesRRR;
    RRRWritten(Add, d, sa, sb);
    RRRWritten(Sub, d, sa, sb);
    RRRWritten(Mul, d, sa, sb);
    RRRWritten(Div, d, sa, sb);
    RRRWritten(Cmp, d, sa, sb);
    RRRWritten(CmpLt, d, sa, sb);
    RRRWritten(CmpEq, d, sa, sb);
    RRRWritten(CmpGt, d, sa, sb);
    RRRWritten(Inv, d, sa, sb);
    RRRWritten(And, d, sa, sb);
    RRRWritten(Or, d, sa, sb);
    RRRWritten(Xor, d, sa, sb);
    RRRWritten(Nop, d, sa, sb);
    RRRWritten(Trap, d, sa, sb);
  }

  /** An RX instruction is four bytes: 15 and destination, base and operation, then the displacement, big-endian. */
  predicate WritesRX(rx: RxOp, code: nat, d: nibble, sa: nibble, disp: int) {
    var o := RXObj(rx, d, sa, Num(disp));
    var d': int, a: int := d, sa;
    && AllWritable([o]) && |Image([o])| == 4
    && Image([o])[0] == 0xF0 + d' && Image([o])[1] == 16 * a + code
    && Image([o])[2] == disp % 0x10000 / 0x100 && Image([o])[3] == disp % 0x100
  }

  lemma RXWritten(rx: RxOp, d: nibble, sa: nibble, disp: int)
    requires -32768 <= disp <= 32767
    ensures WritesRX(rx, RxCode(rx), d, sa, disp)
  {
    hide RxCode, Image;
    SingleImage(RXObj(rx, d, sa, Num(disp)));
  }

  /** Every RX operation, with its number written out. */
  lemma RXBytes(d: nibble, sa: nibble, disp: int)
    requires -32768 <= disp <= 32767
    ensures WritesRX(Lea, 0, d, sa, disp) && WritesRX(Load, 1, d, sa, disp) && WritesRX(Store, 2, d, sa, disp)
    ensures WritesRX(Jump, 3, d, sa, disp) && WritesRX(JumpC0, 4, d, sa, disp) && WritesRX(JumpC1, 5, d, sa, disp)
    ensures WritesRX(JumpF, 6, d, sa, disp) && WritesRX(JumpT, 7, d, sa, disp) && WritesRX(Jal, 8, d, sa, disp)
  {
    hide WritesRX;
    RXWritten(Lea, d, sa, disp);
    RXWritten(Load, d, sa, disp);
    RXWritten(Store, d, sa, disp);
    RXWritten(Jump, d, sa, disp);
    RXWritten(JumpC0, d, sa, disp);
    RXWritten(JumpC1, d, sa, disp);
    RXWritten(JumpF, d, sa, disp);
    RXWritten(JumpT, d, sa, disp);
    RXWritten(Jal, d, sa, disp);
  }

  lemma DataBytes(v: int)
    requires -32768 <= v <= 32767
    ensures AllWritable([DataObj(v)]) && Image([DataObj(v)]) == [v % 0x10000 / 0x100, v % 0x100]
  {
    SingleImage(DataObj(v));
  }

  /** Exactly unlinked displacements and numbers outside the signed 16-bit range cannot be written. */
  lemma WritableNumbers(o: Object)
    ensures Writable(o) <==>
      && (o.RXObj? ==> o.disp.Num? && -32768 <= o.disp.n <= 32767)
      && (o.DataObj? ==> -32768 <= o.value <= 32767)
  {
  }

  /** The bytes of a single object are what it contributes to any image, at the place its position gives it. */
  lemma BytesInImage(objs: seq<Object>, i: nat)
    requires AllWritable(objs) && i < |objs|
    ensures AllWritable([objs[i]]) && 2 * Addr(objs, i) + |Image([objs[i]])| <= |Image(objs)|
    ensures Image(objs)[2 * Addr(objs, i)..2 * Addr(objs, i) + |Image([objs[i]])|] == Image([objs[i]])
  {
    hide Image, Encode, Addr, Writable;
    EncodedAt(objs, i);
    SingleImage(objs[i]);
  }

  // ----- bytes of statements -----

  /** The image of a single statement; nothing when its number cannot be written. */
  function Bytes(s: Statement): seq<byte> {
    if AllWritable([Lower(s)]) then Image([Lower(s)]) else []
  }

  lemma BytesAreEncoding(s: Statement)
    requires Writable(Lower(s))
    ensures Bytes(s) == Encode(Lower(s))
  {
    SingleImage(Lower(s));
  }

  /** The bytes of the statements that the assembler rewrites, and of DATA. */
  lemma StatementBytes(d: nibble, a: nibble, b: nibble, v: int)
    requires -32768 <= v <= 32767
    ensures var d': int, a': int, b': int, hi: int, lo: int := d, a, b, v % 0x10000 / 0x100, v % 0x100;
      && Bytes(CmpStmt(a, b)) == [0x40, 16 * a' + b']
      && Bytes(InvStmt(d, a)) == [0x80 + d', 16 * a']
      && Bytes(MovRegStmt(d, a)) == [0xF0 + d', 16 * a', 0, 0]
      && Bytes(MovNumStmt(d, v)) == [0xF0 + d', 0, hi, lo]
      && Bytes(JumpStmt(Num(v), a)) == [0xF0, 16 * a' + 3, hi, lo]
      && Bytes(DataStmt(v)) == [hi, lo]
  {
    hide Bytes, Image, ImageTo, AllWritable;
    BytesAreEncoding(CmpStmt(a, b));
    BytesAreEncoding(InvStmt(d, a));
    BytesAreEncoding(MovRegStmt(d, a));
    BytesAreEncoding(MovNumStmt(d, v));
    BytesAreEncoding(JumpStmt(Num(v), a));
    BytesAreEncoding(DataStmt(v));
  }

  /** The bytes of the relational jumps: JUMPC0 is 4, JUMPC1 is 5, the destination field holds the tested bit. */
  lemma RelationalJumpBytes(a: nibble, v: int)
    requires -32768 <= v <= 32767
    ensures var a': int, hi: int, lo: int := a, v % 0x10000 / 0x100, v % 0x100;
      && Bytes(JumpRelStmt(LE, Num(v), a)) == [0xF1, 16 * a' + 4, hi, lo]
      && Bytes(JumpRelStmt(LT, Num(v), a)) == [0xF3, 16 * a' + 5, hi, lo]
      && Bytes(JumpRelStmt(NE, Num(v), a)) == [0xF2, 16 * a' + 4, hi, lo]
      && Bytes(JumpRelStmt(EQ, Num(v), a)) == [0xF2, 16 * a' + 5, hi, lo]
      && Bytes(JumpRelStmt(GE, Num(v), a)) == [0xF3, 16 * a' + 4, hi, lo]
      && Bytes(JumpRelStmt(GT, Num(v), a)) == [0xF1, 16 * a' + 5, hi, lo]
  {
    hide Bytes;
    forall rel: Relation {
      BytesAreEncoding(JumpRelStmt(rel, Num(v), a));
    }
  }

  /** Statements that name their operation and registers themselves keep them. */
  lemma PlainStatements(op: RrrOp, rx: RxOp, d: nibble, a: nibble, b: nibble, disp: Disp)
    ensures Lower(RrrStmt(op, d, a, b)) == RRRObj(op, d, a, b) && Lower(RxStmt(rx, d, disp, a)) == RXObj(rx, d, a, disp)
  {
  }

  // ----- words the machine decodes -----

  /** Which instruction a memory word starts is decided by its top nibble and, under 15, by its bottom one. */
  predicate DecodesTo(mem: Memory, pc: word, i: Inst, op: nat, code: nat)
    requires pc < 32768
  {
    var w := mem[pc];
    Fetch(mem, pc) == Decoded(i) <==>
      && w / 0x1000 == op && w / 0x100 % 16 == i.d && w / 16 % 16 == i.sa
      && (match i
          case RRR(_, _, _, sb) => w % 16 == sb
          case RX(_, _, _, disp) => w % 16 == code && pc < 32767 && mem[pc + 1] == disp)
  }

  lemma RRRWords(mem: Memory, pc: word, d: nibble, sa: nibble, sb: nibble)
    requires pc < 32768
    ensures DecodesTo(mem, pc, RRR(Add, d, sa, sb), 0x0, 0) && DecodesTo(mem, pc, RRR(Sub, d, sa, sb), 0x1, 0)
    ensures DecodesTo(mem, pc, RRR(Mul, d, sa, sb), 0x2, 0) && DecodesTo(mem, pc, RRR(Div, d, sa, sb), 0x3, 0)
    ensures DecodesTo(mem, pc, RRR(Cmp, d, sa, sb), 0x4, 0) && DecodesTo(mem, pc, RRR(CmpLt, d, sa, sb), 0x5, 0)
    ensures DecodesTo(mem, pc, RRR(CmpEq, d, sa, sb), 0x6, 0) && DecodesTo(mem, pc, RRR(CmpGt, d, sa, sb), 0x7, 0)
    ensures DecodesTo(mem, pc, RRR(Inv, d, sa, sb), 0x8, 0) && DecodesTo(mem, pc, RRR(And, d, sa, sb), 0x9, 0)
    ensures DecodesTo(mem, pc, RRR(Or, d, sa, sb), 0xA, 0) && DecodesTo(mem, pc, RRR(Xor, d, sa, sb), 0xB, 0)
    ensures DecodesTo(mem, pc, RRR(Nop, d, sa, sb), 0xC, 0) && DecodesTo(mem, pc, RRR(Trap, d, sa, sb), 0xD, 0)
  {
  }

  lemma RXWords(mem: Memory, pc: word, d: nibble, sa: nibble, disp: word)
    requires pc < 32768
    ensures DecodesTo(mem, pc, RX(Lea, d, sa, disp), 0xF, 0) && DecodesTo(mem, pc, RX(Load, d, sa, disp), 0xF, 1)
    ensures DecodesTo(mem, pc, RX(Store, d, sa, disp), 0xF, 2) && DecodesTo(mem, pc, RX(Jump, d, sa, disp), 0xF, 3)
    ensures DecodesTo(mem, pc, RX(JumpC0, d, sa, disp), 0xF, 4) && DecodesTo(mem, pc, RX(JumpC1, d, sa, disp), 0xF, 5)
    ensures DecodesTo(mem, pc, RX(JumpF, d, sa, disp), 0xF, 6) && DecodesTo(mem, pc, RX(JumpT, d, sa, disp), 0xF, 7)
    ensures DecodesTo(mem, pc, RX(Jal, d, sa, disp), 0xF, 8)
  {
  }

  /** The words that are no instruction: opcode 14, and RX operations from 9 up. */
  lemma OtherWords(mem: Memory, pc: word)
    requires pc < 32768
    ensures Fetch(mem, pc) == Exp <==> mem[pc] / 0x1000 == 14
    ensures Fetch(mem, pc) == BadRx <==> mem[pc] / 0x1000 == 15 && mem[pc] % 16 >= 9 && pc < 32767
    ensures Fetch(mem, pc) == Outside <==> mem[pc] / 0x1000 == 15 && pc == 32767
  {
  }

  /** Memory at boot: the image's bytes in pairs, high byte first, and zeros after them. */
  lemma BootMemory(image: seq<byte>, i: nat)
    requires i < 32768
    ensures var w: int := Boot(image).core.mem[i];
      && (2 * i + 1 < |image| ==> var hi: int, lo: int := image[2 * i], image[2 * i + 1]; w == 256 * hi + lo)
      && (2 * i >= |image| ==> w == 0)
    ensures Boot(image).pc == 0 && Boot(image).core.out == []
    ensures forall r: nibble :: Boot(image).core.regs[r] == 0
  {
  }
}
