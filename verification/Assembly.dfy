/**
  What the assembler computes, on values: lowering of statements, label bookkeeping, code offsets,
  linking and the encoded image.
 */
module Assembly {
  import opened Words
  import opened Isa

  type Identifier = string

  datatype Disp = Num(n: int) | Sym(name: Identifier)

  datatype Object =
    | RRRObj(op: RrrOp, d: nibble, sa: nibble, sb: nibble)
    | RXObj(rx: RxOp, d: nibble, sa: nibble, disp: Disp)
    | DataObj(value: int)

  // ----- statements and their lowering -----

  datatype Relation = LT | LE | EQ | NE | GE | GT

  datatype Statement =
    | RrrStmt(op: RrrOp, d: nibble, sa: nibble, sb: nibble)
    | RxStmt(rx: RxOp, d: nibble, disp: Disp, sa: nibble)
    | CmpStmt(a: nibble, b: nibble)
    | InvStmt(d: nibble, a: nibble)
    | MovRegStmt(d: nibble, a: nibble)
    | MovNumStmt(d: nibble, value: int)
    | JumpStmt(disp: Disp, sa: nibble)
    | JumpRelStmt(rel: Relation, disp: Disp, sa: nibble)
    | DataStmt(value: int)

  /** The conditional jump and R15 bit that each relational jump name stands for. */
  function JumpAlias(rel: Relation): (RxOp, nibble) {
    match rel
    case LE => (JumpC0, 1)
    case LT => (JumpC1, 3)
    case NE => (JumpC0, 2)
    case EQ => (JumpC1, 2)
    case GE => (JumpC0, 3)
    case GT => (JumpC1, 1)
  }

  function Lower(s: Statement): Object {
    match s
    case RrrStmt(op, d, sa, sb) => RRRObj(op, d, sa, sb)
    case RxStmt(rx, d, disp, sa) => RXObj(rx, d, sa, disp)
    case CmpStmt(a, b) => RRRObj(Cmp, 0, a, b)
    case InvStmt(d, a) => RRRObj(Inv, d, a, 0)
    case MovRegStmt(d, a) => RXObj(Lea, d, a, Num(0))
    case MovNumStmt(d, v) => RXObj(Lea, d, 0, Num(v))
    case JumpStmt(disp, sa) => RXObj(Jump, 0, sa, disp)
    case JumpRelStmt(rel, disp, sa) => var (rx, bit) := JumpAlias(rel); RXObj(rx, bit, sa, disp)
    case DataStmt(v) => DataObj(v)
  }

  // ----- source lines -----

  /** A source line after parsing; a rejected line is reported and skipped. */
  datatype Line = Blank | Rejected | Stmt(s: Statement) | Label(name: Identifier)

  /** Objects in source order, and for each label the number of objects before it. */
  datatype Program = Program(objs: seq<Object>, labels: map<Identifier, nat>)

  datatype Result = Parsed(p: Program) | Duplicate(name: Identifier)

  function AddLine(p: Program, line: Line): Result {
    match line
    case Blank => Parsed(p)
    case Rejected => Parsed(p)
    case Stmt(s) => Parsed(p.(objs := p.objs + [Lower(s)]))
    case Label(name) =>
      if name in p.labels then Duplicate(name)
      else Parsed(p.(labels := p.labels[name := |p.objs|]))
  }

  /** The program of the first `k` lines, or the label that is declared twice among them. */
  function ParseTo(lines: seq<Line>, k: nat): Result
    requires k <= |lines|
    decreases k
  {
    if k == 0 then Parsed(Program([], map[]))
    else
      match ParseTo(lines, k - 1)
      case Duplicate(name) => Duplicate(name)
      case Parsed(p) => AddLine(p, lines[k - 1])
  }

  function Parse(lines: seq<Line>): Result {
    ParseTo(lines, |lines|)
  }

  // ----- sizes and addresses -----

  function Sizeof(o: Object): (n: nat)
    ensures 1 <= n <= 2
  {
    if o.RXObj? then 2 else 1
  }

  /** The total size in words of the first `i` objects. */
  function Addr(objs: seq<Object>, i: nat): nat
    requires i <= |objs|
  {
    if i == 0 then 0 else Addr(objs, i - 1) + Sizeof(objs[i - 1])
  }

  function Size(objs: seq<Object>): nat {
    Addr(objs, |objs|)
  }

  lemma {:induction false} AddrMonotone(objs: seq<Object>, i: nat, j: nat)
    requires i <= j <= |objs|
    ensures Addr(objs, i) + (j - i) <= Addr(objs, j) <= Addr(objs, i) + 2 * (j - i)
    decreases j
  {
    if i < j {
      AddrMonotone(objs, i, j - 1);
    }
  }

  /** Offsets determine objects: no two positions share an address. */
  lemma AddrInjective(objs: seq<Object>, i: nat, j: nat)
    requires i <= |objs| && j <= |objs| && Addr(objs, i) == Addr(objs, j)
    ensures i == j
  {
    if i <= j {
      AddrMonotone(objs, i, j);
    } else {
      AddrMonotone(objs, j, i);
    }
  }

  /** Addresses depend on the sizes of the objects only. */
  lemma {:induction false} AddrBySizes(a: seq<Object>, b: seq<Object>, i: nat)
    requires i <= |a| && i <= |b|
    requires forall k | 0 <= k < i :: Sizeof(a[k]) == Sizeof(b[k])
    ensures Addr(a, i) == Addr(b, i)
  {
    if i > 0 {
      AddrBySizes(a, b, i - 1);
    }
  }

  // ----- linking -----

  predicate WellFormed(p: Program) {
    forall x | x in p.labels :: p.labels[x] <= |p.objs|
  }

  /** The code offset of every label. */
  function Offsets(p: Program): map<Identifier, nat>
    requires WellFormed(p)
  {
    map x | x in p.labels :: Addr(p.objs, p.labels[x])
  }

  predicate IsSymbolic(o: Object) {
    o.RXObj? && o.disp.Sym?
  }

  /** Every symbolic displacement names a label. */
  predicate Closed(p: Program) {
    forall i | 0 <= i < |p.objs| :: IsSymbolic(p.objs[i]) ==> p.objs[i].disp.name in p.labels
  }

  function Resolve(o: Object, offsets: map<Identifier, nat>): Object {
    if IsSymbolic(o) && o.disp.name in offsets then o.(disp := Num(offsets[o.disp.name])) else o
  }

  function ResolveAll(objs: seq<Object>, offsets: map<Identifier, nat>): seq<Object> {
    seq(|objs|, i requires 0 <= i < |objs| => Resolve(objs[i], offsets))
  }

  /** The objects that a successful link leaves behind. */
  function Linked(p: Program): seq<Object>
    requires WellFormed(p)
  {
    ResolveAll(p.objs, Offsets(p))
  }

  // ----- encoding -----

  predicate FitsShort(n: int) {
    -0x8000 <= n < 0x8000
  }

  /** The object can be packed: no unlinked displacement, and numbers in the signed 16-bit range. */
  predicate Writable(o: Object) {
    match o
    case RRRObj(_, _, _, _) => true
    case RXObj(_, _, _, disp) => disp.Num? && FitsShort(disp.n)
    case DataObj(v) => FitsShort(v)
  }

  function PackShort(n: int): (b: seq<byte>)
    requires FitsShort(n)
    ensures |b| == 2 && var hi: int, lo: int := b[0], b[1]; 0x100 * hi + lo == n % 0x10000
  {
    [n % 0x10000 / 0x100, n % 0x100]
  }

  function Encode(o: Object): (b: seq<byte>)
    requires Writable(o)
    ensures |b| == 2 * Sizeof(o)
  {
    match o
    case RRRObj(op, d, sa, sb) => [JoinNibbles(RrrCode(op), d), JoinNibbles(sa, sb)]
    case RXObj(rx, d, sa, disp) => [JoinNibbles(15, d), JoinNibbles(sa, RxCode(rx))] + PackShort(disp.n)
    case DataObj(v) => PackShort(v)
  }

  predicate AllWritable(objs: seq<Object>) {
    forall i | 0 <= i < |objs| :: Writable(objs[i])
  }

  /** The bytes of the first `k` objects. */
  function ImageTo(objs: seq<Object>, k: nat): (b: seq<byte>)
    requires k <= |objs| && forall i | 0 <= i < k :: Writable(objs[i])
    ensures |b| == 2 * Addr(objs, k)
  {
    if k == 0 then [] else ImageTo(objs, k - 1) + Encode(objs[k - 1])
  }

  function Image(objs: seq<Object>): seq<byte>
    requires AllWritable(objs)
  {
    ImageTo(objs, |objs|)
  }

  // ----- properties of linking -----

  /** Linking changes symbolic displacements into their labels' offsets and nothing else. */
  lemma LinkFrame(p: Program)
    requires WellFormed(p)
    ensures |Linked(p)| == |p.objs|
    ensures forall i | 0 <= i < |p.objs| :: Sizeof(Linked(p)[i]) == Sizeof(p.objs[i])
    ensures forall i | 0 <= i <= |p.objs| :: Addr(Linked(p), i) == Addr(p.objs, i)
    ensures forall i | 0 <= i < |p.objs| && !IsSymbolic(p.objs[i]) :: Linked(p)[i] == p.objs[i]
    ensures forall i | 0 <= i < |p.objs| && IsSymbolic(p.objs[i]) && p.objs[i].disp.name in p.labels ::
      Linked(p)[i] == p.objs[i].(disp := Num(Addr(p.objs, p.labels[p.objs[i].disp.name])))
  {
    forall i | 0 <= i <= |p.objs|
      ensures Addr(Linked(p), i) == Addr(p.objs, i)
    {
      AddrBySizes(Linked(p), p.objs, i);
    }
  }

  /** After linking no symbolic displacement is left exactly when every one of them named a label. */
  lemma LinkTotal(p: Program)
    requires WellFormed(p)
    ensures Closed(p) <==> forall i | 0 <= i < |Linked(p)| :: !IsSymbolic(Linked(p)[i])
  {
    if !Closed(p) {
      var i :| 0 <= i < |p.objs| && IsSymbolic(p.objs[i]) && p.objs[i].disp.name !in p.labels;
      assert IsSymbolic(Linked(p)[i]);
    }
  }

  /** Linking a second time changes nothing. */
  lemma LinkIdempotent(p: Program)
    requires WellFormed(p)
    ensures WellFormed(p.(objs := Linked(p))) && Linked(p.(objs := Linked(p))) == Linked(p)
  {
    LinkFrame(p);
    var again := p.(objs := Linked(p));
    assert Offsets(again) == Offsets(p);
  }

  lemma {:induction false} ImagePrefix(objs: seq<Object>, i: nat, k: nat)
    requires i <= k <= |objs| && forall j | 0 <= j < k :: Writable(objs[j])
    ensures ImageTo(objs, i) <= ImageTo(objs, k)
    decreases k
  {
    if i < k {
      ImagePrefix(objs, i, k - 1);
    }
  }

  /** The bytes of object `i` stand at twice its address. */
  lemma ImageSlice(objs: seq<Object>, k: nat, i: nat)
    requires i < k <= |objs| && forall j | 0 <= j < k :: Writable(objs[j])
    ensures 2 * Addr(objs, i + 1) <= |ImageTo(objs, k)|
    ensures ImageTo(objs, k)[2 * Addr(objs, i)..2 * Addr(objs, i + 1)] == Encode(objs[i])
  {
    ImagePrefix(objs, i + 1, k);
    var upTo := ImageTo(objs, i + 1);
    assert upTo == ImageTo(objs, i) + Encode(objs[i]);
    assert ImageTo(objs, k)[..|upTo|] == upTo;
    assert ImageTo(objs, k)[2 * Addr(objs, i)..|upTo|] == upTo[2 * Addr(objs, i)..];
  }

  lemma EncodedAt(objs: seq<Object>, i: nat)
    requires AllWritable(objs) && i < |objs|
    ensures var start, code := 2 * Addr(objs, i), Encode(objs[i]);
      start + |code| <= |Image(objs)| && Image(objs)[start..start + |code|] == code
  {
    hide Encode, ImageTo;
    ImageSlice(objs, |objs|, i);
    assert 2 * Addr(objs, i + 1) == 2 * Addr(objs, i) + |Encode(objs[i])|;
  }

  /** Labels land on their code: a label's bytes begin with the encoding of the object it precedes. */
  lemma LabelsLand(p: Program, x: Identifier)
    requires WellFormed(p) && x in p.labels && p.labels[x] < |p.objs| && AllWritable(Linked(p))
    ensures |Image(Linked(p))| == 2 * Size(p.objs)
    ensures var start, code := 2 * Offsets(p)[x], Encode(Linked(p)[p.labels[x]]);
      start + |code| <= |Image(Linked(p))| && Image(Linked(p))[start..start + |code|] == code
  {
    LinkFrame(p);
    EncodedAt(Linked(p), p.labels[x]);
  }

  /** Two bytes a word, whatever the labels resolve to. */
  lemma ImageSize(p: Program)
    requires WellFormed(p) && AllWritable(Linked(p))
    ensures |Image(Linked(p))| == 2 * Size(p.objs)
  {
    LinkFrame(p);
  }

  // ----- properties of parsing -----

  /** Labels count objects of the program they belong to. */
  lemma {:induction false} ParseWellFormed(lines: seq<Line>, k: nat)
    requires k <= |lines|
    ensures ParseTo(lines, k).Parsed? ==> WellFormed(ParseTo(lines, k).p)
  {
    if k > 0 {
      ParseWellFormed(lines, k - 1);
    }
  }
}
