/** The linear sweep that turns a binary back into instructions, and its relation to the assembler's encoder. */
module Disassembler {
  import opened Words
  import opened Isa
  import opened Assembly
  import Composition

  /** A decoded instruction with its numeric fields; `sb` of an RX instruction is its secondary opcode. */
  datatype DInst =
    | DRrr(opcode: nibble, d: nibble, sa: nibble, sb: nibble)
    | DRx(opcode: nibble, d: nibble, sa: nibble, sb: nibble, disp: word)
  {
    predicate Valid() {
      if DRrr? then opcode < 14 else opcode == 15 && sb < 9
    }
  }

  /** Each iteration yields the offset after the instruction, and nothing for an unknown RX opcode. */
  datatype Item = Item(end: nat, inst: Option<DInst>)

  /** The exceptions that escape the sweep: a missing table entry, or too few bytes for a displacement. */
  datatype PyError = IndexError | StructError

  datatype Decode = Yields(item: Item) | Raises(error: PyError)

  datatype Listing = Listing(items: seq<Item>, error: Option<PyError>)

  function SplitByte(b: byte): (nibble, nibble) {
    (LowNibble(b), b / 16)
  }

  function BigEndian(hi: byte, lo: byte): word {
    0x100 * hi + lo
  }

  lemma SplitJoin(hi: nibble, lo: nibble)
    ensures SplitByte(JoinNibbles(hi, lo)) == (lo, hi)
  {
  }

  lemma JoinSplit(b: byte)
    ensures JoinNibbles(SplitByte(b).1, SplitByte(b).0) == b
  {
  }

  lemma PackedDisp(n: int, hi: byte, lo: byte)
    requires FitsShort(n)
    ensures PackShort(n) == [hi, lo] <==> BigEndian(hi, lo) == Wrap(n)
  {
    var b := PackShort(n);
    var h: int, l: int := hi, lo;
    assert b == [hi, lo] <==> b[0] == hi && b[1] == lo;
    assert (0x100 * h + l) / 0x100 == h && (0x100 * h + l) % 0x100 == l;
  }

  /** One iteration of the sweep at `offset`. */
  function DecodeAt(b: seq<byte>, offset: nat): (r: Decode)
    requires offset + 1 < |b|
    ensures r.Yields? ==> r.item.end == offset + 2 || r.item.end == offset + 4
    ensures r.Yields? && r.item.inst.Some? ==> r.item.inst.value.Valid() && r.item.end <= |b|
  {
    var (d, opcode) := SplitByte(b[offset]);
    var (sb, sa) := SplitByte(b[offset + 1]);
    if opcode < 15 then
      if opcode >= 14 then Raises(IndexError)
      else Yields(Item(offset + 2, Some(DRrr(opcode, d, sa, sb))))
    else if sb >= 9 then Yields(Item(offset + 4, None))
    else if offset + 4 > |b| then Raises(StructError)
    else Yields(Item(offset + 4, Some(DRx(opcode, d, sa, sb, BigEndian(b[offset + 2], b[offset + 3])))))
  }

  /** Everything the sweep yields from `offset`, and the exception that ends it, if any. */
  function Sweep(b: seq<byte>, offset: nat): Listing
    decreases |b| - offset
  {
    if offset + 1 >= |b| then Listing([], None)
    else
      match DecodeAt(b, offset)
      case Raises(e) => Listing([], Some(e))
      case Yields(item) =>
        var rest := Sweep(b, item.end);
        Listing([item] + rest.items, rest.error)
  }

  /** The generator's loop. */
  method DisasmBinary(b: seq<byte>) returns (items: seq<Item>, error: Option<PyError>)
    ensures Listing(items, error) == Sweep(b, 0)
  {
    items, error := [], None;
    var offset: nat := 0;
    while offset + 1 < |b|
      invariant error == None
      invariant Sweep(b, 0) == Listing(items + Sweep(b, offset).items, Sweep(b, offset).error)
      decreases |b| - offset
    {
      ghost var rest := Sweep(b, offset).items;
      match DecodeAt(b, offset) {
        case Raises(e) =>
          error := Some(e);
          return;
        case Yields(item) =>
          assert items + rest == items + [item] + Sweep(b, item.end).items;
          offset := item.end;
          items := items + [item];
      }
    }
  }

  // ----- the sweep tiles the binary -----

  /** Where the `k`-th item starts: at the end of the one before it. */
  function StartOf(items: seq<Item>, offset: nat, k: nat): nat
    requires k <= |items|
  {
    if k == 0 then offset else items[k - 1].end
  }

  /** The sweep is exactly the chain of decodings from `offset` to the first failure or the end. */
  lemma {:induction false} SweepTiles(b: seq<byte>, offset: nat, k: nat)
    requires k <= |Sweep(b, offset).items|
    ensures var Listing(items, error) := Sweep(b, offset); var start := StartOf(items, offset, k);
      && start % 2 == offset % 2
      && (k < |items| ==> start + 1 < |b| && DecodeAt(b, start) == Yields(items[k]))
      && (k == |items| && error.None? ==> start + 1 >= |b|)
      && (k == |items| && error.Some? ==> start + 1 < |b| && DecodeAt(b, start) == Raises(error.value))
    decreases k
  {
    hide DecodeAt;
    if k > 0 {
      var next := Sweep(b, offset).items[0].end;
      SweepTiles(b, next, k - 1);
      assert StartOf(Sweep(b, offset).items, offset, k) == StartOf(Sweep(b, next).items, next, k - 1);
    }
  }

  /**
    Walking the binary by instruction widths alone, no word boundary reached holds an opcode 14 or an RX
    instruction with a known secondary opcode but no room for its displacement.
   */
  predicate Sweepable(b: seq<byte>, offset: nat)
    decreases |b| - offset
  {
    offset + 1 >= |b| ||
    (b[offset] / 16 != 14 &&
     (b[offset] / 16 == 15 && b[offset + 1] % 16 < 9 ==> offset + 4 <= |b|) &&
     Sweepable(b, offset + (if b[offset] / 16 == 15 then 4 else 2)))
  }

  /** The sweep lists undecodable words as data, without raising, exactly on the sweepable binaries. */
  lemma {:induction false} SweepFinishes(b: seq<byte>, offset: nat)
    ensures Sweep(b, offset).error.None? <==> Sweepable(b, offset)
    decreases |b| - offset
  {
    if offset + 1 < |b| {
      match DecodeAt(b, offset)
      case Yields(item) => SweepFinishes(b, item.end);
      case Raises(_) =>
    }
  }

  /** An EXP word is not listed as data: it ends the sweep with an exception. */
  lemma ExpWordRaises()
    ensures Sweep([0xE0, 0], 0) == Listing([], Some(IndexError))
  {
  }

  // ----- disassembling undoes encoding -----

  predicate IsPureCode(objs: seq<Object>) {
    forall i | 0 <= i < |objs| :: !objs[i].DataObj?
  }

  /** The instruction the disassembler should report for an object. */
  function DInstOf(o: Object): DInst
    requires Writable(o) && !o.DataObj?
  {
    match o
    case RRRObj(op, d, sa, sb) => DRrr(RrrCode(op), d, sa, sb)
    case RXObj(rx, d, sa, disp) => DRx(15, d, sa, RxCode(rx), Wrap(disp.n))
  }

  /** One item per object, ending at twice the size of the objects up to it. */
  function ItemsOf(objs: seq<Object>): seq<Item>
    requires AllWritable(objs) && IsPureCode(objs)
  {
    seq(|objs|, i requires 0 <= i < |objs| => Item(2 * Addr(objs, i + 1), Some(DInstOf(objs[i]))))
  }

  lemma DecodeEncoded(b: seq<byte>, offset: nat, o: Object)
    requires Writable(o) && !o.DataObj?
    requires offset + 2 * Sizeof(o) <= |b| && b[offset..offset + 2 * Sizeof(o)] == Encode(o)
    ensures DecodeAt(b, offset) == Yields(Item(offset + 2 * Sizeof(o), Some(DInstOf(o))))
  {
    var code := Encode(o);
    assert b[offset] == code[0] && b[offset + 1] == code[1];
    match o
    case RRRObj(op, d, sa, sb) =>
      SplitJoin(RrrCode(op), d);
      SplitJoin(sa, sb);
    case RXObj(rx, d, sa, disp) =>
      SplitJoin(15, d);
      SplitJoin(sa, RxCode(rx));
      assert code[2..] == PackShort(disp.n);
      assert [b[offset + 2], b[offset + 3]] == PackShort(disp.n);
      PackedDisp(disp.n, b[offset + 2], b[offset + 3]);
  }

  lemma SweepStep(b: seq<byte>, offset: nat, item: Item)
    requires offset + 1 < |b| && DecodeAt(b, offset) == Yields(item)
    ensures Sweep(b, offset) == Listing([item] + Sweep(b, item.end).items, Sweep(b, item.end).error)
  {
  }

  lemma DecodeObject(objs: seq<Object>, tail: seq<byte>, i: nat)
    requires AllWritable(objs) && IsPureCode(objs) && i < |objs|
    ensures var b := Image(objs) + tail;
      2 * Addr(objs, i) + 1 < |b| && DecodeAt(b, 2 * Addr(objs, i)) == Yields(ItemsOf(objs)[i])
  {
    ImageSlice(objs, |objs|, i);
    var b, start, end := Image(objs) + tail, 2 * Addr(objs, i), 2 * Addr(objs, i + 1);
    SliceOfPrefix(Image(objs), tail, start, end);
    DecodeEncoded(b, start, objs[i]);
  }

  lemma {:induction false} SweepChain(b: seq<byte>, items: seq<Item>, i: nat)
    requires i <= |items|
    requires forall k | 0 <= k < |items| ::
      StartOf(items, 0, k) + 1 < |b| && DecodeAt(b, StartOf(items, 0, k)) == Yields(items[k])
    ensures var rest := Sweep(b, StartOf(items, 0, |items|));
      Sweep(b, StartOf(items, 0, i)) == Listing(items[i..] + rest.items, rest.error)
    decreases |items| - i
  {
    var rest := Sweep(b, StartOf(items, 0, |items|)).items;
    if i < |items| {
      assert StartOf(items, 0, i + 1) == items[i].end;
      hide DecodeAt, Sweep, StartOf;
      SweepStep(b, StartOf(items, 0, i), items[i]);
      SweepChain(b, items, i + 1);
      DropCons(items, i, rest);
    } else {
      assert items[i..] + rest == rest;
    }
  }

  /** The sweep over encoded instructions yields exactly those instructions, whatever follows them. */
  lemma DisassembleEncoded(objs: seq<Object>, tail: seq<byte>)
    requires AllWritable(objs) && IsPureCode(objs)
    ensures var b := Image(objs) + tail; var rest := Sweep(b, |Image(objs)|);
      Sweep(b, 0) == Listing(ItemsOf(objs) + rest.items, rest.error)
  {
    hide DecodeAt, Sweep, Encode, ItemsOf, DInstOf, StartOf, Addr, ImageTo;
    var b, items := Image(objs) + tail, ItemsOf(objs);
    ItemsStart(objs, |objs|);
    forall k | 0 <= k < |items|
      ensures StartOf(items, 0, k) + 1 < |b| && DecodeAt(b, StartOf(items, 0, k)) == Yields(items[k])
    {
      ItemsStart(objs, k);
      DecodeObject(objs, tail, k);
    }
    SweepChain(b, items, 0);
    ItemsStart(objs, 0);
    assert items[0..] == items;
  }

  lemma ItemsStart(objs: seq<Object>, k: nat)
    requires AllWritable(objs) && IsPureCode(objs) && k <= |objs|
    ensures |ItemsOf(objs)| == |objs| && StartOf(ItemsOf(objs), 0, k) == 2 * Addr(objs, k)
    ensures k == 0 ==> Addr(objs, k) == 0
  {
    hide DInstOf;
  }

  /** With nothing after them, the listing is complete and clean. */
  lemma DisassembleImage(objs: seq<Object>)
    requires AllWritable(objs) && IsPureCode(objs)
    ensures Sweep(Image(objs), 0) == Listing(ItemsOf(objs), None)
  {
    DisassembleEncoded(objs, []);
    assert Image(objs) + [] == Image(objs);
    assert ItemsOf(objs) + [] == ItemsOf(objs);
  }

  // ----- encoding undoes disassembling -----

  /** The object that encodes a decoded instruction, its displacement read as a signed number. */
  function ObjectOf(i: DInst): (o: Object)
    requires i.Valid()
    ensures Writable(o) && !o.DataObj?
  {
    match i
    case DRrr(opcode, d, sa, sb) => RRRObj(RrrOpOf(opcode), d, sa, sb)
    case DRx(_, d, sa, sb, disp) => RXObj(RxOpOf(sb), d, sa, Num(Signed(disp)))
  }

  predicate AllDecoded(items: seq<Item>) {
    forall k | 0 <= k < |items| :: items[k].inst.Some? && items[k].inst.value.Valid()
  }

  function Objects(items: seq<Item>): (objs: seq<Object>)
    requires AllDecoded(items)
    ensures AllWritable(objs)
  {
    seq(|items|, k requires 0 <= k < |items| => ObjectOf(items[k].inst.value))
  }

  lemma EncodesAs(i: DInst, b0: byte, b1: byte, b2: byte, b3: byte)
    requires i.Valid() && SplitByte(b0) == (i.d, i.opcode) && SplitByte(b1) == (i.sb, i.sa)
    ensures i.DRrr? ==> Encode(ObjectOf(i)) == [b0, b1]
    ensures i.DRx? && i.disp == BigEndian(b2, b3) ==> Encode(ObjectOf(i)) == [b0, b1] + [b2, b3]
  {
    JoinSplit(b0);
    JoinSplit(b1);
    if i.DRx? && i.disp == BigEndian(b2, b3) {
      assert Wrap(Signed(i.disp)) == i.disp;
      PackedDisp(Signed(i.disp), b2, b3);
    }
  }

  lemma EncodeDecoded(b: seq<byte>, offset: nat)
    requires offset + 1 < |b| && DecodeAt(b, offset).Yields? && DecodeAt(b, offset).item.inst.Some?
    ensures var Item(end, inst) := DecodeAt(b, offset).item;
      offset < end <= |b| && end % 2 == offset % 2 && Encode(ObjectOf(inst.value)) == b[offset..end]
  {
    hide Encode, ObjectOf, SplitByte, BigEndian;
    var inst := DecodeAt(b, offset).item.inst.value;
    match inst
    case DRrr(_, _, _, _) =>
      EncodesAs(inst, b[offset], b[offset + 1], 0, 0);
      assert b[offset..offset + 2] == [b[offset], b[offset + 1]];
    case DRx(_, _, _, _, disp) =>
      EncodesAs(inst, b[offset], b[offset + 1], b[offset + 2], b[offset + 3]);
      assert b[offset..offset + 4] == [b[offset], b[offset + 1]] + [b[offset + 2], b[offset + 3]];
  }

  lemma ObjectsCons(first: Item, rest: seq<Item>)
    requires AllDecoded([first] + rest)
    ensures first.inst.Some? && first.inst.value.Valid() && AllDecoded(rest)
    ensures Objects([first] + rest) == [ObjectOf(first.inst.value)] + Objects(rest)
  {
    hide ObjectOf;
    var all := [first] + rest;
    assert all[0] == first;
    assert forall k | 0 <= k < |rest| :: all[k + 1] == rest[k];
  }

  lemma {:induction false} EncodeSweptFrom(b: seq<byte>, offset: nat)
    requires offset % 2 == 0 && offset <= |b|
    requires Sweep(b, offset).error.None? && AllDecoded(Sweep(b, offset).items)
    ensures Image(Objects(Sweep(b, offset).items)) == b[offset..|b| / 2 * 2]
    decreases |b| - offset
  {
    var items, limit := Sweep(b, offset).items, |b| / 2 * 2;
    if offset + 1 < |b| {
      var first := DecodeAt(b, offset).item;
      SweepStep(b, offset, first);
      assert items[0] == first;
      EncodeDecoded(b, offset);
      var rest := Sweep(b, first.end).items;
      assert items[1..] == rest;
      ObjectsCons(first, rest);
      EncodeSweptFrom(b, first.end);
      Composition.ImageCons(ObjectOf(first.inst.value), Objects(rest));
      JoinSlices(b, offset, first.end, limit);
    }
  }

  /** Re-encoding a clean listing gives back the binary (all of it when its length is even). */
  lemma EncodeSwept(b: seq<byte>)
    requires Sweep(b, 0).error.None? && forall k | 0 <= k < |Sweep(b, 0).items| :: Sweep(b, 0).items[k].inst.Some?
    ensures AllDecoded(Sweep(b, 0).items)
    ensures Image(Objects(Sweep(b, 0).items)) == b[..|b| / 2 * 2]
  {
    var items := Sweep(b, 0).items;
    forall k | 0 <= k < |items|
      ensures items[k].inst.value.Valid()
    {
      SweepTiles(b, 0, k);
    }
    EncodeSweptFrom(b, 0);
    assert b[0..|b| / 2 * 2] == b[..|b| / 2 * 2];
  }

  // ----- hex annotations -----

  function HexDigit(n: nibble): char {
    "0123456789abcdef"[n]
  }

  /** `binascii.hexlify(bytes, " ")`: two digits a byte, separated by blanks. */
  function Hexlify(bytes: seq<byte>): string {
    if bytes == [] then ""
    else
      var digits := [HexDigit(bytes[0] / 16), HexDigit(bytes[0] % 16)];
      if |bytes| == 1 then digits else digits + " " + Hexlify(bytes[1..])
  }

  /** The annotation of an instruction, without its colour codes. */
  function AnnotateHex(i: DInst): string {
    var opcode := [HexDigit(i.opcode), HexDigit(i.d)] + " " + [HexDigit(i.sa), HexDigit(i.sb)];
    match i
    case DRrr(_, _, _, _) => opcode
    case DRx(_, _, _, _, disp) => opcode + " " + Hexlify([disp / 0x100, disp % 0x100])
  }

  /** A Python slice: bounds past the end are cut. */
  function Slice(b: seq<byte>, from: nat, to: nat): seq<byte> {
    if from >= |b| || to <= from then [] else if to > |b| then b[from..] else b[from..to]
  }

  /** What `main` prints in the hex column for an item that starts at `start`. */
  function HexColumn(b: seq<byte>, start: nat, item: Item): string {
    match item.inst
    case None => Hexlify(Slice(b, start, item.end))
    case Some(i) => AnnotateHex(i)
  }

  /** The hex column of every item spells the bytes of its interval. */
  lemma HexSpellsBytes(b: seq<byte>, k: nat)
    requires k < |Sweep(b, 0).items|
    ensures var items := Sweep(b, 0).items; var start := StartOf(items, 0, k);
      HexColumn(b, start, items[k]) == Hexlify(Slice(b, start, items[k].end))
  {
    SweepTiles(b, 0, k);
    var items := Sweep(b, 0).items;
    var start := StartOf(items, 0, k);
    match items[k].inst
    case None =>
    case Some(i) => AnnotationSpells(b, start, i);
  }

  lemma AnnotationSpells(b: seq<byte>, start: nat, i: DInst)
    requires start + 1 < |b| && DecodeAt(b, start).Yields? && DecodeAt(b, start).item.inst == Some(i)
    ensures AnnotateHex(i) == Hexlify(Slice(b, start, DecodeAt(b, start).item.end))
  {
    var end := DecodeAt(b, start).item.end;
    match i
    case DRrr(_, _, _, _) =>
      assert Slice(b, start, end) == [b[start], b[start + 1]] + [];
      HexlifyTwo(b[start], b[start + 1], []);
    case DRx(_, _, _, _, disp) =>
      var hi, lo := b[start + 2], b[start + 3];
      assert Slice(b, start, end) == [b[start], b[start + 1]] + [hi, lo];
      HexlifyTwo(b[start], b[start + 1], [hi, lo]);
      BigEndianSplits(hi, lo);
  }

  lemma BigEndianSplits(hi: byte, lo: byte)
    ensures BigEndian(hi, lo) / 0x100 == hi && BigEndian(hi, lo) % 0x100 == lo
  {
  }

  lemma HexlifyTwo(x: byte, y: byte, rest: seq<byte>)
    ensures var two := [HexDigit(x / 16), HexDigit(x % 16)] + " " + [HexDigit(y / 16), HexDigit(y % 16)];
      Hexlify([x, y] + rest) == if rest == [] then two else two + " " + Hexlify(rest)
  {
    var all := [x, y] + rest;
    assert all[1..] == [y] + rest && all[1..][1..] == rest;
  }

  /** The value of a hexadecimal digit character, -1 for any other character. */
  function HexValue(c: char): int {
    if '0' <= c <= '9' then c as int - '0' as int
    else if 'a' <= c <= 'f' then c as int - 'a' as int + 10
    else -1
  }

  /** `text` is two lower-case digits for each of the `n` bytes from `start`, with a blank between bytes. */
  predicate SpellsOut(text: string, b: seq<byte>, start: nat, n: nat)
    requires start + n <= |b|
  {
    && |text| == (if n == 0 then 0 else 3 * n - 1)
    && (forall i | 0 <= i < n ::
          && 0 <= HexValue(text[3 * i]) && 0 <= HexValue(text[3 * i + 1])
          && 16 * HexValue(text[3 * i]) + HexValue(text[3 * i + 1]) == b[start + i])
    && (forall i | 0 <= i < n - 1 :: text[3 * i + 2] == ' ')
  }

  lemma DigitValue(n: nibble)
    ensures HexValue(HexDigit(n)) == n
  {
  }

  lemma PairValue(x: byte)
    ensures HexValue(HexDigit(x / 16)) >= 0 && HexValue(HexDigit(x % 16)) >= 0
    ensures 16 * HexValue(HexDigit(x / 16)) + HexValue(HexDigit(x % 16)) == x
  {
    hide HexValue, HexDigit;
    DigitValue(x / 16);
    DigitValue(x % 16);
  }

  lemma ShiftedByThree(c0: char, c1: char, tail: string, i: nat)
    requires 3 <= i < |tail| + 3
    ensures ([c0, c1] + " " + tail)[i] == tail[i - 3]
  {
  }

  lemma SpellsCons(c0: char, c1: char, tail: string, x: byte, rest: seq<byte>)
    requires rest != [] && SpellsOut(tail, rest, 0, |rest|)
    requires HexValue(c0) >= 0 && HexValue(c1) >= 0 && 16 * HexValue(c0) + HexValue(c1) == x
    ensures SpellsOut([c0, c1] + " " + tail, [x] + rest, 0, |rest| + 1)
  {
    hide HexValue;
    var text, bytes := [c0, c1] + " " + tail, [x] + rest;
    forall i | 0 <= i < |bytes|
      ensures 0 <= HexValue(text[3 * i]) && 0 <= HexValue(text[3 * i + 1])
      ensures 16 * HexValue(text[3 * i]) + HexValue(text[3 * i + 1]) == bytes[i]
    {
      if i > 0 {
        var j := i - 1;
        ShiftedByThree(c0, c1, tail, 3 * i);
        ShiftedByThree(c0, c1, tail, 3 * i + 1);
        assert 0 <= HexValue(tail[3 * j]) && 0 <= HexValue(tail[3 * j + 1]);
        assert 16 * HexValue(tail[3 * j]) + HexValue(tail[3 * j + 1]) == rest[0 + j];
      }
    }
    forall i | 0 <= i < |bytes| - 1
      ensures text[3 * i + 2] == ' '
    {
      if i > 0 {
        var j := i - 1;
        ShiftedByThree(c0, c1, tail, 3 * i + 2);
        assert tail[3 * j + 2] == ' ';
      }
    }
  }

  lemma {:induction false} HexlifySpells(bytes: seq<byte>)
    ensures SpellsOut(Hexlify(bytes), bytes, 0, |bytes|)
    decreases |bytes|
  {
    hide HexValue, HexDigit;
    if bytes != [] {
      var x, rest := bytes[0], bytes[1..];
      PairValue(x);
      if rest != [] {
        HexlifySpells(rest);
        SpellsCons(HexDigit(x / 16), HexDigit(x % 16), Hexlify(rest), x, rest);
        assert [x] + rest == bytes;
      }
    }
  }

  /** Reading the hex column of an item back gives exactly the bytes of its interval, up to the end of the binary. */
  lemma HexReadsBack(b: seq<byte>, k: nat)
    requires k < |Sweep(b, 0).items|
    ensures var items := Sweep(b, 0).items; var start := StartOf(items, 0, k);
      var end := if items[k].end <= |b| then items[k].end else |b|;
      start < end && SpellsOut(HexColumn(b, start, items[k]), b, start, end - start)
  {
    hide Hexlify, HexColumn, DecodeAt, HexValue;
    SweepTiles(b, 0, k);
    HexSpellsBytes(b, k);
    var items := Sweep(b, 0).items;
    var start := StartOf(items, 0, k);
    var slice := Slice(b, start, items[k].end);
    HexlifySpells(slice);
    assert forall i | 0 <= i < |slice| :: slice[i] == b[start + i];
  }
}
