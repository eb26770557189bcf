/**
  The assembler's mutable objects: instructions whose displacements are patched in place and label bodies
  whose code offsets are filled in by one pass. Every method is proved against the value-level definitions.
 */
module Linking {
  import opened Words
  import opened Isa
  import opened Assembly

  class RXInstruction {
    const rx: RxOp
    const d: nibble
    const sa: nibble
    var disp: Disp

    constructor (rx: RxOp, d: nibble, sa: nibble, disp: Disp)
      ensures this.rx == rx && this.d == d && this.sa == sa && this.disp == disp
    {
      this.rx, this.d, this.sa, this.disp := rx, d, sa, disp;
    }
  }

  class LabelBody {
    const objOffset: nat
    var codeOffset: nat

    constructor (objOffset: nat)
      ensures this.objOffset == objOffset && codeOffset == 0
    {
      this.objOffset, codeOffset := objOffset, 0;
    }
  }

  /** An entry of the object list; only RX instructions are ever updated. */
  datatype Obj =
    | RRRRef(op: RrrOp, d: nibble, sa: nibble, sb: nibble)
    | RXRef(inst: RXInstruction)
    | DataRef(value: int)

  ghost function Insts(objs: seq<Obj>): set<RXInstruction> {
    set o | o in objs && o.RXRef? :: o.inst
  }

  lemma InstsHas(objs: seq<Obj>, i: nat)
    requires i < |objs|
    ensures objs[i].RXRef? ==> objs[i].inst in Insts(objs)
  {
  }

  /** The current value of an entry. */
  ghost function View(o: Obj): Object
    reads if o.RXRef? then {o.inst} else {}
  {
    match o
    case RRRRef(op, d, sa, sb) => RRRObj(op, d, sa, sb)
    case RXRef(i) => RXObj(i.rx, i.d, i.sa, i.disp)
    case DataRef(v) => DataObj(v)
  }

  ghost function Views(objs: seq<Obj>): (v: seq<Object>)
    reads Insts(objs)
    ensures |v| == |objs| && forall i | 0 <= i < |objs| :: v[i] == View(objs[i])
  {
    seq(|objs|, i requires 0 <= i < |objs| reads Insts(objs) => View(objs[i]))
  }

  function SizeofRef(o: Obj): nat {
    if o.RXRef? then 2 else 1
  }

  /** The total size of the first `i` entries: it depends on their kinds only, never on the heap. */
  function SizeTo(objs: seq<Obj>, i: nat): nat
    requires i <= |objs|
  {
    if i == 0 then 0 else SizeTo(objs, i - 1) + SizeofRef(objs[i - 1])
  }

  lemma {:induction false} SizeIsAddr(objs: seq<Obj>, i: nat)
    requires i <= |objs|
    ensures SizeTo(objs, i) == Addr(Views(objs), i)
  {
    if i > 0 {
      SizeIsAddr(objs, i - 1);
    }
  }

  /** No instruction object occurs twice. */
  ghost predicate Unshared(objs: seq<Obj>) {
    forall i, j | 0 <= i < j < |objs| && objs[i].RXRef? && objs[j].RXRef? :: objs[i].inst != objs[j].inst
  }

  /** A label dictionary in source order: distinct names, distinct bodies, object positions that never decrease. */
  ghost predicate InSourceOrder(names: seq<Identifier>, labels: map<Identifier, LabelBody>, bound: nat) {
    && (forall i | 0 <= i < |names| :: names[i] in labels)
    && (forall x | x in labels :: x in names && labels[x].objOffset <= bound)
    && (forall x, y | x in labels && y in labels && x != y :: labels[x] != labels[y])
    && (forall i, j | 0 <= i < j < |names| ::
          names[i] != names[j] && labels[names[i]].objOffset <= labels[names[j]].objOffset)
  }

  lemma ExtendLabels(names: seq<Identifier>, labels: map<Identifier, LabelBody>, name: Identifier, body: LabelBody)
    requires InSourceOrder(names, labels, body.objOffset) && name !in labels && body !in labels.Values
    ensures InSourceOrder(names + [name], labels[name := body], body.objOffset)
  {
    var names', labels' := names + [name], labels[name := body];
    forall x | x in labels'
      ensures x in names'
    {
      if x == name {
        assert names'[|names|] == name;
      } else {
        var i :| 0 <= i < |names| && names[i] == x;
        assert names'[i] == x;
      }
    }
  }

  lemma EveryLabelNamed(names: seq<Identifier>, labels: map<Identifier, LabelBody>, bound: nat, x: Identifier)
    requires InSourceOrder(names, labels, bound) && x in labels
    ensures exists j :: 0 <= j < |names| && names[j] == x
  {
  }

  /** How many objects precede each label. */
  function Positions(labels: map<Identifier, LabelBody>): map<Identifier, nat> {
    map x | x in labels :: labels[x].objOffset
  }

  lemma ExtendPositions(labels: map<Identifier, LabelBody>, name: Identifier, body: LabelBody)
    ensures Positions(labels[name := body]) == Positions(labels)[name := body.objOffset]
    ensures labels[name := body].Values <= labels.Values + {body}
  {
  }

  /** Every label body holds the size of the objects before its label. */
  ghost predicate SizesStored(objs: seq<Obj>, labels: map<Identifier, LabelBody>)
    reads labels.Values
  {
    forall x | x in labels :: labels[x].objOffset <= |objs| && labels[x].codeOffset == SizeTo(objs, labels[x].objOffset)
  }

  /** Every label body holds its offset. */
  ghost predicate HoldOffsets(labels: map<Identifier, LabelBody>, offsets: map<Identifier, nat>)
    reads labels.Values
  {
    labels.Keys == offsets.Keys && forall x | x in labels :: labels[x].codeOffset == offsets[x]
  }

  /** Bodies in an order in which object positions never decrease. */
  ghost predicate Ascending(bodies: seq<LabelBody>, bound: nat) {
    && (forall i | 0 <= i < |bodies| :: bodies[i].objOffset <= bound)
    && (forall i, j | 0 <= i < j < |bodies| :: bodies[i] != bodies[j] && bodies[i].objOffset <= bodies[j].objOffset)
  }

  /** One pass over the label bodies, carrying the position and the offset reached so far. */
  method FillOffsets(objs: seq<Obj>, bodies: seq<LabelBody>)
    requires Ascending(bodies, |objs|)
    modifies bodies
    ensures forall k | 0 <= k < |bodies| :: bodies[k].codeOffset == SizeTo(objs, bodies[k].objOffset)
  {
    var prevOff: nat, offset: nat := 0, 0;
    for k := 0 to |bodies|
      invariant prevOff == if k == 0 then 0 else bodies[k - 1].objOffset
      invariant prevOff <= |objs| && offset == SizeTo(objs, prevOff)
      invariant forall j | 0 <= j < k :: bodies[j].codeOffset == SizeTo(objs, bodies[j].objOffset)
    {
      var slice := objs[prevOff..bodies[k].objOffset];
      for m := 0 to |slice|
        invariant offset == SizeTo(objs, prevOff + m)
      {
        assert slice[m] == objs[prevOff + m];
        offset := offset + SizeofRef(slice[m]);
      }
      prevOff := bodies[k].objOffset;
      bodies[k].codeOffset := offset;
    }
  }

  /** Object `i` was linked and nothing else changed, or its symbol is unknown and nothing changed at all. */
  ghost predicate ObjectLinked(v: seq<Object>, v': seq<Object>, i: nat, offsets: map<Identifier, nat>,
    unknown: Option<Identifier>)
  {
    i < |v| &&
    match unknown
    case None => v' == v[i := Resolve(v[i], offsets)] && (IsSymbolic(v[i]) ==> v[i].disp.name in offsets)
    case Some(name) => v' == v && IsSymbolic(v[i]) && v[i].disp == Sym(name) && name !in offsets
  }

  class Linker {
    var objs: seq<Obj>
    /** The label dictionary: `names` is its insertion order. */
    var names: seq<Identifier>
    var labels: map<Identifier, LabelBody>

    ghost predicate Valid()
      reads this
    {
      Unshared(objs) && InSourceOrder(names, labels, |objs|)
    }

    /** The program this linker holds. */
    ghost function Value(): Program
      reads this, Insts(objs)
    {
      Program(Views(objs), Positions(labels))
    }

    constructor ()
      ensures Valid() && objs == [] && names == [] && labels == map[]
    {
      objs, names, labels := [], [], map[];
    }

    method AppendObject(o: Object)
      requires Valid()
      modifies this
      ensures Valid() && fresh(Insts(objs) - old(Insts(objs)))
      ensures names == old(names) && labels == old(labels)
      ensures Value() == old(Value()).(objs := old(Value()).objs + [o])
    {
      var entry: Obj;
      match o {
        case RRRObj(op, d, sa, sb) => entry := RRRRef(op, d, sa, sb);
        case RXObj(rx, d, sa, disp) =>
          var inst := new RXInstruction(rx, d, sa, disp);
          entry := RXRef(inst);
        case DataObj(v) => entry := DataRef(v);
      }
      ghost var before := Views(objs);
      assert forall i | 0 <= i < |objs| && objs[i].RXRef? :: objs[i].inst in Insts(objs);
      objs := objs + [entry];
      assert Views(objs) == before + [o];
    }

    method AddLabel(name: Identifier)
      requires Valid() && name !in labels
      modifies this
      ensures Valid() && objs == old(objs)
      ensures fresh(labels.Values - old(labels.Values))
      ensures Value() == old(Value()).(labels := old(Value()).labels[name := |old(Value()).objs|])
    {
      var body := new LabelBody(|objs|);
      ExtendLabels(names, labels, name, body);
      ExtendPositions(labels, name, body);
      hide InSourceOrder, Unshared, Positions, View;
      labels := labels[name := body];
      names := names + [name];
    }

    /** Label bookkeeping over parsed lines. A rejected line sets `errors` but the linker is still returned. */
    static method ParseLines(lines: seq<Line>) returns (linker: Linker, errors: bool, duplicate: Option<Identifier>)
      ensures fresh(linker) && linker.Valid() && fresh(Insts(linker.objs)) && fresh(linker.labels.Values)
      ensures match Parse(lines)
        case Parsed(p) => duplicate == None && linker.Value() == p && (errors <==> Rejected in lines)
        case Duplicate(name) => duplicate == Some(name)
    {
      hide InSourceOrder, Unshared, Views, View, Lower;
      linker := new Linker();
      errors, duplicate := false, None;
      for k := 0 to |lines|
        invariant fresh(linker) && linker.Valid() && fresh(Insts(linker.objs)) && fresh(linker.labels.Values)
        invariant ParseTo(lines, k) == Parsed(linker.Value())
        invariant errors <==> Rejected in lines[..k]
      {
        assert lines[..k + 1] == lines[..k] + [lines[k]];
        match lines[k] {
          case Blank =>
          case Rejected => errors := true;
          case Stmt(s) => linker.AppendObject(Lower(s));
          case Label(name) =>
            if name in linker.labels {
              duplicate := Some(name);
              DuplicateStays(lines, k + 1, |lines|);
              return;
            }
            linker.AddLabel(name);
        }
      }
      assert lines[..|lines|] == lines;
    }

    /** `labels.values()`: the bodies in insertion order. */
    function Bodies(): (bodies: seq<LabelBody>)
      requires Valid()
      reads this
      ensures |bodies| == |names| && forall k | 0 <= k < |names| :: bodies[k] == labels[names[k]]
    {
      seq(|names|, k requires 0 <= k < |names| reads this requires names[k] in labels => labels[names[k]])
    }

    method CalcLabelOffset()
      requires Valid()
      modifies labels.Values
      ensures Valid() && Value() == old(Value()) && SizesStored(objs, labels)
    {
      var bodies := Bodies();
      assert forall k | 0 <= k < |bodies| :: bodies[k] in labels.Values;
      FillOffsets(objs, bodies);
      forall x | x in labels
        ensures labels[x].codeOffset == SizeTo(objs, labels[x].objOffset)
      {
        EveryLabelNamed(names, labels, |objs|, x);
      }
    }

    /** Replaces a symbolic displacement by its label's offset; no other object is affected. */
    method LinkObject(i: nat, ghost offsets: map<Identifier, nat>) returns (unknown: Option<Identifier>)
      requires Valid() && i < |objs|
      requires HoldOffsets(labels, offsets)
      modifies if objs[i].RXRef? then {objs[i].inst} else {}
      ensures ObjectLinked(old(Views(objs)), Views(objs), i, offsets, unknown)
    {
      if objs[i].RXRef? && objs[i].inst.disp.Sym? {
        var name := objs[i].inst.disp.name;
        if name !in labels {
          return Some(name);
        }
        objs[i].inst.disp := Num(labels[name].codeOffset);
      }
      unknown := None;
    }

    /** The loop of `link` over the object list, given the offsets that the labels hold. */
    method LinkObjects(ghost p: Program) returns (unknown: Option<Identifier>)
      requires Valid() && WellFormed(p) && Views(objs) == p.objs && HoldOffsets(labels, Offsets(p))
      modifies Insts(objs)
      ensures Valid() && HoldOffsets(labels, Offsets(p))
      ensures unknown == None ==> Closed(p) && Views(objs) == Linked(p)
      ensures unknown.Some? ==> LinkedUpTo(p, unknown.value, Views(objs))
    {
      hide *;
      PatchNothing(p);
      ghost var offsets, v := Offsets(p), Views(objs);
      for i := 0 to |objs|
        invariant Valid() && HoldOffsets(labels, offsets)
        invariant v == Views(objs) && LinkedSoFar(p, i, v)
      {
        InstsHas(objs, i);
        unknown := LinkObject(i, offsets);
        LinkNext(p, i, v, Views(objs), unknown);
        v := Views(objs);
        if unknown.Some? {
          return;
        }
      }
      unknown := None;
      LinkedAll(p, v);
    }

    /** Computes the label offsets and patches every symbolic displacement, stopping at the first unknown name. */
    method Link() returns (unknown: Option<Identifier>)
      requires Valid()
      modifies labels.Values, Insts(objs)
      ensures Valid() && WellFormed(old(Value()))
      ensures HoldOffsets(labels, Offsets(old(Value())))
      ensures unknown == None <==> Closed(old(Value()))
      ensures unknown == None ==> Value() == old(Value()).(objs := Linked(old(Value())))
      ensures unknown.Some? ==> LinkedUpTo(old(Value()), unknown.value, Views(objs))
    {
      hide *;
      ghost var p := Value();
      ValueParts(this);
      CalcLabelOffset();
      OffsetsHeld(this);
      unknown := LinkObjects(p);
      ValueParts(this);
      if unknown.Some? {
        NotClosed(p, unknown.value, Views(objs));
      }
    }
  }

  lemma ValueParts(l: Linker)
    requires l.Valid()
    ensures WellFormed(l.Value()) && l.Value() == Program(Views(l.objs), Positions(l.labels))
  {
  }

  lemma OffsetsHeld(l: Linker)
    requires l.Valid() && WellFormed(l.Value()) && SizesStored(l.objs, l.labels)
    ensures HoldOffsets(l.labels, Offsets(l.Value()))
  {
    forall x | x in l.labels
      ensures l.labels[x].codeOffset == Offsets(l.Value())[x]
    {
      SizeIsAddr(l.objs, l.labels[x].objOffset);
    }
  }

  lemma NotClosed(p: Program, name: Identifier, v: seq<Object>)
    requires WellFormed(p) && LinkedUpTo(p, name, v)
    ensures !Closed(p)
  {
  }

  /** The objects when the first `i` of them have been linked. */
  ghost function PatchedTo(p: Program, i: nat): seq<Object>
    requires WellFormed(p) && i <= |p.objs|
  {
    Linked(p)[..i] + p.objs[i..]
  }

  /** `name` is the first symbol that names no label: the objects before its user are linked, the rest untouched. */
  ghost predicate LinkedUpTo(p: Program, name: Identifier, v: seq<Object>)
    requires WellFormed(p)
  {
    exists i | 0 <= i < |p.objs| ::
      && IsSymbolic(p.objs[i]) && p.objs[i].disp == Sym(name) && name !in p.labels
      && LinkedSoFar(p, i, v)
  }

  /** The loop invariant of `link`: the first `i` objects are linked and their names were all known. */
  ghost predicate LinkedSoFar(p: Program, i: nat, v: seq<Object>)
    requires WellFormed(p) && i <= |p.objs|
  {
    && v == PatchedTo(p, i)
    && forall k | 0 <= k < i :: IsSymbolic(p.objs[k]) ==> p.objs[k].disp.name in p.labels
  }

  lemma PatchNothing(p: Program)
    requires WellFormed(p)
    ensures LinkedSoFar(p, 0, p.objs)
  {
  }

  lemma LinkNext(p: Program, i: nat, v: seq<Object>, v': seq<Object>, unknown: Option<Identifier>)
    requires WellFormed(p) && i < |p.objs| && LinkedSoFar(p, i, v)
    requires ObjectLinked(v, v', i, Offsets(p), unknown)
    ensures unknown == None ==> LinkedSoFar(p, i + 1, v')
    ensures unknown.Some? ==> LinkedUpTo(p, unknown.value, v')
  {
    assert v[i] == p.objs[i];
    if unknown == None {
      assert v' == PatchedTo(p, i + 1);
    }
  }

  lemma LinkedAll(p: Program, v: seq<Object>)
    requires WellFormed(p) && LinkedSoFar(p, |p.objs|, v)
    ensures Closed(p) && v == Linked(p)
  {
  }

  lemma {:induction false} DuplicateStays(lines: seq<Line>, j: nat, k: nat)
    requires j <= k <= |lines| && ParseTo(lines, j).Duplicate?
    ensures ParseTo(lines, k) == ParseTo(lines, j)
    decreases k
  {
    if j < k {
      DuplicateStays(lines, j, k - 1);
    }
  }

  /** Packs the objects in order; a number out of range or an unlinked displacement ends the output. */
  method WriteCode(objs: seq<Obj>) returns (out: seq<byte>, ok: bool)
    ensures ok <==> AllWritable(Views(objs))
    ensures ok ==> out == Image(Views(objs))
    ensures !ok ==> exists k | 0 <= k < |objs| ::
      && !Writable(Views(objs)[k]) && (forall i | 0 <= i < k :: Writable(Views(objs)[i]))
      && out == ImageTo(Views(objs), k)
  {
    out := [];
    for k := 0 to |objs|
      invariant forall i | 0 <= i < k :: Writable(Views(objs)[i])
      invariant out == ImageTo(Views(objs), k)
    {
      match objs[k] {
        case RRRRef(op, d, sa, sb) =>
          var head, tail := JoinNibbles(RrrCode(op), d), JoinNibbles(sa, sb);
          out := out + [head, tail];
        case RXRef(i) =>
          if i.disp.Sym? || !FitsShort(i.disp.n) {
            return out, false;
          }
          var head, body := JoinNibbles(15, i.d), JoinNibbles(i.sa, RxCode(i.rx));
          out := out + ([head, body] + PackShort(i.disp.n));
        case DataRef(v) =>
          if !FitsShort(v) {
            return out, false;
          }
          out := out + PackShort(v);
      }
    }
    ok := true;
  }
}
