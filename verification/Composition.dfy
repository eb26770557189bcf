/** Assembling one source after another. */
module Composition {
  import opened Words
  import opened Isa
  import opened Assembly

  /** The program of two sources read one after the other. */
  function Concat(p: Program, q: Program): Program {
    Program(p.objs + q.objs, p.labels + map x | x in q.labels :: |p.objs| + q.labels[x])
  }

  /** `q`'s linked objects as they come out when `base` words precede them. */
  function Relocate(o: Object, linked: Object, base: nat): Object {
    if IsSymbolic(o) && linked.RXObj? && linked.disp.Num? then linked.(disp := Num(linked.disp.n + base)) else linked
  }

  function RelocateAll(q: Program, base: nat): seq<Object>
    requires WellFormed(q)
  {
    seq(|q.objs|, i requires 0 <= i < |q.objs| => Relocate(q.objs[i], Linked(q)[i], base))
  }

  lemma {:induction false} ConcatAddr(a: seq<Object>, b: seq<Object>, i: nat)
    requires i <= |b|
    ensures Addr(a + b, |a| + i) == Size(a) + Addr(b, i)
  {
    if i == 0 {
      AddrBySizes(a + b, a, |a|);
    } else {
      ConcatAddr(a, b, i - 1);
    }
  }

  /** Offsets of the first program stay, offsets of the second shift by the first one's size. */
  lemma ConcatOffsets(p: Program, q: Program)
    requires WellFormed(p) && WellFormed(q) && p.labels.Keys !! q.labels.Keys
    ensures WellFormed(Concat(p, q))
    ensures forall x | x in p.labels :: x in Concat(p, q).labels && Offsets(Concat(p, q))[x] == Offsets(p)[x]
    ensures forall x | x in q.labels ::
      x in Concat(p, q).labels && Offsets(Concat(p, q))[x] == Size(p.objs) + Offsets(q)[x]
  {
    var pq := Concat(p, q);
    forall x | x in p.labels
      ensures x in pq.labels && pq.labels[x] == p.labels[x] && Addr(pq.objs, pq.labels[x]) == Addr(p.objs, p.labels[x])
    {
      AddrBySizes(pq.objs, p.objs, p.labels[x]);
    }
    forall x | x in q.labels
      ensures x in pq.labels && pq.labels[x] == |p.objs| + q.labels[x]
      ensures Addr(pq.objs, pq.labels[x]) == Size(p.objs) + Addr(q.objs, q.labels[x])
    {
      ConcatAddr(p.objs, q.objs, q.labels[x]);
    }
  }

  lemma ResolveInConcat(p: Program, q: Program, o: Object)
    requires WellFormed(p) && WellFormed(q) && p.labels.Keys !! q.labels.Keys && WellFormed(Concat(p, q))
    ensures (IsSymbolic(o) ==> o.disp.name in p.labels) ==>
      Resolve(o, Offsets(Concat(p, q))) == Resolve(o, Offsets(p))
    ensures (IsSymbolic(o) ==> o.disp.name in q.labels) ==>
      Resolve(o, Offsets(Concat(p, q))) == Relocate(o, Resolve(o, Offsets(q)), Size(p.objs))
  {
    hide Addr, Concat;
    ConcatOffsets(p, q);
  }

  /** Linking is compositional: only the second program's symbolic displacements move. */
  lemma ConcatLinks(p: Program, q: Program)
    requires WellFormed(p) && WellFormed(q) && p.labels.Keys !! q.labels.Keys
    requires Closed(p) && Closed(q)
    ensures WellFormed(Concat(p, q)) && Closed(Concat(p, q))
    ensures Linked(Concat(p, q)) == Linked(p) + RelocateAll(q, Size(p.objs))
  {
    hide Offsets, Addr, Resolve, Relocate;
    ConcatOffsets(p, q);
    var pq, both := Concat(p, q), Linked(p) + RelocateAll(q, Size(p.objs));
    forall i | 0 <= i < |pq.objs|
      ensures IsSymbolic(pq.objs[i]) ==> pq.objs[i].disp.name in pq.labels
      ensures Linked(pq)[i] == both[i]
    {
      ResolveInConcat(p, q, pq.objs[i]);
      if i < |p.objs| {
        assert pq.objs[i] == p.objs[i] && both[i] == Resolve(p.objs[i], Offsets(p));
      } else {
        var o := q.objs[i - |p.objs|];
        assert pq.objs[i] == o && both[i] == Relocate(o, Resolve(o, Offsets(q)), Size(p.objs));
      }
    }
    assert |Linked(pq)| == |both|;
  }

  lemma ConcatWritable(a: seq<Object>, b: seq<Object>)
    requires AllWritable(a + b)
    ensures AllWritable(a) && AllWritable(b)
  {
    hide Writable;
    forall j | 0 <= j < |a| ensures Writable(a[j]) { assert (a + b)[j] == a[j]; }
    forall j | 0 <= j < |b| ensures Writable(b[j]) { assert (a + b)[|a| + j] == b[j]; }
  }

  lemma {:induction false} ConcatImage(a: seq<Object>, b: seq<Object>, i: nat)
    requires AllWritable(a + b) && i <= |b|
    ensures AllWritable(a) && AllWritable(b)
    ensures ImageTo(a + b, |a| + i) == Image(a) + ImageTo(b, i)
    decreases i
  {
    hide Encode, Writable;
    ConcatWritable(a, b);
    if i == 0 {
      ImageOfPrefix(a + b, a, |a|);
    } else {
      ConcatImage(a, b, i - 1);
      assert (a + b)[|a| + i - 1] == b[i - 1];
      AppendAssociates(Image(a), ImageTo(b, i - 1), Encode(b[i - 1]));
    }
  }

  lemma {:induction false} ImageOfPrefix(c: seq<Object>, a: seq<Object>, k: nat)
    requires k <= |a| && a <= c && AllWritable(c) && AllWritable(a)
    ensures ImageTo(c, k) == ImageTo(a, k)
  {
    if k > 0 {
      ImageOfPrefix(c, a, k - 1);
    }
  }

  lemma ImageCons(o: Object, rest: seq<Object>)
    requires Writable(o) && AllWritable(rest)
    ensures AllWritable([o] + rest) && Image([o] + rest) == Encode(o) + Image(rest)
  {
    forall i | 0 <= i < |[o] + rest| ensures Writable(([o] + rest)[i]) {}
    ConcatImage([o], rest, |rest|);
    assert ImageTo([o], 1) == ImageTo([o], 0) + Encode(o);
  }

  /** The image of both is the first image followed by the relocated second one. */
  lemma ConcatImages(p: Program, q: Program)
    requires WellFormed(p) && WellFormed(q) && p.labels.Keys !! q.labels.Keys
    requires Closed(p) && Closed(q)
    requires AllWritable(Linked(p)) && AllWritable(RelocateAll(q, Size(p.objs)))
    ensures WellFormed(Concat(p, q)) && AllWritable(Linked(Concat(p, q)))
    ensures Image(Linked(Concat(p, q))) == Image(Linked(p)) + Image(RelocateAll(q, Size(p.objs)))
  {
    hide Encode, Writable, ImageTo, Offsets, Resolve, Relocate;
    ConcatLinks(p, q);
    var a, b := Linked(p), RelocateAll(q, Size(p.objs));
    forall i | 0 <= i < |a + b| ensures Writable((a + b)[i]) {}
    ConcatImage(a, b, |b|);
  }

  lemma ConcatExtends(p: Program, q: Program, o: Object, x: Identifier)
    requires x !in p.labels && x !in q.labels
    ensures Concat(p, q.(objs := q.objs + [o])) == Concat(p, q).(objs := Concat(p, q).objs + [o])
    ensures Concat(p, q.(labels := q.labels[x := |q.objs|])) ==
      Concat(p, q).(labels := Concat(p, q).labels[x := |Concat(p, q).objs|])
  {
    assert p.objs + (q.objs + [o]) == p.objs + q.objs + [o];
    var q' := q.(labels := q.labels[x := |q.objs|]);
    assert Concat(p, q').labels == Concat(p, q).labels[x := |Concat(p, q).objs|];
  }

  /** Reading two label-disjoint sources in sequence gives the concatenated program, line by line of the second. */
  lemma {:induction false} ParseConcat(a: seq<Line>, b: seq<Line>, k: nat)
    requires k <= |b| && Parse(a).Parsed? && ParseTo(b, k).Parsed?
    requires Parse(a).p.labels.Keys !! ParseTo(b, k).p.labels.Keys
    ensures ParseTo(a + b, |a| + k) == Parsed(Concat(Parse(a).p, ParseTo(b, k).p))
  {
    var p := Parse(a).p;
    if k == 0 {
      ParsePrefix(a + b, a, |a|);
      assert p.objs + [] == p.objs;
      assert Concat(p, Program([], map[])) == p;
    } else {
      var q := ParseTo(b, k - 1).p;
      assert q.labels.Keys <= ParseTo(b, k).p.labels.Keys;
      ParseConcat(a, b, k - 1);
      assert (a + b)[|a| + k - 1] == b[k - 1];
      match b[k - 1]
      case Stmt(s) => assert p.objs + (q.objs + [Lower(s)]) == p.objs + q.objs + [Lower(s)];
      case Label(x) =>
        assert x in ParseTo(b, k).p.labels && x !in q.labels;
        ConcatExtends(p, q, DataObj(0), x);
      case _ =>
    }
  }

  /** The same for whole sources. */
  lemma SourcesConcat(a: seq<Line>, b: seq<Line>)
    requires Parse(a).Parsed? && Parse(b).Parsed? && Parse(a).p.labels.Keys !! Parse(b).p.labels.Keys
    ensures Parse(a + b) == Parsed(Concat(Parse(a).p, Parse(b).p))
  {
    hide ParseTo, Concat;
    ParseConcat(a, b, |b|);
  }

  lemma {:induction false} ParsePrefix(c: seq<Line>, a: seq<Line>, k: nat)
    requires k <= |a| && a <= c
    ensures ParseTo(c, k) == ParseTo(a, k)
  {
    if k > 0 {
      ParsePrefix(c, a, k - 1);
    }
  }
}
