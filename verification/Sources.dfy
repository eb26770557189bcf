/** What the parsed lines of a source determine: its objects, its labels, and when it is rejected. */
module Sources {
  import opened Words
  import opened Assembly

  /** The number of statements among the first `i` lines. */
  function StmtsBefore(lines: seq<Line>, i: nat): nat
    requires i <= |lines|
  {
    |set k: nat | k < i && lines[k].Stmt?|
  }

  lemma StmtsStep(lines: seq<Line>, i: nat)
    requires i < |lines|
    ensures StmtsBefore(lines, i + 1) == StmtsBefore(lines, i) + if lines[i].Stmt? then 1 else 0
  {
    var before := set k: nat | k < i && lines[k].Stmt?;
    var upTo := set k: nat | k < i + 1 && lines[k].Stmt?;
    if lines[i].Stmt? {
      assert upTo == before + {i};
    } else {
      assert upTo == before;
    }
  }

  lemma {:induction false} StmtsMonotone(lines: seq<Line>, i: nat, j: nat)
    requires i <= j <= |lines|
    ensures StmtsBefore(lines, i) <= StmtsBefore(lines, j)
    ensures i < j && lines[i].Stmt? ==> StmtsBefore(lines, i) < StmtsBefore(lines, j)
    decreases j
  {
    hide StmtsBefore;
    if i < j {
      StmtsStep(lines, j - 1);
      StmtsMonotone(lines, i, j - 1);
      StmtsStep(lines, i);
    }
  }

  /** Two of the first `k` lines declare the same label. */
  predicate Repeats(lines: seq<Line>, k: nat)
    requires k <= |lines|
  {
    exists i, j | 0 <= i < j < k :: lines[i].Label? && lines[i] == lines[j]
  }

  /** The program of the first `k` lines holds their statements in order and their labels at the right places. */
  predicate Holds(lines: seq<Line>, k: nat, p: Program)
    requires k <= |lines|
  {
    && |p.objs| == StmtsBefore(lines, k)
    && (forall i | 0 <= i < k && lines[i].Stmt? ::
          StmtsBefore(lines, i) < |p.objs| && p.objs[StmtsBefore(lines, i)] == Lower(lines[i].s))
    && (forall i | 0 <= i < k && lines[i].Label? ::
          lines[i].name in p.labels && p.labels[lines[i].name] == StmtsBefore(lines, i))
    && (forall x | x in p.labels :: exists i | 0 <= i < k :: lines[i] == Label(x))
  }

  lemma HoldsNothing(lines: seq<Line>)
    ensures Holds(lines, 0, Program([], map[])) && !Repeats(lines, 0)
  {
  }

  lemma HoldsStatement(lines: seq<Line>, k: nat, p: Program)
    requires k < |lines| && Holds(lines, k, p) && lines[k].Stmt?
    ensures Holds(lines, k + 1, p.(objs := p.objs + [Lower(lines[k].s)]))
    ensures Repeats(lines, k + 1) ==> Repeats(lines, k)
  {
    hide StmtsBefore, Lower;
    StmtsStep(lines, k);
  }

  lemma HoldsLabel(lines: seq<Line>, k: nat, p: Program, x: Identifier)
    requires k < |lines| && Holds(lines, k, p) && lines[k] == Label(x) && x !in p.labels
    ensures Holds(lines, k + 1, p.(labels := p.labels[x := |p.objs|]))
  {
    hide StmtsBefore, Lower;
    StmtsStep(lines, k);
    var p' := p.(labels := p.labels[x := |p.objs|]);
    forall y | y in p'.labels
      ensures exists i | 0 <= i < k + 1 :: lines[i] == Label(y)
    {
      if y != x {
        var i :| 0 <= i < k && lines[i] == Label(y);
      }
    }
  }

  lemma HoldsOther(lines: seq<Line>, k: nat, p: Program)
    requires k < |lines| && Holds(lines, k, p) && !lines[k].Stmt? && !lines[k].Label?
    ensures Holds(lines, k + 1, p)
    ensures Repeats(lines, k + 1) ==> Repeats(lines, k)
  {
    hide StmtsBefore, Lower;
    StmtsStep(lines, k);
    forall y | y in p.labels
      ensures exists i | 0 <= i < k + 1 :: lines[i] == Label(y)
    {
      var i :| 0 <= i < k && lines[i] == Label(y);
    }
  }

  /** `x` is declared at line `j` and before it, and no label is repeated before line `j`. */
  predicate FirstRepeated(lines: seq<Line>, j: nat, x: Identifier)
    requires j < |lines|
  {
    lines[j] == Label(x) && (exists i | 0 <= i < j :: lines[i] == Label(x)) && !Repeats(lines, j)
  }

  /** `x` is the first repeated label among the first `k` lines. */
  predicate Reported(lines: seq<Line>, k: nat, x: Identifier)
    requires k <= |lines|
  {
    exists j: nat | j < k :: FirstRepeated(lines, j, x)
  }

  lemma ReportFirst(lines: seq<Line>, k: nat, x: Identifier)
    requires k < |lines|
    ensures FirstRepeated(lines, k, x) ==> Reported(lines, k + 1, x)
    ensures Reported(lines, k, x) && Repeats(lines, k) ==> Reported(lines, k + 1, x) && Repeats(lines, k + 1)
  {
    hide FirstRepeated;
    if Repeats(lines, k) {
      var i, j :| 0 <= i < j < k && lines[i].Label? && lines[i] == lines[j];
      assert 0 <= i < j < k + 1 && lines[i].Label? && lines[i] == lines[j];
    }
  }

  lemma {:induction false} ParseExplained(lines: seq<Line>, k: nat)
    requires k <= |lines|
    ensures match ParseTo(lines, k)
      case Parsed(p) => Holds(lines, k, p) && !Repeats(lines, k)
      case Duplicate(x) => Repeats(lines, k) && Reported(lines, k, x)
  {
    hide Holds, Lower, Repeats, Reported, FirstRepeated;
    if k == 0 {
      HoldsNothing(lines);
    } else {
      ParseExplained(lines, k - 1);
      match ParseTo(lines, k - 1)
      case Duplicate(x) => ReportFirst(lines, k - 1, x);
      case Parsed(p) =>
        match lines[k - 1]
        case Stmt(s) => HoldsStatement(lines, k - 1, p);
        case Label(x) =>
          LabelExplained(lines, k - 1, p, x);
          ReportFirst(lines, k - 1, x);
        case _ => HoldsOther(lines, k - 1, p);
    }
  }

  lemma LabelExplained(lines: seq<Line>, k: nat, p: Program, x: Identifier)
    requires k < |lines| && Holds(lines, k, p) && !Repeats(lines, k) && lines[k] == Label(x)
    ensures x in p.labels ==> Repeats(lines, k + 1) && FirstRepeated(lines, k, x)
    ensures x !in p.labels ==> !Repeats(lines, k + 1) && Holds(lines, k + 1, p.(labels := p.labels[x := |p.objs|]))
  {
    hide StmtsBefore, Lower;
    if x in p.labels {
      var i :| 0 <= i < k && lines[i] == Label(x);
      assert 0 <= i < k < k + 1 && lines[i].Label? && lines[i] == lines[k];
    } else {
      HoldsLabel(lines, k, p, x);
      forall i, j | 0 <= i < j < k + 1 && lines[i].Label?
        ensures lines[i] != lines[j]
      {
        if j == k {
          assert lines[i].name in p.labels;
        }
      }
    }
  }

  /** A source is rejected exactly when two lines declare the same label; the first repeated one is reported. */
  lemma RejectedExactly(lines: seq<Line>)
    ensures Parse(lines).Duplicate? <==>
      exists i, j | 0 <= i < j < |lines| :: lines[i].Label? && lines[i] == lines[j]
    ensures Parse(lines).Duplicate? ==> exists j | 0 <= j < |lines| ::
      && lines[j] == Label(Parse(lines).name) && (exists i | 0 <= i < j :: lines[i] == lines[j])
      && !(exists i, i' | 0 <= i < i' < j :: lines[i].Label? && lines[i] == lines[i'])
  {
    hide ParseTo, Holds;
    ParseExplained(lines, |lines|);
    if Parse(lines).Duplicate? {
      var j :| 0 <= j < |lines| && FirstRepeated(lines, j, Parse(lines).name);
      assert lines[j] == Label(Parse(lines).name);
    }
  }

  /**
    An accepted source gives the objects of its statements in order, nothing for blank and rejected lines, and
    exactly its labels, each at the number of statements before it.
   */
  lemma AcceptedProgram(lines: seq<Line>)
    requires Parse(lines).Parsed?
    ensures var p := Parse(lines).p;
      && |p.objs| == |set k: nat | k < |lines| && lines[k].Stmt?|
      && (forall i: nat | i < |lines| && lines[i].Stmt? ::
            var m := |set k: nat | k < i && lines[k].Stmt?|; m < |p.objs| && p.objs[m] == Lower(lines[i].s))
      && (forall i: nat | i < |lines| && lines[i].Label? ::
            lines[i].name in p.labels && p.labels[lines[i].name] == |set k: nat | k < i && lines[k].Stmt?|)
      && (forall x | x in p.labels :: exists i | 0 <= i < |lines| :: lines[i] == Label(x))
  {
    hide ParseTo, Lower;
    ParseExplained(lines, |lines|);
  }

  /** The number of words that the statements among the first `j` lines occupy. */
  function WordsBefore(lines: seq<Line>, j: nat): nat
    requires j <= |lines|
  {
    if j == 0 then 0
    else if !lines[j - 1].Stmt? then WordsBefore(lines, j - 1)
    else WordsBefore(lines, j - 1) + (if Lower(lines[j - 1].s).RXObj? then 2 else 1)
  }

  /** Every object comes from a statement line. */
  lemma {:induction false} ObjectFromLine(lines: seq<Line>, k: nat, m: nat) returns (i: nat)
    requires k <= |lines| && m < StmtsBefore(lines, k)
    ensures i < k && lines[i].Stmt? && StmtsBefore(lines, i) == m
    decreases k
  {
    hide StmtsBefore;
    if k == 0 {
      NoStatements(lines, 0);
    } else {
      StmtsStep(lines, k - 1);
      if m < StmtsBefore(lines, k - 1) {
        i := ObjectFromLine(lines, k - 1, m);
      } else {
        i := k - 1;
      }
    }
  }

  lemma NoStatements(lines: seq<Line>, i: nat)
    requires i <= |lines|
    ensures i == 0 ==> StmtsBefore(lines, i) == 0
  {
    var before := set k: nat | k < i && lines[k].Stmt?;
    assert i == 0 ==> before == {};
  }

  /** Code offsets, counted on source lines. */
  lemma {:induction false} AddrOfLine(lines: seq<Line>, j: nat)
    requires Parse(lines).Parsed? && j <= |lines|
    ensures StmtsBefore(lines, j) <= |Parse(lines).p.objs|
    ensures Addr(Parse(lines).p.objs, StmtsBefore(lines, j)) == WordsBefore(lines, j)
    decreases j
  {
    hide StmtsBefore, ParseTo, Lower, Parse;
    ObjectsOfLines(lines);
    StmtsMonotone(lines, j, |lines|);
    if j == 0 {
      NoStatements(lines, 0);
    } else {
      AddrOfLine(lines, j - 1);
      StmtsStep(lines, j - 1);
    }
  }

  lemma ObjectsOfLines(lines: seq<Line>)
    requires Parse(lines).Parsed?
    ensures |Parse(lines).p.objs| == StmtsBefore(lines, |lines|) && Holds(lines, |lines|, Parse(lines).p)
  {
    hide ParseTo, StmtsBefore, Lower;
    ParseExplained(lines, |lines|);
  }

  // ----- when a source assembles -----

  /** Every symbol a statement uses is declared as a label on some line. */
  predicate SymbolsKnown(lines: seq<Line>) {
    forall i | 0 <= i < |lines| && lines[i].Stmt? && Lower(lines[i].s).RXObj? && Lower(lines[i].s).disp.Sym? ::
      exists j | 0 <= j < |lines| :: lines[j] == Label(Lower(lines[i].s).disp.name)
  }

  /** Data, numeric displacements and the offsets of used labels are in the signed 16-bit range. */
  predicate NumbersFit(lines: seq<Line>) {
    forall i | 0 <= i < |lines| && lines[i].Stmt? ::
      match Lower(lines[i].s)
      case RRRObj(_, _, _, _) => true
      case DataObj(v) => -32768 <= v <= 32767
      case RXObj(_, _, _, Num(n)) => -32768 <= n <= 32767
      case RXObj(_, _, _, Sym(x)) => forall j | 0 <= j < |lines| && lines[j] == Label(x)
                                 :: WordsBefore(lines, j) <= 32767
  }

  lemma LabelOfLine(lines: seq<Line>, x: Identifier)
    requires Parse(lines).Parsed?
    ensures x in Parse(lines).p.labels <==> exists j | 0 <= j < |lines| :: lines[j] == Label(x)
    ensures forall j | 0 <= j < |lines| && lines[j] == Label(x) ::
      x in Parse(lines).p.labels && Parse(lines).p.labels[x] == StmtsBefore(lines, j)
  {
    hide ParseTo, StmtsBefore, Lower, Parse;
    ObjectsOfLines(lines);
  }

  lemma ClosedOnLines(lines: seq<Line>)
    requires Parse(lines).Parsed?
    ensures Closed(Parse(lines).p) <==> SymbolsKnown(lines)
  {
    hide ParseTo, StmtsBefore, Lower, Parse;
    var p := Parse(lines).p;
    ObjectsOfLines(lines);
    if SymbolsKnown(lines) {
      forall m | 0 <= m < |p.objs|
        ensures IsSymbolic(p.objs[m]) ==> p.objs[m].disp.name in p.labels
      {
        var i := ObjectFromLine(lines, |lines|, m);
        if IsSymbolic(p.objs[m]) {
          LabelOfLine(lines, p.objs[m].disp.name);
        }
      }
    }
    if Closed(p) {
      forall i | 0 <= i < |lines| && lines[i].Stmt? && Lower(lines[i].s).RXObj? && Lower(lines[i].s).disp.Sym?
        ensures exists j | 0 <= j < |lines| :: lines[j] == Label(Lower(lines[i].s).disp.name)
      {
        assert IsSymbolic(p.objs[StmtsBefore(lines, i)]);
        LabelOfLine(lines, Lower(lines[i].s).disp.name);
      }
    }
  }

  /** What has to hold of one statement for its linked object to be writable. */
  lemma WritableOnLine(lines: seq<Line>, i: nat)
    requires Parse(lines).Parsed? && WellFormed(Parse(lines).p) && Closed(Parse(lines).p)
    requires i < |lines| && lines[i].Stmt?
    ensures StmtsBefore(lines, i) < |Parse(lines).p.objs|
    ensures Writable(Linked(Parse(lines).p)[StmtsBefore(lines, i)]) <==>
      match Lower(lines[i].s)
      case RRRObj(_, _, _, _) => true
      case DataObj(v) => -32768 <= v <= 32767
      case RXObj(_, _, _, Num(n)) => -32768 <= n <= 32767
      case RXObj(_, _, _, Sym(x)) => forall j | 0 <= j < |lines| && lines[j] == Label(x)
                                 :: WordsBefore(lines, j) <= 32767
  {
    hide ParseTo, StmtsBefore, Lower, Parse, Addr, WordsBefore;
    var p, m := Parse(lines).p, StmtsBefore(lines, i);
    ObjectsOfLines(lines);
    LinkFrame(p);
    if IsSymbolic(p.objs[m]) {
      var x := p.objs[m].disp.name;
      LabelOfLine(lines, x);
      forall j | 0 <= j < |lines| && lines[j] == Label(x)
        ensures Addr(p.objs, p.labels[x]) == WordsBefore(lines, j)
      {
        AddrOfLine(lines, j);
      }
    }
  }

  lemma WritableOnLines(lines: seq<Line>)
    requires Parse(lines).Parsed? && WellFormed(Parse(lines).p) && Closed(Parse(lines).p)
    ensures AllWritable(Linked(Parse(lines).p)) <==> NumbersFit(lines)
  {
    hide ParseTo, StmtsBefore, Lower, Parse, Writable, Linked, WordsBefore;
    var p := Parse(lines).p;
    ObjectsOfLines(lines);
    LinkFrame(p);
    forall i | 0 <= i < |lines| && lines[i].Stmt? {
      WritableOnLine(lines, i);
    }
    if NumbersFit(lines) {
      forall m | 0 <= m < |p.objs|
        ensures Writable(Linked(p)[m])
      {
        var i := ObjectFromLine(lines, |lines|, m);
        WritableOnLine(lines, i);
      }
    }
    if AllWritable(Linked(p)) {
      forall i | 0 <= i < |lines| && lines[i].Stmt?
        ensures Writable(Linked(p)[StmtsBefore(lines, i)])
      {
        WritableOnLine(lines, i);
      }
    }
  }

  /** Assembling succeeds exactly when labels are unique, symbols are declared, and numbers and used offsets fit. */
  lemma AssemblesOnLines(lines: seq<Line>)
    ensures Parse(lines).Parsed? && WellFormed(Parse(lines).p)
      && Closed(Parse(lines).p) && AllWritable(Linked(Parse(lines).p))
      <==> !Repeats(lines, |lines|) && SymbolsKnown(lines) && NumbersFit(lines)
    ensures Parse(lines).Parsed? ==> Size(Parse(lines).p.objs) == WordsBefore(lines, |lines|)
  {
    hide ParseTo, Repeats, SymbolsKnown, NumbersFit, Closed, AllWritable, Linked,
         WordsBefore, Holds, StmtsBefore, Reported;
    ParseExplained(lines, |lines|);
    if Parse(lines).Parsed? {
      ParseWellFormed(lines, |lines|);
      ClosedOnLines(lines);
      if Closed(Parse(lines).p) {
        WritableOnLines(lines);
      }
      ObjectsOfLines(lines);
      AddrOfLine(lines, |lines|);
    }
  }
}
