/** The whole pipeline: source lines to image to machine run. */
module Toolchain {
  import opened Words
  import opened Isa
  import opened Assembly
  import opened LabelMachine
  import opened Linking
  import Sources
  import opened Machine

  /** How `main` of the assembler can fail. */
  datatype AsmError = DuplicateLabel(name: Identifier) | UnknownLabel(name: Identifier) | NumberOutOfRange

  /** The conditions under which assembling succeeds. */
  predicate Assemblable(lines: seq<Line>) {
    && Parse(lines).Parsed? && WellFormed(Parse(lines).p)
    && Closed(Parse(lines).p) && AllWritable(Linked(Parse(lines).p))
  }

  /** The same condition on the lines themselves. */
  lemma AssemblableExactly(lines: seq<Line>)
    ensures Assemblable(lines) <==>
      !Sources.Repeats(lines, |lines|) && Sources.SymbolsKnown(lines) && Sources.NumbersFit(lines)
    ensures Parse(lines).Parsed? && Assembles(Parse(lines).p) <==>
      Assemblable(lines) && Sources.WordsBefore(lines, |lines|) <= 32768
  {
    hide Closed, AllWritable, Linked, Parse, Sources.Repeats, Sources.SymbolsKnown, Sources.NumbersFit;
    Sources.AssemblesOnLines(lines);
  }

  /** `main` of the assembler after its input is split into parsed lines. */
  method Assemble(lines: seq<Line>) returns (image: seq<byte>, error: Option<AsmError>)
    ensures error == None <==> Assemblable(lines)
    ensures error == None ==> image == Image(Linked(Parse(lines).p))
    ensures match error
      case None => true
      case Some(DuplicateLabel(x)) => Parse(lines) == Duplicate(x)
      case Some(UnknownLabel(x)) =>
        && Parse(lines).Parsed? && x !in Parse(lines).p.labels
        && exists i | 0 <= i < |Parse(lines).p.objs| ::
             IsSymbolic(Parse(lines).p.objs[i]) && Parse(lines).p.objs[i].disp.name == x
      case Some(NumberOutOfRange) =>
        && Parse(lines).Parsed? && WellFormed(Parse(lines).p)
        && Closed(Parse(lines).p) && !AllWritable(Linked(Parse(lines).p))
  {
    hide ParseTo, Views, Image, Linked, Writable;
    image := [];
    var linker, _, duplicate := Linker.ParseLines(lines);
    if duplicate.Some? {
      return image, Some(DuplicateLabel(duplicate.value));
    }
    ghost var p := linker.Value();
    var unknown := linker.Link();
    if unknown.Some? {
      return image, Some(UnknownLabel(unknown.value));
    }
    var ok;
    image, ok := WriteCode(linker.objs);
    error := if ok then None else Some(NumberOutOfRange);
  }

  /** Running the emulator on the assembled file is running the labelled program, unless that is stuck. */
  method AssembleAndRun(lines: seq<Line>, fuel: nat) returns (vm: VM, status: Status)
    requires Parse(lines).Parsed? && Assembles(Parse(lines).p)
    ensures vm.Valid() && vm.Agrees(status, Run(Boot(Image(Linked(Parse(lines).p))), fuel))
    ensures match LRun(Parse(lines).p, Start(Parse(lines).p), fuel)
      case AtObject(l) => l.at <= |Parse(lines).p.objs| && status == Continue
                          && vm.View() == Concrete(Parse(lines).p, l)
      case Finished(l) => l.at <= |Parse(lines).p.objs| && status == ExitOk && vm.View() == Concrete(Parse(lines).p, l)
      case Faulted => status == OutOfModel
      case Stuck => true
  {
    hide ParseTo, LRun, Run, Step, Intact, Image, Concrete, Boot;
    ghost var p := Parse(lines).p;
    var image, error := Assemble(lines);
    ImageSize(p);
    vm := new VM(image);
    status := vm.Exec(fuel);
    StartIsBoot(p);
    RunSimulates(p, Start(p), fuel);
  }
}
