/** What whole runs of the machine keep, and what they leave in memory and on the output. */
module Runs {
  import opened Words
  import opened Isa

  // ----- register 0 -----

  lemma ExecKeepsR0(i: Inst, link: word, c: Core)
    requires c.regs[0] == 0
    ensures var e := Exec(i, link, c); e.Next? || e.Goto? ==> e.core.regs[0] == 0
  {
  }

  /** R0 is zero in every state a run reaches from a state where it is zero. */
  lemma {:induction false} R0StaysZero(s: State, n: nat)
    requires s.core.regs[0] == 0
    ensures var o := Run(s, n); !o.Undefined? ==> o.s.core.regs[0] == 0
    decreases n
  {
    if n > 0 && Step(s).Running? {
      var i := Fetch(s.core.mem, s.pc).inst;
      ExecKeepsR0(i, Wrap(s.pc + i.Size()), s.core);
      R0StaysZero(Step(s).s, n - 1);
    }
  }

  /** From boot, an instruction based on R0 addresses its displacement. */
  lemma DispOnR0IsAbsolute(image: seq<byte>, n: nat, disp: word)
    ensures var o := Run(Boot(image), n); !o.Undefined? ==> Wrap(o.s.core.regs[0] + disp) == disp
  {
    R0StaysZero(Boot(image), n);
  }

  // ----- stores and output -----

  datatype Event = Stored(a: nat, v: word) | Printed(bytes: seq<byte>)

  /** What the instruction about to execute will store or print. */
  function EventsOf(s: State): seq<Event> {
    var r := s.core.regs;
    match Fetch(s.core.mem, s.pc)
    case Decoded(RX(Store, d, sa, disp)) => [Stored(Wrap(r[sa] + disp), r[d])]
    case Decoded(RRR(Trap, d, sa, sb)) =>
      if r[d] == 2 && TrapInBounds(r[sa], r[sb]) then [Printed(TrapBytes(s.core.mem, r[sa], r[sb]))] else []
    case _ => []
  }

  /** The stores and prints of the first `n` steps, oldest first. */
  function History(s: State, n: nat): seq<Event>
    decreases n
  {
    if n == 0 then []
    else
      match Step(s)
      case Running(s') => EventsOf(s) + History(s', n - 1)
      case _ => []
  }

  function Replay(mem: Memory, h: seq<Event>): Memory
    decreases |h|
  {
    if h == [] then mem
    else if h[0].Stored? && h[0].a < MEM_WORDS then Replay(mem[h[0].a := h[0].v], h[1..])
    else Replay(mem, h[1..])
  }

  function Output(h: seq<Event>): seq<byte> {
    if h == [] then []
    else (if h[0].Printed? then h[0].bytes else []) + Output(h[1..])
  }

  /** The one event of a step, if any, is what it does to memory and output. */
  ghost predicate EffectOf(es: seq<Event>, c: Core, c': Core) {
    || (es == [] && c'.mem == c.mem && c'.out == c.out)
    || (|es| == 1 && es[0].Stored? && es[0].a < MEM_WORDS && c'.mem == c.mem[es[0].a := es[0].v] && c'.out == c.out)
    || (|es| == 1 && es[0].Printed? && c'.mem == c.mem && c'.out == c.out + es[0].bytes)
  }

  lemma StepHasItsEvents(s: State, s': State)
    requires Step(s) == Running(s')
    ensures EffectOf(EventsOf(s), s.core, s'.core)
  {
  }

  lemma ReplayEffect(es: seq<Event>, c: Core, c': Core, h: seq<Event>)
    requires EffectOf(es, c, c')
    ensures Replay(c.mem, es + h) == Replay(c'.mem, h)
    ensures c.out + Output(es + h) == c'.out + Output(h)
  {
    if es == [] {
      assert es + h == h;
    } else {
      assert (es + h)[0] == es[0] && (es + h)[1..] == h;
    }
  }

  lemma StopsInPlace(s: State)
    ensures Step(s).Halted? || Step(s).BadOp? ==> Step(s).s == s
  {
  }

  /** A run changes memory and output by exactly its history. */
  lemma {:induction false} HistoryExplainsRun(s: State, n: nat)
    ensures var o := Run(s, n); !o.Undefined? ==>
      && o.s.core.mem == Replay(s.core.mem, History(s, n))
      && o.s.core.out == s.core.out + Output(History(s, n))
    decreases n
  {
    hide Step, EventsOf, EffectOf;
    if n > 0 {
      match Step(s)
      case Running(s') =>
        StepHasItsEvents(s, s');
        ReplayEffect(EventsOf(s), s.core, s'.core, History(s', n - 1));
        HistoryExplainsRun(s', n - 1);
      case _ => StopsInPlace(s);
    }
  }

  ghost predicate StoresTo(h: seq<Event>, a: nat) {
    exists k | 0 <= k < |h| :: h[k].Stored? && h[k].a == a
  }

  /** A word that no store addresses keeps its loaded value; any other holds the last value stored to it. */
  lemma {:induction false} LastStoreWins(mem: Memory, h: seq<Event>, a: nat)
    requires a < MEM_WORDS
    ensures !StoresTo(h, a) ==> Replay(mem, h)[a] == mem[a]
    ensures forall k | 0 <= k < |h| && h[k].Stored? && h[k].a == a && !StoresTo(h[k + 1..], a) ::
      Replay(mem, h)[a] == h[k].v
    decreases |h|
  {
    if h != [] {
      var e, t := h[0], h[1..];
      var mem' := if e.Stored? && e.a < MEM_WORDS then mem[e.a := e.v] else mem;
      LastStoreWins(mem', t, a);
      if StoresTo(t, a) {
        var j :| 0 <= j < |t| && t[j].Stored? && t[j].a == a;
        assert h[j + 1] == t[j];
      }
      forall k | 0 <= k < |h| && h[k].Stored? && h[k].a == a && !StoresTo(h[k + 1..], a)
        ensures Replay(mem, h)[a] == h[k].v
      {
        if k > 0 {
          assert t[k - 1] == h[k] && t[k..] == h[k + 1..];
        }
      }
    }
  }

  /** A word of memory after a run is the loaded one unless some executed STORE addressed it. */
  lemma UnstoredWordsKeep(s: State, n: nat, a: nat)
    requires a < MEM_WORDS && !StoresTo(History(s, n), a)
    ensures var o := Run(s, n); !o.Undefined? ==> o.s.core.mem[a] == s.core.mem[a]
  {
    HistoryExplainsRun(s, n);
    LastStoreWins(s.core.mem, History(s, n), a);
  }

  /** What a TRAP with code 2 prints, byte by byte. */
  lemma {:induction false} TrapPrints(mem: Memory, addr: word, n: nat, i: nat)
    requires TrapInBounds(addr, n) && i < n
    ensures |TrapBytes(mem, addr, n)| == n
    ensures TrapBytes(mem, addr, n)[i] == mem[TrapAddr(addr, i)] % 0x100
  {
    if i < n - 1 {
      TrapPrints(mem, addr, n - 1, i);
    } else if n > 1 {
      TrapPrints(mem, addr, n - 1, 0);
    }
  }

  /**
    Self-modifying code: a word that a STORE wrote is what the machine decodes and executes when the program
    counter reaches it, unless it was overwritten in between.
   */
  lemma StoredWordIsExecuted(s: State, s': State, n: nat, t: State, d: nibble, sa: nibble, disp: word)
    requires Fetch(s.core.mem, s.pc) == Decoded(RX(Store, d, sa, disp))
    requires Step(s) == Running(s') && Run(s', n) == Running(t)
    requires t.pc == Wrap(s.core.regs[sa] + disp) && !StoresTo(History(s', n), t.pc)
    ensures var second := if t.pc + 1 < MEM_WORDS then Some(t.core.mem[t.pc + 1]) else None;
      Fetch(t.core.mem, t.pc) == DecodeWord(s.core.regs[d], second)
  {
    hide Run, History, StoresTo;
    UnstoredWordsKeep(s', n, t.pc);
  }

  // ----- division -----

  lemma Euclid(x: int, y: int) returns (quotient: word, remainder: word, product: word)
    requires 0 <= x < 0x10000 && 0 < y < 0x10000
    ensures quotient == x / y && remainder == x % y < y
    ensures var q: int := quotient; product == q * y
    ensures var p: int := product; p + remainder == x
  {
    var q := x / y;
    assert x == q * y + x % y;
    if q > 0 {
      assert q * y >= q by { assert y >= 1; }
    }
    quotient, remainder, product := q, x % y, q * y;
  }

  lemma DivStep(s: State, q: nibble, a: nibble, b: nibble, quotient: word, remainder: word)
    requires s.pc < MEM_WORDS && Fetch(s.core.mem, s.pc) == Decoded(RRR(Div, q, a, b))
    requires s.core.regs[b] != 0 && q != 0 && q != 15
    requires quotient == s.core.regs[a] / s.core.regs[b] && remainder == s.core.regs[a] % s.core.regs[b]
    ensures Step(s) == Running(State(s.pc + 1, s.core.(regs := s.core.regs[q := quotient][15 := remainder])))
  {
  }

  lemma OpStep(s: State, op: RrrOp, d: nibble, a: nibble, b: nibble, v: word)
    requires s.pc < MEM_WORDS && Fetch(s.core.mem, s.pc) == Decoded(RRR(op, d, a, b)) && d != 0 && d != 15
    requires op.Add? || op.Mul?
    requires v == Alu(op, s.core.regs[a], s.core.regs[b])
    ensures var r := s.core.regs[d := v];
      Step(s) == Running(State(s.pc + 1, s.core.(regs := if op.Add? then r[15 := AddFlags(d)] else r)))
  {
  }

  lemma DivThenMul(s0: State, q: nibble, a: nibble, b: nibble, t: nibble) returns (s1: State, s2: State)
    requires s0.pc + 3 <= MEM_WORDS && s0.core.regs[b] != 0
    requires q != 0 && q != 15 && q != b && b != 15 && t != 0 && t != 15
    requires Fetch(s0.core.mem, s0.pc) == Decoded(RRR(Div, q, a, b))
    requires Fetch(s0.core.mem, s0.pc + 1) == Decoded(RRR(Mul, t, q, b))
    ensures Step(s0) == Running(s1) && Step(s1) == Running(s2)
    ensures s2.pc == s0.pc + 2 && s2.core.mem == s0.core.mem
    ensures var x: int, y: int, quotient: int, remainder: int, product: int :=
        s0.core.regs[a], s0.core.regs[b], s1.core.regs[q], s1.core.regs[15], s2.core.regs[t];
      && remainder < y && product == quotient * y && x == product + remainder && s2.core.regs[15] == remainder
  {
    hide Fetch, Exec;
    var quotient, remainder, product := Euclid(s0.core.regs[a], s0.core.regs[b]);
    DivStep(s0, q, a, b, quotient, remainder);
    s1 := State(s0.pc + 1, s0.core.(regs := s0.core.regs[q := quotient][15 := remainder]));
    OpStep(s1, Mul, t, q, b, product);
    s2 := State(s1.pc + 1, s1.core.(regs := s1.core.regs[t := product]));
  }

  /** The run DIV q,a,b; MUL t,q,b; ADD s,t,R15 rebuilds the dividend without overflow. */
  lemma DivisionRebuilds(s0: State, q: nibble, a: nibble, b: nibble, t: nibble, s: nibble)
    returns (s1: State, s2: State, s3: State)
    requires s0.pc + 3 <= MEM_WORDS && s0.core.regs[b] != 0
    requires q != 0 && q != 15 && q != b && b != 15 && t != 0 && t != 15 && s != 0 && s != 15
    requires Fetch(s0.core.mem, s0.pc) == Decoded(RRR(Div, q, a, b))
    requires Fetch(s0.core.mem, s0.pc + 1) == Decoded(RRR(Mul, t, q, b))
    requires Fetch(s0.core.mem, s0.pc + 2) == Decoded(RRR(Add, s, t, 15))
    ensures Step(s0) == Running(s1) && Step(s1) == Running(s2) && Step(s2) == Running(s3)
    ensures var x: int, y: int, quotient: int, remainder: int, product: int :=
        s0.core.regs[a], s0.core.regs[b], s1.core.regs[q], s1.core.regs[15], s2.core.regs[t];
      && remainder < y && product == quotient * y && x == product + remainder
      && s3.core.regs[s] == x
  {
    hide Fetch, Exec;
    s1, s2 := DivThenMul(s0, q, a, b, t);
    var x := s0.core.regs[a];
    OpStep(s2, Add, s, t, 15, x);
    s3 := State(s2.pc + 1, s2.core.(regs := s2.core.regs[s := x][15 := AddFlags(s)]));
  }

  /** Division by zero changes nothing but the program counter. */
  lemma DivisionByZero(s: State, q: nibble, a: nibble, b: nibble)
    requires Fetch(s.core.mem, s.pc) == Decoded(RRR(Div, q, a, b))
    requires s.core.regs[b] == 0
    ensures Step(s) == Running(s.(pc := s.pc + 1))
  {
  }
}
