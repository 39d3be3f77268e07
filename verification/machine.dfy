/**
 The target machine, as far as the macro library needs it: sixteen 32-bit
 registers (r0 is the program counter, r1 the stack pointer), a word memory,
 and the primitive instructions `add sub mult div and or copy load store zjump`.

 `Run` executes a block of consecutive lines starting at the address held in
 r0, one word per line. A control transfer that lands on a later line of the
 same block continues there; any other transfer leaves the block (`Exit`).
 Executing a data word, dividing by zero or a `copy` immediate wider than its
 24-bit field is a `Fault`.
 */
module Machine {
  import opened Wrappers
  import Text
  import Bits

  const WORD_LEN: nat := 4
  const HALFW_LEN: nat := 16
  const MODULUS: int := 0x1_0000_0000
  /** The `copy` instruction encodes its immediate in 24 bits. */
  const IMM_LIMIT: nat := 0x100_0000

  type Word = x: int | 0 <= x < 0x1_0000_0000
  type Reg = r: int | 0 <= r < 16

  const PC: Reg := 0
  const STACK_PTR: Reg := 1
  /** The four scratch registers `WS` the macros clobber: r7, r8, r9 and r10. */
  const WS0: Reg := 7
  const WS1: Reg := 8
  const WS2: Reg := 9
  const WS3: Reg := 10

  function RegName(r: Reg): string {
    "r" + Text.Dec(r)
  }

  datatype AluOp = Add | Sub | Mult | Div | And | Or

  function AluMnemonic(op: AluOp): string {
    match op
    case Add => "add"
    case Sub => "sub"
    case Mult => "mult"
    case Div => "div"
    case And => "and"
    case Or => "or"
  }

  /** A primitive instruction. `op a b d` sets `d := a op b`; `load a d` sets `d := mem[a]`; `store s a` sets `mem[a] := s`. */
  datatype Prim =
    | Alu(op: AluOp, a: Reg, b: Reg, d: Reg)
    | Copy(imm: nat, hex: bool, d: Reg)
    | Load(a: Reg, d: Reg)
    | Store(s: Reg, a: Reg)
    | ZJump(c: Reg, t: Reg)

  /** An instruction, or a bare label name that the assembler turns into the label's address. */
  datatype Body = Instr(p: Prim) | Data(name: string)

  /** One output line; `lab` is the label token including its colon, or empty. */
  datatype Line = Line(lab: string, body: Body)

  function PrimTokens(p: Prim): seq<string> {
    match p
    case Alu(op, a, b, d) => [AluMnemonic(op), RegName(a), RegName(b), RegName(d)]
    case Copy(imm, hex, d) => ["copy", if hex then "0x" + Text.Hex(imm) else Text.Dec(imm), RegName(d)]
    case Load(a, d) => ["load", RegName(a), RegName(d)]
    case Store(s, a) => ["store", RegName(s), RegName(a)]
    case ZJump(c, t) => ["zjump", RegName(c), RegName(t)]
  }

  function BodyTokens(b: Body): seq<string> {
    match b
    case Instr(p) => PrimTokens(p)
    case Data(name) => [name]
  }

  type Regs = s: seq<Word> | |s| == 16 witness seq(16, _ => 0)

  datatype State = State(regs: Regs, mem: map<Word, Word>)

  /** The word at address `a`; memory never written reads as zero. */
  function Read(mem: map<Word, Word>, a: Word): Word {
    if a in mem then mem[a] else 0
  }

  function AluValue(op: AluOp, x: Word, y: Word): Word
    requires op == Div ==> y != 0
  {
    match op
    case Add => (x + y) % MODULUS
    case Sub => (x - y) % MODULUS
    case Mult => (x * y) % MODULUS
    case Div => Quotient(x, y)
    case And => Bits.BitAnd(x, y)
    case Or => OrWord(x, y)
  }

  /** Division of words rounds down and stays a word. */
  function Quotient(x: Word, y: Word): (r: Word)
    requires y != 0
    ensures r == x / y
  {
    x / y
  }

  /** The bitwise or of two words is a word. */
  function OrWord(x: Word, y: Word): Word {
    Bits.Pow2Values();
    Bits.BitOrBound(x, y, 32);
    Bits.BitOr(x, y)
  }

  /** The address `n` words after `pc`. */
  function Advance(pc: Word, n: nat): Word {
    (pc + WORD_LEN * n) % MODULUS
  }

  /** Sets register `d` to `v`, then moves the program counter to the next word. */
  function Put(st: State, d: Reg, v: Word): State {
    var regs := st.regs[d := v];
    st.(regs := regs[PC := Advance(regs[PC], 1)])
  }

  /** The register an instruction writes besides the program counter, if any. */
  function Target(p: Prim): Option<Reg> {
    match p
    case Alu(_, _, _, d) => Some(d)
    case Copy(_, _, d) => Some(d)
    case Load(_, d) => Some(d)
    case _ => None
  }

  /** One instruction executed at the address held in r0. */
  function Exec(p: Prim, st: State): (r: Option<State>)
    ensures r.None? <==> (p.Alu? && p.op == Div && st.regs[p.b] == 0) || (p.Copy? && p.imm >= IMM_LIMIT)
    ensures r.Some? && !p.Store? ==> r.value.mem == st.mem
    ensures r.Some? ==> forall q: Reg :: q != PC && Target(p) != Some(q) ==> r.value.regs[q] == st.regs[q]
    ensures r.Some? && !p.ZJump? && Target(p) != Some(PC) ==> r.value.regs[PC] == Advance(st.regs[PC], 1)
    ensures r.Some? && p.ZJump? ==>
      r.value.regs[PC] == (if st.regs[p.c] == 0 then st.regs[p.t] else Advance(st.regs[PC], 1))
  {
    match p
    case Alu(op, a, b, d) =>
      if op == Div && st.regs[b] == 0 then None
      else Some(Put(st, d, AluValue(op, st.regs[a], st.regs[b])))
    case Copy(imm, _, d) =>
      if imm >= IMM_LIMIT then None else Some(Put(st, d, imm))
    case Load(a, d) => Some(Put(st, d, Read(st.mem, st.regs[a])))
    case Store(s, a) =>
      var st' := st.(mem := st.mem[st.regs[a] := st.regs[s]]);
      Some(st'.(regs := st'.regs[PC := Advance(st'.regs[PC], 1)]))
    case ZJump(c, t) =>
      if st.regs[c] == 0 then Some(st.(regs := st.regs[PC := st.regs[t]]))
      else Some(st.(regs := st.regs[PC := Advance(st.regs[PC], 1)]))
  }

  datatype Outcome = Done(st: State) | Exit(st: State) | Fault

  /**
   The line, counted from the transferring one, that a transfer from `pc` to
   `tgt` lands on in a block of `n` lines: a whole number of words forward,
   at most to the end of the block. None when control leaves the block.
   */
  function Landing(pc: Word, tgt: Word, n: nat): (k: Option<nat>)
    ensures k.Some? ==> 1 <= k.value <= n
  {
    var delta := (tgt - pc) % MODULUS;
    if delta % WORD_LEN == 0 && 1 <= delta / WORD_LEN <= n then Some(delta / WORD_LEN) else None
  }

  /** A transfer that lands inside a block lands on the same line of any longer block. */
  lemma LandingWider(pc: Word, tgt: Word, n: nat, m: nat)
    requires n <= m && Landing(pc, tgt, n).Some?
    ensures Landing(pc, tgt, m) == Landing(pc, tgt, n)
  {
  }

  /** Executes the block `code`, whose first line sits at the address in r0. */
  function Run(code: seq<Line>, st: State): Outcome
    decreases |code|
  {
    if code == [] then Done(st)
    else
      match code[0].body
      case Data(_) => Fault
      case Instr(p) =>
        match Exec(p, st)
        case None => Fault
        case Some(st') =>
          if st'.regs[PC] == Advance(st.regs[PC], 1) then Run(code[1..], st')
          else
            match Landing(st.regs[PC], st'.regs[PC], |code|)
            case Some(k) => Run(code[k..], st')
            case None => Exit(st')
  }

  /** An instruction that moves on to the next word continues with the next line. */
  lemma RunStep(code: seq<Line>, st: State)
    requires |code| >= 1 && code[0].body.Instr?
    requires Exec(code[0].body.p, st).Some?
    requires Exec(code[0].body.p, st).value.regs[PC] == Advance(st.regs[PC], 1)
    ensures Run(code, st) == Run(code[1..], Exec(code[0].body.p, st).value)
  {
  }

  /** Running two blocks one after the other: the first must finish by falling off its end. */
  lemma {:induction false} RunAppend(a: seq<Line>, b: seq<Line>, st: State)
    requires Run(a, st).Done?
    ensures Run(a + b, st) == Run(b, Run(a, st).st)
    decreases |a|, 2
  {
    if a == [] {
      assert a + b == b;
    } else {
      var st' := Exec(a[0].body.p, st).value;
      if st'.regs[PC] == Advance(st.regs[PC], 1) {
        RunAppendNext(a, b, st, st');
      } else {
        RunAppendJump(a, b, st, st');
      }
    }
  }

  lemma {:induction false} RunAppendNext(a: seq<Line>, b: seq<Line>, st: State, st': State)
    requires Run(a, st).Done? && a != [] && a[0].body.Instr? && Exec(a[0].body.p, st) == Some(st')
    requires st'.regs[PC] == Advance(st.regs[PC], 1)
    ensures Run(a + b, st) == Run(b, Run(a, st).st)
    decreases |a|, 1
  {
    var code := a + b;
    assert code[0] == a[0];
    assert code[1..] == a[1..] + b;
    assert Run(a, st) == Run(a[1..], st');
    assert Run(code, st) == Run(code[1..], st');
    RunAppend(a[1..], b, st');
  }

  lemma {:induction false} RunAppendJump(a: seq<Line>, b: seq<Line>, st: State, st': State)
    requires Run(a, st).Done? && a != [] && a[0].body.Instr? && Exec(a[0].body.p, st) == Some(st')
    requires st'.regs[PC] != Advance(st.regs[PC], 1)
    ensures Run(a + b, st) == Run(b, Run(a, st).st)
    decreases |a|, 1
  {
    hide Exec, Advance, Landing;
    var code := a + b;
    assert code[0] == a[0];
    var k := Landing(st.regs[PC], st'.regs[PC], |a|).value;
    LandingWider(st.regs[PC], st'.regs[PC], |a|, |code|);
    assert code[k..] == a[k..] + b;
    RunAppend(a[k..], b, st');
  }
}
