/**
 The macro library: what each pseudo-instruction expands to. Every macro is
 lowered to primitive instructions that use only registers, with the four
 scratch registers r7..r10 as temporaries:

 - `COPY src d` materialises an operand in register `d`: a register by
   `and r r d`, a number by building it from two half-words, a register with
   offset by a number followed by `add`/`sub`, a label by reading the label's
   address from a data word placed in the code itself and jumping over it;
 - the arithmetic and logic macros copy both operands into registers and apply
   the primitive;
 - the jump family computes a condition and a target and ends in `zjump`;
 - `PUSH`/`POP` move the stack pointer r1 by one word around a store/load.

 Two builders differ from the source: `CopyOffsetCode` when the base register
 is the destination, and `ArithCode` when the second operand reads the
 destination. The source's versions are kept as `CopyOffsetAsWritten` and
 `ArithCodeAsWritten`; see the Semantics module for why.
 */
module Macros {
  import opened Wrappers
  import Machine
  import Operands
  import Labels
  import Bits

  type Operand = Operands.Operand
  type Line = Machine.Line
  type Reg = Machine.Reg

  datatype Macro =
    | Noth
    | Arith(op: Machine.AluOp)
    | Not
    | Jump
    | GJump
    | GEJump
    | LJump
    | LEJump
    | ZJump
    | NZJump
    | EJump
    | NEJump
    | Copy
    | Load
    | Store
    | Push
    | Pop

  /** The name a program uses for the macro. */
  function Name(m: Macro): string {
    match m
    case Noth => "NOTH"
    case Arith(op) =>
      (match op
       case Add => "ADD"
       case Sub => "SUB"
       case Mult => "MULT"
       case Div => "DIV"
       case And => "AND"
       case Or => "OR")
    case Not => "NOT"
    case Jump => "JUMP"
    case GJump => "GJUMP"
    case GEJump => "GEJUMP"
    case LJump => "LJUMP"
    case LEJump => "LEJUMP"
    case ZJump => "ZJUMP"
    case NZJump => "NZJUMP"
    case EJump => "EJUMP"
    case NEJump => "NEJUMP"
    case Copy => "COPY"
    case Load => "LOAD"
    case Store => "STORE"
    case Push => "PUSH"
    case Pop => "POP"
  }

  /** The macro a command word names, if any. */
  function Lookup(s: string): (r: Option<Macro>)
    ensures r.Some? ==> Name(r.value) == s
  {
    if s == "NOTH" then Some(Noth)
    else if s == "ADD" then Some(Arith(Machine.Add))
    else if s == "SUB" then Some(Arith(Machine.Sub))
    else if s == "MULT" then Some(Arith(Machine.Mult))
    else if s == "DIV" then Some(Arith(Machine.Div))
    else if s == "AND" then Some(Arith(Machine.And))
    else if s == "OR" then Some(Arith(Machine.Or))
    else if s == "NOT" then Some(Not)
    else if s == "JUMP" then Some(Jump)
    else if s == "GJUMP" then Some(GJump)
    else if s == "GEJUMP" then Some(GEJump)
    else if s == "LJUMP" then Some(LJump)
    else if s == "LEJUMP" then Some(LEJump)
    else if s == "ZJUMP" then Some(ZJump)
    else if s == "NZJUMP" then Some(NZJump)
    else if s == "EJUMP" then Some(EJump)
    else if s == "NEJUMP" then Some(NEJump)
    else if s == "COPY" then Some(Copy)
    else if s == "LOAD" then Some(Load)
    else if s == "STORE" then Some(Store)
    else if s == "PUSH" then Some(Push)
    else if s == "POP" then Some(Pop)
    else None
  }

  /** Looking a macro up by its name finds it. */
  lemma LookupName(m: Macro)
    ensures Lookup(Name(m)) == Some(m)
  {
    match m {
      case Arith(op) =>
        match op {
          case Add =>
          case Sub =>
          case Mult =>
          case Div =>
          case And =>
          case Or =>
        }
      case _ =>
    }
  }

  /** A command word finds exactly the macro it names. */
  lemma LookupOnlyName(s: string, m: Macro)
    ensures Lookup(s) == Some(m) <==> s == Name(m)
  {
    LookupName(m);
  }

  /**
   The upper-case module constants. A command word equal to one of them is
   found among the module's names but is not a macro; using it as one fails.
   */
  const CONSTANT_NAMES: set<string> :=
    {"REG", "NAT", "R_AND_N", "LABEL", "WS", "STACK_BASE", "STACK_PTR",
     "SECT_LEN", "FUNC_LEN", "HALFW_LEN", "WORD_LEN", "HEXDEC"}

  lemma ConstantsAreNotMacros(s: string)
    requires s in CONSTANT_NAMES
    ensures Lookup(s).None?
  {
  }

  /** The number of operands a macro takes. */
  function Arity(m: Macro): nat {
    match m
    case Noth => 0
    case Jump | Push | Pop => 1
    case Not | ZJump | NZJump | Copy | Load | Store => 2
    case _ => 3
  }

  /** The operand position a macro writes its result to, for the macros that have one. */
  function DestIndex(m: Macro): Option<nat> {
    match m
    case Arith(_) => Some(2)
    case Not | Copy | Load => Some(1)
    case Pop => Some(0)
    case _ => None
  }

  /** The divisor that brings the sign bit of a word down to bit 0: `1 << 31`. */
  const SIGN_DIVISOR: nat := 0x8000_0000
  const HALF_MODULUS: nat := 0x1_0000
  const ALL_ONES: nat := 0xffff_ffff

  function Plain(p: Machine.Prim): Line {
    Machine.Line("", Machine.Instr(p))
  }

  /** `NOTH` is `and r1 r1 r1`. */
  const NOTH_PRIM: Machine.Prim := Machine.Alu(Machine.And, 1, 1, 1)

  function NothCode(): seq<Line> {
    [Plain(NOTH_PRIM)]
  }

  /** The instruction that ends a jump macro and carries its fresh label. */
  function LabelledNoth(name: string): Line {
    Machine.Line(name + ":", Machine.Instr(NOTH_PRIM))
  }

  function Lsb(v: nat): nat {
    Bits.BitAnd(v, HALF_MODULUS - 1)
  }

  function Msb(v: nat): nat {
    v / HALF_MODULUS
  }

  /** `d := d op (v >> 16) * 2^16`, through r7 and r8: the high half of a literal. */
  function HighHalfCode(op: Machine.AluOp, v: nat, d: Reg): seq<Line> {
    [Plain(Machine.Copy(Msb(v), false, Machine.WS0)),
     Plain(Machine.Copy(HALF_MODULUS, false, Machine.WS1)),
     Plain(Machine.Alu(Machine.Mult, Machine.WS0, Machine.WS1, Machine.WS0)),
     Plain(Machine.Alu(op, d, Machine.WS0, d))]
  }

  /** `COPY n d`: low half into `d`, high half times 2^16 added on through r7 and r8. */
  function CopyNatCode(v: nat, d: Reg): seq<Line> {
    [Plain(Machine.Copy(Lsb(v), false, d))] + HighHalfCode(Machine.Add, v, d)
  }

  function Magnitude(k: int): nat {
    if k >= 0 then k else -k
  }

  function OffsetOp(k: int): Machine.AluOp {
    if k >= 0 then Machine.Add else Machine.Sub
  }

  /** `COPY b±k d` as the source writes it: `|k|` into `d`, then `d := b ± d`. */
  function CopyOffsetAsWritten(b: Reg, k: int, d: Reg): seq<Line> {
    CopyNatCode(Magnitude(k), d) + [Plain(Machine.Alu(OffsetOp(k), b, d, d))]
  }

  /** `d := d ± |k|` in place, adding the two halves of `|k|` one after the other. */
  function OffsetInPlaceCode(k: int, d: Reg): seq<Line> {
    var v := Magnitude(k);
    [Plain(Machine.Copy(Lsb(v), false, Machine.WS1)),
     Plain(Machine.Alu(OffsetOp(k), d, Machine.WS1, d))]
    + HighHalfCode(OffsetOp(k), v, d)
  }

  /** `COPY b±k d`: the source's code, except in place when `b` is `d` itself. */
  function CopyOffsetCode(b: Reg, k: int, d: Reg): seq<Line> {
    if b == d then OffsetInPlaceCode(k, d) else CopyOffsetAsWritten(b, k, d)
  }

  /**
   `COPY label d`: `d` gets the address of the copy's first line; r7 and r8 point
   at the data word eight lines on and the line after it; `d` is loaded from the
   data word and the jump skips it.
   */
  function CopyLabelCode(name: string, d: Reg): seq<Line> {
    [Plain(Machine.Alu(Machine.And, Machine.PC, Machine.PC, d)),
     Plain(Machine.Copy(0x20, true, Machine.WS0)),
     Plain(Machine.Copy(0x4, true, Machine.WS1)),
     Plain(Machine.Alu(Machine.Add, d, Machine.WS0, Machine.WS0)),
     Plain(Machine.Alu(Machine.Add, Machine.WS0, Machine.WS1, Machine.WS1)),
     Plain(Machine.Load(Machine.WS0, d)),
     Plain(Machine.Copy(0x0, true, Machine.WS0)),
     Plain(Machine.ZJump(Machine.WS0, Machine.WS1)),
     Machine.Line("", Machine.Data(name))]
  }

  function CopyCode(src: Operand, d: Reg): seq<Line> {
    match src
    case Reg(r) => [Plain(Machine.Alu(Machine.And, r, r, d))]
    case Nat(v) => CopyNatCode(v, d)
    case RegOff(b, k) => CopyOffsetCode(b, k, d)
    case Label(name) => CopyLabelCode(name, d)
  }

  /** Whether evaluating the operand reads register `r`. */
  predicate Reads(a: Operand, r: Reg) {
    (a.Reg? && a.r == r) || (a.RegOff? && a.base == r)
  }

  /** `ADD a1 a2 d` and its kin as the source writes them: `a1` into `d`, `a2` into r9, `d := d op r9`. */
  function ArithCodeAsWritten(op: Machine.AluOp, a1: Operand, a2: Operand, d: Reg): seq<Line> {
    CopyCode(a1, d) + CopyCode(a2, Machine.WS2) + [Plain(Machine.Alu(op, d, Machine.WS2, d))]
  }

  /** The source's code, except that `a2` goes into r9 first when it reads `d`. */
  function ArithCode(op: Machine.AluOp, a1: Operand, a2: Operand, d: Reg): seq<Line> {
    if Reads(a2, d) then
      CopyCode(a2, Machine.WS2) + CopyCode(a1, d) + [Plain(Machine.Alu(op, d, Machine.WS2, d))]
    else ArithCodeAsWritten(op, a1, a2, d)
  }

  /** `NOT a d`: `d := a * 0xffffffff - 1`, the complement under 32-bit wrap-around. */
  function NotCode(a: Operand, d: Reg): seq<Line> {
    CopyCode(a, d)
    + ArithCode(Machine.Mult, Operands.Reg(d), Operands.Nat(ALL_ONES), d)
    + ArithCode(Machine.Sub, Operands.Reg(d), Operands.Nat(1), d)
  }

  /** `JUMP t`: target into r9, zero into r7, `zjump r7 r9`. */
  function JumpCode(t: Operand): seq<Line> {
    CopyCode(t, Machine.WS2)
    + CopyCode(Operands.Nat(0), Machine.WS0)
    + [Plain(Machine.ZJump(Machine.WS0, Machine.WS2))]
  }

  /** `GJUMP a b t`: r10 := (b - a) / 2^31 - 1, which is zero when the difference has its sign bit set. */
  function GJumpCode(a: Operand, b: Operand, t: Operand): seq<Line> {
    ArithCode(Machine.Sub, b, a, Machine.WS3)
    + ArithCode(Machine.Div, Operands.Reg(Machine.WS3), Operands.Nat(SIGN_DIVISOR), Machine.WS3)
    + ArithCode(Machine.Sub, Operands.Reg(Machine.WS3), Operands.Nat(1), Machine.WS3)
    + CopyCode(t, Machine.WS2)
    + [Plain(Machine.ZJump(Machine.WS3, Machine.WS2))]
  }

  /** `GEJUMP a b t`: r10 := (a - b) / 2^31, which is zero when the difference has its sign bit clear. */
  function GEJumpCode(a: Operand, b: Operand, t: Operand): seq<Line> {
    ArithCode(Machine.Sub, a, b, Machine.WS3)
    + ArithCode(Machine.Div, Operands.Reg(Machine.WS3), Operands.Nat(SIGN_DIVISOR), Machine.WS3)
    + CopyCode(t, Machine.WS2)
    + [Plain(Machine.ZJump(Machine.WS3, Machine.WS2))]
  }

  /** `ZJUMP c t`: jump to `t` when `c` is zero. */
  function ZJumpCode(c: Operand, t: Operand): seq<Line> {
    CopyCode(c, Machine.WS2)
    + CopyCode(t, Machine.WS3)
    + [Plain(Machine.ZJump(Machine.WS2, Machine.WS3))]
  }

  /** `NZJUMP c t`: when `c` is zero skip to the fresh label `name`, otherwise jump to `t`. */
  function NZJumpCode(c: Operand, t: Operand, name: string): seq<Line> {
    CopyCode(c, Machine.WS2)
    + CopyCode(Operands.Label(name), Machine.WS3)
    + [Plain(Machine.ZJump(Machine.WS2, Machine.WS3))]
    + CopyCode(t, Machine.WS2)
    + JumpCode(Operands.Reg(Machine.WS2))
    + [LabelledNoth(name)]
  }

  /** `EJUMP a b t`: r10 := a - b, jump to `t` when it is zero. */
  function EJumpCode(a: Operand, b: Operand, t: Operand): seq<Line> {
    ArithCode(Machine.Sub, a, b, Machine.WS3)
    + CopyCode(t, Machine.WS2)
    + [Plain(Machine.ZJump(Machine.WS3, Machine.WS2))]
  }

  /** `NEJUMP a b t`: when `a - b` is zero skip to the fresh label `name`, otherwise jump to `t`. */
  function NEJumpCode(a: Operand, b: Operand, t: Operand, name: string): seq<Line> {
    ArithCode(Machine.Sub, a, b, Machine.WS3)
    + CopyCode(Operands.Label(name), Machine.WS2)
    + [Plain(Machine.ZJump(Machine.WS3, Machine.WS2))]
    + CopyCode(t, Machine.WS3)
    + JumpCode(Operands.Reg(Machine.WS3))
    + [LabelledNoth(name)]
  }

  /** `LOAD a d`: the address into `d`, then `load d d`. */
  function LoadCode(a: Operand, d: Reg): seq<Line> {
    CopyCode(a, d) + [Plain(Machine.Load(d, d))]
  }

  /** `STORE s a`: the value into r9, the address into r10, then `store r9 r10`. */
  function StoreCode(s: Operand, a: Operand): seq<Line> {
    CopyCode(s, Machine.WS2)
    + CopyCode(a, Machine.WS3)
    + [Plain(Machine.Store(Machine.WS2, Machine.WS3))]
  }

  /** `PUSH a`: r1 := r1 - 4, then `STORE a r1`. */
  function PushCode(a: Operand): seq<Line> {
    ArithCode(Machine.Sub, Operands.Reg(Machine.STACK_PTR), Operands.Nat(Machine.WORD_LEN), Machine.STACK_PTR)
    + StoreCode(a, Operands.Reg(Machine.STACK_PTR))
  }

  /** `POP d`: `LOAD r1 d`, then r1 := r1 + 4. */
  function PopCode(d: Reg): seq<Line> {
    LoadCode(Operands.Reg(Machine.STACK_PTR), d)
    + ArithCode(Machine.Add, Operands.Reg(Machine.STACK_PTR), Operands.Nat(Machine.WORD_LEN), Machine.STACK_PTR)
  }

  /** Why a macro call cannot be expanded. */
  datatype Error =
    | WrongArity(m: Macro)
    | Unparsed(m: Macro)
    | NotARegister(m: Macro)

  /** The operand list is complete and every destination position holds a register. */
  predicate WellFormed(m: Macro, args: seq<Option<Operand>>) {
    && |args| == Arity(m)
    && (forall i :: 0 <= i < |args| ==> args[i].Some?)
    && (DestIndex(m).Some? ==> DestIndex(m).value < |args| && args[DestIndex(m).value].Some?
                                && args[DestIndex(m).value].value.Reg?)
  }

  /** Whether the macro takes a fresh label. */
  predicate NeedsLabel(m: Macro) {
    m == NZJump || m == NEJump
  }

  /** The code of a well-formed call, given the fresh label it may need. */
  function Build(m: Macro, args: seq<Option<Operand>>, name: string): seq<Line>
    requires WellFormed(m, args)
  {
    var a := seq(|args|, i requires 0 <= i < |args| => args[i].value);
    match m
    case Noth => NothCode()
    case Arith(op) => ArithCode(op, a[0], a[1], a[2].r)
    case Not => NotCode(a[0], a[1].r)
    case Jump => JumpCode(a[0])
    case GJump => GJumpCode(a[0], a[1], a[2])
    case GEJump => GEJumpCode(a[0], a[1], a[2])
    case LJump => GJumpCode(a[1], a[0], a[2])
    case LEJump => GEJumpCode(a[1], a[0], a[2])
    case ZJump => ZJumpCode(a[0], a[1])
    case NZJump => NZJumpCode(a[0], a[1], name)
    case EJump => EJumpCode(a[0], a[1], a[2])
    case NEJump => NEJumpCode(a[0], a[1], a[2], name)
    case Copy => CopyCode(a[0], a[1].r)
    case Load => LoadCode(a[0], a[1].r)
    case Store => StoreCode(a[0], a[1])
    case Push => PushCode(a[0])
    case Pop => PopCode(a[0].r)
  }

  /**
   One macro call: its code and the label state after it. A call with the wrong
   number of operands, an operand that did not parse, or a destination that is
   not a register is an error; only the two negated jumps take a fresh label.
   */
  function Expand(m: Macro, args: seq<Option<Operand>>, st: Labels.LabelState)
    : (r: Result<(seq<Line>, Labels.LabelState), Error>)
    ensures r.Ok? <==> WellFormed(m, args)
    ensures r.Ok? && !NeedsLabel(m) ==> r.value.1 == st
    ensures r.Ok? && NeedsLabel(m) ==>
      var (name, st') := Labels.NewLabel(st);
      && r.value.1 == st'
      && name !in st.used
      && |r.value.0| >= 1
      && r.value.0[|r.value.0| - 1] == LabelledNoth(name)
  {
    if |args| != Arity(m) then Err(WrongArity(m))
    else if exists i :: 0 <= i < |args| && args[i].None? then Err(Unparsed(m))
    else if !WellFormed(m, args) then Err(NotARegister(m))
    else if NeedsLabel(m) then
      var (name, st') := Labels.NewLabel(st);
      Ok((Build(m, args, name), st'))
    else Ok((Build(m, args, ""), st))
  }
}
