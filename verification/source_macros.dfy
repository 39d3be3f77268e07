/**
 The macro library exactly as the source writes it. Two builders differ from
 the Macros module, which the rest of the model uses:

 - `COPY b±k d` always puts `|k|` into `d` and then adds or subtracts the
   base, so it loses the base when `b` is `d` itself;
 - the ADD family always copies the first operand into the destination
   before the second into r9, so it loses the second operand when that reads
   the destination.

 Every other macro is built from these two, so the source's versions of all
 of them are spelled out here. `BuildAgrees` states when the source's code is
 the model's code.
 */
module SourceMacros {
  import opened Wrappers
  import Machine
  import Operands
  import Macros

  type Operand = Operands.Operand
  type Line = Machine.Line
  type Reg = Machine.Reg

  /** `COPY src d` as written: an offset is always built in `d` itself. */
  function CopyCode(src: Operand, d: Reg): seq<Line> {
    match src
    case RegOff(b, k) => Macros.CopyOffsetAsWritten(b, k, d)
    case _ => Macros.CopyCode(src, d)
  }

  /** `ADD a1 a2 d` and its kin as written: `a1` into `d`, `a2` into r9, `d := d op r9`. */
  function ArithCode(op: Machine.AluOp, a1: Operand, a2: Operand, d: Reg): seq<Line> {
    CopyCode(a1, d) + CopyCode(a2, Machine.WS2) + [Macros.Plain(Machine.Alu(op, d, Machine.WS2, d))]
  }

  function NotCode(a: Operand, d: Reg): seq<Line> {
    CopyCode(a, d)
    + ArithCode(Machine.Mult, Operands.Reg(d), Operands.Nat(Macros.ALL_ONES), d)
    + ArithCode(Machine.Sub, Operands.Reg(d), Operands.Nat(1), d)
  }

  function JumpCode(t: Operand): seq<Line> {
    CopyCode(t, Machine.WS2)
    + CopyCode(Operands.Nat(0), Machine.WS0)
    + [Macros.Plain(Machine.ZJump(Machine.WS0, Machine.WS2))]
  }

  function GJumpCode(a: Operand, b: Operand, t: Operand): seq<Line> {
    ArithCode(Machine.Sub, b, a, Machine.WS3)
    + ArithCode(Machine.Div, Operands.Reg(Machine.WS3), Operands.Nat(Macros.SIGN_DIVISOR), Machine.WS3)
    + ArithCode(Machine.Sub, Operands.Reg(Machine.WS3), Operands.Nat(1), Machine.WS3)
    + CopyCode(t, Machine.WS2)
    + [Macros.Plain(Machine.ZJump(Machine.WS3, Machine.WS2))]
  }

  function GEJumpCode(a: Operand, b: Operand, t: Operand): seq<Line> {
    ArithCode(Machine.Sub, a, b, Machine.WS3)
    + ArithCode(Machine.Div, Operands.Reg(Machine.WS3), Operands.Nat(Macros.SIGN_DIVISOR), Machine.WS3)
    + CopyCode(t, Machine.WS2)
    + [Macros.Plain(Machine.ZJump(Machine.WS3, Machine.WS2))]
  }

  function ZJumpCode(c: Operand, t: Operand): seq<Line> {
    CopyCode(c, Machine.WS2)
    + CopyCode(t, Machine.WS3)
    + [Macros.Plain(Machine.ZJump(Machine.WS2, Machine.WS3))]
  }

  function NZJumpCode(c: Operand, t: Operand, name: string): seq<Line> {
    CopyCode(c, Machine.WS2)
    + CopyCode(Operands.Label(name), Machine.WS3)
    + [Macros.Plain(Machine.ZJump(Machine.WS2, Machine.WS3))]
    + CopyCode(t, Machine.WS2)
    + JumpCode(Operands.Reg(Machine.WS2))
    + [Macros.LabelledNoth(name)]
  }

  function EJumpCode(a: Operand, b: Operand, t: Operand): seq<Line> {
    ArithCode(Machine.Sub, a, b, Machine.WS3)
    + CopyCode(t, Machine.WS2)
    + [Macros.Plain(Machine.ZJump(Machine.WS3, Machine.WS2))]
  }

  function NEJumpCode(a: Operand, b: Operand, t: Operand, name: string): seq<Line> {
    ArithCode(Machine.Sub, a, b, Machine.WS3)
    + CopyCode(Operands.Label(name), Machine.WS2)
    + [Macros.Plain(Machine.ZJump(Machine.WS3, Machine.WS2))]
    + CopyCode(t, Machine.WS3)
    + JumpCode(Operands.Reg(Machine.WS3))
    + [Macros.LabelledNoth(name)]
  }

  function LoadCode(a: Operand, d: Reg): seq<Line> {
    CopyCode(a, d) + [Macros.Plain(Machine.Load(d, d))]
  }

  function StoreCode(s: Operand, a: Operand): seq<Line> {
    CopyCode(s, Machine.WS2)
    + CopyCode(a, Machine.WS3)
    + [Macros.Plain(Machine.Store(Machine.WS2, Machine.WS3))]
  }

  function PushCode(a: Operand): seq<Line> {
    ArithCode(Machine.Sub, Operands.Reg(Machine.STACK_PTR), Operands.Nat(Machine.WORD_LEN), Machine.STACK_PTR)
    + StoreCode(a, Operands.Reg(Machine.STACK_PTR))
  }

  function PopCode(d: Reg): seq<Line> {
    LoadCode(Operands.Reg(Machine.STACK_PTR), d)
    + ArithCode(Machine.Add, Operands.Reg(Machine.STACK_PTR), Operands.Nat(Machine.WORD_LEN), Machine.STACK_PTR)
  }

  /** The source's code for a well-formed call, given the fresh label it may need. */
  function Build(m: Macros.Macro, args: seq<Option<Operand>>, name: string): seq<Line>
    requires Macros.WellFormed(m, args)
  {
    var a := seq(|args|, i requires 0 <= i < |args| => args[i].value);
    match m
    case Noth => Macros.NothCode()
    case Arith(op) => ArithCode(op, a[0], a[1], a[2].r)
    case Not => NotCode(a[0], a[1].r)
    case Jump => JumpCode(a[0])
    case GJump => GJumpCode(a[0], a[1], a[2])
    case GEJump => GEJumpCode(a[0], a[1], a[2])
    case LJump => GJumpCode(a[1], a[0], a[2])
    case LEJump => GEJumpCode(a[1], a[0], a[2])
    case ZJump => ZJumpCode(a[0], a[1])
    case NZJump => NZJumpCode(a[0], a[1], name)
    case EJump => EJumpCode(a[0], a[1], a[2])
    case NEJump => NEJumpCode(a[0], a[1], a[2], name)
    case Copy => CopyCode(a[0], a[1].r)
    case Load => LoadCode(a[0], a[1].r)
    case Store => StoreCode(a[0], a[1])
    case Push => PushCode(a[0])
    case Pop => PopCode(a[0].r)
  }

  // ---------------------------------------------------------------------------
  // When the source's code is the model's

  /** The operand is not an offset from the register it is copied into. */
  predicate OffsetApart(a: Operand, d: Reg) {
    !(a.RegOff? && a.base == d)
  }

  /** An ADD-family step whose copies cannot overwrite what a later copy reads. */
  predicate ArithApart(a1: Operand, a2: Operand, d: Reg) {
    OffsetApart(a1, d) && OffsetApart(a2, Machine.WS2) && !Macros.Reads(a2, d)
  }

  /** A compare-and-jump on `x - y` into r10, then the target into r9. */
  predicate CompareApart(x: Operand, y: Operand, t: Operand) {
    ArithApart(x, y, Machine.WS3) && OffsetApart(t, Machine.WS2)
  }

  /**
   The call makes no copy that overwrites a register a later copy of the same
   call still reads: no operand is an offset from the register it is copied
   into, and no second operand of an ADD-family step reads that step's
   destination.
   */
  predicate Unaliased(m: Macros.Macro, args: seq<Option<Operand>>)
    requires Macros.WellFormed(m, args)
  {
    var a := seq(|args|, i requires 0 <= i < |args| => args[i].value);
    match m
    case Noth => true
    case Arith(op) => ArithApart(a[0], a[1], a[2].r)
    case Not => OffsetApart(a[0], a[1].r)
    case Jump => OffsetApart(a[0], Machine.WS2)
    case GJump => CompareApart(a[1], a[0], a[2])
    case GEJump => CompareApart(a[0], a[1], a[2])
    case LJump => CompareApart(a[0], a[1], a[2])
    case LEJump => CompareApart(a[1], a[0], a[2])
    case ZJump => OffsetApart(a[0], Machine.WS2) && OffsetApart(a[1], Machine.WS3)
    case NZJump => OffsetApart(a[0], Machine.WS2) && OffsetApart(a[1], Machine.WS2)
    case EJump => CompareApart(a[0], a[1], a[2])
    case NEJump => ArithApart(a[0], a[1], Machine.WS3) && OffsetApart(a[2], Machine.WS3)
    case Copy => OffsetApart(a[0], a[1].r)
    case Load => OffsetApart(a[0], a[1].r)
    case Store => OffsetApart(a[0], Machine.WS2) && OffsetApart(a[1], Machine.WS3)
    case Push => OffsetApart(a[0], Machine.WS2)
    case Pop => true
  }

  /** A copy that is not an offset from its own destination is the same in both. */
  lemma CopyAgrees(a: Operand, d: Reg)
    requires OffsetApart(a, d)
    ensures CopyCode(a, d) == Macros.CopyCode(a, d)
  {
  }

  /** A register or number copies the same in both, into any register. */
  lemma PlainCopyAgrees(a: Operand, d: Reg)
    requires a.Reg? || a.Nat?
    ensures CopyCode(a, d) == Macros.CopyCode(a, d)
  {
  }

  /** An ADD-family step agrees when neither copy can clobber what the next one reads. */
  lemma ArithAgrees(op: Machine.AluOp, a1: Operand, a2: Operand, d: Reg)
    requires ArithApart(a1, a2, d)
    ensures ArithCode(op, a1, a2, d) == Macros.ArithCode(op, a1, a2, d)
  {
    CopyAgrees(a1, d);
    CopyAgrees(a2, Machine.WS2);
  }

  /** A step on a register and a number agrees whenever the number is not read as the register. */
  lemma RegNatAgrees(op: Machine.AluOp, r: Reg, v: nat, d: Reg)
    ensures ArithCode(op, Operands.Reg(r), Operands.Nat(v), d)
         == Macros.ArithCode(op, Operands.Reg(r), Operands.Nat(v), d)
  {
    ArithAgrees(op, Operands.Reg(r), Operands.Nat(v), d);
  }

  lemma JumpAgrees(t: Operand)
    requires OffsetApart(t, Machine.WS2)
    ensures JumpCode(t) == Macros.JumpCode(t)
  {
    CopyAgrees(t, Machine.WS2);
    PlainCopyAgrees(Operands.Nat(0), Machine.WS0);
  }

  lemma GJumpAgrees(a: Operand, b: Operand, t: Operand)
    requires CompareApart(b, a, t)
    ensures GJumpCode(a, b, t) == Macros.GJumpCode(a, b, t)
  {
    ArithAgrees(Machine.Sub, b, a, Machine.WS3);
    RegNatAgrees(Machine.Div, Machine.WS3, Macros.SIGN_DIVISOR, Machine.WS3);
    RegNatAgrees(Machine.Sub, Machine.WS3, 1, Machine.WS3);
    CopyAgrees(t, Machine.WS2);
  }

  lemma GEJumpAgrees(a: Operand, b: Operand, t: Operand)
    requires CompareApart(a, b, t)
    ensures GEJumpCode(a, b, t) == Macros.GEJumpCode(a, b, t)
  {
    ArithAgrees(Machine.Sub, a, b, Machine.WS3);
    RegNatAgrees(Machine.Div, Machine.WS3, Macros.SIGN_DIVISOR, Machine.WS3);
    CopyAgrees(t, Machine.WS2);
  }

  lemma NZJumpAgrees(c: Operand, t: Operand, name: string)
    requires OffsetApart(c, Machine.WS2) && OffsetApart(t, Machine.WS2)
    ensures NZJumpCode(c, t, name) == Macros.NZJumpCode(c, t, name)
  {
    CopyAgrees(c, Machine.WS2);
    CopyAgrees(t, Machine.WS2);
    JumpAgrees(Operands.Reg(Machine.WS2));
  }

  lemma NEJumpAgrees(a: Operand, b: Operand, t: Operand, name: string)
    requires ArithApart(a, b, Machine.WS3) && OffsetApart(t, Machine.WS3)
    ensures NEJumpCode(a, b, t, name) == Macros.NEJumpCode(a, b, t, name)
  {
    ArithAgrees(Machine.Sub, a, b, Machine.WS3);
    CopyAgrees(t, Machine.WS3);
    JumpAgrees(Operands.Reg(Machine.WS3));
  }

  /**
   The source's code for a call is the model's code whenever the call is
   unaliased: the two corrections only ever change a call that makes a copy
   clobbering a register a later copy reads.
   */
  lemma BuildAgrees(m: Macros.Macro, args: seq<Option<Operand>>, name: string)
    requires Macros.WellFormed(m, args) && Unaliased(m, args)
    ensures Build(m, args, name) == Macros.Build(m, args, name)
  {
    var a := seq(|args|, i requires 0 <= i < |args| => args[i].value);
    match m {
      case Noth =>
      case Arith(op) => ArithAgrees(op, a[0], a[1], a[2].r);
      case Not =>
        CopyAgrees(a[0], a[1].r);
        RegNatAgrees(Machine.Mult, a[1].r, Macros.ALL_ONES, a[1].r);
        RegNatAgrees(Machine.Sub, a[1].r, 1, a[1].r);
      case Jump => JumpAgrees(a[0]);
      case GJump => GJumpAgrees(a[0], a[1], a[2]);
      case GEJump => GEJumpAgrees(a[0], a[1], a[2]);
      case LJump => GJumpAgrees(a[1], a[0], a[2]);
      case LEJump => GEJumpAgrees(a[1], a[0], a[2]);
      case ZJump =>
        CopyAgrees(a[0], Machine.WS2);
        CopyAgrees(a[1], Machine.WS3);
      case NZJump => NZJumpAgrees(a[0], a[1], name);
      case EJump =>
        ArithAgrees(Machine.Sub, a[0], a[1], Machine.WS3);
        CopyAgrees(a[2], Machine.WS2);
      case NEJump => NEJumpAgrees(a[0], a[1], a[2], name);
      case Copy => CopyAgrees(a[0], a[1].r);
      case Load => CopyAgrees(a[0], a[1].r);
      case Store =>
        CopyAgrees(a[0], Machine.WS2);
        CopyAgrees(a[1], Machine.WS3);
      case Push =>
        RegNatAgrees(Machine.Sub, Machine.STACK_PTR, Machine.WORD_LEN, Machine.STACK_PTR);
        CopyAgrees(a[0], Machine.WS2);
        PlainCopyAgrees(Operands.Reg(Machine.STACK_PTR), Machine.WS3);
      case Pop =>
        PlainCopyAgrees(Operands.Reg(Machine.STACK_PTR), a[0].r);
        RegNatAgrees(Machine.Add, Machine.STACK_PTR, Machine.WORD_LEN, Machine.STACK_PTR);
    }
  }

  /**
   `GJUMP r10 r2 t` is aliased: the source's code starts by copying r2 into
   r10 and only then reads r10 into r9, so it subtracts r2 from itself and
   the test never jumps; the model's code reads r10 into r9 first.
   */
  lemma AliasedCompareAsWritten(t: Operand)
    ensures !Unaliased(Macros.GJump, [Some(Operands.Reg(10)), Some(Operands.Reg(2)), Some(t)])
    ensures GJumpCode(Operands.Reg(10), Operands.Reg(2), t)[..3]
            == Macros.ArithCodeAsWritten(Machine.Sub, Operands.Reg(2), Operands.Reg(10), Machine.WS3)
    ensures GJumpCode(Operands.Reg(10), Operands.Reg(2), t)[0] == Macros.Plain(Machine.Alu(Machine.And, 2, 2, 10))
    ensures Macros.GJumpCode(Operands.Reg(10), Operands.Reg(2), t)[0] == Macros.Plain(Machine.Alu(Machine.And, 10, 10, 9))
  {
    hide Macros.CopyLabelCode, Macros.CopyNatCode, Macros.CopyOffsetCode;
    var a, b := Operands.Reg(10), Operands.Reg(2);
    assert Macros.WellFormed(Macros.GJump, [Some(a), Some(b), Some(t)]);
    var head := ArithCode(Machine.Sub, b, a, Machine.WS3);
    assert head == [Macros.Plain(Machine.Alu(Machine.And, 2, 2, 10)), Macros.Plain(Machine.Alu(Machine.And, 10, 10, 9)),
                    Macros.Plain(Machine.Alu(Machine.Sub, 10, 9, 10))];
    assert GJumpCode(a, b, t)[..3] == head;
  }
}
