/**
 * An abstraction of the LLVM objects the core touches: the four types the
 * language uses, values as symbolic trees, and the opcode and predicate
 * table the code generator selects from.
 */
module Ir {
  import opened Wrappers
  import opened Ast

  /** i64, double, i1 and void. */
  datatype IrType = Int64 | Double | Int1 | Void

  /** The type names the language knows. */
  const TypeNames: set<string> := {"int", "double", "bool"}

  /** The IR type a type name denotes; every unknown name denotes void. */
  function TypeOf(name: string): (t: IrType)
    ensures t == Void <==> name !in TypeNames
  {
    if name == "int" then Int64
    else if name == "double" then Double
    else if name == "bool" then Int1
    else Void
  }

  /** The name that denotes a non-void type: TypeOf's inverse. */
  function TypeName(t: IrType): (name: string)
    requires t != Void
    ensures name in TypeNames && TypeOf(name) == t
  {
    match t
    case Int64 => "int"
    case Double => "double"
    case Int1 => "bool"
  }

  /** Binary instruction opcodes; `UndefinedOpcode` stands for an uninitialized opcode variable. */
  datatype Opcode = Add | Sub | Mul | SDiv | UndefinedOpcode

  /** The two compare instructions. */
  datatype CmpKind = FCmp | ICmp

  /** Compare predicates: unordered floating-point ones and signed integer ones. */
  datatype Predicate =
    | FcmpUeq | FcmpUne | FcmpUlt | FcmpUle | FcmpUgt | FcmpUge
    | IcmpEq | IcmpNe | IcmpSlt | IcmpSle | IcmpSgt | IcmpSge
  {
    predicate IsFloat() { FcmpUeq? || FcmpUne? || FcmpUlt? || FcmpUle? || FcmpUgt? || FcmpUge? }
  }

  /**
   * An LLVM value, as the tree of the instructions and constants it is
   * built from. Blocks are numbered in creation order; an alloca carries the
   * position of its instruction in the emitted trace, so that two slots of
   * the same name and type stay distinct.
   */
  datatype Value =
    | ConstInt(width: nat, v: int)
    | ConstBool(b: bool)
    | ConstDouble
    | Alloca(id: nat, ty: IrType, name: string)
    | Load(ptr: Value)
    | Store(val: Value, ptr: Value)
    | BinOp(opcode: Opcode, lhs: Value, rhs: Value)
    | Cmp(kind: CmpKind, pred: Predicate, lhs: Value, rhs: Value)
    | CondBr(cond: Value, ifTrue: nat, ifFalse: nat)
    | Br(target: nat)
    | Ret(val: Value)

  /** The first-class type of a value, when it is one of the four language types. */
  function ValueType(v: Value): Option<IrType>
  {
    match v
    case ConstInt(w, _) => if w == 64 then Some(Int64) else None
    case ConstBool(_) => Some(Int1)
    case ConstDouble => Some(Double)
    case Load(p) => if p.Alloca? then Some(p.ty) else None
    case BinOp(_, l, _) => ValueType(l)
    case Cmp(_, _, _, _) => Some(Int1)
    case _ => None
  }

  /** The arithmetic operator an opcode computes. */
  function OpOfOpcode(c: Opcode): Option<Op>
  {
    match c
    case Add => Some(TPlus)
    case Sub => Some(TMinus)
    case Mul => Some(TMul)
    case SDiv => Some(TDiv)
    case UndefinedOpcode => None
  }

  /** The comparison a predicate tests. */
  function OpOfPredicate(p: Predicate): (op: Op)
    ensures op.IsComparison()
  {
    match p
    case FcmpUeq => TCeq case FcmpUne => TCne case FcmpUlt => TClt
    case FcmpUle => TCle case FcmpUgt => TCgt case FcmpUge => TCge
    case IcmpEq => TCeq case IcmpNe => TCne case IcmpSlt => TClt
    case IcmpSle => TCle case IcmpSgt => TCgt case IcmpSge => TCge
  }

  /** The binary instruction for an arithmetic operator: + - * / become add, sub, mul, sdiv. */
  function ArithOpcode(op: Op): (c: Opcode)
    requires op.IsArithmetic()
    ensures OpOfOpcode(c) == Some(op)
  {
    match op
    case TPlus => Add
    case TMinus => Sub
    case TMul => Mul
    case TDiv => SDiv
  }

  /**
   * The predicate for a comparison: an unordered floating-point predicate
   * when the operands are doubles, a signed integer one otherwise.
   */
  function ComparePredicate(op: Op, isDouble: bool): (p: Predicate)
    requires op.IsComparison()
    ensures OpOfPredicate(p) == op
    ensures p.IsFloat() == isDouble
  {
    if isDouble then
      match op
      case TCeq => FcmpUeq case TCne => FcmpUne case TClt => FcmpUlt
      case TCle => FcmpUle case TCgt => FcmpUgt case TCge => FcmpUge
    else
      match op
      case TCeq => IcmpEq case TCne => IcmpNe case TClt => IcmpSlt
      case TCle => IcmpSle case TCgt => IcmpSgt case TCge => IcmpSge
  }

  /** The compare instruction that goes with the operand kind. */
  function CompareKind(isDouble: bool): CmpKind
  {
    if isDouble then FCmp else ICmp
  }
}
