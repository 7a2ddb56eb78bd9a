/** Instruction selection and type lowering of the LLVM node visitor: which
    LLVM instruction each program-graph value node becomes, chosen from the
    node's frontend type (floating, signed integer, or anything else), and
    which LLVM type each frontend type becomes. */
module LLVMSelection {
  import opened Wrappers
  import opened JavaInt
  import opened LLVMBlocks

  /** Frontend types. Integer and float sizes are the `long` byte sizes the
      types report; every other type kind is `OtherType`. */
  datatype NodeType =
    | VoidType
    | BooleanType
    | SignedIntegerType(size: int64)
    | UnsignedIntegerType(size: int64)
    | FloatType(size: int64)
    | ReferenceType(refId: nat)
    | OtherType(otherId: nat)

  /** `isFloating(type)`. */
  predicate IsFloating(t: NodeType) {
    t.FloatType?
  }

  /** `isSigned(type)`. */
  predicate IsSigned(t: NodeType) {
    t.SignedIntegerType?
  }

  /** The LLVM types the visitor uses. */
  datatype LType = Void | I1 | I8 | I16 | I32 | I64 | Float32 | Float64 | PtrToI8

  /** Why lowering a type throws: a width `Assert.unreachableCode()` rejects,
      or a type kind that raises IllegalStateException. */
  datatype TypeError = UnreachableWidth | UnsupportedType

  /** The bit width of an integer LLVM type. */
  function IntegerBits(lt: LType): nat {
    match lt
    case I1 => 1
    case I8 => 8
    case I16 => 16
    case I32 => 32
    case I64 => 64
    case _ => 0
  }

  /** The integer LLVM type of a byte width, after the source's `(int)` cast of the size. */
  function IntegerOfBytes(size: int64): (r: Result<LType, TypeError>)
    ensures r.Success? <==> IntCast(size) in {1, 2, 4, 8}
    ensures r.Success? ==> IntegerBits(r.value) == 8 * IntCast(size) as int
    ensures r.Failure? ==> r.error == UnreachableWidth
  {
    var bytes := IntCast(size);
    if bytes == 1 then Success(I8)
    else if bytes == 2 then Success(I16)
    else if bytes == 4 then Success(I32)
    else if bytes == 8 then Success(I64)
    else Failure(UnreachableWidth)
  }

  /** `map(Type)` without its cache: void, `i1` for boolean, an integer type
      of the byte width whatever the signedness, `float`/`double` for 4- and
      8-byte floats, `i8*` for references; other widths and other kinds fail. */
  function LowerType(t: NodeType): Result<LType, TypeError> {
    match t
    case VoidType => Success(Void)
    case BooleanType => Success(I1)
    case SignedIntegerType(size) => IntegerOfBytes(size)
    case UnsignedIntegerType(size) => IntegerOfBytes(size)
    case FloatType(size) =>
      var bytes := IntCast(size);
      if bytes == 4 then Success(Float32)
      else if bytes == 8 then Success(Float64)
      else Failure(UnreachableWidth)
    case ReferenceType(_) => Success(PtrToI8)
    case OtherType(_) => Failure(UnsupportedType)
  }

  /** What each type kind lowers to. */
  lemma LowerTypeCases(t: NodeType)
    ensures t == VoidType <==> LowerType(t) == Success(Void)
    ensures t == BooleanType <==> LowerType(t) == Success(I1)
    ensures t.ReferenceType? <==> LowerType(t) == Success(PtrToI8)
    ensures t.OtherType? <==> LowerType(t) == Failure(UnsupportedType)
    ensures t.FloatType? ==> (LowerType(t).Success? <==> IntCast(t.size) in {4, 8})
    ensures t.FloatType? && LowerType(t).Success? ==> (LowerType(t).value == Float32 <==> IntCast(t.size) == 4)
    ensures (t.SignedIntegerType? || t.UnsignedIntegerType?) ==> LowerType(t) == IntegerOfBytes(t.size)
  {
  }

  /** Signedness never reaches LLVM: both integer types of one size lower alike. */
  lemma SignednessIsNotLowered(size: int64)
    ensures LowerType(SignedIntegerType(size)) == LowerType(UnsignedIntegerType(size))
  {
  }

  /** A lowered integer type is 8 bits per byte of the (int-cast) size, and
      only the widths 1, 2, 4 and 8 lower. */
  lemma IntegerWidthPreserved(t: NodeType)
    requires t.SignedIntegerType? || t.UnsignedIntegerType?
    ensures LowerType(t).Success? <==> IntCast(t.size) in {1, 2, 4, 8}
    ensures LowerType(t).Success? ==> IntegerBits(LowerType(t).value) == 8 * IntCast(t.size) as int
  {
  }

  /** The size cast to int wraps: an 8-byte size stated as 2^32 + 8 also becomes `i64`. */
  lemma SizeCastWraps()
    ensures LowerType(SignedIntegerType(0x1_0000_0008)) == Success(I64)
  {
  }

  datatype FloatCondition = Oeq | One | Olt | Ole | Ogt | Oge

  /** The LLVM instructions the value visits choose among. */
  datatype Instr =
    | FAdd | AddI | FMul | MulI | AndI | OrI | XorI | ShlI | SubI
    | FCmp(fc: FloatCondition) | ICmp(ic: IntCondition)
    | FDiv | SDiv | UDiv | FRem | SRem | URem
    | AShr | LShr | FNeg
    | BitCastI | FpToSi | FpToUi | SiToFp | UiToFp | FpExt | SExt | ZExt | FTrunc | TruncI

  /** The binary value nodes. */
  datatype BinaryKind =
    | AddNode | AndNode | OrNode | XorNode | MultiplyNode
    | CmpEqNode | CmpNeNode | CmpLtNode | CmpLeNode | CmpGtNode | CmpGeNode
    | ShrNode | ShlNode | SubNode | DivNode | ModNode

  /** The conversion value nodes. */
  datatype CastKind = BitCastNode | ConvertNode | ExtendNode | TruncateNode

  /** The instruction of a binary node, from the node's own type. */
  function SelectBinary(kind: BinaryKind, t: NodeType): Instr {
    match kind
    case AddNode => if IsFloating(t) then FAdd else AddI
    case MultiplyNode => if IsFloating(t) then FMul else MulI
    case AndNode => AndI
    case OrNode => OrI
    case XorNode => XorI
    case ShlNode => ShlI
    case SubNode => SubI
    case CmpEqNode => if IsFloating(t) then FCmp(Oeq) else ICmp(Eq)
    case CmpNeNode => if IsFloating(t) then FCmp(One) else ICmp(Ne)
    case CmpLtNode => if IsFloating(t) then FCmp(Olt) else if IsSigned(t) then ICmp(Slt) else ICmp(Ult)
    case CmpLeNode => if IsFloating(t) then FCmp(Ole) else if IsSigned(t) then ICmp(Sle) else ICmp(Ule)
    case CmpGtNode => if IsFloating(t) then FCmp(Ogt) else if IsSigned(t) then ICmp(Sgt) else ICmp(Ugt)
    case CmpGeNode => if IsFloating(t) then FCmp(Oge) else if IsSigned(t) then ICmp(Sge) else ICmp(Uge)
    case DivNode => if IsFloating(t) then FDiv else if IsSigned(t) then SDiv else UDiv
    case ModNode => if IsFloating(t) then FRem else if IsSigned(t) then SRem else URem
    case ShrNode => if IsSigned(t) then AShr else LShr
  }

  /** The instruction of a conversion node, from its input's and its own type. */
  function SelectCast(kind: CastKind, input: NodeType, output: NodeType): Instr {
    match kind
    case BitCastNode => BitCastI
    case ConvertNode =>
      if IsFloating(input) then (if IsSigned(output) then FpToSi else FpToUi)
      else if IsSigned(input) then SiToFp else UiToFp
    case ExtendNode => if IsFloating(input) then FpExt else if IsSigned(input) then SExt else ZExt
    case TruncateNode => if IsFloating(input) then FTrunc else TruncI
  }

  /** The instruction of a `Neg` node: `fneg`, whatever its input's type. */
  function SelectNeg(input: NodeType): (i: Instr)
    ensures i == FNeg
  {
    FNeg
  }

  // ----- an independent classification of instructions -----

  /** Instructions that operate on floating-point values. */
  predicate FloatForm(i: Instr) {
    i.FAdd? || i.FMul? || i.FCmp? || i.FDiv? || i.FRem? || i.FNeg? || i.FpExt? || i.FTrunc? || i.FpToSi? || i.FpToUi?
  }

  /** Integer instructions that read their operands as signed. */
  predicate SignedForm(i: Instr) {
    || (i.ICmp? && i.ic in {Sgt, Sge, Slt, Sle})
    || i.SDiv? || i.SRem? || i.AShr? || i.SExt? || i.SiToFp?
  }

  /** Integer instructions that read their operands as unsigned. */
  predicate UnsignedForm(i: Instr) {
    || (i.ICmp? && i.ic in {Ugt, Uge, Ult, Ule})
    || i.UDiv? || i.URem? || i.LShr? || i.ZExt? || i.UiToFp?
  }

  /** The order relation of a comparison: `<`, `<=`, `>`, `>=`, `==`, `!=`. */
  datatype Relation = Less | LessEq | Greater | GreaterEq | Equal | NotEqual

  function KindRelation(kind: BinaryKind): Option<Relation> {
    match kind
    case CmpEqNode => Some(Equal)
    case CmpNeNode => Some(NotEqual)
    case CmpLtNode => Some(Less)
    case CmpLeNode => Some(LessEq)
    case CmpGtNode => Some(Greater)
    case CmpGeNode => Some(GreaterEq)
    case _ => None
  }

  function InstrRelation(i: Instr): Option<Relation> {
    match i
    case FCmp(fc) =>
      Some(match fc
           case Oeq => Equal case One => NotEqual case Olt => Less
           case Ole => LessEq case Ogt => Greater case Oge => GreaterEq)
    case ICmp(ic) =>
      Some(match ic
           case Eq => Equal case Ne => NotEqual
           case Ult => Less case Slt => Less case Ule => LessEq case Sle => LessEq
           case Ugt => Greater case Sgt => Greater case Uge => GreaterEq case Sge => GreaterEq)
    case _ => None
  }

  /** Comparisons, division and remainder dispatch three ways: the float form
      exactly for floating types, the signed form exactly for signed integer
      types, and the unsigned form for every other type. */
  lemma ThreeWaySelection(kind: BinaryKind, t: NodeType)
    requires kind in {CmpLtNode, CmpLeNode, CmpGtNode, CmpGeNode, DivNode, ModNode}
    ensures FloatForm(SelectBinary(kind, t)) <==> IsFloating(t)
    ensures SignedForm(SelectBinary(kind, t)) <==> IsSigned(t)
    ensures UnsignedForm(SelectBinary(kind, t)) <==> !IsFloating(t) && !IsSigned(t)
  {
  }

  /** Add, multiply, equality and inequality dispatch two ways: the float form
      exactly for floating types, else a form that ignores signedness. */
  lemma TwoWaySelection(kind: BinaryKind, t: NodeType)
    requires kind in {AddNode, MultiplyNode, CmpEqNode, CmpNeNode}
    ensures FloatForm(SelectBinary(kind, t)) <==> IsFloating(t)
    ensures !SignedForm(SelectBinary(kind, t)) && !UnsignedForm(SelectBinary(kind, t))
  {
  }

  /** And, or, xor, shift left and subtract do not look at the type. */
  lemma OneWaySelection(kind: BinaryKind, t: NodeType, u: NodeType)
    requires kind in {AndNode, OrNode, XorNode, ShlNode, SubNode}
    ensures SelectBinary(kind, t) == SelectBinary(kind, u)
    ensures !FloatForm(SelectBinary(kind, t)) && !SignedForm(SelectBinary(kind, t)) && !UnsignedForm(SelectBinary(kind, t))
  {
  }

  /** Shift right is arithmetic exactly for signed types (a floating type gets `lshr`). */
  lemma ShiftRightSelection(t: NodeType)
    ensures SignedForm(SelectBinary(ShrNode, t)) <==> IsSigned(t)
    ensures UnsignedForm(SelectBinary(ShrNode, t)) <==> !IsSigned(t)
  {
  }

  /** Every comparison instruction compares in its node's direction. */
  lemma ComparisonKeepsRelation(kind: BinaryKind, t: NodeType)
    ensures InstrRelation(SelectBinary(kind, t)) == KindRelation(kind)
  {
  }

  /** The choice depends only on the type's tag (floating, signed, other):
      sizes and other details of the type are never consulted. */
  lemma SelectionDependsOnTagOnly(kind: BinaryKind, t: NodeType, u: NodeType)
    requires IsFloating(t) == IsFloating(u) && IsSigned(t) == IsSigned(u)
    ensures SelectBinary(kind, t) == SelectBinary(kind, u)
  {
  }

  /** Convert reads the output's signedness for a floating input and the
      input's signedness otherwise. */
  lemma ConvertSelection(input: NodeType, output: NodeType)
    ensures FloatForm(SelectCast(ConvertNode, input, output)) <==> IsFloating(input)
    ensures IsFloating(input) ==> (SelectCast(ConvertNode, input, output) == FpToSi <==> IsSigned(output))
    ensures !IsFloating(input) ==> (SignedForm(SelectCast(ConvertNode, input, output)) <==> IsSigned(input))
  {
  }

  /** Extend is `fpext` for a floating input, else sign or zero extension by
      the input's signedness; truncate is `ftrunc` for a floating input, else `trunc`. */
  lemma ExtendTruncateSelection(input: NodeType, output: NodeType)
    ensures FloatForm(SelectCast(ExtendNode, input, output)) <==> IsFloating(input)
    ensures SignedForm(SelectCast(ExtendNode, input, output)) <==> !IsFloating(input) && IsSigned(input)
    ensures UnsignedForm(SelectCast(ExtendNode, input, output)) <==> !IsFloating(input) && !IsSigned(input)
    ensures FloatForm(SelectCast(TruncateNode, input, output)) <==> IsFloating(input)
    ensures SelectCast(TruncateNode, input, output) == SelectCast(TruncateNode, input, BooleanType)
  {
  }

  /** As written, an integer negation is lowered to the floating-point `fneg`. */
  lemma IntegerNegIsFloatForm(size: int64)
    ensures FloatForm(SelectNeg(SignedIntegerType(size)))
    ensures !IsFloating(SignedIntegerType(size))
  {
  }
}
