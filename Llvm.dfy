/** The LLVM type handles the checker builds and compares.

    Only the constructors the checker uses appear: `Int1`, `Int8`, `Int32`,
    `Double`, `Void`, `CreatePointer`, `CreateStruct` (literal, not packed),
    `CreateArray` and `CreateFunction`.  LLVM uniques these handles, so `==` on
    handles is modelled as structural equality of the datatype.  A pointer
    keeps its pointee: with LLVM's opaque pointers all pointers in address
    space 0 would compare equal, which this model does not assume. */
module Llvm {

  datatype LType =
    | I1
    | I8
    | I32
    | Double
    | Void
    | Ptr(pointee: LType)
    | Struct(fields: seq<LType>)
    | Arr(elem: LType, count: nat)
    | Fn(ret: LType, params: seq<LType>, vararg: bool)

  /** `LLVMTypeRef.Kind`: the integer types share one kind. */
  datatype TypeKind =
    | IntegerKind
    | DoubleKind
    | VoidKind
    | PointerKind
    | StructKind
    | ArrayKind
    | FunctionKind

  function Kind(t: LType): (k: TypeKind)
    ensures k == IntegerKind <==> t == I1 || t == I8 || t == I32
    ensures k == FunctionKind <==> t.Fn?
    ensures k == StructKind <==> t.Struct?
    ensures k == ArrayKind <==> t.Arr?
  {
    match t
    case I1 => IntegerKind
    case I8 => IntegerKind
    case I32 => IntegerKind
    case Double => DoubleKind
    case Void => VoidKind
    case Ptr(_) => PointerKind
    case Struct(_) => StructKind
    case Arr(_, _) => ArrayKind
    case Fn(_, _, _) => FunctionKind
  }
}
