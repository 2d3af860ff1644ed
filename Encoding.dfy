/** Properties of the type encoding `ToLLVM`: what each surface type becomes,
    where the vararg flag goes, and when two surface types share an
    encoding. */
module Encoding {
  import opened Llvm
  import opened SurfaceTypes
  import opened Typing

  /** The vararg flag reaches the outermost function type only: parameter
      and return types are encoded without it. */
  lemma VarargOutermost(t: TypeNode, v: bool)
    ensures !t.FunctionType? ==> ToLLVM(t, v) == ToLLVM(t)
    ensures t.FunctionType? ==> ToLLVM(t).Fn? && ToLLVM(t, v) == ToLLVM(t).(vararg := v)
  {
  }

  /** The shape of each encoding: booleans and ints are the integer types,
      arrays and strings pointers, promises one-field structs, functions
      function types, `void` and channels `void`.  No surface type is
      encoded as an LLVM array or as `i8`. */
  lemma EncodingShapes(t: TypeNode, v: bool)
    ensures Kind(ToLLVM(t, v)) == IntegerKind <==> t == Basic(BoolType) || t == Basic(IntType)
    ensures ToLLVM(t, v) == Double <==> t == Basic(FloatType)
    ensures ToLLVM(t, v).Ptr? <==> t.ArrayType? || t == Basic(StringType)
    ensures ToLLVM(t, v).Struct? <==> t.PromiseType?
    ensures ToLLVM(t, v).Struct? ==> |ToLLVM(t, v).fields| == 1
    ensures ToLLVM(t, v).Fn? <==> t.FunctionType?
    ensures ToLLVM(t, v) == Void <==> t == Basic(VoidType) || t.ChannelType?
    ensures !ToLLVM(t, v).Arr? && ToLLVM(t, v) != I8
  {
  }

  /** No surface type is encoded as `i8`. */
  lemma NeverI8()
    ensures forall t: TypeNode, v: bool :: ToLLVM(t, v) != I8
  {
    forall t: TypeNode, v: bool
      ensures ToLLVM(t, v) != I8
    {
      EncodingShapes(t, v);
    }
  }

  /** A type that mentions no channel; a channel is encoded as `void`, like
      the `void` type. */
  predicate ChannelFree(t: TypeNode)
  {
    match t
    case Basic(_) => true
    case ArrayType(x) => ChannelFree(x)
    case PromiseType(x) => ChannelFree(x)
    case ChannelType(_) => false
    case FunctionType(ret, args) => ChannelFree(ret) && forall i :: 0 <= i < |args| ==> ChannelFree(args[i])
  }

  /** Without channels the encoding loses nothing: two surface types with
      the same encoding are the same type, so the checker's comparisons of
      encoded types compare the declared types themselves. */
  lemma {:induction false} EncodingInjective(s: TypeNode, t: TypeNode)
    requires ChannelFree(s) && ChannelFree(t) && ToLLVM(s) == ToLLVM(t)
    ensures s == t
  {
    NeverI8();
    match s
    case Basic(_) =>
    case ArrayType(x) =>
      EncodingInjective(x, t.inner);
    case PromiseType(x) =>
      EncodingInjective(x, t.inner);
    case FunctionType(ret, args) =>
      EncodingInjective(ret, t.returnType);
      var args' := t.argumentTypes;
      assert |args| == |args'| by {
        assert |ToLLVMAll(args)| == |ToLLVMAll(args')|;
      }
      forall i | 0 <= i < |args|
        ensures args[i] == args'[i]
      {
        assert ToLLVMAll(args)[i] == ToLLVMAll(args')[i];
        EncodingInjective(args[i], args'[i]);
      }
  }

  /** A channel and `void` share an encoding. */
  lemma ChannelIsVoid(x: TypeNode)
    ensures ToLLVM(ChannelType(x)) == ToLLVM(Basic(VoidType))
  {
  }
}
