/** The surface types of the Twice language (`IType` and its implementations)
    and their printed names.

    The basic type classes (`IntType`, `BoolType`, `FloatType`, `StringType`,
    `VoidType`) are not part of this model: their `Name()` is unknown, so every
    function here takes it as a parameter `names`, and what is proved holds for
    every such naming.  `GenericName()` of a basic type is the interface's
    default, its `Name()`. */
module SurfaceTypes {

  datatype BasicType = IntType | BoolType | FloatType | StringType | VoidType

  datatype TypeNode =
    | Basic(basic: BasicType)
    | ArrayType(inner: TypeNode)
    | PromiseType(inner: TypeNode)
    | ChannelType(inner: TypeNode)
    | FunctionType(returnType: TypeNode, argumentTypes: seq<TypeNode>)

  /** The `Name()` of each basic type. */
  type BasicNames = BasicType -> string

  /** A naming whose basic names differ from the four generic names, as the
      grammar's keywords `int`, `bool`, `double`, `string`, `void` do. */
  predicate DistinctFromGenerics(names: BasicNames)
  {
    forall b: BasicType ::
      names(b) != "array" && names(b) != "promise" && names(b) != "channel" && names(b) != "function"
  }

  /** `IType.Name()`. */
  function Name(t: TypeNode, names: BasicNames): (n: string)
    ensures !t.Basic? ==> n != [] && n[|n| - 1] == (if t.FunctionType? then ')' else '>')
  {
    match t
    case Basic(b) => names(b)
    case ArrayType(x) => "array<" + Name(x, names) + ">"
    case PromiseType(x) => "promise<" + Name(x, names) + ">"
    case ChannelType(x) => "channel<" + Name(x, names) + ">"
    case FunctionType(ret, args) => Name(ret, names) + "(" + Join(ArgNames(args, names), ',') + ")"
  }

  /** `ArgumentTypes.Select(x => x.Name())`. */
  function ArgNames(args: seq<TypeNode>, names: BasicNames): (r: seq<string>)
    ensures |r| == |args|
    ensures forall i :: 0 <= i < |args| ==> r[i] == Name(args[i], names)
  {
    if args == [] then [] else [Name(args[0], names)] + ArgNames(args[1..], names)
  }

  /** `String.Join(sep, parts)`: the parts in order, one separator between
      neighbours. */
  function Join(parts: seq<string>, sep: char): (j: string)
    ensures parts != [] ==> |parts[0]| <= |j| && j[..|parts[0]|] == parts[0]
    ensures |j| >= |parts| - 1
  {
    if parts == [] then ""
    else if |parts| == 1 then parts[0]
    else parts[0] + [sep] + Join(parts[1..], sep)
  }

  /** `IType.GenericName()`: a constant for the generic types and the function
      type, the default `Name()` for the basic types. */
  function GenericName(t: TypeNode, names: BasicNames): (g: string)
    ensures !t.Basic? ==> g in {"array", "promise", "channel", "function"}
    ensures t.Basic? ==> g == Name(t, names)
  {
    match t
    case Basic(b) => names(b)
    case ArrayType(_) => "array"
    case PromiseType(_) => "promise"
    case ChannelType(_) => "channel"
    case FunctionType(_, _) => "function"
  }

  /** The checker recognises function and promise types by their generic
      name; this is sound as long as no basic type is named like a generic. */
  lemma GenericNameRecognises(t: TypeNode, names: BasicNames)
    requires DistinctFromGenerics(names)
    ensures GenericName(t, names) == "function" <==> t.FunctionType?
    ensures GenericName(t, names) == "promise" <==> t.PromiseType?
    ensures GenericName(t, names) == "array" <==> t.ArrayType?
    ensures GenericName(t, names) == "channel" <==> t.ChannelType?
  {
  }

  /** The generic name of a function type ignores its return and argument
      types. */
  lemma FunctionGenericNameConstant(ret: TypeNode, args: seq<TypeNode>, ret': TypeNode, args': seq<TypeNode>, names: BasicNames)
    ensures GenericName(FunctionType(ret, args), names) == GenericName(FunctionType(ret', args'), names) == "function"
  {
  }

  /** Number of occurrences of `c` in `s`. */
  function Count(s: string, c: char): nat
  {
    if s == [] then 0 else (if s[0] == c then 1 else 0) + Count(s[1..], c)
  }

  lemma {:induction false} CountAppend(a: string, b: string, c: char)
    ensures Count(a + b, c) == Count(a, c) + Count(b, c)
  {
    if a == [] {
      assert a + b == b;
    } else {
      assert (a + b)[1..] == a[1..] + b;
      CountAppend(a[1..], b, c);
    }
  }

  /** Sum of the occurrences of `c` in each part. */
  function CountAll(parts: seq<string>, c: char): nat
  {
    if parts == [] then 0 else Count(parts[0], c) + CountAll(parts[1..], c)
  }

  /** Total length of the parts. */
  function TotalLength(parts: seq<string>): nat
  {
    if parts == [] then 0 else |parts[0]| + TotalLength(parts[1..])
  }

  /** The join adds exactly one separator between neighbouring parts:
      n - 1 separators for n parts, and nothing else. */
  lemma {:induction false} JoinSeparators(parts: seq<string>, sep: char)
    requires parts != []
    ensures Count(Join(parts, sep), sep) == CountAll(parts, sep) + |parts| - 1
    ensures |Join(parts, sep)| == TotalLength(parts) + |parts| - 1
  {
    if |parts| > 1 {
      JoinSeparators(parts[1..], sep);
      CountAppend(parts[0], [sep], sep);
      CountAppend(parts[0] + [sep], Join(parts[1..], sep), sep);
    }
  }

  /** Appending a part appends a separator and that part: the parts keep
      their order. */
  lemma {:induction false} JoinSnoc(parts: seq<string>, last: string, sep: char)
    ensures Join(parts + [last], sep) == if parts == [] then last else Join(parts, sep) + [sep] + last
  {
    if |parts| == 1 {
      assert parts + [last] == [parts[0], last];
      assert [parts[0], last][1..] == [last];
    } else if |parts| > 1 {
      assert (parts + [last])[1..] == parts[1..] + [last];
      JoinSnoc(parts[1..], last, sep);
    }
  }

  /** `FunctionType.Name()`: the return type's name, then the argument names
      in declaration order separated by commas, in parentheses. */
  lemma FunctionNameShape(ret: TypeNode, args: seq<TypeNode>, names: BasicNames)
    ensures var n := Name(FunctionType(ret, args), names);
      && n[..|Name(ret, names)|] == Name(ret, names)
      && n[|n| - 1] == ')'
      && (args == [] ==> n == Name(ret, names) + "()")
      && (|args| == 1 ==> n == Name(ret, names) + "(" + Name(args[0], names) + ")")
  {
    var n := Name(FunctionType(ret, args), names);
    assert n == Name(ret, names) + ("(" + Join(ArgNames(args, names), ',') + ")");
  }

  /** The argument names of one more argument: one more name at the end. */
  lemma ArgNamesSnoc(args: seq<TypeNode>, arg: TypeNode, names: BasicNames)
    ensures ArgNames(args + [arg], names) == ArgNames(args, names) + [Name(arg, names)]
  {
    assert forall i :: 0 <= i < |args| ==> (args + [arg])[i] == args[i];
  }

  /** Adding an argument to a function type with arguments inserts a comma
      and the new argument's name before the closing parenthesis. */
  lemma FunctionNameSnoc(ret: TypeNode, args: seq<TypeNode>, arg: TypeNode, names: BasicNames)
    requires args != []
    ensures Name(FunctionType(ret, args + [arg]), names)
         == Name(ret, names) + "(" + Join(ArgNames(args, names), ',') + "," + Name(arg, names) + ")"
  {
    ArgNamesSnoc(args, arg, names);
    JoinSnoc(ArgNames(args, names), Name(arg, names), ',');
  }

  /** The separators in a function type's name: one fewer than its
      arguments, plus those inside the argument names themselves. */
  lemma FunctionNameCommas(ret: TypeNode, args: seq<TypeNode>, names: BasicNames)
    requires args != []
    ensures Count(Name(FunctionType(ret, args), names), ',')
         == Count(Name(ret, names), ',') + CountAll(ArgNames(args, names), ',') + |args| - 1
  {
    var j := Join(ArgNames(args, names), ',');
    JoinSeparators(ArgNames(args, names), ',');
    CountAppend(Name(ret, names), "(", ',');
    CountAppend(Name(ret, names) + "(", j, ',');
    CountAppend(Name(ret, names) + "(" + j, ")", ',');
  }

  /** The name of an array, promise or channel type: its generic name, '<',
      the inner name, '>'. */
  predicate IsWrapper(t: TypeNode)
  {
    t.ArrayType? || t.PromiseType? || t.ChannelType?
  }

  lemma WrapperNameShape(t: TypeNode, names: BasicNames)
    requires IsWrapper(t)
    ensures var n := Name(t, names); var g := GenericName(t, names);
      && |n| == |g| + |Name(t.inner, names)| + 2
      && n[..|g| + 1] == g + "<"
      && n[|g| + 1..|n| - 1] == Name(t.inner, names)
      && n[|n| - 1] == '>'
  {
  }

  /** Two wrapper types of the same kind have the same name only when their
      inner types have the same name. */
  lemma WrapperNameInjective(s: TypeNode, t: TypeNode, names: BasicNames)
    requires IsWrapper(s) && IsWrapper(t)
    requires GenericName(s, names) == GenericName(t, names)
    requires Name(s.inner, names) != Name(t.inner, names)
    ensures Name(s, names) != Name(t, names)
  {
    WrapperNameShape(s, names);
    WrapperNameShape(t, names);
  }
}
