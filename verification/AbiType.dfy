/**
 ABI types and values (abi/type.go): which types are dynamic, and how many bytes a type takes in
 the head part of an encoding.
 */
module AbiType {
  import opened ByteStrings

  datatype Type =
    | UintTy(size: nat)
    | IntTy(size: nat)
    | BoolTy
    | AddressTy
    | BytesTy
    | StringTy
    | FixedBytesTy(size: nat)
    | SliceTy(elem: Type)
    | ArrayTy(elem: Type, size: nat)
    | TupleTy(elems: seq<Type>)
    | FunctionTy

  /** One constructor per Go type the codec takes or hands back; []any is List, [32]byte is Array32. */
  datatype Value =
    | Number(n: int)
    | Boolean(b: bool)
    | Account(bytes: seq<byte>)
    | Blob(bytes: seq<byte>)
    | Array32(bytes: seq<byte>)
    | Text(bytes: seq<byte>)
    | List(items: seq<Value>)

  function Max(a: nat, b: nat): nat {
    if a < b then b else a
  }

  /** Nesting depth; the measure for every recursion over types. */
  function Depth(t: Type): nat {
    match t
    case SliceTy(e) => 1 + Depth(e)
    case ArrayTy(e, _) => 1 + Depth(e)
    case TupleTy(ts) => 1 + MaxDepth(ts)
    case _ => 0
  }

  function MaxDepth(ts: seq<Type>): nat {
    if ts == [] then 0 else Max(Depth(ts[0]), MaxDepth(ts[1..]))
  }

  /** The list of types of n elements of type t. */
  function Repeat(t: Type, n: nat): (r: seq<Type>)
    ensures |r| == n
    ensures MaxDepth(r) <= Depth(t)
  {
    if n == 0 then [] else [t] + Repeat(t, n - 1)
  }

  /** The types NewType can build from a type string. */
  predicate WellFormed(t: Type) {
    match t
    case UintTy(size) => 8 <= size <= 256 && size % 8 == 0
    case IntTy(size) => 8 <= size <= 256 && size % 8 == 0
    case FixedBytesTy(size) => 1 <= size <= 32
    case SliceTy(e) => WellFormed(e)
    case ArrayTy(e, n) => n >= 1 && WellFormed(e)
    case TupleTy(ts) => AllWellFormed(ts)
    case _ => true
  }

  predicate AllWellFormed(ts: seq<Type>) {
    ts != [] ==> WellFormed(ts[0]) && AllWellFormed(ts[1..])
  }

  predicate IsDynamic(t: Type) {
    match t
    case BytesTy | StringTy | SliceTy(_) => true
    case ArrayTy(e, _) => IsDynamic(e)
    case TupleTy(ts) => AnyDynamic(ts)
    case _ => false
  }

  predicate AnyDynamic(ts: seq<Type>) {
    ts != [] && (IsDynamic(ts[0]) || AnyDynamic(ts[1..]))
  }

  function GetSize(t: Type): nat {
    match t
    case ArrayTy(e, n) => if IsDynamic(e) then 32 else n * GetSize(e)
    case TupleTy(ts) => HeadSize(ts)
    case _ => 32
  }

  /** Bytes in the head of a list of components: an offset word for each dynamic one. */
  function HeadSize(ts: seq<Type>): nat {
    if ts == [] then 0
    else (if IsDynamic(ts[0]) then 32 else GetSize(ts[0])) + HeadSize(ts[1..])
  }

  lemma {:induction false} RepeatFacts(t: Type, n: nat)
    ensures HeadSize(Repeat(t, n)) == n * (if IsDynamic(t) then 32 else GetSize(t))
    ensures AnyDynamic(Repeat(t, n)) <==> n > 0 && IsDynamic(t)
    ensures WellFormed(t) ==> AllWellFormed(Repeat(t, n))
  {
    hide IsDynamic, GetSize, WellFormed, Depth, MaxDepth;
    if n > 0 {
      RepeatFacts(t, n - 1);
      assert Repeat(t, n)[1..] == Repeat(t, n - 1);
      var s := if IsDynamic(t) then 32 else GetSize(t);
      assert n * s == s + (n - 1) * s;
    }
  }
}
