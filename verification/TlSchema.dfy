/**
 The type language that the TL code generator consumes, and the decisions about
 bare and boxed types that the generated storers and parsers share
 (td/generate/tl_writer_td.cpp, tdtl/td/tl/tl_writer.cpp).
 */
module TlSchema {
  import opened Bytes

  /** The type names the generator treats specially; everything else is Custom. NatT is "#". */
  datatype TypeName =
    | NatT | TrueT | BoolT | IntT | LongT | DoubleT | StringT
    | Int32T | Int53T | Int64T | Int128T | Int256T | Int512T
    | BytesT | SecureStringT | SecureBytesT | VectorT | Custom(name: string)

  /** A use of a type: an index into the schema, the bare flag and the type arguments. */
  datatype Tree = Tree(typ: nat, bare: bool, children: seq<Tree>)

  /** Present only if bit `bit` of variable `v` is set. */
  datatype Guard = Guard(v: nat, bit: nat)

  datatype Arg =
    | Arg(tree: Tree, varNum: Option<nat>, exist: Option<Guard>)
    | GenericArg

  datatype Combinator = Combinator(id: int32, args: seq<Arg>)
  datatype TlType = TlType(name: TypeName, isComplex: bool, constructors: seq<Combinator>)
  datatype Schema = Schema(types: seq<TlType>)

  predicate IsBuiltInSimple(n: TypeName) {
    !n.NatT? && !n.VectorT? && !n.Custom?
  }

  predicate IsBuiltInComplex(n: TypeName) {
    n.VectorT?
  }

  predicate TypeSupported(s: Schema, tree: Tree) {
    && tree.typ < |s.types|
    && !s.types[tree.typ].isComplex
    && forall c | c in tree.children :: TypeSupported(s, c)
  }

  predicate CombinatorSupported(s: Schema, c: Combinator) {
    forall a | a in c.args :: a.Arg? && TypeSupported(s, a.tree)
  }

  /** Indices of the supported constructors among the first n, in order. */
  function SupportedUpTo(s: Schema, t: TlType, n: nat): (r: seq<nat>)
    requires n <= |t.constructors|
    ensures forall k | k in r :: k < n && CombinatorSupported(s, t.constructors[k])
    ensures forall k: nat | k < n && CombinatorSupported(s, t.constructors[k]) :: k in r
  {
    if n == 0 then []
    else SupportedUpTo(s, t, n - 1) + if CombinatorSupported(s, t.constructors[n - 1]) then [n - 1] else []
  }

  /** The generator counts these as `simple_constructors`. */
  function Supported(s: Schema, t: TlType): (r: seq<nat>)
    ensures forall k | k in r :: k < |t.constructors| && CombinatorSupported(s, t.constructors[k])
  {
    SupportedUpTo(s, t, |t.constructors|)
  }

  lemma {:induction false} SupportedOrder(s: Schema, t: TlType, n: nat)
    requires n <= |t.constructors|
    ensures forall i: nat, j: nat | i < j < |SupportedUpTo(s, t, n)| :: SupportedUpTo(s, t, n)[i] < SupportedUpTo(s, t, n)[j]
  {
    if n > 0 {
      var front := SupportedUpTo(s, t, n - 1);
      SupportedOrder(s, t, n - 1);
      forall i: nat, j: nat | i < j < |SupportedUpTo(s, t, n)|
        ensures SupportedUpTo(s, t, n)[i] < SupportedUpTo(s, t, n)[j]
      {
        assert front[i] in front;
      }
    }
  }

  /** Exactly the supported constructors, in the order of the schema and without repetition. */
  lemma SupportedExactly(s: Schema, t: TlType)
    ensures forall k: nat :: k in Supported(s, t) <==> k < |t.constructors| && CombinatorSupported(s, t.constructors[k])
    ensures forall i: nat, j: nat | i < j < |Supported(s, t)| :: Supported(s, t)[i] < Supported(s, t)[j]
  {
    SupportedOrder(s, t, |t.constructors|);
  }

  predicate IsTypeBare(s: Schema, t: TlType) {
    || |Supported(s, t)| <= 1
    || (IsBuiltInSimple(t.name) && !t.name.BoolT?)
    || IsBuiltInComplex(t.name)
  }

  // Well-formed schemas: what the schema compiler guarantees and the generator asserts.

  predicate DeclaresVar(a: Arg, v: nat) {
    a.Arg? && a.varNum == Some(v)
  }

  predicate IsTrueFlag(s: Schema, a: Arg) {
    a.Arg? && a.tree.typ < |s.types| && s.types[a.tree.typ].name.TrueT?
  }

  predicate WfTree(s: Schema, tree: Tree) {
    && tree.typ < |s.types|
    && !s.types[tree.typ].name.TrueT?
    && (tree.bare ==> IsTypeBare(s, s.types[tree.typ]))
    && if s.types[tree.typ].name.VectorT? then
         |tree.children| == 1 && WfTree(s, tree.children[0])
       else
         tree.children == []
  }

  predicate WfArg(s: Schema, args: seq<Arg>, i: nat)
    requires i < |args|
  {
    var a := args[i];
    && a.Arg?
    && (a.varNum.Some? ==>
          && a.tree.typ < |s.types| && s.types[a.tree.typ].name.NatT?
          && a.exist.None?
          && forall j: nat | j < i :: !DeclaresVar(args[j], a.varNum.value))
    && (a.exist.Some? ==>
          && a.exist.value.bit < 31
          && exists j: nat :: j < i && DeclaresVar(args[j], a.exist.value.v))
    && if IsTrueFlag(s, a) then a.exist.Some? && a.tree.bare && a.tree.children == []
       else WfTree(s, a.tree)
  }

  predicate WfArgs(s: Schema, args: seq<Arg>) {
    forall i: nat | i < |args| :: WfArg(s, args, i)
  }

  predicate WfType(s: Schema, t: TlType) {
    match t.name
    case NatT => t.constructors == []
    case BoolT => |Supported(s, t)| >= 2
    case VectorT => |t.constructors| == 1 && t.constructors[0].id != 0
    case Custom(_) =>
      var r := Supported(s, t);
      && |r| >= 1
      && (forall k | k in r :: t.constructors[k].id != 0 && WfArgs(s, t.constructors[k].args))
      && forall i, j | i in r && j in r && i != j :: t.constructors[i].id != t.constructors[j].id
    case _ => |Supported(s, t)| == 1 && forall k | k in Supported(s, t) :: t.constructors[k].id != 0
  }

  predicate WfSchema(s: Schema) {
    forall i: nat | i < |s.types| :: WfType(s, s.types[i])
  }

  // C++ values of generated field types.

  datatype Value =
    | IntV(i: int32) | LongV(l: int64) | RawV(raw: seq<byte>) | BoolV(b: bool)
    | StrV(str: seq<byte>) | VecV(elems: seq<Value>)
    | ObjV(typ: nat, con: nat, fields: seq<Value>) | Null

  function RawSize(n: TypeName): nat {
    match n
    case Int128T => 16
    case Int256T => 32
    case Int512T => 64
    case _ => 8
  }

  /** What the default constructor of a generated class leaves in a field of this type. */
  function Default(s: Schema, tree: Tree): Value {
    if tree.typ >= |s.types| then Null else
    match s.types[tree.typ].name
    case NatT | IntT | Int32T => IntV(0)
    case LongT | Int53T | Int64T => LongV(0)
    case DoubleT | Int128T | Int256T | Int512T => RawV(Zeros(RawSize(s.types[tree.typ].name)))
    case BoolT | TrueT => BoolV(false)
    case StringT | BytesT | SecureStringT | SecureBytesT => StrV([])
    case VectorT => VecV([])
    case Custom(_) => Null
  }

  /** The argument that declares variable v, or |args|. */
  function DeclIndex(args: seq<Arg>, v: nat): (k: nat)
    ensures k <= |args|
    ensures k < |args| ==> DeclaresVar(args[k], v)
    ensures forall j: nat | j < k :: !DeclaresVar(args[j], v)
  {
    if args == [] then 0
    else if DeclaresVar(args[0], v) then 0
    else
      assert forall j: nat | j < |args| - 1 :: args[1..][j] == args[j + 1];
      var k := DeclIndex(args[1..], v);
      assert forall j: nat | j < k + 1 :: j > 0 ==> args[j] == args[1..][j - 1];
      k + 1
  }

  /** (field, bit) of every `true` argument from index i on that is guarded by variable v. */
  function TrueBits(s: Schema, args: seq<Arg>, v: nat, i: nat): (r: seq<(nat, nat)>)
    ensures forall p | p in r :: i <= p.0 < |args| && IsTrueFlag(s, args[p.0]) && args[p.0].exist == Some(Guard(v, p.1))
    ensures forall j: nat | i <= j < |args| && IsTrueFlag(s, args[j]) && args[j].exist.Some? &&
                            args[j].exist.value.v == v :: (j, args[j].exist.value.bit) in r
    decreases |args| - i
  {
    if i >= |args| then []
    else
      (if IsTrueFlag(s, args[i]) && args[i].exist.Some? && args[i].exist.value.v == v
       then [(i, args[i].exist.value.bit)] else [])
      + TrueBits(s, args, v, i + 1)
  }

  function OrAll(w: nat, bits: seq<(nat, nat)>, fields: seq<Value>): nat
    decreases |bits|
  {
    if bits == [] then w
    else OrAll(OrBit(w, bits[0].1, bits[0].0 < |fields| && fields[bits[0].0] == BoolV(true)), bits[1..], fields)
  }

  /** The flag word that is put on the wire for variable v: the declared field or-ed with its `true` fields. */
  function Word(s: Schema, args: seq<Arg>, fields: seq<Value>, v: nat): nat {
    var k := DeclIndex(args, v);
    OrAll(if k < |args| && k < |fields| && fields[k].IntV? then Unsigned32(fields[k].i) else 0,
          TrueBits(s, args, v, 0), fields)
  }

  /** Whether field i is a `true` field of bit j of variable v and is set. */
  predicate SetsBit(s: Schema, args: seq<Arg>, fields: seq<Value>, v: nat, j: nat, i: nat) {
    i < |args| && i < |fields| && IsTrueFlag(s, args[i]) && args[i].exist == Some(Guard(v, j)) && fields[i] == BoolV(true)
  }

  lemma {:induction false} OrAllBits(w: nat, bits: seq<(nat, nat)>, fields: seq<Value>, j: nat)
    ensures Bit(OrAll(w, bits, fields), j) <==>
            Bit(w, j) || exists p | p in bits :: p.1 == j && p.0 < |fields| && fields[p.0] == BoolV(true)
    decreases |bits|
  {
    if bits != [] {
      var p := bits[0];
      var on := p.0 < |fields| && fields[p.0] == BoolV(true);
      OrBitBit(w, p.1, on, j);
      OrAllBits(OrBit(w, p.1, on), bits[1..], fields, j);
      assert forall q | q in bits :: q == p || q in bits[1..];
    }
  }

  /** A bit of the stored word is on exactly when it is on in the declared field or one of its `true` fields is set. */
  lemma WordBits(s: Schema, args: seq<Arg>, fields: seq<Value>, v: nat, j: nat)
    ensures var k := DeclIndex(args, v);
            Bit(Word(s, args, fields, v), j) <==>
            (k < |args| && k < |fields| && fields[k].IntV? && Bit(Unsigned32(fields[k].i), j)) ||
            (exists i: nat :: SetsBit(s, args, fields, v, j, i))
  {
    var k := DeclIndex(args, v);
    var bits := TrueBits(s, args, v, 0);
    OrAllBits(if k < |args| && k < |fields| && fields[k].IntV? then Unsigned32(fields[k].i) else 0, bits, fields, j);
    ZeroBits(j);
    forall p | p in bits && p.1 == j && p.0 < |fields| && fields[p.0] == BoolV(true)
      ensures SetsBit(s, args, fields, v, j, p.0)
    {
    }
    forall i: nat | SetsBit(s, args, fields, v, j, i)
      ensures (i, j) in bits
    {
    }
  }

  lemma {:induction false} ZeroBits(j: nat)
    ensures !Bit(0, j)
  {
    if j > 0 {
      ZeroBits(j - 1);
    }
  }

  predicate GuardOn(s: Schema, args: seq<Arg>, fields: seq<Value>, g: Guard) {
    Bit(Word(s, args, fields, g.v), g.bit)
  }

  /** Whether argument i of an object contributes bytes. */
  predicate IsPresent(s: Schema, args: seq<Arg>, fields: seq<Value>, i: nat)
    requires i < |args|
  {
    args[i].Arg? && !IsTrueFlag(s, args[i]) &&
    (args[i].exist.None? || GuardOn(s, args, fields, args[i].exist.value))
  }

  /** A value of the C++ type of `tree` that the storer can store without aborting. */
  predicate Typed(s: Schema, tree: Tree, v: Value)
    decreases v, 1
  {
    && tree.typ < |s.types|
    && match s.types[tree.typ].name
       case NatT | IntT | Int32T => v.IntV?
       case LongT | Int53T | Int64T => v.LongV?
       case DoubleT | Int128T | Int256T | Int512T => v.RawV? && |v.raw| == RawSize(s.types[tree.typ].name)
       case BoolT | TrueT => v.BoolV?
       case StringT | BytesT | SecureStringT | SecureBytesT => v.StrV? && |v.str| < 0x1_0000_0000
       case VectorT => v.VecV? && |v.elems| < 0x8000_0000 && |tree.children| == 1 &&
                       forall e | e in v.elems :: Typed(s, tree.children[0], e)
       case Custom(_) =>
         && v.ObjV? && v.typ == tree.typ && v.con in Supported(s, s.types[v.typ])
         && var args := s.types[v.typ].constructors[v.con].args;
            && |v.fields| == |args|
            && forall i: nat | i < |args| :: TypedField(s, args, v, i)
  }

  /** Fields whose bit is off may hold anything: they are not stored. */
  predicate TypedField(s: Schema, args: seq<Arg>, obj: Value, i: nat)
    requires obj.ObjV? && i < |obj.fields| && i < |args|
    decreases obj, 0
  {
    && args[i].Arg?
    && (IsTrueFlag(s, args[i]) ==> obj.fields[i].BoolV?)
    && (IsPresent(s, args, obj.fields, i) ==> Typed(s, args[i].tree, obj.fields[i]))
  }

  /** Nesting of objects inside v: the recursion depth a parser of v needs. */
  function Depth(v: Value): nat
    decreases v, 0
  {
    match v
    case VecV(elems) => DepthAll(elems)
    case ObjV(_, _, fields) => 1 + DepthAll(fields)
    case _ => 0
  }

  function DepthAll(vs: seq<Value>): (d: nat)
    ensures forall v | v in vs :: Depth(v) <= d
    decreases vs, 1
  {
    if vs == [] then 0
    else
      var a, b := Depth(vs[0]), DepthAll(vs[1..]);
      assert forall v | v in vs :: v == vs[0] || v in vs[1..];
      if a > b then a else b
  }
}
