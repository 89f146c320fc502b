/**
 The TL code generator for C++ (td/generate/tl_writer_cpp.cpp): which storer and
 parser combinators it emits for a type, which store and fetch statements it
 emits for a constructor, and what that emitted code does to bytes
 (td/tl/tl_object_store.h, td/tl/tl_object_parse.h, tdutils/td/utils/tl_storers.h,
 tdutils/td/utils/tl_parsers.h).
 */
module TlCompiler {
  import opened Bytes
  import opened TlSchema

  // ---------- generated combinators ----------

  /** StoreAssert stands for a failed assert() of the generator. */
  datatype StoreClass =
    | StoreBinary | StoreBool | StoreString | StoreObject
    | StoreVector(elem: StoreClass)
    | StoreBoxed(inner: StoreClass, id: int32)
    | StoreBoxedUnknown(inner: StoreClass)
    | StoreAssert

  datatype FetchClass =
    | FetchInt | FetchLong | FetchBinary(size: nat) | FetchBool | FetchString
    | FetchObject(typ: nat)
    | FetchVector(elem: FetchClass)
    | FetchBoxed(inner: FetchClass, id: int32)
    | FetchAssert

  function GenStoreClassName(s: Schema, tree: Tree): StoreClass
    decreases tree, 0
  {
    if tree.typ >= |s.types| then StoreAssert else
    match s.types[tree.typ].name
    case NatT | IntT | LongT | Int32T | Int53T | Int64T | DoubleT | Int128T | Int256T | Int512T => StoreBinary
    case BoolT => StoreBool
    case TrueT => StoreAssert
    case StringT | BytesT | SecureStringT | SecureBytesT => StoreString
    case VectorT =>
      if |tree.children| != 1 then StoreAssert else StoreVector(GenFullStoreClassName(s, tree.children[0]))
    case Custom(_) => if tree.children != [] then StoreAssert else StoreObject
  }

  function GenFullStoreClassName(s: Schema, tree: Tree): StoreClass
    decreases tree, 1
  {
    if tree.typ >= |s.types| then StoreAssert else
    var t := s.types[tree.typ];
    if tree.bare || t.name.NatT? || t.name.BoolT? then
      GenStoreClassName(s, tree)
    else if IsBuiltInComplex(t.name) then
      if t.constructors == [] then StoreAssert else StoreBoxed(GenStoreClassName(s, tree), t.constructors[0].id)
    else if !IsTypeBare(s, t) then
      StoreBoxedUnknown(GenStoreClassName(s, tree))
    else
      var r := Supported(s, t);
      if r == [] then StoreAssert
      else (assert r[0] in r; StoreBoxed(GenStoreClassName(s, tree), t.constructors[r[0]].id))
  }

  function GenFetchClassName(s: Schema, tree: Tree): FetchClass
    decreases tree, 0
  {
    if tree.typ >= |s.types| then FetchAssert else
    match s.types[tree.typ].name
    case NatT | Int32T | IntT => FetchInt
    case Int53T | Int64T | LongT => FetchLong
    case DoubleT | Int128T | Int256T | Int512T => FetchBinary(RawSize(s.types[tree.typ].name))
    case BoolT => FetchBool
    case TrueT => FetchAssert
    case StringT | BytesT | SecureStringT | SecureBytesT => FetchString
    case VectorT =>
      if |tree.children| != 1 then FetchAssert else FetchVector(GenFullFetchClassName(s, tree.children[0]))
    case Custom(_) => if tree.children != [] then FetchAssert else FetchObject(tree.typ)
  }

  /** The constructors that may supply the expected id of a boxed use of a bare type. */
  function BoxedConstructors(s: Schema, t: TlType): (r: seq<nat>)
    ensures forall k | k in r :: k < |t.constructors|
  {
    if IsBuiltInComplex(t.name) then seq(|t.constructors|, i => i) else Supported(s, t)
  }

  function GenFullFetchClassName(s: Schema, tree: Tree): FetchClass
    decreases tree, 1
  {
    if tree.typ >= |s.types| then FetchAssert else
    var t := s.types[tree.typ];
    if tree.bare then
      if IsTypeBare(s, t) then GenFetchClassName(s, tree) else FetchAssert
    else if !IsTypeBare(s, t) then
      GenFetchClassName(s, tree)
    else
      var r := BoxedConstructors(s, t);
      if r == [] then GenFetchClassName(s, tree)
      else
        assert r[0] in r;
        if |r| > 1 || t.constructors[r[0]].id == 0 then FetchAssert
        else FetchBoxed(GenFetchClassName(s, tree), t.constructors[r[0]].id)
  }

  // ---------- generated statements ----------

  /**
   `if (var & bit) { Cls::store((var = field | (true_field << bit) ...), s); }`,
   with the guard and the assignment optional. A `true` argument stores nothing.
   */
  datatype StoreStmt =
    | StoreNothing
    | StoreField(guard: Option<Guard>, assign: Option<nat>, bits: seq<(nat, nat)>, field: nat, cls: StoreClass)

  /** `field = (var & bit) != 0;` or `if (var & bit) { if ((var = field = Cls::parse(p)) < 0) FAIL } else var = 0;` */
  datatype FetchStmt =
    | FetchFlag(flag: Guard, field: nat)
    | FetchField(guard: Option<Guard>, assign: Option<nat>, field: nat, fcls: FetchClass)

  function GenFieldStore(s: Schema, args: seq<Arg>, i: nat): StoreStmt
    requires i < |args|
  {
    var a := args[i];
    if a.GenericArg? then StoreField(None, None, [], i, StoreAssert)
    else if a.exist.Some? && a.varNum.None? && IsTrueFlag(s, a) then StoreNothing
    else
      StoreField(a.exist, a.varNum, if a.varNum.Some? then TrueBits(s, args, a.varNum.value, 0) else [], i,
                 GenFullStoreClassName(s, a.tree))
  }

  function GenFieldFetch(s: Schema, args: seq<Arg>, i: nat): FetchStmt
    requires i < |args|
  {
    var a := args[i];
    if a.GenericArg? then FetchField(None, None, i, FetchAssert)
    else if a.exist.Some? && a.varNum.None? && a.tree.bare && IsTrueFlag(s, a) then FetchFlag(a.exist.value, i)
    else FetchField(a.exist, a.varNum, i, GenFullFetchClassName(s, a.tree))
  }

  // ---------- what the emitted storer does ----------

  const BOOL_TRUE: nat := 0x997275b5
  const BOOL_FALSE: nat := 0xbc799737

  function Pad4(n: nat): (r: seq<byte>)
    ensures (n + |r|) % 4 == 0 && |r| < 4
  {
    Zeros((4 - n % 4) % 4)
  }

  /** store_string for strings shorter than 2^32 bytes. */
  function StoreStr(str: seq<byte>): seq<byte> {
    var n := |str|;
    if n < 254 then [n] + str + Pad4(n + 1)
    else if n < 0x100_0000 then [254] + Le(3, n) + str + Pad4(n)
    else [255] + Le(4, n) + [0, 0, 0] + str + Pad4(n)
  }

  function Lookup(env: map<nat, nat>, v: nat): nat {
    if v in env then env[v] else 0
  }

  predicate Enabled(env: map<nat, nat>, g: Option<Guard>) {
    g.None? || Bit(Lookup(env, g.value.v), g.value.bit)
  }

  function ArgsOf(s: Schema, t: nat, con: nat): seq<Arg> {
    if t < |s.types| && con < |s.types[t].constructors| then s.types[t].constructors[con].args else []
  }

  function IdOf(s: Schema, t: nat, con: nat): int32 {
    if t < |s.types| && con < |s.types[t].constructors| then s.types[t].constructors[con].id else 0
  }

  function Store(s: Schema, cls: StoreClass, v: Value): seq<byte>
    decreases v, 2, cls
  {
    match cls
    case StoreBinary =>
      (match v
       case IntV(i) => Le(4, Unsigned32(i))
       case LongV(l) => Le(8, Unsigned64(l))
       case RawV(raw) => raw
       case _ => [])
    case StoreBool => if v.BoolV? then Le(4, if v.b then BOOL_TRUE else BOOL_FALSE) else []
    case StoreString => if v.StrV? then StoreStr(v.str) else []
    case StoreVector(elem) => if v.VecV? then Le(4, |v.elems|) + StoreElems(s, elem, v.elems) else []
    case StoreObject => if v.ObjV? then StoreFields(s, v, 0, map[]) else []
    case StoreBoxed(inner, id) => Le(4, Unsigned32(id)) + Store(s, inner, v)
    case StoreBoxedUnknown(inner) =>
      (if v.ObjV? then Le(4, Unsigned32(IdOf(s, v.typ, v.con))) else []) + Store(s, inner, v)
    case StoreAssert => []
  }

  function StoreElems(s: Schema, elem: StoreClass, vs: seq<Value>): seq<byte>
    decreases vs, 3
  {
    if vs == [] then [] else Store(s, elem, vs[0]) + StoreElems(s, elem, vs[1..])
  }

  /** The emitted statements of arguments i.. of obj's class, run with the local variables `env`. */
  function StoreFields(s: Schema, obj: Value, i: nat, env: map<nat, nat>): seq<byte>
    requires obj.ObjV?
    decreases obj, 1, |ArgsOf(s, obj.typ, obj.con)| - i
  {
    var args := ArgsOf(s, obj.typ, obj.con);
    if i >= |args| || i >= |obj.fields| then []
    else
      match GenFieldStore(s, args, i)
      case StoreNothing => StoreFields(s, obj, i + 1, env)
      case StoreField(guard, assign, bits, _, cls) =>
        if !Enabled(env, guard) then StoreFields(s, obj, i + 1, env)
        else if assign.None? then Store(s, cls, obj.fields[i]) + StoreFields(s, obj, i + 1, env)
        else
          var w := OrAll(if obj.fields[i].IntV? then Unsigned32(obj.fields[i].i) else 0, bits, obj.fields);
          Le(4, w) + StoreFields(s, obj, i + 1, env[assign.value := w])
  }

  // ---------- what the emitted parser does ----------

  /**
   Failed: the parser's sticky error is set, after which the caller discards everything.
   Overflowed: the call stack, `depth` nested objects high, is used up.
   */
  datatype Fetched<T> = Fetched(value: T, rest: seq<byte>) | Failed | Overflowed {
    predicate IsFailure() { !Fetched? }
    function PropagateFailure<U>(): Fetched<U>
      requires !Fetched?
    {
      if Failed? then Failed else Overflowed
    }
    function Extract(): (T, seq<byte>)
      requires Fetched?
    {
      (value, rest)
    }
  }

  /** fetch_binary of n bytes, as an unsigned little-endian number. */
  function FetchNat(n: nat, data: seq<byte>): Fetched<nat> {
    if |data| < n then Failed else Fetched(FromLe(data[..n]), data[n..])
  }

  function FetchStr(data: seq<byte>): Fetched<seq<byte>> {
    if |data| < 4 then Failed
    else if data[0] < 254 then
      var n := data[0];
      var aligned := n / 4 * 4;
      if |data| - 4 < aligned then Failed else Fetched(data[1..1 + n], data[4 + aligned..])
    else if data[0] == 254 then
      var n := FromLe(data[1..4]);
      var aligned := (n + 3) / 4 * 4;
      if |data| - 4 < aligned then Failed else Fetched(data[4..4 + n], data[4 + aligned..])
    else if |data| < 8 then Failed
    else
      var n := FromLe(data[1..8]);
      var aligned := (n + 3) / 4 * 4;
      if |data| - 8 < aligned then Failed else Fetched(data[8..8 + n], data[8 + aligned..])
  }

  function Fetch(s: Schema, cls: FetchClass, data: seq<byte>, depth: nat): Fetched<Value>
    decreases depth, 1, cls
  {
    match cls
    case FetchInt =>
      if |data| < 4 then Failed
      else (FromLeBound(data[..4]); Pow256Values(); Fetched(IntV(Signed32(FromLe(data[..4]))), data[4..]))
    case FetchLong =>
      if |data| < 8 then Failed
      else (FromLeBound(data[..8]); Pow256Values(); Fetched(LongV(Signed64(FromLe(data[..8]))), data[8..]))
    case FetchBinary(size) => if |data| < size then Failed else Fetched(RawV(data[..size]), data[size..])
    case FetchBool =>
      var (c, rest) :- FetchNat(4, data);
      if c == BOOL_TRUE then Fetched(BoolV(true), rest)
      else if c == BOOL_FALSE then Fetched(BoolV(false), rest)
      else Failed
    case FetchString =>
      var (str, rest) :- FetchStr(data);
      Fetched(StrV(str), rest)
    case FetchVector(elem) =>
      var (n, rest) :- FetchNat(4, data);
      if |rest| < n then Failed
      else
        var (vs, rest') :- FetchElems(s, elem, n, rest, depth);
        Fetched(VecV(vs), rest')
    case FetchBoxed(inner, id) =>
      var (c, rest) :- FetchNat(4, data);
      if c == Unsigned32(id) then Fetch(s, inner, rest, depth) else Failed
    case FetchObject(t) =>
      if depth == 0 then Overflowed
      else
        var (con, rest) :- Dispatch(s, t, data);
        FetchConstructor(s, t, con, rest, depth - 1)
    case FetchAssert => Failed
  }

  /** The case of the emitted switch that a constructor id selects. */
  function SwitchCase(t: TlType, cases: seq<nat>, c: nat): Option<nat>
    requires forall k | k in cases :: k < |t.constructors|
  {
    if cases == [] then None
    else
      assert cases[0] in cases;
      assert forall k | k in cases[1..] :: k in cases;
      if Unsigned32(t.constructors[cases[0]].id) == c then Some(cases[0])
      else SwitchCase(t, cases[1..], c)
  }

  /** The class whose fetch runs for type t: its only constructor, or the one selected by a leading id. */
  function Dispatch(s: Schema, t: nat, data: seq<byte>): Fetched<nat> {
    if t >= |s.types| then Failed
    else
      var r := Supported(s, s.types[t]);
      if |r| == 1 then Fetched(r[0], data)
      else
        var (c, rest) :- FetchNat(4, data);
        var k := SwitchCase(s.types[t], r, c);
        if k.None? then Failed else Fetched(k.value, rest)
  }

  function FetchElems(s: Schema, elem: FetchClass, n: nat, data: seq<byte>, depth: nat): Fetched<seq<Value>>
    decreases depth, 1, FetchVector(elem), n
  {
    if n == 0 then Fetched([], data)
    else
      var (v, rest) :- Fetch(s, elem, data, depth);
      var (vs, rest') :- FetchElems(s, elem, n - 1, rest, depth);
      Fetched([v] + vs, rest')
  }

  function Defaults(s: Schema, args: seq<Arg>): (r: seq<Value>)
    ensures |r| == |args|
  {
    seq(|args|, i requires 0 <= i < |args| => if args[i].Arg? then Default(s, args[i].tree) else Null)
  }

  function FetchConstructor(s: Schema, t: nat, con: nat, data: seq<byte>, depth: nat): Fetched<Value>
    decreases depth, 3
  {
    var args := ArgsOf(s, t, con);
    var (fields, rest) :- FetchFields(s, args, 0, Defaults(s, args), map[], data, depth);
    Fetched(ObjV(t, con, fields), rest)
  }

  /** The emitted statements of arguments i.., run with the local variables `env` on the object built so far. */
  function FetchFields(s: Schema, args: seq<Arg>, i: nat, fields: seq<Value>, env: map<nat, nat>, data: seq<byte>,
                       depth: nat): Fetched<seq<Value>>
    requires |fields| == |args|
    decreases depth, 2, |args| - i
  {
    if i >= |args| then Fetched(fields, data)
    else
      match GenFieldFetch(s, args, i)
      case FetchFlag(g, _) =>
        FetchFields(s, args, i + 1, fields[i := BoolV(Enabled(env, Some(g)))], env, data, depth)
      case FetchField(guard, assign, _, cls) =>
        if !Enabled(env, guard) then
          FetchFields(s, args, i + 1, fields, if assign.Some? then env[assign.value := 0] else env, data, depth)
        else
          var (v, rest) :- Fetch(s, cls, data, depth);
          if assign.None? then FetchFields(s, args, i + 1, fields[i := v], env, rest, depth)
          else if !v.IntV? || v.i < 0 then Failed
          else FetchFields(s, args, i + 1, fields[i := v], env[assign.value := v.i], rest, depth)
  }
}
