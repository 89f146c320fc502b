/**
 The generated storer and parser of every well-formed schema invert each other,
 exactly as far as the emitted checks allow.
 */
module TlRoundTrip {
  import opened Bytes
  import opened TlSchema
  import opened TlCompiler

  // ---------- reference definitions ----------

  /** The local flag variables after the statements of the first i arguments: name and wire word. */
  function EnvAt(s: Schema, args: seq<Arg>, fields: seq<Value>, i: nat): map<nat, nat>
    requires i <= |args|
  {
    if i == 0 then map[]
    else
      var env := EnvAt(s, args, fields, i - 1);
      if args[i - 1].Arg? && args[i - 1].varNum.Some?
      then env[args[i - 1].varNum.value := Word(s, args, fields, args[i - 1].varNum.value)]
      else env
  }

  /**
   What a value becomes after a round trip: flag words absorb their `true`
   fields, those fields mirror the word, absent fields are reset to defaults.
   */
  function Norm(s: Schema, tree: Tree, v: Value): Value
    decreases v, 2
  {
    if v.VecV? && |tree.children| == 1 then VecV(NormElems(s, tree.children[0], v.elems))
    else if v.ObjV? && |v.fields| == |ArgsOf(s, v.typ, v.con)| then ObjV(v.typ, v.con, NormFields(s, v))
    else v
  }

  function NormElems(s: Schema, tree: Tree, vs: seq<Value>): (r: seq<Value>)
    ensures |r| == |vs|
    decreases vs, 3
  {
    if vs == [] then [] else [Norm(s, tree, vs[0])] + NormElems(s, tree, vs[1..])
  }

  function NormField(s: Schema, obj: Value, i: nat): Value
    requires obj.ObjV? && i < |obj.fields| == |ArgsOf(s, obj.typ, obj.con)|
    decreases obj, 0
  {
    var args := ArgsOf(s, obj.typ, obj.con);
    if args[i].GenericArg? then obj.fields[i]
    else if IsTrueFlag(s, args[i]) then
      BoolV(args[i].exist.Some? && GuardOn(s, args, obj.fields, args[i].exist.value))
    else if !IsPresent(s, args, obj.fields, i) then Default(s, args[i].tree)
    else if args[i].varNum.Some? then
      var w := Word(s, args, obj.fields, args[i].varNum.value);
      if w < 0x1_0000_0000 then IntV(Signed32(w)) else obj.fields[i]
    else Norm(s, args[i].tree, obj.fields[i])
  }

  function NormFields(s: Schema, obj: Value): (r: seq<Value>)
    requires obj.ObjV? && |obj.fields| == |ArgsOf(s, obj.typ, obj.con)|
    ensures |r| == |obj.fields|
    decreases obj, 1
  {
    seq(|obj.fields|, i requires 0 <= i < |obj.fields| => NormField(s, obj, i))
  }

  /** The bytes of arguments i.. of an object. */
  function Suffix(s: Schema, obj: Value, i: nat): seq<byte>
    requires obj.ObjV? && |obj.fields| == |ArgsOf(s, obj.typ, obj.con)| && i <= |obj.fields|
  {
    StoreFields(s, obj, i, EnvAt(s, ArgsOf(s, obj.typ, obj.con), obj.fields, i))
  }

  /**
   The emitted parser accepts the emitted bytes of v when `after` more bytes follow:
   no flag word is negative, and no vector has more elements than there are
   bytes behind its length.
   */
  predicate Fetchable(s: Schema, tree: Tree, v: Value, after: nat)
    decreases v, 1
  {
    if v.VecV? && |tree.children| == 1 then
      var cls := GenFullStoreClassName(s, tree.children[0]);
      && |v.elems| <= |StoreElems(s, cls, v.elems)| + after
      && ElemsFetchable(s, tree.children[0], v.elems, after)
    else if v.ObjV? && |v.fields| == |ArgsOf(s, v.typ, v.con)| then
      FieldsFetchable(s, v, 0, after)
    else true
  }

  predicate ElemsFetchable(s: Schema, tree: Tree, vs: seq<Value>, after: nat)
    decreases vs, 2
  {
    vs == [] ||
    (var cls := GenFullStoreClassName(s, tree);
     && Fetchable(s, tree, vs[0], |StoreElems(s, cls, vs[1..])| + after)
     && ElemsFetchable(s, tree, vs[1..], after))
  }

  predicate FieldsFetchable(s: Schema, obj: Value, i: nat, after: nat)
    requires obj.ObjV? && |obj.fields| == |ArgsOf(s, obj.typ, obj.con)| && i <= |obj.fields|
    decreases obj, 0, |obj.fields| - i, 1
  {
    i == |obj.fields| || (FieldFetchable(s, obj, i, after) && FieldsFetchable(s, obj, i + 1, after))
  }

  predicate FieldFetchable(s: Schema, obj: Value, i: nat, after: nat)
    requires obj.ObjV? && i < |obj.fields| == |ArgsOf(s, obj.typ, obj.con)|
    decreases obj, 0, |obj.fields| - i, 0
  {
    var args := ArgsOf(s, obj.typ, obj.con);
    IsPresent(s, args, obj.fields, i) ==>
      if args[i].varNum.Some? then Word(s, args, obj.fields, args[i].varNum.value) < 0x8000_0000
      else Fetchable(s, args[i].tree, obj.fields[i], |Suffix(s, obj, i + 1)| + after)
  }

  // ---------- strings ----------

  lemma Slices(h: seq<byte>, str: seq<byte>, pad: seq<byte>, tail: seq<byte>)
    ensures var data := h + str + pad + tail;
            && |data| == |h| + |str| + |pad| + |tail|
            && data[..|h|] == h
            && data[|h|..|h| + |str|] == str
            && data[|h| + |str| + |pad|..] == tail
  {
  }

  lemma Pad4Aligned(n: nat)
    ensures n + |Pad4(n)| == (n + 3) / 4 * 4
    ensures n + 1 + |Pad4(n + 1)| == 4 + n / 4 * 4
  {
    assert n == n / 4 * 4 + n % 4;
  }

  lemma StrShort(str: seq<byte>, tail: seq<byte>)
    requires |str| < 254
    ensures FetchStr(StoreStr(str) + tail) == Fetched(str, tail)
  {
    var n := |str|;
    Slices([n], str, Pad4(n + 1), tail);
    Pad4Aligned(n);
  }

  lemma StrMedium(str: seq<byte>, tail: seq<byte>)
    requires 254 <= |str| < 0x100_0000
    ensures FetchStr(StoreStr(str) + tail) == Fetched(str, tail)
  {
    var n := |str|;
    var h := [254] + Le(3, n);
    var data := StoreStr(str) + tail;
    Slices(h, str, Pad4(n), tail);
    Pad4Aligned(n);
    assert data[1..4] == data[..4][1..] == Le(3, n);
    assert n < Pow256(3) by { Pow256Values(); }
    LeRoundTrip(3, n);
    assert data[0] == data[..4][0] == 254;
  }

  lemma {:induction false} LeZeroExtend(n: nat, x: nat, k: nat)
    requires x < Pow256(n)
    ensures FromLe(Le(n, x) + Zeros(k)) == x
  {
    if n == 0 {
      assert Le(n, x) + Zeros(k) == Zeros(k);
      if k > 0 {
        assert Zeros(k)[1..] == Le(0, 0) + Zeros(k - 1);
        LeZeroExtend(0, 0, k - 1);
      }
    } else {
      LeZeroExtend(n - 1, x / 256, k);
      assert (Le(n, x) + Zeros(k))[1..] == Le(n - 1, x / 256) + Zeros(k);
    }
  }

  lemma StrLong(str: seq<byte>, tail: seq<byte>)
    requires 0x100_0000 <= |str| < 0x1_0000_0000
    ensures FetchStr(StoreStr(str) + tail) == Fetched(str, tail)
  {
    var n := |str|;
    var h := [255] + Le(4, n) + [0, 0, 0];
    var data := StoreStr(str) + tail;
    Slices(h, str, Pad4(n), tail);
    Pad4Aligned(n);
    assert Zeros(3) == [0, 0, 0];
    assert data[1..8] == data[..8][1..] == Le(4, n) + Zeros(3);
    assert n < Pow256(4) by { Pow256Values(); }
    LeZeroExtend(4, n, 3);
    assert data[0] == data[..8][0] == 255;
  }

  /** fetch_string inverts store_string for each of the three length encodings. */
  lemma StrRoundTrip(str: seq<byte>, tail: seq<byte>)
    requires |str| < 0x1_0000_0000
    ensures FetchStr(StoreStr(str) + tail) == Fetched(str, tail)
  {
    if |str| < 254 {
      StrShort(str, tail);
    } else if |str| < 0x100_0000 {
      StrMedium(str, tail);
    } else {
      StrLong(str, tail);
    }
  }

  lemma NatRoundTrip(n: nat, x: nat, tail: seq<byte>)
    requires x < Pow256(n)
    ensures FetchNat(n, Le(n, x) + tail) == Fetched(x, tail)
  {
    LeRoundTrip(n, x);
    assert (Le(n, x) + tail)[..n] == Le(n, x);
  }

  // ---------- flag words ----------

  lemma {:induction false} EnvLookup(s: Schema, args: seq<Arg>, fields: seq<Value>, i: nat, v: nat)
    requires i <= |args|
    requires exists j: nat :: j < i && DeclaresVar(args[j], v)
    ensures v in EnvAt(s, args, fields, i) && EnvAt(s, args, fields, i)[v] == Word(s, args, fields, v)
  {
    if !DeclaresVar(args[i - 1], v) {
      EnvLookup(s, args, fields, i - 1, v);
    }
  }

  /** Reading a guard from the variables assigned so far agrees with the wire word. */
  lemma GuardAgrees(s: Schema, args: seq<Arg>, fields: seq<Value>, i: nat)
    requires i < |args| && WfArg(s, args, i) && args[i].exist.Some?
    ensures Enabled(EnvAt(s, args, fields, i), args[i].exist) <==> GuardOn(s, args, fields, args[i].exist.value)
  {
    EnvLookup(s, args, fields, i, args[i].exist.value.v);
  }

  lemma {:induction false} OrAllBound(w: nat, bits: seq<(nat, nat)>, fields: seq<Value>, n: nat)
    requires w < Pow2(n) && forall p | p in bits :: p.1 < n
    ensures OrAll(w, bits, fields) < Pow2(n)
    decreases |bits|
  {
    if bits != [] {
      assert bits[0] in bits;
      var w' := OrBit(w, bits[0].1, bits[0].0 < |fields| && fields[bits[0].0] == BoolV(true));
      OrBitBound(w, bits[0].1, bits[0].0 < |fields| && fields[bits[0].0] == BoolV(true), n);
      OrAllBound(w', bits[1..], fields, n);
    }
  }

  lemma Pow2At32()
    ensures Pow2(32) == 0x1_0000_0000
  {
    assert Pow2(4) == 16;
    assert Pow2(8) == 16 * Pow2(4);
    assert Pow2(12) == 16 * Pow2(8);
    assert Pow2(16) == 16 * Pow2(12);
    assert Pow2(20) == 16 * Pow2(16);
    assert Pow2(24) == 16 * Pow2(20);
    assert Pow2(28) == 16 * Pow2(24);
    assert Pow2(32) == 16 * Pow2(28);
  }

  lemma WordBound(s: Schema, args: seq<Arg>, fields: seq<Value>, v: nat)
    requires WfArgs(s, args)
    ensures Word(s, args, fields, v) < 0x1_0000_0000
  {
    Pow2At32();
    forall p | p in TrueBits(s, args, v, 0)
      ensures p.1 < 32
    {
      assert WfArg(s, args, p.0);
    }
    var k := DeclIndex(args, v);
    OrAllBound(if k < |args| && k < |fields| && fields[k].IntV? then Unsigned32(fields[k].i) else 0,
               TrueBits(s, args, v, 0), fields, 32);
  }

  /** The word a storer assigns at the declaring argument is the wire word of that variable. */
  lemma WordAtDeclaration(s: Schema, args: seq<Arg>, fields: seq<Value>, i: nat)
    requires i < |args| == |fields| && WfArg(s, args, i) && args[i].varNum.Some? && fields[i].IntV?
    ensures Word(s, args, fields, args[i].varNum.value)
         == OrAll(Unsigned32(fields[i].i), TrueBits(s, args, args[i].varNum.value, 0), fields)
  {
    assert DeclaresVar(args[i], args[i].varNum.value);
    assert DeclIndex(args, args[i].varNum.value) == i;
  }

  // ---------- one argument at a time ----------

  predicate TypedObject(s: Schema, v: Value) {
    && v.ObjV? && v.typ < |s.types| && s.types[v.typ].name.Custom?
    && v.con in Supported(s, s.types[v.typ])
    && |v.fields| == |ArgsOf(s, v.typ, v.con)|
    && forall i: nat | i < |v.fields| :: TypedField(s, ArgsOf(s, v.typ, v.con), v, i)
  }

  lemma ObjectArgs(s: Schema, v: Value)
    requires WfSchema(s) && TypedObject(s, v)
    ensures WfArgs(s, ArgsOf(s, v.typ, v.con))
  {
    assert WfType(s, s.types[v.typ]);
  }

  /** The bytes argument i contributes. */
  function Piece(s: Schema, obj: Value, i: nat): seq<byte>
    requires obj.ObjV? && i < |obj.fields| == |ArgsOf(s, obj.typ, obj.con)|
  {
    var args := ArgsOf(s, obj.typ, obj.con);
    if !IsPresent(s, args, obj.fields, i) then []
    else if args[i].varNum.Some? then Le(4, Word(s, args, obj.fields, args[i].varNum.value))
    else Store(s, GenFullStoreClassName(s, args[i].tree), obj.fields[i])
  }

  /** What the generator emits for a well-formed argument. */
  lemma Emitted(s: Schema, args: seq<Arg>, i: nat)
    requires i < |args| && WfArg(s, args, i)
    ensures IsTrueFlag(s, args[i]) ==>
              && args[i].exist.Some? && args[i].varNum.None?
              && GenFieldStore(s, args, i) == StoreNothing
              && GenFieldFetch(s, args, i) == FetchFlag(args[i].exist.value, i)
    ensures !IsTrueFlag(s, args[i]) ==>
              && GenFieldStore(s, args, i)
                 == StoreField(args[i].exist, args[i].varNum,
                               if args[i].varNum.Some? then TrueBits(s, args, args[i].varNum.value, 0) else [], i,
                               GenFullStoreClassName(s, args[i].tree))
              && GenFieldFetch(s, args, i)
                 == FetchField(args[i].exist, args[i].varNum, i, GenFullFetchClassName(s, args[i].tree))
    ensures args[i].varNum.Some? ==> args[i].exist.None? && !IsTrueFlag(s, args[i])
  {
  }

  lemma StoreStep(s: Schema, obj: Value, i: nat)
    requires obj.ObjV? && i < |obj.fields| == |ArgsOf(s, obj.typ, obj.con)|
    requires WfArg(s, ArgsOf(s, obj.typ, obj.con), i)
    requires ArgsOf(s, obj.typ, obj.con)[i].varNum.Some? ==> obj.fields[i].IntV?
    ensures Suffix(s, obj, i) == Piece(s, obj, i) + Suffix(s, obj, i + 1)
  {
    var args := ArgsOf(s, obj.typ, obj.con);
    Emitted(s, args, i);
    if args[i].varNum.Some? {
      WordAtDeclaration(s, args, obj.fields, i);
    } else if args[i].exist.Some? {
      GuardAgrees(s, args, obj.fields, i);
    }
  }

  lemma IntFetch(s: Schema, w: nat, tail: seq<byte>, depth: nat)
    requires w < 0x1_0000_0000
    ensures Fetch(s, FetchInt, Le(4, w) + tail, depth) == Fetched(IntV(Signed32(w)), tail)
  {
    assert w < Pow256(4) by { Pow256Values(); }
    NatRoundTrip(4, w, tail);
  }

  /** The object under construction before statement i: finished fields, then defaults. */
  predicate Partial(s: Schema, obj: Value, i: nat, acc: seq<Value>)
    requires obj.ObjV? && |obj.fields| == |ArgsOf(s, obj.typ, obj.con)|
  {
    var args := ArgsOf(s, obj.typ, obj.con);
    && |acc| == |args|
    && (forall j: nat | j < i && j < |args| :: acc[j] == NormField(s, obj, j))
    && (forall j: nat | i <= j < |args| :: args[j].Arg? && acc[j] == Default(s, args[j].tree))
  }

  /** What the round trip of the fields from i on must give. */
  function FieldsExpected(s: Schema, obj: Value, i: nat, tail: seq<byte>): Fetched<seq<Value>>
    requires obj.ObjV? && |obj.fields| == |ArgsOf(s, obj.typ, obj.con)| && i <= |obj.fields|
  {
    if FieldsFetchable(s, obj, i, |tail|) then Fetched(NormFields(s, obj), tail) else Failed
  }

  function Expected(s: Schema, tree: Tree, v: Value, tail: seq<byte>): Fetched<Value> {
    if Fetchable(s, tree, v, |tail|) then Fetched(Norm(s, tree, v), tail) else Failed
  }

  /** Statement i when argument i contributes no bytes. */
  lemma AbsentStep(s: Schema, obj: Value, i: nat, acc: seq<Value>, data: seq<byte>, depth: nat)
    requires obj.ObjV? && i < |obj.fields| == |ArgsOf(s, obj.typ, obj.con)|
    requires WfArg(s, ArgsOf(s, obj.typ, obj.con), i)
    requires !IsPresent(s, ArgsOf(s, obj.typ, obj.con), obj.fields, i)
    requires Partial(s, obj, i, acc)
    ensures var args := ArgsOf(s, obj.typ, obj.con);
            var acc' := acc[i := NormField(s, obj, i)];
            && Partial(s, obj, i + 1, acc')
            && FetchFields(s, args, i, acc, EnvAt(s, args, obj.fields, i), data, depth)
            == FetchFields(s, args, i + 1, acc', EnvAt(s, args, obj.fields, i + 1), data, depth)
  {
    var args := ArgsOf(s, obj.typ, obj.con);
    Emitted(s, args, i);
    GuardAgrees(s, args, obj.fields, i);
    if !IsTrueFlag(s, args[i]) {
      assert acc == acc[i := NormField(s, obj, i)];
    }
  }

  /** Statement i when argument i declares a flag variable. */
  lemma VarStep(s: Schema, obj: Value, i: nat, acc: seq<Value>, tail: seq<byte>, depth: nat)
    requires obj.ObjV? && i < |obj.fields| == |ArgsOf(s, obj.typ, obj.con)|
    requires WfSchema(s) && WfArgs(s, ArgsOf(s, obj.typ, obj.con)) && WfArg(s, ArgsOf(s, obj.typ, obj.con), i)
    requires ArgsOf(s, obj.typ, obj.con)[i].varNum.Some? && obj.fields[i].IntV?
    requires Partial(s, obj, i, acc)
    ensures var args := ArgsOf(s, obj.typ, obj.con);
            var w := Word(s, args, obj.fields, args[i].varNum.value);
            var acc' := acc[i := NormField(s, obj, i)];
            && Partial(s, obj, i + 1, acc')
            && FetchFields(s, args, i, acc, EnvAt(s, args, obj.fields, i), Le(4, w) + tail, depth)
            == if w >= 0x8000_0000 then Failed
               else FetchFields(s, args, i + 1, acc', EnvAt(s, args, obj.fields, i + 1), tail, depth)
  {
    var args := ArgsOf(s, obj.typ, obj.con);
    assert WfArg(s, args, i);
    Emitted(s, args, i);
    WordBound(s, args, obj.fields, args[i].varNum.value);
    var w := Word(s, args, obj.fields, args[i].varNum.value);
    NatFetchClass(s, args[i].tree);
    IntFetch(s, w, tail, depth);
    assert NormField(s, obj, i) == IntV(Signed32(w));
  }

  lemma NatFetchClass(s: Schema, tree: Tree)
    requires WfSchema(s) && tree.typ < |s.types| && s.types[tree.typ].name.NatT?
    ensures GenFullFetchClassName(s, tree) == FetchInt
  {
    assert WfType(s, s.types[tree.typ]);
  }

  /** Statement i when argument i holds an ordinary value that is stored. */
  lemma PresentStep(s: Schema, obj: Value, i: nat, acc: seq<Value>, piece: seq<byte>, tail: seq<byte>, depth: nat)
    requires obj.ObjV? && i < |obj.fields| == |ArgsOf(s, obj.typ, obj.con)|
    requires WfArg(s, ArgsOf(s, obj.typ, obj.con), i)
    requires ArgsOf(s, obj.typ, obj.con)[i].varNum.None?
    requires IsPresent(s, ArgsOf(s, obj.typ, obj.con), obj.fields, i)
    requires Partial(s, obj, i, acc)
    requires var tree := ArgsOf(s, obj.typ, obj.con)[i].tree;
             Fetch(s, GenFullFetchClassName(s, tree), piece + tail, depth) == Expected(s, tree, obj.fields[i], tail)
    ensures var args := ArgsOf(s, obj.typ, obj.con);
            var acc' := acc[i := NormField(s, obj, i)];
            && Partial(s, obj, i + 1, acc')
            && FetchFields(s, args, i, acc, EnvAt(s, args, obj.fields, i), piece + tail, depth)
            == if !Fetchable(s, args[i].tree, obj.fields[i], |tail|) then Failed
               else FetchFields(s, args, i + 1, acc', EnvAt(s, args, obj.fields, i + 1), tail, depth)
  {
    var args := ArgsOf(s, obj.typ, obj.con);
    Emitted(s, args, i);
    if args[i].exist.Some? {
      GuardAgrees(s, args, obj.fields, i);
    }
  }

  // ---------- the round trip ----------

  /** Running statement i on the bytes of arguments i.. leaves the bytes of arguments i+1... */
  predicate StepOk(s: Schema, obj: Value, i: nat, acc: seq<Value>, tail: seq<byte>, depth: nat)
    requires obj.ObjV? && i < |obj.fields| == |ArgsOf(s, obj.typ, obj.con)| == |acc|
  {
    var args := ArgsOf(s, obj.typ, obj.con);
    var acc' := acc[i := NormField(s, obj, i)];
    && Partial(s, obj, i + 1, acc')
    && FetchFields(s, args, i, acc, EnvAt(s, args, obj.fields, i), Suffix(s, obj, i) + tail, depth)
       == if !FieldFetchable(s, obj, i, |tail|) then Failed
          else FetchFields(s, args, i + 1, acc', EnvAt(s, args, obj.fields, i + 1), Suffix(s, obj, i + 1) + tail, depth)
  }

  lemma PieceThenRest(s: Schema, obj: Value, i: nat, tail: seq<byte>)
    requires obj.ObjV? && i < |obj.fields| == |ArgsOf(s, obj.typ, obj.con)|
    requires WfArg(s, ArgsOf(s, obj.typ, obj.con), i) && TypedField(s, ArgsOf(s, obj.typ, obj.con), obj, i)
    ensures Suffix(s, obj, i) + tail == Piece(s, obj, i) + (Suffix(s, obj, i + 1) + tail)
  {
    VarFieldIsInt(s, obj, i);
    StoreStep(s, obj, i);
  }

  lemma AbsentOk(s: Schema, obj: Value, i: nat, acc: seq<Value>, tail: seq<byte>, depth: nat)
    requires obj.ObjV? && i < |obj.fields| == |ArgsOf(s, obj.typ, obj.con)|
    requires WfArg(s, ArgsOf(s, obj.typ, obj.con), i) && TypedField(s, ArgsOf(s, obj.typ, obj.con), obj, i)
    requires !IsPresent(s, ArgsOf(s, obj.typ, obj.con), obj.fields, i)
    requires Partial(s, obj, i, acc)
    ensures StepOk(s, obj, i, acc, tail, depth)
  {
    PieceThenRest(s, obj, i, tail);
    var rest := Suffix(s, obj, i + 1) + tail;
    assert Piece(s, obj, i) + rest == rest;
    AbsentStep(s, obj, i, acc, rest, depth);
  }

  lemma VarOk(s: Schema, obj: Value, i: nat, acc: seq<Value>, tail: seq<byte>, depth: nat)
    requires obj.ObjV? && i < |obj.fields| == |ArgsOf(s, obj.typ, obj.con)|
    requires WfSchema(s) && WfArgs(s, ArgsOf(s, obj.typ, obj.con)) && WfArg(s, ArgsOf(s, obj.typ, obj.con), i)
    requires TypedField(s, ArgsOf(s, obj.typ, obj.con), obj, i) && ArgsOf(s, obj.typ, obj.con)[i].varNum.Some?
    requires Partial(s, obj, i, acc)
    ensures StepOk(s, obj, i, acc, tail, depth)
  {
    PieceThenRest(s, obj, i, tail);
    VarFieldIsInt(s, obj, i);
    Emitted(s, ArgsOf(s, obj.typ, obj.con), i);
    VarStep(s, obj, i, acc, Suffix(s, obj, i + 1) + tail, depth);
  }

  lemma {:induction false} PresentOk(s: Schema, obj: Value, i: nat, acc: seq<Value>, tail: seq<byte>, depth: nat)
    requires obj.ObjV? && i < |obj.fields| == |ArgsOf(s, obj.typ, obj.con)|
    requires WfSchema(s) && WfArg(s, ArgsOf(s, obj.typ, obj.con), i)
    requires TypedField(s, ArgsOf(s, obj.typ, obj.con), obj, i) && ArgsOf(s, obj.typ, obj.con)[i].varNum.None?
    requires IsPresent(s, ArgsOf(s, obj.typ, obj.con), obj.fields, i)
    requires Partial(s, obj, i, acc) && depth >= Depth(obj.fields[i])
    ensures StepOk(s, obj, i, acc, tail, depth)
    decreases obj, 0
  {
    PieceThenRest(s, obj, i, tail);
    var rest := Suffix(s, obj, i + 1) + tail;
    RoundTrip(s, ArgsOf(s, obj.typ, obj.con)[i].tree, obj.fields[i], rest, depth);
    PresentStep(s, obj, i, acc, Piece(s, obj, i), rest, depth);
  }

  lemma {:induction false} FieldStep(s: Schema, obj: Value, i: nat, acc: seq<Value>, tail: seq<byte>, depth: nat)
    requires WfSchema(s) && TypedObject(s, obj) && i < |obj.fields|
    requires Partial(s, obj, i, acc) && depth >= DepthAll(obj.fields)
    ensures StepOk(s, obj, i, acc, tail, depth)
    decreases obj, 1
  {
    var args := ArgsOf(s, obj.typ, obj.con);
    ObjectArgs(s, obj);
    assert WfArg(s, args, i) && TypedField(s, args, obj, i);
    if !IsPresent(s, args, obj.fields, i) {
      AbsentOk(s, obj, i, acc, tail, depth);
    } else if args[i].varNum.Some? {
      VarOk(s, obj, i, acc, tail, depth);
    } else {
      assert obj.fields[i] in obj.fields;
      PresentOk(s, obj, i, acc, tail, depth);
    }
  }

  lemma VarFieldIsInt(s: Schema, obj: Value, i: nat)
    requires obj.ObjV? && i < |obj.fields| == |ArgsOf(s, obj.typ, obj.con)|
    requires WfArg(s, ArgsOf(s, obj.typ, obj.con), i) && TypedField(s, ArgsOf(s, obj.typ, obj.con), obj, i)
    ensures ArgsOf(s, obj.typ, obj.con)[i].varNum.Some? ==> obj.fields[i].IntV?
  {
  }

  lemma PartialLength(s: Schema, obj: Value, i: nat, acc: seq<Value>)
    requires obj.ObjV? && |obj.fields| == |ArgsOf(s, obj.typ, obj.con)| && Partial(s, obj, i, acc)
    ensures |acc| == |obj.fields|
  {
  }

  lemma ExpectedStep(s: Schema, obj: Value, i: nat, tail: seq<byte>)
    requires obj.ObjV? && i < |obj.fields| == |ArgsOf(s, obj.typ, obj.con)|
    ensures FieldsExpected(s, obj, i, tail) ==
            if FieldFetchable(s, obj, i, |tail|) then FieldsExpected(s, obj, i + 1, tail) else Failed
  {
  }

  lemma FieldsDone(s: Schema, obj: Value, acc: seq<Value>, env: map<nat, nat>, tail: seq<byte>, depth: nat)
    requires obj.ObjV? && |obj.fields| == |ArgsOf(s, obj.typ, obj.con)| && Partial(s, obj, |obj.fields|, acc)
    ensures FetchFields(s, ArgsOf(s, obj.typ, obj.con), |obj.fields|, acc, env, Suffix(s, obj, |obj.fields|) + tail, depth)
         == FieldsExpected(s, obj, |obj.fields|, tail)
  {
    assert acc == NormFields(s, obj);
    assert Suffix(s, obj, |obj.fields|) + tail == tail;
  }

  lemma {:induction false} FieldsRoundTrip(s: Schema, obj: Value, i: nat, acc: seq<Value>, tail: seq<byte>, depth: nat)
    requires WfSchema(s) && TypedObject(s, obj) && i <= |obj.fields|
    requires Partial(s, obj, i, acc) && depth >= DepthAll(obj.fields)
    ensures FetchFields(s, ArgsOf(s, obj.typ, obj.con), i, acc,
                        EnvAt(s, ArgsOf(s, obj.typ, obj.con), obj.fields, i), Suffix(s, obj, i) + tail, depth)
         == FieldsExpected(s, obj, i, tail)
    decreases obj, 2, |obj.fields| - i
  {
    hide FetchFields, FieldsExpected, EnvAt, Suffix, WfSchema, NormField, FieldFetchable, DepthAll, Partial, TypedObject, ArgsOf;
    ObjectIsObject(s, obj);
    if i == |obj.fields| {
      FieldsDone(s, obj, acc, EnvAt(s, ArgsOf(s, obj.typ, obj.con), obj.fields, i), tail, depth);
    } else {
      PartialLength(s, obj, i, acc);
      FieldStep(s, obj, i, acc, tail, depth);
      FieldsRoundTrip(s, obj, i + 1, acc[i := NormField(s, obj, i)], tail, depth);
      ExpectedStep(s, obj, i, tail);
    }
  }

  lemma {:induction false} ObjectRoundTrip(s: Schema, obj: Value, tail: seq<byte>, depth: nat)
    requires WfSchema(s) && TypedObject(s, obj) && depth >= DepthAll(obj.fields)
    ensures FetchConstructor(s, obj.typ, obj.con, StoreFields(s, obj, 0, map[]) + tail, depth)
         == if FieldsFetchable(s, obj, 0, |tail|) then Fetched(ObjV(obj.typ, obj.con, NormFields(s, obj)), tail)
            else Failed
    decreases obj, 3
  {
    var args := ArgsOf(s, obj.typ, obj.con);
    ObjectArgs(s, obj);
    assert forall j: nat | j < |args| :: WfArg(s, args, j);
    FieldsRoundTrip(s, obj, 0, Defaults(s, args), tail, depth);
  }

  lemma ElemsCons(s: Schema, cls: FetchClass, n: nat, data: seq<byte>, depth: nat, head: Fetched<Value>)
    requires Fetch(s, cls, data, depth) == head
    ensures head.Failed? ==> FetchElems(s, cls, n + 1, data, depth) == Failed
    ensures head.Fetched? && FetchElems(s, cls, n, head.rest, depth).Failed? ==>
              FetchElems(s, cls, n + 1, data, depth) == Failed
    ensures head.Fetched? && FetchElems(s, cls, n, head.rest, depth).Fetched? ==>
              FetchElems(s, cls, n + 1, data, depth)
              == Fetched([head.value] + FetchElems(s, cls, n, head.rest, depth).value,
                         FetchElems(s, cls, n, head.rest, depth).rest)
  {
  }

  function ElemsExpected(s: Schema, tree: Tree, vs: seq<Value>, tail: seq<byte>): Fetched<seq<Value>> {
    if ElemsFetchable(s, tree, vs, |tail|) then Fetched(NormElems(s, tree, vs), tail) else Failed
  }

  /** The bytes of a vector's elements, first element apart. */
  lemma ElemsBytes(s: Schema, cls: StoreClass, vs: seq<Value>, tail: seq<byte>)
    requires vs != []
    ensures StoreElems(s, cls, vs) + tail == Store(s, cls, vs[0]) + (StoreElems(s, cls, vs[1..]) + tail)
  {
  }

  lemma ElemsExpectedCons(s: Schema, tree: Tree, vs: seq<Value>, tail: seq<byte>)
    requires vs != []
    ensures var rest := StoreElems(s, GenFullStoreClassName(s, tree), vs[1..]) + tail;
            var head, more := Expected(s, tree, vs[0], rest), ElemsExpected(s, tree, vs[1..], tail);
            && (head.Failed? || more.Failed? ==> ElemsExpected(s, tree, vs, tail) == Failed)
            && (head.Fetched? && more.Fetched? ==>
                  ElemsExpected(s, tree, vs, tail) == Fetched([head.value] + more.value, tail))
  {
    hide Fetchable, Norm, Store, GenFullStoreClassName;
  }

  lemma {:induction false} ElemsRoundTrip(s: Schema, tree: Tree, vs: seq<Value>, tail: seq<byte>, depth: nat)
    requires WfSchema(s) && WfTree(s, tree)
    requires (forall v | v in vs :: Typed(s, tree, v)) && depth >= DepthAll(vs)
    ensures FetchElems(s, GenFullFetchClassName(s, tree), |vs|,
                       StoreElems(s, GenFullStoreClassName(s, tree), vs) + tail, depth)
         == ElemsExpected(s, tree, vs, tail)
    decreases vs, 4
  {
    var cls := GenFullStoreClassName(s, tree);
    if vs == [] {
      assert StoreElems(s, cls, vs) + tail == tail;
    } else {
      assert vs[0] in vs;
      var rest := StoreElems(s, cls, vs[1..]) + tail;
      ElemsBytes(s, cls, vs, tail);
      RoundTrip(s, tree, vs[0], rest, depth);
      ElemsRoundTrip(s, tree, vs[1..], tail, depth);
      ElemsCons(s, GenFullFetchClassName(s, tree), |vs| - 1, Store(s, cls, vs[0]) + rest, depth,
                Expected(s, tree, vs[0], rest));
      ElemsExpectedCons(s, tree, vs, tail);
    }
  }

  lemma {:induction false} VectorRoundTrip(s: Schema, tree: Tree, v: Value, tail: seq<byte>, depth: nat)
    requires WfSchema(s) && WfTree(s, tree) && Typed(s, tree, v) && depth >= Depth(v)
    requires s.types[tree.typ].name.VectorT?
    ensures Fetch(s, GenFetchClassName(s, tree), Store(s, GenStoreClassName(s, tree), v) + tail, depth)
         == Expected(s, tree, v, tail)
    decreases v, 5
  {
    hide StoreElems, FetchElems, Le, FetchNat, GenFullStoreClassName, GenFullFetchClassName, WfSchema;
    var child := tree.children[0];
    var cls := GenFullStoreClassName(s, child);
    var rest := StoreElems(s, cls, v.elems) + tail;
    assert Store(s, GenStoreClassName(s, tree), v) + tail == Le(4, |v.elems|) + rest;
    assert |v.elems| < Pow256(4) by { Pow256Values(); }
    NatRoundTrip(4, |v.elems|, rest);
    ElemsRoundTrip(s, child, v.elems, tail, depth);
  }

  lemma ScalarRoundTrip(s: Schema, tree: Tree, v: Value, tail: seq<byte>, depth: nat)
    requires WfTree(s, tree) && Typed(s, tree, v)
    requires !s.types[tree.typ].name.VectorT? && !s.types[tree.typ].name.Custom?
    ensures Fetch(s, GenFetchClassName(s, tree), Store(s, GenStoreClassName(s, tree), v) + tail, depth)
         == Expected(s, tree, v, tail)
  {
    Pow256Values();
    match v
    case IntV(i) => NatRoundTrip(4, Unsigned32(i), tail);
    case LongV(l) => NatRoundTrip(8, Unsigned64(l), tail);
    case StrV(str) => StrRoundTrip(str, tail);
    case BoolV(b) => NatRoundTrip(4, if b then BOOL_TRUE else BOOL_FALSE, tail);
    case RawV(raw) => assert (raw + tail)[..|raw|] == raw;
  }

  lemma {:induction false} SwitchFinds(s: Schema, t: TlType, cases: seq<nat>, con: nat)
    requires con in cases && forall k | k in cases :: k < |t.constructors|
    requires forall i, j | i in cases && j in cases && i != j :: t.constructors[i].id != t.constructors[j].id
    ensures SwitchCase(t, cases, Unsigned32(t.constructors[con].id)) == Some(con)
  {
    assert cases[0] in cases;
    assert forall k | k in cases[1..] :: k in cases;
    if cases[0] != con {
      assert con in cases[1..];
      SwitchFinds(s, t, cases[1..], con);
    }
  }

  /** An id in front of the fields selects its constructor when there are several. */
  lemma SwitchDispatches(s: Schema, t: nat, con: nat, rest: seq<byte>)
    requires WfSchema(s) && t < |s.types| && s.types[t].name.Custom?
    requires |Supported(s, s.types[t])| > 1 && con in Supported(s, s.types[t])
    ensures Dispatch(s, t, Le(4, Unsigned32(IdOf(s, t, con))) + rest) == Fetched(con, rest)
  {
    assert WfType(s, s.types[t]);
    var id := Unsigned32(IdOf(s, t, con));
    assert id < Pow256(4) by { Pow256Values(); }
    NatRoundTrip(4, id, rest);
    SwitchFinds(s, s.types[t], Supported(s, s.types[t]), con);
  }

  lemma TypedCustom(s: Schema, tree: Tree, v: Value)
    requires tree.typ < |s.types| && s.types[tree.typ].name.Custom? && Typed(s, tree, v)
    ensures TypedObject(s, v) && v.typ == tree.typ && Depth(v) == 1 + DepthAll(v.fields)
  {
    assert ArgsOf(s, v.typ, v.con) == s.types[v.typ].constructors[v.con].args;
  }

  /** An object without a constructor id in front. */
  lemma {:induction false} BodyRoundTrip(s: Schema, tree: Tree, v: Value, tail: seq<byte>, depth: nat)
    requires WfSchema(s) && TypedObject(s, v) && v.typ == tree.typ && depth >= DepthAll(v.fields)
    ensures FetchConstructor(s, v.typ, v.con, Store(s, StoreObject, v) + tail, depth) == Expected(s, tree, v, tail)
    decreases v, 4
  {
    ObjectRoundTrip(s, v, tail, depth);
  }

  lemma FetchVia(s: Schema, t: nat, con: nat, data: seq<byte>, rest: seq<byte>, depth: nat, r: Fetched<Value>)
    requires depth > 0 && Dispatch(s, t, data) == Fetched(con, rest)
    requires FetchConstructor(s, t, con, rest, depth - 1) == r
    ensures Fetch(s, FetchObject(t), data, depth) == r
  {
  }

  lemma ObjectIsObject(s: Schema, v: Value)
    requires TypedObject(s, v)
    ensures v.ObjV? && |v.fields| == |ArgsOf(s, v.typ, v.con)|
  {
  }

  /** Bytes that dispatch to the class of v, whatever stands in front of its fields. */
  lemma {:induction false} DispatchedRoundTrip(s: Schema, tree: Tree, v: Value, data: seq<byte>, rest: seq<byte>,
                                               tail: seq<byte>, depth: nat, r: Fetched<Value>)
    requires WfSchema(s) && TypedObject(s, v) && v.typ == tree.typ && depth > DepthAll(v.fields)
    requires rest == Store(s, StoreObject, v) + tail && Dispatch(s, tree.typ, data) == Fetched(v.con, rest)
    requires r == Expected(s, tree, v, tail)
    ensures Fetch(s, FetchObject(tree.typ), data, depth) == r
    decreases v, 5
  {
    hide *;
    ObjectIsObject(s, v);
    BodyRoundTrip(s, tree, v, tail, depth - 1);
    FetchVia(s, tree.typ, v.con, data, rest, depth, r);
  }

  lemma UnknownIdBytes(s: Schema, v: Value, tail: seq<byte>)
    requires v.ObjV?
    ensures Store(s, StoreBoxedUnknown(StoreObject), v) + tail
         == Le(4, Unsigned32(IdOf(s, v.typ, v.con))) + (Store(s, StoreObject, v) + tail)
  {
  }

  /** An object of a type with one supported constructor. */
  lemma {:induction false} SingleRoundTrip(s: Schema, tree: Tree, v: Value, tail: seq<byte>, depth: nat)
    requires WfSchema(s) && TypedObject(s, v) && v.typ == tree.typ && depth > DepthAll(v.fields)
    requires |Supported(s, s.types[tree.typ])| == 1
    ensures Fetch(s, FetchObject(tree.typ), Store(s, StoreObject, v) + tail, depth) == Expected(s, tree, v, tail)
    decreases v, 6
  {
    assert Supported(s, s.types[v.typ])[0] == v.con;
    var rest := Store(s, StoreObject, v) + tail;
    DispatchedRoundTrip(s, tree, v, rest, rest, tail, depth, Expected(s, tree, v, tail));
  }

  /** An object of a type with several constructors, behind the id that selects its class. */
  lemma {:induction false} ManyRoundTrip(s: Schema, tree: Tree, v: Value, tail: seq<byte>, depth: nat)
    requires WfSchema(s) && TypedObject(s, v) && v.typ == tree.typ && depth > DepthAll(v.fields)
    requires |Supported(s, s.types[tree.typ])| > 1
    ensures Fetch(s, FetchObject(tree.typ), Store(s, StoreBoxedUnknown(StoreObject), v) + tail, depth)
         == Expected(s, tree, v, tail)
    decreases v, 6
  {
    UnknownIdBytes(s, v, tail);
    var data, rest := Store(s, StoreBoxedUnknown(StoreObject), v) + tail, Store(s, StoreObject, v) + tail;
    SwitchDispatches(s, v.typ, v.con, rest);
    DispatchedRoundTrip(s, tree, v, data, rest, tail, depth, Expected(s, tree, v, tail));
  }

  lemma Boxed(s: Schema, scls: StoreClass, fcls: FetchClass, id: int32, v: Value, tail: seq<byte>, depth: nat)
    ensures Fetch(s, FetchBoxed(fcls, id), Store(s, StoreBoxed(scls, id), v) + tail, depth)
         == Fetch(s, fcls, Store(s, scls, v) + tail, depth)
  {
    var rest := Store(s, scls, v) + tail;
    assert Store(s, StoreBoxed(scls, id), v) + tail == Le(4, Unsigned32(id)) + rest;
    assert Unsigned32(id) < Pow256(4) by { Pow256Values(); }
    NatRoundTrip(4, Unsigned32(id), rest);
  }

  /** The storer and the parser agree on whether, and with which id, a use of a type is boxed. */
  lemma BoxingAgrees(s: Schema, tree: Tree)
    requires WfSchema(s) && WfTree(s, tree)
    ensures var sc, fc := GenStoreClassName(s, tree), GenFetchClassName(s, tree);
            var full, ffull := GenFullStoreClassName(s, tree), GenFullFetchClassName(s, tree);
            || (full == sc && ffull == fc &&
                (s.types[tree.typ].name.Custom? ==> |Supported(s, s.types[tree.typ])| == 1))
            || (full.StoreBoxed? && full.inner == sc && ffull == FetchBoxed(fc, full.id) &&
                (s.types[tree.typ].name.Custom? ==> |Supported(s, s.types[tree.typ])| == 1))
            || (full == StoreBoxedUnknown(sc) && ffull == fc &&
                s.types[tree.typ].name.Custom? && |Supported(s, s.types[tree.typ])| > 1)
  {
    assert WfType(s, s.types[tree.typ]);
  }

  lemma {:induction false} PlainRoundTrip(s: Schema, tree: Tree, v: Value, tail: seq<byte>, depth: nat)
    requires WfSchema(s) && WfTree(s, tree) && Typed(s, tree, v) && depth >= Depth(v)
    requires s.types[tree.typ].name.Custom? ==> |Supported(s, s.types[tree.typ])| == 1
    ensures Fetch(s, GenFetchClassName(s, tree), Store(s, GenStoreClassName(s, tree), v) + tail, depth)
         == Expected(s, tree, v, tail)
    decreases v, 7
  {
    if s.types[tree.typ].name.VectorT? {
      VectorRoundTrip(s, tree, v, tail, depth);
    } else if s.types[tree.typ].name.Custom? {
      TypedCustom(s, tree, v);
      SingleRoundTrip(s, tree, v, tail, depth);
    } else {
      ScalarRoundTrip(s, tree, v, tail, depth);
    }
  }

  /**
   Generated parse after generated store, followed by any bytes: the normalised
   value and exactly the tail when the value is fetchable, an error otherwise.
   */
  lemma {:induction false} RoundTrip(s: Schema, tree: Tree, v: Value, tail: seq<byte>, depth: nat)
    requires WfSchema(s) && WfTree(s, tree) && Typed(s, tree, v) && depth >= Depth(v)
    ensures Fetch(s, GenFullFetchClassName(s, tree), Store(s, GenFullStoreClassName(s, tree), v) + tail, depth)
         == if Fetchable(s, tree, v, |tail|) then Fetched(Norm(s, tree, v), tail) else Failed
    decreases v, 8
  {
    BoxingAgrees(s, tree);
    var sc, fc := GenStoreClassName(s, tree), GenFetchClassName(s, tree);
    var full := GenFullStoreClassName(s, tree);
    if full == StoreBoxedUnknown(sc) {
      TypedCustom(s, tree, v);
      ManyRoundTrip(s, tree, v, tail, depth);
    } else {
      PlainRoundTrip(s, tree, v, tail, depth);
      if full != sc {
        Boxed(s, sc, fc, full.id, v, tail, depth);
      }
    }
  }

  // ---------- storing again ----------

  lemma {:induction false} OrAllIdle(w: nat, bits: seq<(nat, nat)>, fields: seq<Value>)
    requires forall p | p in bits :: p.0 < |fields| && fields[p.0] == BoolV(true) ==> Bit(w, p.1)
    ensures OrAll(w, bits, fields) == w
    decreases |bits|
  {
    if bits != [] {
      assert bits[0] in bits;
      OrBitIdle(w, bits[0].1, bits[0].0 < |fields| && fields[bits[0].0] == BoolV(true));
      OrAllIdle(w, bits[1..], fields);
    }
  }

  /** A flag word that has absorbed its `true` fields is stable. */
  lemma WordNorm(s: Schema, obj: Value, v: nat)
    requires obj.ObjV? && |obj.fields| == |ArgsOf(s, obj.typ, obj.con)|
    requires WfArgs(s, ArgsOf(s, obj.typ, obj.con))
    requires exists j: nat :: j < |obj.fields| && DeclaresVar(ArgsOf(s, obj.typ, obj.con)[j], v)
    ensures Word(s, ArgsOf(s, obj.typ, obj.con), NormFields(s, obj), v)
         == Word(s, ArgsOf(s, obj.typ, obj.con), obj.fields, v)
  {
    var args := ArgsOf(s, obj.typ, obj.con);
    var nf := NormFields(s, obj);
    var w := Word(s, args, obj.fields, v);
    var k := DeclIndex(args, v);
    WordBound(s, args, obj.fields, v);
    assert WfArg(s, args, k);
    Emitted(s, args, k);
    assert nf[k] == NormField(s, obj, k) == IntV(Signed32(w));
    var bits := TrueBits(s, args, v, 0);
    forall p | p in bits
      ensures p.0 < |nf| && nf[p.0] == BoolV(true) ==> Bit(w, p.1)
    {
      assert nf[p.0] == NormField(s, obj, p.0);
    }
    OrAllIdle(w, bits, nf);
  }

  lemma PresenceNorm(s: Schema, obj: Value, i: nat)
    requires obj.ObjV? && i < |obj.fields| == |ArgsOf(s, obj.typ, obj.con)|
    requires WfArgs(s, ArgsOf(s, obj.typ, obj.con))
    ensures IsPresent(s, ArgsOf(s, obj.typ, obj.con), NormFields(s, obj), i)
        <==> IsPresent(s, ArgsOf(s, obj.typ, obj.con), obj.fields, i)
  {
    var args := ArgsOf(s, obj.typ, obj.con);
    assert WfArg(s, args, i);
    if args[i].exist.Some? {
      WordNorm(s, obj, args[i].exist.value.v);
    }
  }

  lemma {:induction false} PieceNorm(s: Schema, obj: Value, nobj: Value, i: nat)
    requires WfSchema(s) && TypedObject(s, obj) && i < |obj.fields|
    requires nobj == ObjV(obj.typ, obj.con, NormFields(s, obj))
    ensures Piece(s, nobj, i) == Piece(s, obj, i)
    decreases obj, 0
  {
    var args := ArgsOf(s, obj.typ, obj.con);
    ObjectArgs(s, obj);
    assert WfArg(s, args, i) && TypedField(s, args, obj, i);
    PresenceNorm(s, obj, i);
    if IsPresent(s, args, obj.fields, i) {
      if args[i].varNum.Some? {
        assert DeclaresVar(args[i], args[i].varNum.value);
        WordNorm(s, obj, args[i].varNum.value);
      } else {
        assert NormFields(s, obj)[i] == Norm(s, args[i].tree, obj.fields[i]);
        StoreNorm(s, args[i].tree, obj.fields[i]);
      }
    }
  }

  lemma NormVarIsInt(s: Schema, obj: Value, i: nat)
    requires obj.ObjV? && i < |obj.fields| == |ArgsOf(s, obj.typ, obj.con)|
    requires WfArgs(s, ArgsOf(s, obj.typ, obj.con)) && WfArg(s, ArgsOf(s, obj.typ, obj.con), i)
    ensures ArgsOf(s, obj.typ, obj.con)[i].varNum.Some? ==> NormFields(s, obj)[i].IntV?
  {
    var args := ArgsOf(s, obj.typ, obj.con);
    if args[i].varNum.Some? {
      WordBound(s, args, obj.fields, args[i].varNum.value);
      Emitted(s, args, i);
      assert NormFields(s, obj)[i] == NormField(s, obj, i);
    }
  }

  function PieceList(s: Schema, obj: Value): (r: seq<seq<byte>>)
    requires obj.ObjV? && |obj.fields| == |ArgsOf(s, obj.typ, obj.con)|
    ensures |r| == |obj.fields|
  {
    seq(|obj.fields|, i requires 0 <= i < |obj.fields| => Piece(s, obj, i))
  }

  /** The pieces from i on, one after the other. */
  function Join(pieces: seq<seq<byte>>, i: nat): seq<byte>
    requires i <= |pieces|
    decreases |pieces| - i
  {
    if i == |pieces| then [] else pieces[i] + Join(pieces, i + 1)
  }

  /** Field i is stored in front of the rest. */
  predicate Splits(s: Schema, obj: Value, i: nat)
    requires obj.ObjV? && i < |obj.fields| == |ArgsOf(s, obj.typ, obj.con)|
  {
    Suffix(s, obj, i) == Piece(s, obj, i) + Suffix(s, obj, i + 1)
  }

  lemma SuffixDone(s: Schema, obj: Value, i: nat)
    requires obj.ObjV? && i == |obj.fields| == |ArgsOf(s, obj.typ, obj.con)|
    ensures Suffix(s, obj, i) == []
  {
  }

  /** Suffixes that each start with their piece are the joined pieces. */
  lemma {:induction false} Telescopes(pieces: seq<seq<byte>>, suffixes: seq<seq<byte>>, i: nat)
    requires |suffixes| == |pieces| + 1 && i <= |pieces| && suffixes[|pieces|] == []
    requires forall j: nat | j < |pieces| :: suffixes[j] == pieces[j] + suffixes[j + 1]
    ensures suffixes[i] == Join(pieces, i)
    decreases |pieces| - i
  {
    if i < |pieces| {
      Telescopes(pieces, suffixes, i + 1);
    }
  }

  lemma SuffixIsPieces(s: Schema, obj: Value)
    requires obj.ObjV? && |obj.fields| == |ArgsOf(s, obj.typ, obj.con)|
    requires forall j: nat | j < |obj.fields| :: Splits(s, obj, j)
    ensures Suffix(s, obj, 0) == Join(PieceList(s, obj), 0)
  {
    hide Suffix, Piece, Join;
    var n := |obj.fields|;
    var pieces := PieceList(s, obj);
    var suffixes := seq(n + 1, i requires 0 <= i <= n => Suffix(s, obj, i));
    SuffixDone(s, obj, n);
    forall j: nat | j < n
      ensures suffixes[j] == pieces[j] + suffixes[j + 1]
    {
      assert Splits(s, obj, j);
    }
    Telescopes(pieces, suffixes, 0);
  }

  lemma {:induction false} PiecesNorm(s: Schema, obj: Value, nobj: Value)
    requires WfSchema(s) && TypedObject(s, obj)
    requires nobj == ObjV(obj.typ, obj.con, NormFields(s, obj))
    ensures PieceList(s, nobj) == PieceList(s, obj)
    decreases obj, 1
  {
    forall i: nat | i < |obj.fields|
      ensures PieceList(s, nobj)[i] == PieceList(s, obj)[i]
    {
      PieceNorm(s, obj, nobj, i);
    }
  }

  lemma BothSplit(s: Schema, obj: Value, nobj: Value)
    requires WfSchema(s) && TypedObject(s, obj) && nobj == ObjV(obj.typ, obj.con, NormFields(s, obj))
    ensures forall i: nat | i < |obj.fields| :: Splits(s, obj, i) && Splits(s, nobj, i)
  {
    var args := ArgsOf(s, obj.typ, obj.con);
    ObjectArgs(s, obj);
    forall i: nat | i < |obj.fields|
      ensures Splits(s, obj, i) && Splits(s, nobj, i)
    {
      assert WfArg(s, args, i) && TypedField(s, args, obj, i);
      VarFieldIsInt(s, obj, i);
      NormVarIsInt(s, obj, i);
      StoreStep(s, obj, i);
      StoreStep(s, nobj, i);
    }
  }

  lemma {:induction false} FieldsNorm(s: Schema, obj: Value, nobj: Value)
    requires WfSchema(s) && TypedObject(s, obj)
    requires nobj == ObjV(obj.typ, obj.con, NormFields(s, obj))
    ensures Suffix(s, nobj, 0) == Suffix(s, obj, 0)
    decreases obj, 2
  {
    BothSplit(s, obj, nobj);
    SuffixIsPieces(s, obj);
    SuffixIsPieces(s, nobj);
    PiecesNorm(s, obj, nobj);
  }

  lemma {:induction false} ElemsNorm(s: Schema, tree: Tree, vs: seq<Value>)
    requires WfSchema(s) && WfTree(s, tree) && forall v | v in vs :: Typed(s, tree, v)
    ensures StoreElems(s, GenFullStoreClassName(s, tree), NormElems(s, tree, vs))
         == StoreElems(s, GenFullStoreClassName(s, tree), vs)
    decreases vs, 4
  {
    if vs != [] {
      assert vs[0] in vs;
      StoreNorm(s, tree, vs[0]);
      ElemsNorm(s, tree, vs[1..]);
      assert NormElems(s, tree, vs)[1..] == NormElems(s, tree, vs[1..]);
    }
  }

  lemma {:induction false} PlainNorm(s: Schema, tree: Tree, v: Value)
    requires WfSchema(s) && WfTree(s, tree) && Typed(s, tree, v)
    ensures Store(s, GenStoreClassName(s, tree), Norm(s, tree, v)) == Store(s, GenStoreClassName(s, tree), v)
    decreases v, 5
  {
    if s.types[tree.typ].name.VectorT? {
      ElemsNorm(s, tree.children[0], v.elems);
    } else if s.types[tree.typ].name.Custom? {
      TypedCustom(s, tree, v);
      FieldsNorm(s, v, ObjV(v.typ, v.con, NormFields(s, v)));
    }
  }

  /** Boxing adds the same bytes to two values of one constructor. */
  lemma BoxingKeeps(s: Schema, full: StoreClass, plain: StoreClass, v: Value, w: Value)
    requires full == plain || full == StoreBoxedUnknown(plain) || (full.StoreBoxed? && full.inner == plain)
    requires v.ObjV? <==> w.ObjV?
    requires v.ObjV? ==> v.typ == w.typ && v.con == w.con
    requires Store(s, plain, w) == Store(s, plain, v)
    ensures Store(s, full, w) == Store(s, full, v)
  {
  }

  /** What a round trip returns stores to the same bytes: store after fetch after store is store. */
  lemma {:induction false} StoreNorm(s: Schema, tree: Tree, v: Value)
    requires WfSchema(s) && WfTree(s, tree) && Typed(s, tree, v)
    ensures Store(s, GenFullStoreClassName(s, tree), Norm(s, tree, v)) == Store(s, GenFullStoreClassName(s, tree), v)
    decreases v, 6
  {
    PlainNorm(s, tree, v);
    BoxingAgrees(s, tree);
    BoxingKeeps(s, GenFullStoreClassName(s, tree), GenStoreClassName(s, tree), v, Norm(s, tree, v));
  }

  // ---------- what fetchable means ----------

  lemma {:induction false} FieldFetchableMonotone(s: Schema, obj: Value, i: nat, a: nat, b: nat)
    requires obj.ObjV? && i < |obj.fields| == |ArgsOf(s, obj.typ, obj.con)| && a <= b
    requires FieldFetchable(s, obj, i, a)
    ensures FieldFetchable(s, obj, i, b)
    decreases obj, 0
  {
    var args := ArgsOf(s, obj.typ, obj.con);
    if IsPresent(s, args, obj.fields, i) && args[i].varNum.None? {
      var n := |Suffix(s, obj, i + 1)|;
      FetchableMonotone(s, args[i].tree, obj.fields[i], n + a, n + b);
    }
  }

  lemma {:induction false} FieldsFetchableMonotone(s: Schema, obj: Value, i: nat, a: nat, b: nat)
    requires obj.ObjV? && |obj.fields| == |ArgsOf(s, obj.typ, obj.con)| && i <= |obj.fields| && a <= b
    requires FieldsFetchable(s, obj, i, a)
    ensures FieldsFetchable(s, obj, i, b)
    decreases obj, 1, |obj.fields| - i
  {
    if i < |obj.fields| {
      FieldFetchableMonotone(s, obj, i, a, b);
      FieldsFetchableMonotone(s, obj, i + 1, a, b);
    }
  }

  lemma {:induction false} ElemsFetchableMonotone(s: Schema, tree: Tree, vs: seq<Value>, a: nat, b: nat)
    requires a <= b && ElemsFetchable(s, tree, vs, a)
    ensures ElemsFetchable(s, tree, vs, b)
    decreases vs, 3
  {
    if vs != [] {
      var n := |StoreElems(s, GenFullStoreClassName(s, tree), vs[1..])|;
      FetchableMonotone(s, tree, vs[0], n + a, n + b);
      ElemsFetchableMonotone(s, tree, vs[1..], a, b);
    }
  }

  lemma {:induction false} FetchableMonotone(s: Schema, tree: Tree, v: Value, a: nat, b: nat)
    requires a <= b && Fetchable(s, tree, v, a)
    ensures Fetchable(s, tree, v, b)
    decreases v, 2
  {
    if v.VecV? && |tree.children| == 1 {
      ElemsFetchableMonotone(s, tree.children[0], v.elems, a, b);
    } else if v.ObjV? && |v.fields| == |ArgsOf(s, v.typ, v.con)| {
      FieldsFetchableMonotone(s, v, 0, a, b);
    }
  }

  predicate RoundTrips(s: Schema, tree: Tree, v: Value, tail: seq<byte>, depth: nat) {
    Fetch(s, GenFullFetchClassName(s, tree), Store(s, GenFullStoreClassName(s, tree), v) + tail, depth)
    == Fetched(Norm(s, tree, v), tail)
  }

  /** The round trip works in front of every tail if and only if the value is fetchable with nothing behind it. */
  lemma RoundTripAnyTail(s: Schema, tree: Tree, v: Value, depth: nat)
    requires WfSchema(s) && WfTree(s, tree) && Typed(s, tree, v) && depth >= Depth(v)
    ensures Fetchable(s, tree, v, 0) <==> forall tail :: RoundTrips(s, tree, v, tail, depth)
  {
    if Fetchable(s, tree, v, 0) {
      forall tail: seq<byte>
        ensures RoundTrips(s, tree, v, tail, depth)
      {
        FetchableMonotone(s, tree, v, 0, |tail|);
        RoundTrip(s, tree, v, tail, depth);
      }
    } else {
      RoundTrip(s, tree, v, [], depth);
      assert !RoundTrips(s, tree, v, [], depth);
    }
  }

  /** Vector, and a type whose only constructor has no arguments. */
  const EMPTY_SCHEMA := Schema([TlType(VectorT, false, [Combinator(0x1cb5c415, [])]),
                                TlType(Custom("Empty"), false, [Combinator(1, [])])])
  const EMPTY_VECTOR := Tree(0, true, [Tree(1, true, [])])
  const EMPTY_ELEMENT := ObjV(1, 0, [])

  lemma EmptySupported()
    ensures Supported(EMPTY_SCHEMA, EMPTY_SCHEMA.types[1]) == [0]
  {
    var s := EMPTY_SCHEMA;
    assert CombinatorSupported(s, s.types[1].constructors[0]);
    assert SupportedUpTo(s, s.types[1], 0) == [];
  }

  lemma EmptySchemaWf()
    ensures WfSchema(EMPTY_SCHEMA) && WfTree(EMPTY_SCHEMA, EMPTY_VECTOR)
    ensures Supported(EMPTY_SCHEMA, EMPTY_SCHEMA.types[1]) == [0]
  {
    hide Supported, SupportedUpTo, CombinatorSupported;
    var s := EMPTY_SCHEMA;
    EmptySupported();
    assert WfType(s, s.types[0]) && WfType(s, s.types[1]);
    assert WfTree(s, Tree(1, true, []));
  }

  lemma EmptyElementTyped()
    ensures Typed(EMPTY_SCHEMA, EMPTY_VECTOR, VecV([EMPTY_ELEMENT]))
  {
    EmptySchemaWf();
    assert Typed(EMPTY_SCHEMA, Tree(1, true, []), EMPTY_ELEMENT);
  }

  lemma EmptyElementBytes()
    ensures StoreElems(EMPTY_SCHEMA, GenFullStoreClassName(EMPTY_SCHEMA, Tree(1, true, [])), [EMPTY_ELEMENT]) == []
  {
    assert StoreFields(EMPTY_SCHEMA, EMPTY_ELEMENT, 0, map[]) == [];
    assert Store(EMPTY_SCHEMA, StoreObject, EMPTY_ELEMENT) == [];
    assert StoreElems(EMPTY_SCHEMA, StoreObject, []) == [];
  }

  lemma EmptyElementNotFetchable()
    ensures !Fetchable(EMPTY_SCHEMA, EMPTY_VECTOR, VecV([EMPTY_ELEMENT]), 0)
    ensures Depth(VecV([EMPTY_ELEMENT])) == 1
  {
    EmptyElementBytes();
    assert Depth(EMPTY_ELEMENT) == 1;
    assert DepthAll([EMPTY_ELEMENT]) == 1;
  }

  /**
   The unconditional round trip is false: a vector of one element that takes no
   bytes is stored as its length alone, and the length check rejects it.
   */
  lemma EmptyElementCounterexample()
    ensures WfSchema(EMPTY_SCHEMA) && WfTree(EMPTY_SCHEMA, EMPTY_VECTOR)
    ensures Typed(EMPTY_SCHEMA, EMPTY_VECTOR, VecV([EMPTY_ELEMENT]))
    ensures !forall tail :: RoundTrips(EMPTY_SCHEMA, EMPTY_VECTOR, VecV([EMPTY_ELEMENT]), tail, 1)
  {
    EmptySchemaWf();
    EmptyElementTyped();
    EmptyElementNotFetchable();
    RoundTripAnyTail(EMPTY_SCHEMA, EMPTY_VECTOR, VecV([EMPTY_ELEMENT]), 1);
  }

  lemma {:induction false} FetchableFields(s: Schema, obj: Value, i: nat, k: nat, after: nat)
    requires obj.ObjV? && k <= i < |obj.fields| == |ArgsOf(s, obj.typ, obj.con)| && FieldsFetchable(s, obj, k, after)
    ensures FieldFetchable(s, obj, i, after)
    decreases i - k
  {
    if k < i {
      FetchableFields(s, obj, i, k + 1, after);
    }
  }

  /** Field i of the object declares a flag word, and the word that is stored for it has the sign bit. */
  predicate LargeFlags(s: Schema, v: Value, i: nat) {
    && TypedObject(s, v) && i < |v.fields| && ArgsOf(s, v.typ, v.con)[i].varNum.Some?
    && Word(s, ArgsOf(s, v.typ, v.con), v.fields, ArgsOf(s, v.typ, v.con)[i].varNum.value) >= 0x8000_0000
  }

  /** The parser of a flag word rejects the sign bit, so an object whose word has it is never read back, whatever follows. */
  lemma LargeFlagsRejected(s: Schema, tree: Tree, v: Value, i: nat, tail: seq<byte>, depth: nat)
    requires WfSchema(s) && WfTree(s, tree) && Typed(s, tree, v) && depth >= Depth(v) && s.types[tree.typ].name.Custom?
    requires LargeFlags(s, v, i)
    ensures Fetch(s, GenFullFetchClassName(s, tree), Store(s, GenFullStoreClassName(s, tree), v) + tail, depth) == Failed
  {
    RoundTrip(s, tree, v, tail, depth);
    LargeFlagsNotFetchable(s, tree, v, i, |tail|);
  }

  lemma LargeFlagsNotFetchable(s: Schema, tree: Tree, v: Value, i: nat, after: nat)
    requires WfSchema(s) && LargeFlags(s, v, i)
    ensures !Fetchable(s, tree, v, after)
  {
    var args := ArgsOf(s, v.typ, v.con);
    ObjectArgs(s, v);
    assert WfArg(s, args, i);
    if FieldsFetchable(s, v, 0, after) {
      FetchableFields(s, v, i, 0, after);
    }
  }

  const FLAGS_SCHEMA := Schema([TlType(NatT, false, []),
                                TlType(Custom("Flagged"), false, [Combinator(1, [Arg(Tree(0, true, []), Some(0), None)])])])
  const FLAGS_TREE := Tree(1, true, [])
  const FLAGS_VALUE := ObjV(1, 0, [IntV(-1)])

  lemma FlagsSupported()
    ensures Supported(FLAGS_SCHEMA, FLAGS_SCHEMA.types[0]) == [] && Supported(FLAGS_SCHEMA, FLAGS_SCHEMA.types[1]) == [0]
  {
    var s := FLAGS_SCHEMA;
    assert CombinatorSupported(s, s.types[1].constructors[0]);
    assert SupportedUpTo(s, s.types[1], 0) == [];
  }

  lemma FlagsSchemaWf()
    ensures WfSchema(FLAGS_SCHEMA) && WfTree(FLAGS_SCHEMA, FLAGS_TREE)
    ensures Supported(FLAGS_SCHEMA, FLAGS_SCHEMA.types[1]) == [0]
  {
    hide Supported, SupportedUpTo, CombinatorSupported;
    var s := FLAGS_SCHEMA;
    FlagsSupported();
    assert WfTree(s, Tree(0, true, []));
    assert WfArg(s, s.types[1].constructors[0].args, 0);
    assert WfType(s, s.types[0]) && WfType(s, s.types[1]);
  }

  lemma FlagsTyped()
    ensures Typed(FLAGS_SCHEMA, FLAGS_TREE, FLAGS_VALUE) && TypedObject(FLAGS_SCHEMA, FLAGS_VALUE)
  {
    FlagsSchemaWf();
    assert TypedField(FLAGS_SCHEMA, FLAGS_SCHEMA.types[1].constructors[0].args, FLAGS_VALUE, 0);
  }

  lemma FlagsDepth()
    ensures Depth(FLAGS_VALUE) == 1
  {
    assert DepthAll([IntV(-1)]) == 0;
  }

  lemma FlagsWord()
    ensures Word(FLAGS_SCHEMA, ArgsOf(FLAGS_SCHEMA, 1, 0), [IntV(-1)], 0) >= 0x8000_0000
  {
    var args := ArgsOf(FLAGS_SCHEMA, 1, 0);
    assert TrueBits(FLAGS_SCHEMA, args, 0, 1) == [];
    assert TrueBits(FLAGS_SCHEMA, args, 0, 0) == [];
    assert DeclIndex(args, 0) == 0;
  }

  lemma FlagsLarge()
    ensures LargeFlags(FLAGS_SCHEMA, FLAGS_VALUE, 0) && Depth(FLAGS_VALUE) == 1
  {
    FlagsTyped();
    FlagsDepth();
    FlagsWord();
  }

  lemma LargeFlagsNeverRoundTrip(s: Schema, tree: Tree, v: Value, i: nat, depth: nat)
    requires WfSchema(s) && WfTree(s, tree) && Typed(s, tree, v) && depth >= Depth(v) && s.types[tree.typ].name.Custom?
    requires LargeFlags(s, v, i)
    ensures forall tail :: !RoundTrips(s, tree, v, tail, depth)
  {
    forall tail
      ensures !RoundTrips(s, tree, v, tail, depth)
    {
      LargeFlagsRejected(s, tree, v, i, tail, depth);
    }
  }

  /** Such objects exist: one flag word with all bits set. */
  lemma LargeFlagsCounterexample()
    ensures WfSchema(FLAGS_SCHEMA) && WfTree(FLAGS_SCHEMA, FLAGS_TREE)
    ensures Typed(FLAGS_SCHEMA, FLAGS_TREE, FLAGS_VALUE)
    ensures forall tail :: !RoundTrips(FLAGS_SCHEMA, FLAGS_TREE, FLAGS_VALUE, tail, 1)
  {
    FlagsSchemaWf();
    FlagsTyped();
    FlagsLarge();
    LargeFlagsNeverRoundTrip(FLAGS_SCHEMA, FLAGS_TREE, FLAGS_VALUE, 0, 1);
  }

  // ---------- the generator's asserts ----------

  predicate StoreAccepted(cls: StoreClass) {
    match cls
    case StoreVector(e) => StoreAccepted(e)
    case StoreBoxed(e, _) => StoreAccepted(e)
    case StoreBoxedUnknown(e) => StoreAccepted(e)
    case StoreAssert => false
    case _ => true
  }

  predicate FetchAccepted(cls: FetchClass) {
    match cls
    case FetchVector(e) => FetchAccepted(e)
    case FetchBoxed(e, _) => FetchAccepted(e)
    case FetchAssert => false
    case _ => true
  }

  /** No assert of either class-name generator fires on a well-formed use of a type. */
  lemma {:induction false} GeneratorAccepts(s: Schema, tree: Tree)
    requires WfSchema(s) && WfTree(s, tree)
    ensures StoreAccepted(GenFullStoreClassName(s, tree)) && FetchAccepted(GenFullFetchClassName(s, tree))
  {
    BoxingAgrees(s, tree);
    if s.types[tree.typ].name.VectorT? {
      GeneratorAccepts(s, tree.children[0]);
    }
  }

  // ---------- stack depth ----------

  lemma {:induction false} FieldsDeeper(s: Schema, args: seq<Arg>, i: nat, fields: seq<Value>, env: map<nat, nat>,
                                        data: seq<byte>, d: nat)
    requires |fields| == |args| && !FetchFields(s, args, i, fields, env, data, d).Overflowed?
    ensures FetchFields(s, args, i, fields, env, data, d + 1) == FetchFields(s, args, i, fields, env, data, d)
    decreases d, 3, |args| - i, 1
  {
    if i < |args| {
      var f := GenFieldFetch(s, args, i);
      if f.FetchFlag? {
        FieldsDeeper(s, args, i + 1, fields[i := BoolV(Enabled(env, Some(f.flag)))], env, data, d);
      } else if !Enabled(env, f.guard) {
        FieldsDeeper(s, args, i + 1, fields, if f.assign.Some? then env[f.assign.value := 0] else env, data, d);
      } else {
        PresentDeeper(s, args, i, fields, env, data, d);
      }
    }
  }

  lemma {:induction false} PresentDeeper(s: Schema, args: seq<Arg>, i: nat, fields: seq<Value>, env: map<nat, nat>,
                                         data: seq<byte>, d: nat)
    requires |fields| == |args| && i < |args| && !FetchFields(s, args, i, fields, env, data, d).Overflowed?
    requires var f := GenFieldFetch(s, args, i); !f.FetchFlag? && Enabled(env, f.guard)
    ensures FetchFields(s, args, i, fields, env, data, d + 1) == FetchFields(s, args, i, fields, env, data, d)
    decreases d, 3, |args| - i, 0
  {
    var f := GenFieldFetch(s, args, i);
    Deeper(s, f.fcls, data, d);
    var r := Fetch(s, f.fcls, data, d);
    if r.Fetched? && f.assign.None? {
      FieldsDeeper(s, args, i + 1, fields[i := r.value], env, r.rest, d);
    } else if r.Fetched? && r.value.IntV? && r.value.i >= 0 {
      FieldsDeeper(s, args, i + 1, fields[i := r.value], env[f.assign.value := r.value.i], r.rest, d);
    }
  }

  lemma {:induction false} ElemsDeeper(s: Schema, elem: FetchClass, n: nat, data: seq<byte>, d: nat)
    requires !FetchElems(s, elem, n, data, d).Overflowed?
    ensures FetchElems(s, elem, n, data, d + 1) == FetchElems(s, elem, n, data, d)
    decreases d, 2, FetchVector(elem), n
  {
    if n > 0 {
      Deeper(s, elem, data, d);
      var r := Fetch(s, elem, data, d);
      if r.Fetched? {
        ElemsDeeper(s, elem, n - 1, r.rest, d);
      }
    }
  }

  lemma {:induction false} ConstructorDeeper(s: Schema, t: nat, con: nat, data: seq<byte>, d: nat)
    requires !FetchConstructor(s, t, con, data, d).Overflowed?
    ensures FetchConstructor(s, t, con, data, d + 1) == FetchConstructor(s, t, con, data, d)
    decreases d, 4
  {
    FieldsDeeper(s, ArgsOf(s, t, con), 0, Defaults(s, ArgsOf(s, t, con)), map[], data, d);
  }

  lemma ObjectNeedsStack(s: Schema, t: nat, data: seq<byte>)
    ensures Fetch(s, FetchObject(t), data, 0).Overflowed?
  {
  }

  lemma FetchNotDispatched(s: Schema, t: nat, data: seq<byte>, d: nat)
    requires d > 0 && !Dispatch(s, t, data).Fetched?
    ensures Fetch(s, FetchObject(t), data, d + 1) == Fetch(s, FetchObject(t), data, d)
  {
  }

  lemma {:induction false} ObjectDeeper(s: Schema, t: nat, data: seq<byte>, d: nat)
    requires !Fetch(s, FetchObject(t), data, d).Overflowed?
    ensures Fetch(s, FetchObject(t), data, d + 1) == Fetch(s, FetchObject(t), data, d)
    decreases d, 1
  {
    hide Fetch, FetchConstructor, Dispatch;
    ObjectNeedsStack(s, t, data);
    match Dispatch(s, t, data)
    case Fetched(con, rest) =>
      var r := FetchConstructor(s, t, con, rest, d - 1);
      FetchVia(s, t, con, data, rest, d, r);
      ConstructorDeeper(s, t, con, rest, d - 1);
      FetchVia(s, t, con, data, rest, d + 1, r);
    case _ =>
      FetchNotDispatched(s, t, data, d);
  }

  /** The stack bound is not part of the meaning: once a parse fits, more stack changes nothing. */
  lemma {:induction false} Deeper(s: Schema, cls: FetchClass, data: seq<byte>, d: nat)
    requires !Fetch(s, cls, data, d).Overflowed?
    ensures Fetch(s, cls, data, d + 1) == Fetch(s, cls, data, d)
    decreases d, 2, cls
  {
    match cls
    case FetchVector(elem) =>
      var r := FetchNat(4, data);
      if r.Fetched? && |r.rest| >= r.value {
        ElemsDeeper(s, elem, r.value, r.rest, d);
      }
    case FetchBoxed(inner, id) =>
      var r := FetchNat(4, data);
      if r.Fetched? && r.value == Unsigned32(id) {
        Deeper(s, inner, r.rest, d);
      }
    case FetchObject(t) =>
      ObjectDeeper(s, t, data, d);
    case _ =>
  }
}
