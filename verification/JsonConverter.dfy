/**
 The JSON converter generator (td/generate/tl_json_converter.cpp): one header with every
 declaration and a number of source files among which the definitions are dealt out by a
 running counter. Generated functions are represented by their signatures.
 */
module JsonConverter {
  import opened Bytes

  datatype Mode = Client | Server | All

  datatype CustomType = CustomType(name: string, constructors: seq<string>, isQuery: bool, isResult: bool)
  datatype Schema = Schema(types: seq<CustomType>, functions: seq<string>)

  datatype Signature =
    | ToJsonObjectPtr | FromJsonFunction | ToJsonObject | ObjectFromString | FunctionFromString
    | ConstructorFromString(name: string)
    | FromJson(name: string)
    | ToJsonType(name: string)
    | ToJson(name: string)

  // ---------- what there is to generate ----------

  datatype Place = FirstFile | DispatcherFile

  /** Units in the order they are generated: dealt out by the counter, or pinned to a file. */
  datatype Items = Nothing | Dealt(front: Items, unit: seq<Signature>) | Pinned(front: Items, unit: seq<Signature>, place: Place)

  predicate FromSide(t: CustomType, mode: Mode) {
    (t.isQuery && mode != Client) || (t.isResult && mode != Server)
  }

  predicate ToSide(t: CustomType, mode: Mode) {
    (t.isQuery && mode != Server) || (t.isResult && mode != Client)
  }

  const BASE := [ToJsonObjectPtr, FromJsonFunction, ToJsonObject]

  function Dispatchers(mode: Mode): seq<Signature> {
    if mode == Client then [ObjectFromString] else [ObjectFromString, FunctionFromString]
  }

  // The items after adding those of the first n names or types.

  function AddStrings(items: Items, types: seq<CustomType>, mode: Mode, n: nat): Items
    requires n <= |types|
  {
    if n == 0 then items
    else
      var before, t := AddStrings(items, types, mode, n - 1), types[n - 1];
      if FromSide(t, mode) && |t.constructors| > 1 then Dealt(before, [ConstructorFromString(t.name)]) else before
  }

  function AddFromNames(items: Items, names: seq<string>, n: nat): Items
    requires n <= |names|
  {
    if n == 0 then items else Dealt(AddFromNames(items, names, n - 1), [FromJson(names[n - 1])])
  }

  function AddFromTypes(items: Items, types: seq<CustomType>, mode: Mode, n: nat): Items
    requires n <= |types|
  {
    if n == 0 then items
    else
      var before, t := AddFromTypes(items, types, mode, n - 1), types[n - 1];
      if FromSide(t, mode) then AddFromNames(before, t.constructors, |t.constructors|) else before
  }

  function AddFrom(items: Items, s: Schema, mode: Mode): Items {
    var before := AddFromTypes(items, s.types, mode, |s.types|);
    if mode == Client then before else AddFromNames(before, s.functions, |s.functions|)
  }

  function ToNames(names: seq<string>, n: nat): seq<Signature>
    requires n <= |names|
  {
    if n == 0 then [] else ToNames(names, n - 1) + [ToJson(names[n - 1])]
  }

  function ToUnit(t: CustomType): seq<Signature> {
    (if |t.constructors| > 1 then [ToJsonType(t.name)] else []) + ToNames(t.constructors, |t.constructors|)
  }

  function AddToTypes(items: Items, types: seq<CustomType>, mode: Mode, n: nat): Items
    requires n <= |types|
  {
    if n == 0 then items
    else
      var before := AddToTypes(items, types, mode, n - 1);
      if ToSide(types[n - 1], mode) then Dealt(before, ToUnit(types[n - 1])) else before
  }

  function AddToFunctions(items: Items, names: seq<string>, n: nat): Items
    requires n <= |names|
  {
    if n == 0 then items else Dealt(AddToFunctions(items, names, n - 1), [ToJson(names[n - 1])])
  }

  function AddTo(items: Items, s: Schema, mode: Mode): Items {
    var before := AddToTypes(items, s.types, mode, |s.types|);
    if mode == Server then before else AddToFunctions(before, s.functions, |s.functions|)
  }

  /** Everything, in the order of one file. */
  function Everything(s: Schema, mode: Mode): Items {
    var strings := AddStrings(Pinned(Nothing, BASE, FirstFile), s.types, mode, |s.types|);
    AddTo(AddFrom(Pinned(strings, Dispatchers(mode), DispatcherFile), s, mode), s, mode)
  }

  // ---------- which file gets it ----------

  /** The remainder by repeated subtraction. */
  function Remainder(c: nat, n: nat): (r: nat)
    requires n > 0
    ensures r < n
    decreases c
  {
    if c < n then c else Remainder(c - n, n)
  }

  lemma {:induction false} RemainderIsMod(c: nat, n: nat)
    requires n > 0
    ensures Remainder(c, n) == c % n
    decreases c
  {
    if c >= n {
      RemainderIsMod(c - n, n);
      ModDropsMultiple(c - n, 1, n);
    }
  }

  /** How often the counter has turned. */
  function Turns(items: Items): nat {
    match items
    case Nothing => 0
    case Dealt(front, _) => Turns(front) + 1
    case Pinned(front, _, _) => Turns(front)
  }

  /** The one file is_suitable accepts when the counter reaches c. */
  function DealtTo(c: nat, count: int): nat {
    if count <= 1 then 0 else 1 + Remainder(c, count - 1)
  }

  function PinnedTo(place: Place, count: int): nat {
    if place == FirstFile || count <= 1 then 0 else 1
  }

  function HomeOf(items: Items, count: int): nat
    requires !items.Nothing?
  {
    if items.Dealt? then DealtTo(Turns(items), count) else PinnedTo(items.place, count)
  }

  /** What one file gets. */
  function File(items: Items, file: nat, count: int): seq<Signature> {
    if items.Nothing? then []
    else File(items.front, file, count) + if HomeOf(items, count) == file then items.unit else []
  }

  // ---------- the partition ----------

  /** How often a signature occurs. */
  function Occurs(x: Signature, s: seq<Signature>): nat {
    if s == [] then 0 else (if s[0] == x then 1 else 0) + Occurs(x, s[1..])
  }

  lemma {:induction false} OccursConcat(x: Signature, a: seq<Signature>, b: seq<Signature>)
    ensures Occurs(x, a + b) == Occurs(x, a) + Occurs(x, b)
  {
    if a == [] {
      assert a + b == b;
    } else {
      OccursConcat(x, a[1..], b);
      assert (a + b)[1..] == a[1..] + b;
    }
  }

  lemma {:induction false} OccursMember(s: seq<Signature>, i: nat)
    requires i < |s|
    ensures Occurs(s[i], s) > 0
  {
    if i > 0 {
      OccursMember(s[1..], i - 1);
    }
  }

  /** How often x occurs in the items of the first n files. */
  function Below(x: Signature, items: Items, n: nat, count: int): nat {
    if items.Nothing? then 0
    else Below(x, items.front, n, count) + if HomeOf(items, count) < n then Occurs(x, items.unit) else 0
  }

  lemma FileOccurs(x: Signature, items: Items, file: nat, count: int)
    requires !items.Nothing?
    ensures Occurs(x, File(items, file, count)) ==
            Occurs(x, File(items.front, file, count)) + if HomeOf(items, count) == file then Occurs(x, items.unit) else 0
  {
    OccursConcat(x, File(items.front, file, count), if HomeOf(items, count) == file then items.unit else []);
  }

  lemma {:induction false} BelowGrows(x: Signature, items: Items, n: nat, count: int)
    ensures Below(x, items, n + 1, count) == Below(x, items, n, count) + Occurs(x, File(items, n, count))
  {
    if !items.Nothing? {
      BelowGrows(x, items.front, n, count);
      FileOccurs(x, items, n, count);
    }
  }

  lemma {:induction false} BelowNothing(x: Signature, items: Items, count: int)
    ensures Below(x, items, 0, count) == 0
  {
    if !items.Nothing? {
      BelowNothing(x, items.front, count);
    }
  }

  /** Every item goes to exactly one of the files. */
  lemma {:induction false} BelowAll(x: Signature, items: Items, count: int)
    requires count >= 1
    ensures Below(x, items, count, count) == Occurs(x, File(items, 0, 1))
  {
    if !items.Nothing? {
      BelowAll(x, items.front, count);
      FileOccurs(x, items, 0, 1);
      assert HomeOf(items, 1) == 0 && HomeOf(items, count) < count;
    }
  }

  /** How often x is defined in the first n files. */
  function Total(x: Signature, files: seq<seq<Signature>>, n: nat): nat
    requires n <= |files|
  {
    if n == 0 then 0 else Total(x, files, n - 1) + Occurs(x, files[n - 1])
  }

  ghost predicate AreFiles(files: seq<seq<Signature>>, items: Items, count: int) {
    forall i: nat | i < |files| :: files[i] == File(items, i, count)
  }

  lemma {:induction false} TotalIsBelow(x: Signature, files: seq<seq<Signature>>, items: Items, count: int, n: nat)
    requires n <= |files| && AreFiles(files, items, count)
    ensures Total(x, files, n) == Below(x, items, n, count)
  {
    if n == 0 {
      BelowNothing(x, items, count);
    } else {
      TotalIsBelow(x, files, items, count, n - 1);
      BelowGrows(x, items, n - 1, count);
    }
  }

  /**
   The source files together define every signature as often as the header declares it,
   exactly when there is at least one file.
   */
  lemma EachDefinedOnce(header: seq<Signature>, files: seq<seq<Signature>>, items: Items, count: int)
    requires |files| == (if count < 0 then 0 else count) && AreFiles(files, items, count)
    requires header == File(items, 0, 1) && header != []
    ensures (forall x :: Total(x, files, |files|) == Occurs(x, header)) <==> count >= 1
  {
    if count >= 1 {
      forall x
        ensures Total(x, files, |files|) == Occurs(x, header)
      {
        TotalIsBelow(x, files, items, count, count);
        BelowAll(x, items, count);
      }
    } else {
      OccursMember(header, 0);
      assert Total(header[0], files, |files|) == 0;
    }
  }

  lemma {:induction false} NoneOfThem(x: Signature, files: seq<seq<Signature>>, n: nat, i: nat)
    requires n <= |files| && Total(x, files, n) == 0 && i < n
    ensures Occurs(x, files[i]) == 0
  {
    if i < n - 1 {
      NoneOfThem(x, files, n - 1, i);
    }
  }

  /** A signature that is defined once in all files is in exactly one of them. */
  lemma {:induction false} InOneFile(x: Signature, files: seq<seq<Signature>>, n: nat) returns (home: nat)
    requires n <= |files| && Total(x, files, n) == 1
    ensures home < n
    ensures forall i: nat | i < n :: Occurs(x, files[i]) == if i == home then 1 else 0
  {
    if Occurs(x, files[n - 1]) == 1 {
      home := n - 1;
      forall i: nat | i < n - 1
        ensures Occurs(x, files[i]) == 0
      {
        NoneOfThem(x, files, n - 1, i);
      }
    } else {
      home := InOneFile(x, files, n - 1);
    }
  }

  // ---------- what is declared, read off the schema ----------

  function Count(name: string, names: seq<string>, n: nat): nat
    requires n <= |names|
  {
    if n == 0 then 0 else Count(name, names, n - 1) + if names[n - 1] == name then 1 else 0
  }

  /** Types of several constructors with this name, among those the converter reads (from) or writes. */
  function TypesNamed(name: string, types: seq<CustomType>, mode: Mode, from: bool, n: nat): nat
    requires n <= |types|
  {
    if n == 0 then 0
    else
      var t := types[n - 1];
      var taken := (if from then FromSide(t, mode) else ToSide(t, mode)) && |t.constructors| > 1 && t.name == name;
      TypesNamed(name, types, mode, from, n - 1) + if taken then 1 else 0
  }

  /** Constructors with this name, of the types the converter reads (from) or writes. */
  function ConstructorsNamed(name: string, types: seq<CustomType>, mode: Mode, from: bool, n: nat): nat
    requires n <= |types|
  {
    if n == 0 then 0
    else
      var t := types[n - 1];
      var taken := if from then FromSide(t, mode) else ToSide(t, mode);
      ConstructorsNamed(name, types, mode, from, n - 1) + if taken then Count(name, t.constructors, |t.constructors|) else 0
  }

  /** How often the header declares a signature. */
  function Declared(x: Signature, s: Schema, mode: Mode): nat {
    match x
    case ToJsonObjectPtr | FromJsonFunction | ToJsonObject | ObjectFromString => 1
    case FunctionFromString => if mode == Client then 0 else 1
    case ConstructorFromString(name) => TypesNamed(name, s.types, mode, true, |s.types|)
    case ToJsonType(name) => TypesNamed(name, s.types, mode, false, |s.types|)
    case FromJson(name) =>
      ConstructorsNamed(name, s.types, mode, true, |s.types|) +
      if mode == Client then 0 else Count(name, s.functions, |s.functions|)
    case ToJson(name) =>
      ConstructorsNamed(name, s.types, mode, false, |s.types|) +
      if mode == Server then 0 else Count(name, s.functions, |s.functions|)
  }

  /** How often x is in the units. */
  function InUnits(x: Signature, items: Items): nat {
    if items.Nothing? then 0 else InUnits(x, items.front) + Occurs(x, items.unit)
  }

  lemma {:induction false} HeaderHasUnits(x: Signature, items: Items)
    ensures Occurs(x, File(items, 0, 1)) == InUnits(x, items)
  {
    if !items.Nothing? {
      HeaderHasUnits(x, items.front);
      FileOccurs(x, items, 0, 1);
    }
  }

  lemma OccursOne(x: Signature, y: Signature)
    ensures Occurs(x, [y]) == if x == y then 1 else 0
  {
    assert [y][1..] == [];
  }

  lemma {:induction false} StringsCounted(x: Signature, items: Items, types: seq<CustomType>, mode: Mode, n: nat)
    requires n <= |types|
    ensures InUnits(x, AddStrings(items, types, mode, n)) ==
            InUnits(x, items) + if x.ConstructorFromString? then TypesNamed(x.name, types, mode, true, n) else 0
  {
    if n > 0 {
      StringsCounted(x, items, types, mode, n - 1);
      OccursOne(x, ConstructorFromString(types[n - 1].name));
    }
  }

  lemma {:induction false} FromNamesCounted(x: Signature, items: Items, names: seq<string>, n: nat)
    requires n <= |names|
    ensures InUnits(x, AddFromNames(items, names, n)) == InUnits(x, items) + if x.FromJson? then Count(x.name, names, n) else 0
  {
    if n > 0 {
      FromNamesCounted(x, items, names, n - 1);
      OccursOne(x, FromJson(names[n - 1]));
    }
  }

  lemma {:induction false} FromTypesCounted(x: Signature, items: Items, types: seq<CustomType>, mode: Mode, n: nat)
    requires n <= |types|
    ensures InUnits(x, AddFromTypes(items, types, mode, n)) ==
            InUnits(x, items) + if x.FromJson? then ConstructorsNamed(x.name, types, mode, true, n) else 0
  {
    if n > 0 {
      FromTypesCounted(x, items, types, mode, n - 1);
      var names := types[n - 1].constructors;
      FromNamesCounted(x, AddFromTypes(items, types, mode, n - 1), names, |names|);
    }
  }

  lemma {:induction false} ToNamesCounted(x: Signature, names: seq<string>, n: nat)
    requires n <= |names|
    ensures Occurs(x, ToNames(names, n)) == if x.ToJson? then Count(x.name, names, n) else 0
  {
    if n > 0 {
      ToNamesCounted(x, names, n - 1);
      OccursConcat(x, ToNames(names, n - 1), [ToJson(names[n - 1])]);
      OccursOne(x, ToJson(names[n - 1]));
    }
  }

  lemma ToUnitCounted(x: Signature, t: CustomType)
    ensures Occurs(x, ToUnit(t)) ==
            if x.ToJson? then Count(x.name, t.constructors, |t.constructors|)
            else if x == ToJsonType(t.name) && |t.constructors| > 1 then 1
            else 0
  {
    var front := if |t.constructors| > 1 then [ToJsonType(t.name)] else [];
    OccursConcat(x, front, ToNames(t.constructors, |t.constructors|));
    ToNamesCounted(x, t.constructors, |t.constructors|);
    OccursOne(x, ToJsonType(t.name));
  }

  lemma {:induction false} ToTypesCounted(x: Signature, items: Items, types: seq<CustomType>, mode: Mode, n: nat)
    requires n <= |types|
    ensures InUnits(x, AddToTypes(items, types, mode, n)) ==
            InUnits(x, items) +
            if x.ToJson? then ConstructorsNamed(x.name, types, mode, false, n)
            else if x.ToJsonType? then TypesNamed(x.name, types, mode, false, n)
            else 0
  {
    if n > 0 {
      ToTypesCounted(x, items, types, mode, n - 1);
      ToUnitCounted(x, types[n - 1]);
    }
  }

  lemma {:induction false} ToFunctionsCounted(x: Signature, items: Items, names: seq<string>, n: nat)
    requires n <= |names|
    ensures InUnits(x, AddToFunctions(items, names, n)) == InUnits(x, items) + if x.ToJson? then Count(x.name, names, n) else 0
  {
    if n > 0 {
      ToFunctionsCounted(x, items, names, n - 1);
      OccursOne(x, ToJson(names[n - 1]));
    }
  }

  lemma PinnedCounted(x: Signature, mode: Mode)
    ensures Occurs(x, BASE) == if x == ToJsonObjectPtr || x == FromJsonFunction || x == ToJsonObject then 1 else 0
    ensures Occurs(x, Dispatchers(mode)) ==
            if x == ObjectFromString || (x == FunctionFromString && mode != Client) then 1 else 0
  {
    assert BASE == [ToJsonObjectPtr] + ([FromJsonFunction] + [ToJsonObject]);
    OccursConcat(x, [ToJsonObjectPtr], [FromJsonFunction] + [ToJsonObject]);
    OccursConcat(x, [FromJsonFunction], [ToJsonObject]);
    OccursOne(x, ToJsonObjectPtr);
    OccursOne(x, FromJsonFunction);
    OccursOne(x, ToJsonObject);
    assert [ObjectFromString, FunctionFromString] == [ObjectFromString] + [FunctionFromString];
    OccursConcat(x, [ObjectFromString], [FunctionFromString]);
    OccursOne(x, ObjectFromString);
    OccursOne(x, FunctionFromString);
  }

  /** The header declares exactly what the schema and the side of the converter call for. */
  lemma HeaderDeclares(x: Signature, s: Schema, mode: Mode)
    ensures Occurs(x, File(Everything(s, mode), 0, 1)) == Declared(x, s, mode)
  {
    hide Occurs, Count, TypesNamed, ConstructorsNamed, AddStrings, AddFromNames, AddFromTypes, AddToTypes, AddToFunctions, File;
    var base := Pinned(Nothing, BASE, FirstFile);
    var strings := AddStrings(base, s.types, mode, |s.types|);
    var pinned := Pinned(strings, Dispatchers(mode), DispatcherFile);
    var types := AddFromTypes(pinned, s.types, mode, |s.types|);
    var from := AddFrom(pinned, s, mode);
    HeaderHasUnits(x, Everything(s, mode));
    PinnedCounted(x, mode);
    StringsCounted(x, base, s.types, mode, |s.types|);
    FromTypesCounted(x, pinned, s.types, mode, |s.types|);
    FromNamesCounted(x, types, s.functions, |s.functions|);
    ToTypesCounted(x, from, s.types, mode, |s.types|);
    ToFunctionsCounted(x, AddToTypes(from, s.types, mode, |s.types|), s.functions, |s.functions|);
  }

  // ---------- names that are not used twice ----------

  function ConstructorNames(types: seq<CustomType>, n: nat): seq<string>
    requires n <= |types|
  {
    if n == 0 then [] else ConstructorNames(types, n - 1) + types[n - 1].constructors
  }

  predicate NoRepeats(names: seq<string>) {
    forall i: nat, j: nat | i < j < |names| :: names[i] != names[j]
  }

  /** No two types share a name, nor do two constructors or functions. */
  predicate DistinctNames(s: Schema) {
    && (forall i: nat, j: nat | i < j < |s.types| :: s.types[i].name != s.types[j].name)
    && NoRepeats(ConstructorNames(s.types, |s.types|) + s.functions)
  }

  lemma {:induction false} CountConcat(name: string, a: seq<string>, b: seq<string>, n: nat)
    requires n <= |b|
    ensures Count(name, a + b, |a| + n) == Count(name, a, |a|) + Count(name, b, n)
  {
    if n == 0 {
      CountPrefix(name, a, b, |a|);
    } else {
      CountConcat(name, a, b, n - 1);
    }
  }

  lemma {:induction false} CountPrefix(name: string, a: seq<string>, b: seq<string>, n: nat)
    requires n <= |a|
    ensures Count(name, a + b, n) == Count(name, a, n)
  {
    if n > 0 {
      CountPrefix(name, a, b, n - 1);
    }
  }

  lemma {:induction false} CountAbsent(name: string, names: seq<string>, n: nat)
    requires n <= |names| && forall i: nat | i < n :: names[i] != name
    ensures Count(name, names, n) == 0
  {
    if n > 0 {
      CountAbsent(name, names, n - 1);
    }
  }

  lemma {:induction false} CountOnce(name: string, names: seq<string>, n: nat)
    requires n <= |names| && NoRepeats(names)
    ensures Count(name, names, n) <= 1
  {
    if n > 0 {
      CountOnce(name, names, n - 1);
      if names[n - 1] == name {
        CountAbsent(name, names, n - 1);
      }
    }
  }

  lemma {:induction false} TypesAbsent(name: string, types: seq<CustomType>, mode: Mode, from: bool, n: nat)
    requires n <= |types| && forall i: nat | i < n :: types[i].name != name
    ensures TypesNamed(name, types, mode, from, n) == 0
  {
    if n > 0 {
      TypesAbsent(name, types, mode, from, n - 1);
    }
  }

  lemma {:induction false} TypesOnce(name: string, types: seq<CustomType>, mode: Mode, from: bool, n: nat)
    requires n <= |types| && forall i: nat, j: nat | i < j < |types| :: types[i].name != types[j].name
    ensures TypesNamed(name, types, mode, from, n) <= 1
  {
    if n > 0 {
      TypesOnce(name, types, mode, from, n - 1);
      if types[n - 1].name == name {
        TypesAbsent(name, types, mode, from, n - 1);
      }
    }
  }

  lemma {:induction false} ConstructorsBounded(name: string, types: seq<CustomType>, mode: Mode, from: bool, n: nat)
    requires n <= |types|
    ensures ConstructorsNamed(name, types, mode, from, n) <= Count(name, ConstructorNames(types, n), |ConstructorNames(types, n)|)
  {
    if n > 0 {
      var before, names := ConstructorNames(types, n - 1), types[n - 1].constructors;
      ConstructorsBounded(name, types, mode, from, n - 1);
      CountConcat(name, before, names, |names|);
    }
  }

  /** With distinct names nothing is declared twice. */
  lemma DeclaredOnce(x: Signature, s: Schema, mode: Mode)
    requires DistinctNames(s)
    ensures Declared(x, s, mode) <= 1
  {
    if x.ConstructorFromString? || x.ToJsonType? {
      TypesOnce(x.name, s.types, mode, x.ConstructorFromString?, |s.types|);
    } else if x.FromJson? || x.ToJson? {
      var constructors := ConstructorNames(s.types, |s.types|);
      ConstructorsBounded(x.name, s.types, mode, x.FromJson?, |s.types|);
      CountConcat(x.name, constructors, s.functions, |s.functions|);
      CountOnce(x.name, constructors + s.functions, |constructors| + |s.functions|);
    }
  }

  /** The one file that defines a signature. */
  ghost predicate DefinedIn(x: Signature, files: seq<seq<Signature>>, home: nat) {
    home < |files| && forall i: nat | i < |files| :: Occurs(x, files[i]) == if i == home then 1 else 0
  }

  lemma {:induction false} OccursInside(x: Signature, s: seq<Signature>)
    requires x in s
    ensures Occurs(x, s) > 0
  {
    var i: nat :| i < |s| && s[i] == x;
    OccursMember(s, i);
  }

  /** With distinct names every declared signature is defined once, in exactly one source file. */
  lemma EachInOneFile(s: Schema, mode: Mode, header: seq<Signature>, files: seq<seq<Signature>>, x: Signature)
    requires DistinctNames(s) && header == File(Everything(s, mode), 0, 1) && x in header
    requires Total(x, files, |files|) == Occurs(x, header)
    ensures exists home: nat :: DefinedIn(x, files, home)
  {
    HeaderDeclares(x, s, mode);
    DeclaredOnce(x, s, mode);
    OccursInside(x, header);
    var home := InOneFile(x, files, |files|);
    assert DefinedIn(x, files, home);
  }

  // ---------- the generator ----------

  /** is_suitable, asked about the item that follows the given ones. */
  method IsSuitable(file: nat, count: int, counter: nat, ghost items: Items) returns (suitable: bool, next: nat)
    requires file < count && (count > 1 ==> counter == Turns(items))
    ensures suitable <==> DealtTo(Turns(items) + 1, count) == file
    ensures count > 1 ==> next == Turns(items) + 1
  {
    if count <= 1 {
      return true, counter;
    }
    next := counter + 1;
    RemainderIsMod(next, count - 1);
    suitable := next % (count - 1) == file - 1;
  }

  /** Appends a unit if it is this file's turn. */
  method Deal(sofar: seq<Signature>, unit: seq<Signature>, file: nat, count: int, counter: nat, ghost items: Items)
    returns (out: seq<Signature>, next: nat, suitable: bool)
    requires file < count && (count > 1 ==> counter == Turns(items)) && sofar == File(items, file, count)
    ensures out == File(Dealt(items, unit), file, count)
    ensures out == if suitable then sofar + unit else sofar
    ensures count > 1 ==> next == Turns(Dealt(items, unit))
  {
    suitable, next := IsSuitable(file, count, counter, items);
    assert HomeOf(Dealt(items, unit), count) == DealtTo(Turns(items) + 1, count);
    out := sofar;
    if suitable {
      out := out + unit;
    }
    assert out == File(Dealt(items, unit), file, count);
  }

  /** The per-type part of gen_tl_constructor_from_string. */
  method GenStrings(sofar: seq<Signature>, types: seq<CustomType>, mode: Mode, file: nat, count: int, counter: nat,
                    ghost items: Items) returns (out: seq<Signature>, next: nat)
    requires file < count && (count > 1 ==> counter == Turns(items)) && sofar == File(items, file, count)
    ensures out == File(AddStrings(items, types, mode, |types|), file, count)
    ensures count > 1 ==> next == Turns(AddStrings(items, types, mode, |types|))
    ensures sofar <= out && forall n | ToJson(n) in out :: ToJson(n) in sofar
  {
    out, next := sofar, counter;
    var ignored;
    for i := 0 to |types|
      invariant out == File(AddStrings(items, types, mode, i), file, count)
      invariant count > 1 ==> next == Turns(AddStrings(items, types, mode, i))
      invariant sofar <= out && forall n | ToJson(n) in out :: ToJson(n) in sofar
    {
      if FromSide(types[i], mode) && |types[i].constructors| > 1 {
        out, next, ignored :=
          Deal(out, [ConstructorFromString(types[i].name)], file, count, next, AddStrings(items, types, mode, i));
      }
    }
  }

  lemma DispatcherHome(count: int)
    requires count >= 1
    ensures 1 % count == PinnedTo(DispatcherFile, count)
  {
  }

  /** gen_tl_constructor_from_string: the two dispatching functions are pinned to one file. */
  method GenConstructorFromString(sofar: seq<Signature>, s: Schema, mode: Mode, file: nat, count: int, counter: nat,
                                  ghost items: Items, ghost after: Items) returns (out: seq<Signature>, next: nat)
    requires file < count && (count > 1 ==> counter == Turns(items)) && sofar == File(items, file, count)
    requires after == Pinned(AddStrings(items, s.types, mode, |s.types|), Dispatchers(mode), DispatcherFile)
    ensures out == File(after, file, count) && (count > 1 ==> next == Turns(after))
    ensures sofar <= out && forall n | ToJson(n) in out :: ToJson(n) in sofar
  {
    hide AddStrings;
    out, next := GenStrings(sofar, s.types, mode, file, count, counter, items);
    DispatcherHome(count);
    if file == 1 % count {
      out := out + [ObjectFromString];
      if mode != Client {
        out := out + [FunctionFromString];
      }
    }
  }

  /** One round of gen_from_json over names. */
  method GenFromNames(sofar: seq<Signature>, names: seq<string>, file: nat, count: int, counter: nat, ghost items: Items)
    returns (out: seq<Signature>, next: nat)
    requires file < count && (count > 1 ==> counter == Turns(items)) && sofar == File(items, file, count)
    ensures out == File(AddFromNames(items, names, |names|), file, count)
    ensures count > 1 ==> next == Turns(AddFromNames(items, names, |names|))
    ensures sofar <= out && forall n | ToJson(n) in out :: ToJson(n) in sofar
  {
    out, next := sofar, counter;
    var ignored;
    for i := 0 to |names|
      invariant out == File(AddFromNames(items, names, i), file, count)
      invariant count > 1 ==> next == Turns(AddFromNames(items, names, i))
      invariant sofar <= out && forall n | ToJson(n) in out :: ToJson(n) in sofar
    {
      out, next, ignored := Deal(out, [FromJson(names[i])], file, count, next, AddFromNames(items, names, i));
    }
  }

  /** gen_from_json. */
  method GenFromJson(sofar: seq<Signature>, s: Schema, mode: Mode, file: nat, count: int, counter: nat, ghost items: Items)
    returns (out: seq<Signature>, next: nat)
    requires file < count && (count > 1 ==> counter == Turns(items)) && sofar == File(items, file, count)
    ensures out == File(AddFrom(items, s, mode), file, count)
    ensures count > 1 ==> next == Turns(AddFrom(items, s, mode))
    ensures sofar <= out && forall n | ToJson(n) in out :: ToJson(n) in sofar
  {
    out, next := sofar, counter;
    for i := 0 to |s.types|
      invariant out == File(AddFromTypes(items, s.types, mode, i), file, count)
      invariant count > 1 ==> next == Turns(AddFromTypes(items, s.types, mode, i))
      invariant sofar <= out && forall n | ToJson(n) in out :: ToJson(n) in sofar
    {
      if FromSide(s.types[i], mode) {
        out, next := GenFromNames(out, s.types[i].constructors, file, count, next, AddFromTypes(items, s.types, mode, i));
      }
    }
    if mode != Client {
      out, next := GenFromNames(out, s.functions, file, count, next, AddFromTypes(items, s.types, mode, |s.types|));
    }
  }

  /** The recorded types are exactly those with a to_json among the signatures. */
  ghost predicate Records(types: set<string>, out: seq<Signature>) {
    forall n :: n in types <==> ToJson(n) in out
  }

  /** The to_json of one custom type and its constructors. */
  method GenToType(t: CustomType, types: set<string>, isHeader: bool) returns (unit: seq<Signature>, recorded: set<string>)
    ensures unit == ToUnit(t)
    ensures if isHeader then forall n :: n in recorded <==> n in types || ToJson(n) in unit else recorded == types
  {
    unit, recorded := [], types;
    if |t.constructors| > 1 {
      unit := [ToJsonType(t.name)];
    }
    ghost var first := unit;
    for i := 0 to |t.constructors|
      invariant unit == first + ToNames(t.constructors, i)
      invariant if isHeader then forall n :: n in recorded <==> n in types || ToJson(n) in unit else recorded == types
    {
      unit := unit + [ToJson(t.constructors[i])];
      if isHeader {
        recorded := recorded + {t.constructors[i]};
      }
    }
  }

  /** The functions of gen_to_json. */
  method GenToFunctions(sofar: seq<Signature>, names: seq<string>, isHeader: bool, types: set<string>, file: nat, count: int,
                        counter: nat, ghost items: Items) returns (out: seq<Signature>, recorded: set<string>)
    requires file < count && (count > 1 ==> counter == Turns(items)) && sofar == File(items, file, count)
    requires isHeader ==> Records(types, sofar)
    ensures out == File(AddToFunctions(items, names, |names|), file, count) && sofar <= out
    ensures if isHeader then Records(recorded, out) else recorded == types
  {
    out, recorded := sofar, types;
    var next, suitable := counter, false;
    for i := 0 to |names|
      invariant out == File(AddToFunctions(items, names, i), file, count) && sofar <= out
      invariant count > 1 ==> next == Turns(AddToFunctions(items, names, i))
      invariant if isHeader then Records(recorded, out) else recorded == types
    {
      out, next, suitable := Deal(out, [ToJson(names[i])], file, count, next, AddToFunctions(items, names, i));
      if suitable && isHeader {
        recorded := recorded + {names[i]};
      }
    }
  }

  /** gen_to_json. */
  method GenToJson(sofar: seq<Signature>, s: Schema, mode: Mode, isHeader: bool, types: set<string>, file: nat, count: int,
                   counter: nat, ghost items: Items) returns (out: seq<Signature>, recorded: set<string>)
    requires file < count && (count > 1 ==> counter == Turns(items)) && sofar == File(items, file, count)
    requires isHeader ==> Records(types, sofar)
    ensures out == File(AddTo(items, s, mode), file, count) && sofar <= out
    ensures if isHeader then Records(recorded, out) else recorded == types
  {
    out, recorded := sofar, types;
    var next, suitable := counter, false;
    for i := 0 to |s.types|
      invariant out == File(AddToTypes(items, s.types, mode, i), file, count) && sofar <= out
      invariant count > 1 ==> next == Turns(AddToTypes(items, s.types, mode, i))
      invariant if isHeader then Records(recorded, out) else recorded == types
    {
      if ToSide(s.types[i], mode) {
        var unit, more := GenToType(s.types[i], recorded, isHeader);
        out, next, suitable := Deal(out, unit, file, count, next, AddToTypes(items, s.types, mode, i));
        if suitable {
          recorded := more;
        }
      }
    }
    if mode != Server {
      ghost var after := AddToTypes(items, s.types, mode, |s.types|);
      out, recorded := GenToFunctions(out, s.functions, isHeader, recorded, file, count, next, after);
    }
  }

  /**
   gen_json_converter_file: the signatures, the types recorded by the header, and the cases of
   the switch over all objects if it is in this file.
   */
  method GenFile(s: Schema, mode: Mode, isHeader: bool, file: nat, count: int, types: set<string>)
    returns (out: seq<Signature>, recorded: set<string>, cases: set<string>)
    requires file < count && (isHeader ==> file == 0 && types == {})
    ensures out == File(Everything(s, mode), file, count)
    ensures file == 0 ==> BASE <= out
    ensures if isHeader then Records(recorded, out) else recorded == types
    ensures cases == if file == 0 && !isHeader then types else {}
  {
    out, cases := [], {};
    if isHeader {
      out := BASE;
    } else if file == 0 {
      out, cases := BASE, types;
    }
    ghost var base := Pinned(Nothing, BASE, FirstFile);
    ghost var strings := Pinned(AddStrings(base, s.types, mode, |s.types|), Dispatchers(mode), DispatcherFile);
    var next;
    out, next := GenConstructorFromString(out, s, mode, file, count, 0, base, strings);
    out, next := GenFromJson(out, s, mode, file, count, next, strings);
    out, recorded := GenToJson(out, s, mode, isHeader, types, file, count, next, AddFrom(strings, s, mode));
  }

  /**
   gen_json_converter. Each signature is defined in the source files as often as the header
   declares it exactly when a source file is asked for, and then the switch over all objects
   has a case for exactly the types with a to_json. With distinct names every declared
   signature is defined in exactly one source file.
   */
  method GenConverter(s: Schema, mode: Mode, count: int)
    returns (header: seq<Signature>, files: seq<seq<Signature>>, cases: set<string>)
    ensures |files| == if count < 0 then 0 else count
    ensures (forall x :: Total(x, files, |files|) == Occurs(x, header)) <==> count >= 1
    ensures count >= 1 ==> BASE <= files[0] && Records(cases, header)
    ensures forall x :: Occurs(x, header) == Declared(x, s, mode)
    ensures count >= 1 && DistinctNames(s) ==> forall x | x in header :: exists home: nat :: DefinedIn(x, files, home)
  {
    ghost var items := Everything(s, mode);
    var types, ignored;
    header, types, ignored := GenFile(s, mode, true, 0, 1, {});
    files, cases := [], {};
    var i: nat := 0;
    while i < count
      invariant i <= if count < 0 then 0 else count
      invariant |files| == i && Records(types, header) && AreFiles(files, items, count)
      invariant i > 0 ==> Records(cases, header) && BASE <= files[0]
    {
      var out, now;
      out, types, now := GenFile(s, mode, false, i, count, types);
      if i == 0 {
        cases := now;
      }
      files := files + [out];
      i := i + 1;
    }
    EachDefinedOnce(header, files, items, count);
    forall x
      ensures Occurs(x, header) == Declared(x, s, mode)
    {
      HeaderDeclares(x, s, mode);
    }
    if count >= 1 && DistinctNames(s) {
      forall x | x in header
        ensures exists home: nat :: DefinedIn(x, files, home)
      {
        EachInOneFile(s, mode, header, files, x);
      }
    }
  }
}
