/**
 * The shared type table of the ango definitions package: the category
 * enumeration, the Type and StructField records, the fixed builtin table,
 * and the Service, Procedure and Param records the parser produces.
 */
module Definitions {
  import opened Wrappers

  /** The category a type belongs to. The constants start at one, so the
      zero value of a TypeCategory means "not set". */
  newtype TypeCategory = int

  const Unset: TypeCategory := 0
  const Builtin: TypeCategory := 1
  const Simple: TypeCategory := 2
  const Slice: TypeCategory := 3
  const Map: TypeCategory := 4
  const Struct: TypeCategory := 5

  /** The declared categories, in declaration order. */
  const Categories: seq<TypeCategory> := [Builtin, Simple, Slice, Map, Struct]

  /** Where a type or procedure was declared; the zero value has line 0. */
  datatype Source = Source(lineNumber: int)

  /** A type. Pointers to other types are optional values; nothing mutates a
      Type once it is built, so copies stand for shared pointers. */
  datatype Type = Type(
    name: string,
    category: TypeCategory,
    source: Source,
    simpleType: Option<Type>,
    sliceElementType: Option<Type>,
    mapKeyType: Option<Type>,
    mapValueType: Option<Type>,
    structFields: seq<StructField>)

  datatype StructField = StructField(name: string, fieldType: Option<Type>)

  /** A builtin type: only its name and its category are set. */
  function BuiltinType(name: string): Type
  {
    Type(name, Builtin, Source(0), None, None, None, None, [])
  }

  const TypeInt := BuiltinType("int")
  const TypeInt8 := BuiltinType("int8")
  const TypeInt16 := BuiltinType("int16")
  const TypeInt32 := BuiltinType("int32")
  const TypeInt64 := BuiltinType("int64")
  const TypeUint := BuiltinType("uint")
  const TypeUint8 := BuiltinType("uint8")
  const TypeUint16 := BuiltinType("uint16")
  const TypeUint32 := BuiltinType("uint32")
  const TypeUint64 := BuiltinType("uint64")
  const TypeString := BuiltinType("string")
  const TypeBool := BuiltinType("bool")

  const BuiltinTypes: map<string, Type> := map[
    TypeInt.name := TypeInt,
    TypeInt8.name := TypeInt8,
    TypeInt16.name := TypeInt16,
    TypeInt32.name := TypeInt32,
    TypeInt64.name := TypeInt64,
    TypeUint.name := TypeUint,
    TypeUint8.name := TypeUint8,
    TypeUint16.name := TypeUint16,
    TypeUint32.name := TypeUint32,
    TypeUint64.name := TypeUint64,
    TypeString.name := TypeString,
    TypeBool.name := TypeBool
  ]

  /** The twelve builtin names, in the order the table lists them. */
  const BuiltinNameList: seq<string> :=
    ["int", "int8", "int16", "int32", "int64",
     "uint", "uint8", "uint16", "uint32", "uint64",
     "string", "bool"]

  const BuiltinNames: set<string> := set n | n in BuiltinNameList

  /** A type with the builtin shape: category Builtin and no references. */
  predicate IsBuiltinShaped(t: Type)
  {
    && t.category == Builtin
    && t.simpleType.None?
    && t.sliceElementType.None?
    && t.mapKeyType.None?
    && t.mapValueType.None?
    && t.structFields == []
  }

  lemma CategoriesDistinctAndNonzero()
    ensures |Categories| == 5
    ensures forall i :: 0 <= i < |Categories| ==> Categories[i] as int == i + 1
    ensures forall i, j :: 0 <= i < j < |Categories| ==> Categories[i] != Categories[j]
    ensures Unset !in Categories
  {
  }

  /** The table is keyed by exactly the twelve builtin names. */
  lemma BuiltinTableKeys()
    ensures BuiltinTypes.Keys == BuiltinNames
  {
    assert BuiltinNames == set n | n in BuiltinNameList;
  }

  /** Each entry is the builtin type of its own name. */
  lemma BuiltinTableShape()
    ensures BuiltinTypes == map n | n in BuiltinNames :: BuiltinType(n)
    ensures forall n :: n in BuiltinTypes ==> BuiltinTypes[n] == BuiltinType(n)
    ensures forall n :: n in BuiltinTypes ==> BuiltinTypes[n].name == n && IsBuiltinShaped(BuiltinTypes[n])
  {
    BuiltinTableKeys();
  }

  lemma BuiltinTableSize()
    ensures |BuiltinNames| == 12
    ensures |BuiltinTypes| == 12
  {
    var names := BuiltinNameList;
    var acc: set<string> := {};
    var k := 0;
    while k < |names|
      invariant 0 <= k <= |names|
      invariant acc == set j | 0 <= j < k :: names[j]
      invariant |acc| == k
    {
      assert names[k] !in acc;
      acc := acc + {names[k]};
      k := k + 1;
    }
    assert acc == BuiltinNames;
    BuiltinTableKeys();
    assert |BuiltinTypes.Keys| == |BuiltinTypes|;
  }

  // ---- The service model built by the parser ----

  datatype ProcedureType = ServerProcedure | ClientProcedure

  datatype Param = Param(name: string, paramType: Type)

  datatype Procedure = Procedure(
    name: string,
    procType: ProcedureType,
    oneway: bool,
    args: seq<Param>,
    rets: seq<Param>,
    source: Source)

  datatype Service = Service(
    name: string,
    serverProcedures: map<string, Procedure>,
    clientProcedures: map<string, Procedure>,
    types: map<string, Type>)

  /** A fresh service: no name, no procedures, no declared types. */
  function NewService(): Service
  {
    Service("", map[], map[], map[])
  }

  /** The procedure table of one direction. */
  function ProceduresOf(s: Service, dir: ProcedureType): map<string, Procedure>
  {
    match dir
    case ServerProcedure => s.serverProcedures
    case ClientProcedure => s.clientProcedures
  }

  /** Resolves a type name: builtins first, then the declared types. */
  function LookupType(s: Service, name: string): (r: Option<Type>)
    ensures r.Some? <==> name in BuiltinTypes || name in s.types
    ensures name in BuiltinTypes ==> r == Some(BuiltinTypes[name])
    ensures name !in BuiltinTypes && name in s.types ==> r == Some(s.types[name])
  {
    if name in BuiltinTypes then Some(BuiltinTypes[name])
    else if name in s.types then Some(s.types[name])
    else None
  }
}
