/**
 * Field metadata of a domain model class and the descriptor the tool layer
 * derives from it (xrpl/server/models/enhanced_main.py, `extract_enum_info`,
 * `get_field_type_info` and `get_comprehensive_model_info`).
 *
 * Python reflection (`__dataclass_fields__`, `typing.get_origin`,
 * `typing.get_args`) is replaced by the explicit records below.
 */
module FieldTypes {
  import opened Wrappers
  import opened PyValues

  /** An enum class: its name and its members in definition order, each a name and a value. */
  datatype EnumInfo = EnumInfo(name: string, members: seq<(string, EnumValue)>)

  /** The names of an enum's members, in definition order. */
  function MemberNames(e: EnumInfo): (names: seq<string>)
    ensures |names| == |e.members|
    ensures forall i :: 0 <= i < |e.members| ==> names[i] == e.members[i].0
  {
    seq(|e.members|, i requires 0 <= i < |e.members| => e.members[i].0)
  }

  /** The declared type of a field, as `typing.get_origin` and `typing.get_args` expose it. */
  datatype TypeShape =
    | Other(name: string)            // a class that is not an enum, or a generic other than List/Union
    | NoneType                       // type(None)
    | EnumType(info: EnumInfo)       // a subclass of Enum
    | ListOf(args: seq<TypeShape>)   // List or List[T]; `args` is get_args, empty for a bare List
    | UnionOf(alts: seq<TypeShape>)  // Union[...]; Optional[T] is Union[T, None]

  /** The descriptor `get_field_type_info` returns (without the `python_type` text). */
  datatype TypeInfo = TypeInfo(isOptional: bool, isList: bool, innerType: Option<TypeShape>,
                               enumInfo: Option<EnumInfo>)

  /** `Optional[T]`: a union of exactly two alternatives, one of them NoneType. */
  predicate IsOptionalUnion(t: TypeShape)
  {
    t.UnionOf? && |t.alts| == 2 && NoneType in t.alts
  }

  /** The `T` of `Optional[T]`: the alternative that is not NoneType (the first one if both are). */
  function OptionalInner(t: TypeShape): (inner: TypeShape)
    requires IsOptionalUnion(t)
    ensures inner < t
  {
    if t.alts[1] == NoneType then t.alts[0] else t.alts[1]
  }

  /** `get_field_type_info`. */
  function GetFieldTypeInfo(t: TypeShape): TypeInfo
  {
    match t
    case UnionOf(alts) =>
      if IsOptionalUnion(t) then
        // apart from the optional flag, every entry is taken over from the inner type
        var inner := GetFieldTypeInfo(OptionalInner(t));
        TypeInfo(true, inner.isList, inner.innerType, inner.enumInfo)
      else TypeInfo(false, false, None, None)
    case ListOf(args) =>
      TypeInfo(false, true,
               if |args| > 0 then Some(args[0]) else None,
               if |args| > 0 && args[0].EnumType? then Some(args[0].info) else None)
    case EnumType(info) => TypeInfo(false, false, None, Some(info))
    case _ => TypeInfo(false, false, None, None)
  }

  // ---------------------------------------------------------------------------
  // An independent reading of the descriptor: peel the Optional wrappers, then
  // look at what is left.

  /** The type with every `Optional[...]` wrapper removed. */
  function StripOptional(t: TypeShape): (base: TypeShape)
    ensures !IsOptionalUnion(base)
  {
    if IsOptionalUnion(t) then StripOptional(OptionalInner(t)) else t
  }

  /** The enum a value of an unwrapped type, or each of its list items, must belong to. */
  function ElementEnum(base: TypeShape): Option<EnumInfo>
  {
    match base
    case EnumType(e) => Some(e)
    case ListOf(args) => if |args| > 0 && args[0].EnumType? then Some(args[0].info) else None
    case _ => None
  }

  /**
   * The descriptor says "optional" exactly for an `Optional[...]` type; its
   * list flag, item type and enum are those of the type under the Optional
   * wrappers (for `Optional[int]` the item type is therefore absent).
   */
  lemma {:induction false} TypeInfoOfUnwrapped(t: TypeShape)
    ensures GetFieldTypeInfo(t).isOptional <==> IsOptionalUnion(t)
    ensures GetFieldTypeInfo(t).isList <==> StripOptional(t).ListOf?
    ensures GetFieldTypeInfo(t).innerType ==
            (var b := StripOptional(t); if b.ListOf? && |b.args| > 0 then Some(b.args[0]) else None)
    ensures GetFieldTypeInfo(t).enumInfo == ElementEnum(StripOptional(t))
  {
    if IsOptionalUnion(t) {
      TypeInfoOfUnwrapped(OptionalInner(t));
    }
  }

  // ---------------------------------------------------------------------------
  // Field records and the per-field information of a model class

  /** A field's default: the REQUIRED marker, none at all (dataclasses.MISSING), or a value. */
  datatype Default = RequiredMarker | NoDefault | DefaultValue(v: Value)

  /** One entry of `__dataclass_fields__`: name, declared type and default. */
  datatype FieldDecl = FieldDecl(name: string, shape: TypeShape, default: Default)

  /** A domain model class: its `__name__` and its fields in declaration order. */
  datatype ModelClass = ModelClass(name: string, fields: seq<FieldDecl>)

  /** Field names are distinct, as the keys of `__dataclass_fields__` are. */
  predicate ValidModelClass(cls: ModelClass)
  {
    forall i, j :: 0 <= i < j < |cls.fields| ==> cls.fields[i].name != cls.fields[j].name
  }

  /** One entry of `get_comprehensive_model_info(...)["fields"]` (without the description text). */
  datatype FieldInfo = FieldInfo(name: string, required: bool, typeInfo: TypeInfo, default: Default)

  /** What `get_comprehensive_model_info` returns (without the class docstring). */
  datatype ModelInfo = ModelInfo(name: string, fields: seq<FieldInfo>)

  /** The information recorded for one field. */
  function FieldInfoOf(f: FieldDecl): FieldInfo
  {
    var required := f.default == RequiredMarker;
    FieldInfo(f.name, required, GetFieldTypeInfo(f.shape), if required then DefaultValue(Null) else f.default)
  }

  /** `get_comprehensive_model_info`: one record per field, in declaration order. */
  method GetComprehensiveModelInfo(cls: ModelClass) returns (info: ModelInfo)
    ensures info.name == cls.name
    ensures |info.fields| == |cls.fields|
    ensures forall i :: 0 <= i < |cls.fields| ==>
              var f, fi := cls.fields[i], info.fields[i];
              && fi.name == f.name
              && (fi.required <==> f.default == RequiredMarker)
              && fi.typeInfo == GetFieldTypeInfo(f.shape)
              && fi.default == (if fi.required then DefaultValue(Null) else f.default)
  {
    var fields: seq<FieldInfo> := [];
    var i := 0;
    while i < |cls.fields|
      invariant 0 <= i <= |cls.fields|
      invariant fields == seq(i, k requires 0 <= k < i => FieldInfoOf(cls.fields[k]))
    {
      fields := fields + [FieldInfoOf(cls.fields[i])];
      i := i + 1;
    }
    info := ModelInfo(cls.name, fields);
  }
}
