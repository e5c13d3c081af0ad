/**
 * The tool that `create_dynamic_model_tool` (xrpl/server/models/enhanced_main.py)
 * synthesises for one model class: its name, its parameter lists, and what its
 * `implementation` closure does with a call.
 *
 * The closure only reads the lists and dicts it captured, so a tool is a
 * value; the domain library's constructor (`model_class(**kwargs)` followed by
 * `to_xrpl()` or `to_dict()`) is the parameter `construct`, and `float()` is
 * the parameter `floatOf` of the value conversion.
 */
module ModelTools {
  import opened Wrappers
  import opened Strings
  import opened Sequences
  import opened PyValues
  import opened OrderedDicts
  import opened FieldTypes
  import opened ValueConversion

  // ---------------------------------------------------------------------------
  // The tool name

  /** The registered tool name: a fixed prefix, the lower-cased category, an underscore and the lower-cased class name. */
  function ToolName(category: string, className: string): string
  {
    "create_" + Lower(category) + "_" + Lower(className)
  }

  /** Reads a tool name back as (category, class name): the text between `create_` and the next `_`, and the rest. */
  function SplitToolName(name: string): Option<(string, string)>
  {
    if !StartsWith(name, "create_") then None
    else
      var rest := name[7..];
      var i := IndexOfAny(rest, {'_'}, 0);
      if i == |rest| then None else Some((rest[..i], rest[i + 1..]))
  }

  /** For a category without underscores, the tool name gives back both lower-cased parts. */
  lemma ToolNameRoundTrip(category: string, className: string)
    requires '_' !in category
    ensures SplitToolName(ToolName(category, className)) == Some((Lower(category), Lower(className)))
  {
    var c, n := Lower(category), Lower(className);
    var name := ToolName(category, className);
    assert name == "create_" + (c + "_" + n);
    assert name[..7] == "create_";
    var rest := name[7..];
    assert rest == c + "_" + n;
    assert forall j :: 0 <= j < |c| ==> rest[j] == c[j] && c[j] != '_' by {
      forall j | 0 <= j < |c| ensures rest[j] == c[j] && c[j] != '_' {
        assert category[j] in category;
      }
    }
    assert rest[|c|] == '_';
    var i := IndexOfAny(rest, {'_'}, 0);
    assert i == |c|;
    assert rest[..i] == c;
    assert rest[i + 1..] == n;
  }

  /** Two classes of one category get one tool name exactly when their names agree up to case. */
  lemma ToolNamesCollide(category: string, a: string, b: string)
    ensures ToolName(category, a) == ToolName(category, b) <==> Lower(a) == Lower(b)
  {
    var p := "create_" + Lower(category) + "_";
    assert ToolName(category, a) == p + Lower(a);
    assert ToolName(category, b) == p + Lower(b);
    if ToolName(category, a) == ToolName(category, b) {
      assert Lower(a) == (p + Lower(a))[|p|..];
      assert Lower(b) == (p + Lower(b))[|p|..];
    }
  }

  // ---------------------------------------------------------------------------
  // The tool and its parameter lists

  /**
   * What `create_dynamic_model_tool` captures in the closure it registers:
   * the name, the class, its field records, and the two parameter lists.
   */
  datatype Tool = Tool(name: string, modelClass: ModelClass, fields: seq<FieldInfo>,
                       requiredParams: seq<string>, optionalParams: seq<string>)

  /** The full parameter list: the required names, then the optional ones. */
  function AllParams(t: Tool): seq<string>
  {
    t.requiredParams + t.optionalParams
  }

  /** A tool whose parameter names are all different, as those of a model class are. */
  predicate ValidTool(t: Tool)
  {
    Distinct(AllParams(t))
  }

  function DeclaredNames(cls: ModelClass): (names: seq<string>)
    ensures |names| == |cls.fields|
    ensures forall i :: 0 <= i < |cls.fields| ==> names[i] == cls.fields[i].name
  {
    seq(|cls.fields|, i requires 0 <= i < |cls.fields| => cls.fields[i].name)
  }

  function FieldNames(fields: seq<FieldInfo>): (names: seq<string>)
    ensures |names| == |fields|
    ensures forall i :: 0 <= i < |fields| ==> names[i] == fields[i].name
  {
    seq(|fields|, i requires 0 <= i < |fields| => fields[i].name)
  }

  /** The field records `get_comprehensive_model_info` produces for a class, in declaration order. */
  function FieldInfos(cls: ModelClass): (fields: seq<FieldInfo>)
    ensures |fields| == |cls.fields|
    ensures forall i :: 0 <= i < |cls.fields| ==> fields[i] == FieldInfoOf(cls.fields[i])
  {
    seq(|cls.fields|, i requires 0 <= i < |cls.fields| => FieldInfoOf(cls.fields[i]))
  }

  /** The names of the fields whose `required` flag is `required`, in field order. */
  function NamesWhere(fields: seq<FieldInfo>, required: bool): seq<string>
  {
    if fields == [] then []
    else
      var last := fields[|fields| - 1];
      NamesWhere(fields[..|fields| - 1], required) + (if last.required == required then [last.name] else [])
  }

  /** `create_dynamic_model_tool`, without the docstring, the signature and the registration. */
  method CreateDynamicModelTool(cls: ModelClass, category: string) returns (t: Tool)
    ensures t.name == ToolName(category, cls.name)
    ensures t.modelClass == cls
    ensures t.fields == FieldInfos(cls)
    ensures t.requiredParams == NamesWhere(t.fields, true)
    ensures t.optionalParams == NamesWhere(t.fields, false)
  {
    var info := GetComprehensiveModelInfo(cls);
    var required: seq<string> := [];
    var optional: seq<string> := [];
    var i := 0;
    while i < |info.fields|
      invariant 0 <= i <= |info.fields|
      invariant required == NamesWhere(info.fields[..i], true)
      invariant optional == NamesWhere(info.fields[..i], false)
    {
      var f := info.fields[i];
      assert info.fields[..i + 1][..i] == info.fields[..i];
      if f.required {
        required := required + [f.name];
      } else {
        optional := optional + [f.name];
      }
      i := i + 1;
    }
    assert info.fields[..i] == info.fields;
    forall k | 0 <= k < |cls.fields| ensures info.fields[k] == FieldInfoOf(cls.fields[k]) {
      var f := info.fields[k];
      assert f == FieldInfo(f.name, f.required, f.typeInfo, f.default);
    }
    t := Tool(ToolName(category, cls.name), cls, info.fields, required, optional);
  }

  lemma {:induction false} NamesWhereCount(fields: seq<FieldInfo>)
    ensures |NamesWhere(fields, true)| + |NamesWhere(fields, false)| == |fields|
  {
    if fields != [] {
      NamesWhereCount(fields[..|fields| - 1]);
    }
  }

  /**
   * For distinct field names, a field is listed exactly when its flag matches,
   * every name is listed once, and the list follows the field order.
   */
  lemma {:induction false} NamesWhereFacts(fields: seq<FieldInfo>, required: bool)
    requires Distinct(FieldNames(fields))
    ensures forall i :: 0 <= i < |fields| ==>
              (fields[i].name in NamesWhere(fields, required) <==> fields[i].required == required)
    ensures Distinct(NamesWhere(fields, required))
    ensures InOrderOf(NamesWhere(fields, required), FieldNames(fields))
  {
    if fields != [] {
      var n := |fields| - 1;
      var init, last := fields[..n], fields[n];
      var names0 := NamesWhere(init, required);
      assert FieldNames(fields) == FieldNames(init) + [last.name];
      assert Distinct(FieldNames(init)) by {
        forall i, j | 0 <= i < j < n ensures FieldNames(init)[i] != FieldNames(init)[j] {
          assert FieldNames(init)[i] == FieldNames(fields)[i];
          assert FieldNames(init)[j] == FieldNames(fields)[j];
        }
      }
      NamesWhereFacts(init, required);
      assert last.name !in FieldNames(init) by {
        forall i | 0 <= i < n ensures FieldNames(init)[i] != last.name {
          assert FieldNames(fields)[i] != FieldNames(fields)[n];
        }
      }
      assert last.name !in names0;
      InOrderExtend(names0, FieldNames(init), last.name);
      var names := NamesWhere(fields, required);
      assert names == names0 + (if last.required == required then [last.name] else []);
      forall i | 0 <= i < |fields|
        ensures fields[i].name in names <==> fields[i].required == required
      {
        if i < n {
          assert fields[i] == init[i];
          assert fields[i].name != last.name by {
            assert FieldNames(fields)[i] != FieldNames(fields)[n];
          }
        }
      }
      forall i, j | 0 <= i < j < |names| ensures names[i] != names[j] {
        if j == |names0| {
          assert names[i] == names0[i];
        }
      }
    }
  }

  /**
   * Parameters list all required fields before all optional ones, each group in
   * declaration order: a field is a required parameter exactly when its default
   * is REQUIRED, an optional one otherwise, and every field is exactly one of them.
   */
  lemma ParameterSplit(cls: ModelClass)
    requires ValidModelClass(cls)
    ensures var fs := FieldInfos(cls);
            var req, opt := NamesWhere(fs, true), NamesWhere(fs, false);
            && (forall i :: 0 <= i < |cls.fields| ==>
                  (cls.fields[i].name in req <==> cls.fields[i].default == RequiredMarker))
            && (forall i :: 0 <= i < |cls.fields| ==>
                  (cls.fields[i].name in opt <==> cls.fields[i].default != RequiredMarker))
            && InOrderOf(req, DeclaredNames(cls))
            && InOrderOf(opt, DeclaredNames(cls))
            && |req + opt| == |cls.fields|
            && Distinct(req + opt)
  {
    var fs := FieldInfos(cls);
    assert FieldNames(fs) == DeclaredNames(cls);
    NamesWhereFacts(fs, true);
    NamesWhereFacts(fs, false);
    NamesWhereCount(fs);
    var req, opt := NamesWhere(fs, true), NamesWhere(fs, false);
    forall p | 0 <= p < |req| ensures req[p] !in opt {
      var i := IndexIn(FieldNames(fs), req[p]);
      assert fs[i].name == req[p];
    }
    DistinctConcat(req, opt);
  }

  /** Hence the tool made for a model class has distinct parameter names. */
  lemma CreatedToolIsValid(cls: ModelClass, category: string)
    requires ValidModelClass(cls)
    ensures var fs := FieldInfos(cls);
            ValidTool(Tool(ToolName(category, cls.name), cls, fs, NamesWhere(fs, true), NamesWhere(fs, false)))
  {
    ParameterSplit(cls);
  }

  // ---------------------------------------------------------------------------
  // Mapping the call's arguments onto parameter names (lines 219-225)

  /** `param_values` after the positional loop: argument i goes to parameter i, later arguments are dropped. */
  function Positional(params: seq<string>, args: seq<Value>): Dict<Value>
  {
    if args == [] then []
    else
      var n := |args| - 1;
      var d := Positional(params, args[..n]);
      if n < |params| then Put(d, params[n], args[n]) else d
  }

  /** The positional mapping, then every keyword argument assigned over it in call order. */
  function MapArguments(params: seq<string>, args: seq<Value>, kwargs: Dict<Value>): Dict<Value>
  {
    PutAll(Positional(params, args), kwargs)
  }

  lemma {:induction false} PositionalDistinct(params: seq<string>, args: seq<Value>)
    ensures DistinctKeys(Positional(params, args))
  {
    if args != [] {
      var n := |args| - 1;
      PositionalDistinct(params, args[..n]);
      if n < |params| {
        PutDistinct(Positional(params, args[..n]), params[n], args[n]);
      }
    }
  }

  /** The mapped arguments never name one parameter twice. */
  lemma MapArgumentsDistinct(params: seq<string>, args: seq<Value>, kwargs: Dict<Value>)
    ensures DistinctKeys(MapArguments(params, args, kwargs))
  {
    PositionalDistinct(params, args);
    PutAllDistinct(Positional(params, args), kwargs);
  }

  /** A parameter gets the positional argument at its own position, when there is one. */
  lemma {:induction false} PositionalLookup(params: seq<string>, args: seq<Value>, k: string)
    requires Distinct(params)
    ensures Lookup(Positional(params, args), k) ==
            if k in params && IndexIn(params, k) < |args| then Some(args[IndexIn(params, k)]) else None
  {
    if args != [] {
      var n := |args| - 1;
      var d := Positional(params, args[..n]);
      PositionalLookup(params, args[..n], k);
      if k in params && IndexIn(params, k) < n {
        assert args[..n][IndexIn(params, k)] == args[IndexIn(params, k)];
      }
      if n < |params| {
        PutLookup(d, params[n], args[n], k);
        assert IndexIn(params, params[n]) == n;
      }
    }
  }

  /** A keyword argument overrides the positional argument for the same parameter. */
  lemma MapArgumentsLookup(params: seq<string>, args: seq<Value>, kwargs: Dict<Value>, k: string)
    requires Distinct(params) && DistinctKeys(kwargs)
    ensures Lookup(MapArguments(params, args, kwargs), k) ==
            if k in Keys(kwargs) then Lookup(kwargs, k)
            else if k in params && IndexIn(params, k) < |args| then Some(args[IndexIn(params, k)])
            else None
  {
    PutAllLookup(Positional(params, args), kwargs, k);
    PositionalLookup(params, args, k);
  }

  lemma {:induction false} PositionalExtraIgnored(params: seq<string>, args: seq<Value>)
    requires |args| >= |params|
    ensures Positional(params, args) == Positional(params, args[..|params|])
  {
    if |args| > |params| {
      var n := |args| - 1;
      PositionalExtraIgnored(params, args[..n]);
      assert args[..n][..|params|] == args[..|params|];
    } else {
      assert args[..|params|] == args;
    }
  }

  /** Positional arguments beyond the parameter count are ignored. */
  lemma ExtraPositionalIgnored(params: seq<string>, args: seq<Value>, kwargs: Dict<Value>)
    requires |args| >= |params|
    ensures MapArguments(params, args, kwargs) == MapArguments(params, args[..|params|], kwargs)
  {
    PositionalExtraIgnored(params, args);
  }

  // ---------------------------------------------------------------------------
  // Conversion and filtering (lines 228-237)

  /** `filtered_kwargs`, or the OverflowError escaping `convert_field_value` for a field. */
  datatype Filtering = Filtered(kwargs: Dict<Value>) | FilterOverflow(field: string)

  /** The loop hands `(k, v)` to the conversion: `_meta` is skipped, None only for a required parameter. */
  predicate Considered(required: seq<string>, k: string, v: Value)
  {
    k != "_meta" && (v != Null || k in required)
  }

  /** The conversion loop over `param_values`. */
  function FilterArguments(required: seq<string>, pv: Dict<Value>, floatOf: string -> FloatParse): Filtering
  {
    if pv == [] then Filtered([])
    else
      var n := |pv| - 1;
      var (k, v) := pv[n];
      match FilterArguments(required, pv[..n], floatOf)
      case FilterOverflow(f) => FilterOverflow(f)
      case Filtered(fk) =>
        if !Considered(required, k, v) then Filtered(fk)
        else
          match ConvertFieldValue(k, v, floatOf)
          case OverflowRaised => FilterOverflow(k)
          case Converted(c) => if c == Null then Filtered(fk) else Filtered(Put(fk, k, c))
  }

  /** An argument whose conversion raises OverflowError. */
  predicate Overflows(kv: (string, Value), floatOf: string -> FloatParse)
  {
    kv.0 != "_meta" && ConvertFieldValue(kv.0, kv.1, floatOf) == OverflowRaised
  }

  /** The value that stays in the filtered arguments for `k`: the converted one, unless it is None. */
  function Survivor(pv: Dict<Value>, k: string, floatOf: string -> FloatParse): Option<Value>
  {
    if k == "_meta" then None
    else
      match Lookup(pv, k)
      case None => None
      case Some(v) =>
        match ConvertFieldValue(k, v, floatOf)
        case OverflowRaised => None
        case Converted(c) => if c == Null then None else Some(c)
  }

  /**
   * The conversion raises exactly when some argument other than `_meta`
   * overflows, and it names the first such argument.
   */
  lemma {:induction false} FilterOverflowExact(required: seq<string>, pv: Dict<Value>, floatOf: string -> FloatParse)
    ensures FilterArguments(required, pv, floatOf).FilterOverflow? <==>
            exists i :: 0 <= i < |pv| && Overflows(pv[i], floatOf)
    ensures FilterArguments(required, pv, floatOf).FilterOverflow? ==>
            exists i :: 0 <= i < |pv| && Overflows(pv[i], floatOf)
                        && pv[i].0 == FilterArguments(required, pv, floatOf).field
                        && forall j :: 0 <= j < i ==> !Overflows(pv[j], floatOf)
  {
    if pv != [] {
      var n := |pv| - 1;
      var init := pv[..n];
      FilterOverflowExact(required, init, floatOf);
      assert forall i :: 0 <= i < n ==> init[i] == pv[i];
      if FilterArguments(required, init, floatOf).FilterOverflow? {
        var i :| 0 <= i < n && Overflows(init[i], floatOf)
                 && init[i].0 == FilterArguments(required, init, floatOf).field
                 && forall j :: 0 <= j < i ==> !Overflows(init[j], floatOf);
        assert Overflows(pv[i], floatOf);
      } else {
        assert forall i :: 0 <= i < n ==> !Overflows(pv[i], floatOf);
        if Overflows(pv[n], floatOf) {
          assert pv[n].1 != Null;
        }
      }
    }
  }

  /** Once the conversion has raised on a prefix of the arguments, the whole loop raises the same way. */
  lemma {:induction false} OverflowPersists(required: seq<string>, pv: Dict<Value>, m: nat, floatOf: string -> FloatParse)
    requires m <= |pv| && FilterArguments(required, pv[..m], floatOf).FilterOverflow?
    ensures FilterArguments(required, pv, floatOf) == FilterArguments(required, pv[..m], floatOf)
  {
    if m < |pv| {
      var n := |pv| - 1;
      assert pv[..n][..m] == pv[..m];
      OverflowPersists(required, pv[..n], m, floatOf);
    } else {
      assert pv[..m] == pv;
    }
  }

  /**
   * Without an overflow, the filtered arguments hold exactly the surviving
   * arguments, with their converted values, in the order of the mapped arguments.
   */
  lemma {:induction false} FilteredArguments(required: seq<string>, pv: Dict<Value>, floatOf: string -> FloatParse)
    requires DistinctKeys(pv)
    requires FilterArguments(required, pv, floatOf).Filtered?
    ensures var fk := FilterArguments(required, pv, floatOf).kwargs;
            && DistinctKeys(fk)
            && InOrderOf(Keys(fk), Keys(pv))
            && forall k :: Lookup(fk, k) == Survivor(pv, k, floatOf)
  {
    if pv != [] {
      var n := |pv| - 1;
      var init := pv[..n];
      var (k, v) := pv[n];
      assert pv == init + [(k, v)];
      assert Keys(pv) == Keys(init) + [k];
      assert k !in Keys(init) by {
        forall i | 0 <= i < n ensures Keys(init)[i] != k {
          assert init[i] == pv[i];
        }
      }
      assert DistinctKeys(init) by {
        forall i, j | 0 <= i < j < n ensures init[i].0 != init[j].0 {
          assert init[i] == pv[i] && init[j] == pv[j];
        }
      }
      FilteredArguments(required, init, floatOf);
      var fk0 := FilterArguments(required, init, floatOf).kwargs;
      var fk := FilterArguments(required, pv, floatOf).kwargs;
      assert k !in Keys(fk0) by {
        forall p | 0 <= p < |Keys(fk0)| ensures Keys(fk0)[p] != k {
          assert Keys(fk0)[p] in Keys(init);
        }
      }
      InOrderExtend(Keys(fk0), Keys(init), k);
      var conv := ConvertFieldValue(k, v, floatOf);
      var added := Considered(required, k, v) && conv.Converted? && conv.v != Null;
      assert Lookup(pv, k) == Some(v) by {
        LookupAppend(init, (k, v), k);
      }
      if added {
        assert fk == Put(fk0, k, conv.v);
        PutKeys(fk0, k, conv.v);
        PutDistinct(fk0, k, conv.v);
      } else {
        assert fk == fk0;
      }
      forall k' ensures Lookup(fk, k') == Survivor(pv, k', floatOf) {
        if added {
          PutLookup(fk0, k, conv.v, k');
        }
        if k' != k {
          LookupAppend(init, (k, v), k');
          assert Lookup(pv, k') == Lookup(init, k');
        }
      }
    }
  }

  /** `_meta` never reaches the model, and neither does a value that is or converts to None. */
  lemma FilteredIsClean(required: seq<string>, pv: Dict<Value>, floatOf: string -> FloatParse)
    requires DistinctKeys(pv)
    requires FilterArguments(required, pv, floatOf).Filtered?
    ensures var fk := FilterArguments(required, pv, floatOf).kwargs;
            && "_meta" !in Keys(fk)
            && forall i :: 0 <= i < |fk| ==> fk[i].1 != Null
  {
    FilteredArguments(required, pv, floatOf);
    var fk := FilterArguments(required, pv, floatOf).kwargs;
    assert Lookup(fk, "_meta") == None;
    forall i | 0 <= i < |fk| ensures fk[i].1 != Null {
      LookupAt(fk, i);
    }
  }

  /**
   * Passing None for a required parameter has the same effect as leaving it
   * out: the extra condition `field_name in required_params` never changes
   * the filtered arguments.
   */
  lemma {:induction false} RequiredListIrrelevant(required: seq<string>, pv: Dict<Value>, floatOf: string -> FloatParse)
    ensures FilterArguments(required, pv, floatOf) == FilterArguments([], pv, floatOf)
  {
    if pv != [] {
      RequiredListIrrelevant(required, pv[..|pv| - 1], floatOf);
    }
  }

  // ---------------------------------------------------------------------------
  // Required fields (lines 241-245)

  /** The required parameters that have no filtered value, in required order. */
  function MissingRequired(required: seq<string>, fk: Dict<Value>): seq<string>
  {
    if required == [] then []
    else
      var n := |required| - 1;
      MissingRequired(required[..n], fk) + (if required[n] !in Keys(fk) then [required[n]] else [])
  }

  /** The missing list holds exactly the required parameters absent from the filtered arguments, in required order. */
  lemma {:induction false} MissingRequiredExact(required: seq<string>, fk: Dict<Value>)
    requires Distinct(required)
    ensures forall f :: f in MissingRequired(required, fk) <==> f in required && f !in Keys(fk)
    ensures InOrderOf(MissingRequired(required, fk), required)
    ensures Distinct(MissingRequired(required, fk))
  {
    if required != [] {
      var n := |required| - 1;
      var init := required[..n];
      var m0 := MissingRequired(init, fk);
      assert required == init + [required[n]];
      assert Distinct(init) by {
        forall i, j | 0 <= i < j < n ensures init[i] != init[j] {
          assert init[i] == required[i] && init[j] == required[j];
        }
      }
      assert required[n] !in init by {
        forall i | 0 <= i < n ensures init[i] != required[n] {
          assert init[i] == required[i];
        }
      }
      MissingRequiredExact(init, fk);
      InOrderExtend(m0, init, required[n]);
      var m := MissingRequired(required, fk);
      forall i, j | 0 <= i < j < |m| ensures m[i] != m[j] {
        if j == |m0| {
          assert m[i] == m0[i];
        }
      }
    }
  }

  // ---------------------------------------------------------------------------
  // Enum membership (lines 270-290)

  /** One entry of `validation_errors`: the field, the rejected value and the member names. */
  datatype EnumError = EnumError(field: string, value: Value, validNames: seq<string>)

  function ErrorFields(errors: seq<EnumError>): (fs: seq<string>)
    ensures |fs| == |errors|
    ensures forall i :: 0 <= i < |errors| ==> fs[i] == errors[i].field
  {
    seq(|errors|, i requires 0 <= i < |errors| => errors[i].field)
  }

  /** `fields[k]`: the record of the field named `k`, if the class has one. */
  function FindField(fields: seq<FieldInfo>, k: string): (r: Option<FieldInfo>)
    ensures r.Some? <==> k in FieldNames(fields)
    ensures r.Some? ==> r.value in fields && r.value.name == k
  {
    if fields == [] then None
    else if fields[0].name == k then Some(fields[0])
    else
      assert FieldNames(fields) == [fields[0].name] + FieldNames(fields[1..]);
      FindField(fields[1..], k)
  }

  /**
   * The enum check accepts a value that is a member name, whose `str()` is a
   * member name, or that equals (in Python's sense) a member's value.
   */
  predicate EnumAccepts(v: Value, e: EnumInfo)
  {
    || (v.Str? && v.s in MemberNames(e))
    || PyStr(v) in MemberNames(e)
    || exists i :: 0 <= i < |e.members| && EqualsEnumValue(v, e.members[i].1)
  }

  /** The error the enum check reports for the filtered argument `(k, v)`, if any. */
  function EnumCheck(fields: seq<FieldInfo>, k: string, v: Value): Option<EnumError>
  {
    match FindField(fields, k)
    case None => None
    case Some(f) =>
      match f.typeInfo.enumInfo
      case None => None
      case Some(e) => if v != Null && !EnumAccepts(v, e) then Some(EnumError(k, v, MemberNames(e))) else None
  }

  /** `validation_errors` after the loop over the filtered arguments. */
  function EnumErrors(fields: seq<FieldInfo>, fk: Dict<Value>): seq<EnumError>
  {
    if fk == [] then []
    else
      var n := |fk| - 1;
      EnumErrors(fields, fk[..n]) + (match EnumCheck(fields, fk[n].0, fk[n].1) case None => [] case Some(e) => [e])
  }

  /**
   * Each rejected argument yields one error, in argument order, naming the
   * value it was given and the member names of its enum; no other error is reported.
   */
  lemma {:induction false} EnumErrorsExact(fields: seq<FieldInfo>, fk: Dict<Value>)
    requires DistinctKeys(fk)
    ensures var errs := EnumErrors(fields, fk);
            && (forall i :: 0 <= i < |errs| ==>
                  Lookup(fk, errs[i].field) == Some(errs[i].value)
                  && EnumCheck(fields, errs[i].field, errs[i].value) == Some(errs[i]))
            && (forall i :: 0 <= i < |fk| && EnumCheck(fields, fk[i].0, fk[i].1).Some? ==>
                  fk[i].0 in ErrorFields(errs))
            && InOrderOf(ErrorFields(errs), Keys(fk))
  {
    if fk != [] {
      var n := |fk| - 1;
      var init := fk[..n];
      var (k, v) := fk[n];
      assert fk == init + [(k, v)];
      assert Keys(fk) == Keys(init) + [k];
      assert k !in Keys(init) by {
        forall i | 0 <= i < n ensures Keys(init)[i] != k {
          assert init[i] == fk[i];
        }
      }
      assert DistinctKeys(init) by {
        forall i, j | 0 <= i < j < n ensures init[i].0 != init[j].0 {
          assert init[i] == fk[i] && init[j] == fk[j];
        }
      }
      EnumErrorsExact(fields, init);
      var errs0 := EnumErrors(fields, init);
      var errs := EnumErrors(fields, fk);
      InOrderExtend(ErrorFields(errs0), Keys(init), k);
      var check := EnumCheck(fields, k, v);
      assert errs == errs0 + (if check.Some? then [check.value] else []);
      assert ErrorFields(errs) == ErrorFields(errs0) + (if check.Some? then [k] else []);
      assert !check.Some? ==> InOrderOf(ErrorFields(errs), Keys(fk));
      assert check.Some? ==> check.value.field == k && check.value.value == v;
      forall i | 0 <= i < |errs|
        ensures Lookup(fk, errs[i].field) == Some(errs[i].value)
        ensures EnumCheck(fields, errs[i].field, errs[i].value) == Some(errs[i])
      {
        LookupAppend(init, (k, v), errs[i].field);
        if i < |errs0| {
          assert errs[i] == errs0[i];
          assert errs0[i].field in ErrorFields(errs0);
        }
      }
      forall i | 0 <= i < |fk| && EnumCheck(fields, fk[i].0, fk[i].1).Some?
        ensures fk[i].0 in ErrorFields(errs)
      {
        if i < n {
          assert fk[i] == init[i];
          assert fk[i].0 in ErrorFields(errs0);
        }
      }
    }
  }

  /** Every member of an enum passes the check, by its name and by its value. */
  lemma MembersAccepted(e: EnumInfo, i: nat)
    requires i < |e.members|
    ensures EnumAccepts(Str(e.members[i].0), e)
    ensures EnumAccepts(AsValue(e.members[i].1), e)
  {
    assert MemberNames(e)[i] == e.members[i].0;
  }

  /** Hence a member's name or value given for an enum-typed field never yields an error. */
  lemma MembersPassEnumCheck(fields: seq<FieldInfo>, k: string, e: EnumInfo, i: nat)
    requires FindField(fields, k).Some? && FindField(fields, k).value.typeInfo.enumInfo == Some(e)
    requires i < |e.members|
    ensures EnumCheck(fields, k, Str(e.members[i].0)) == None
    ensures EnumCheck(fields, k, AsValue(e.members[i].1)) == None
  {
    MembersAccepted(e, i);
  }

  /** A Python identifier starts with a letter or an underscore, never with a bracket. */
  predicate IsIdentifierStart(c: char)
  {
    IsAsciiLetter(c) || c == '_'
  }

  /**
   * A list (or dict) is never accepted, whatever its items: it is no member
   * name, its text starts with a bracket, and it equals no string or integer.
   * So for a field declared `List[SomeEnum]`, whose descriptor carries the
   * enum, every list argument is rejected.
   */
  lemma CollectionsNeverAccepted(v: Value, e: EnumInfo)
    requires v.List? || v.Dict?
    requires forall i :: 0 <= i < |e.members| ==>
               |e.members[i].0| > 0 && IsIdentifierStart(e.members[i].0[0])
    ensures !EnumAccepts(v, e)
  {
    CollectionTextIsBracketed(v);
  }

  /** The descriptor of a `List[E]` field carries E, so the enum check applies to the whole list. */
  lemma ListOfEnumRejectsLists(fields: seq<FieldInfo>, k: string, v: Value, e: EnumInfo)
    requires FindField(fields, k).Some?
    requires FindField(fields, k).value.typeInfo == GetFieldTypeInfo(ListOf([EnumType(e)]))
    requires forall i :: 0 <= i < |e.members| ==>
               |e.members[i].0| > 0 && IsIdentifierStart(e.members[i].0[0])
    requires v.List?
    ensures EnumCheck(fields, k, v) == Some(EnumError(k, v, MemberNames(e)))
  {
    CollectionsNeverAccepted(v, e);
  }

  // ---------------------------------------------------------------------------
  // The whole call (lines 217-311)

  /** What the MissingFields report shows of each field (type text and description are not modelled). */
  datatype FieldSchema = FieldSchema(name: string, required: bool, enumValues: Option<seq<(string, EnumValue)>>)

  function FieldSchemas(fields: seq<FieldInfo>): (schemas: seq<FieldSchema>)
    ensures |schemas| == |fields|
  {
    seq(|fields|, i requires 0 <= i < |fields| =>
      FieldSchema(fields[i].name, fields[i].required,
                  if fields[i].typeInfo.enumInfo.Some? then Some(fields[i].typeInfo.enumInfo.value.members) else None))
  }

  /** What a call of the tool comes to. */
  datatype Outcome =
    | MissingFields(missing: seq<string>, modelClass: string, requiredFields: seq<string>,
                    optionalFields: seq<string>, providedFields: seq<string>, fieldSchemas: seq<FieldSchema>)
    | EnumInvalid(errors: seq<EnumError>, modelClass: string)
    | Created(model: Value)              // to_xrpl() or to_dict() of the instance
    | ConstructionFailed(message: string) // str(e) of the exception the constructor raised
    | OverflowEscaped(field: string)      // the OverflowError leaves the tool

  /** Everything before construction: the keyword arguments for the constructor, or the result returned instead. */
  function Validate(t: Tool, args: seq<Value>, kwargs: Dict<Value>, floatOf: string -> FloatParse): Result<Dict<Value>, Outcome>
  {
    match FilterArguments(t.requiredParams, MapArguments(AllParams(t), args, kwargs), floatOf)
    case FilterOverflow(f) => Failure(OverflowEscaped(f))
    case Filtered(fk) =>
      var missing := MissingRequired(t.requiredParams, fk);
      if missing != [] then
        Failure(MissingFields(missing, t.modelClass.name, t.requiredParams, t.optionalParams, Keys(fk),
                              FieldSchemas(t.fields)))
      else
        var errors := EnumErrors(t.fields, fk);
        if errors != [] then Failure(EnumInvalid(errors, t.modelClass.name))
        else Success(fk)
  }

  /** What one call of the tool comes to: validation, then the constructor. */
  function Invocation(t: Tool, args: seq<Value>, kwargs: Dict<Value>, floatOf: string -> FloatParse,
                      construct: (ModelClass, Dict<Value>) -> Result<Value, string>): Outcome
  {
    match Validate(t, args, kwargs, floatOf)
    case Failure(result) => result
    case Success(fk) =>
      match construct(t.modelClass, fk)
      case Success(model) => Created(model)
      case Failure(message) => ConstructionFailed(message)
  }

  /** The `implementation` closure, step by step. */
  method Implementation(t: Tool, args: seq<Value>, kwargs: Dict<Value>, floatOf: string -> FloatParse,
                        construct: (ModelClass, Dict<Value>) -> Result<Value, string>)
    returns (r: Outcome)
    ensures r == Invocation(t, args, kwargs, floatOf, construct)
  {
    var allParams := AllParams(t);
    // argument i is bound to parameter i while there are parameters left
    var paramValues: Dict<Value> := [];
    var i := 0;
    while i < |args|
      invariant 0 <= i <= |args|
      invariant paramValues == Positional(allParams, args[..i])
    {
      assert args[..i + 1][..i] == args[..i];
      if i < |allParams| {
        paramValues := Put(paramValues, allParams[i], args[i]);
      }
      i := i + 1;
    }
    assert args[..i] == args;
    // keywords are assigned next, so they win over positional bindings
    var j := 0;
    while j < |kwargs|
      invariant 0 <= j <= |kwargs|
      invariant paramValues == PutAll(Positional(allParams, args), kwargs[..j])
    {
      assert kwargs[..j + 1][..j] == kwargs[..j];
      paramValues := Put(paramValues, kwargs[j].0, kwargs[j].1);
      j := j + 1;
    }
    assert kwargs[..j] == kwargs;
    // every considered binding is rewritten; what comes back as None is dropped
    var filtered: Dict<Value> := [];
    var k := 0;
    while k < |paramValues|
      invariant 0 <= k <= |paramValues|
      invariant FilterArguments(t.requiredParams, paramValues[..k], floatOf) == Filtered(filtered)
    {
      assert paramValues[..k + 1][..k] == paramValues[..k];
      var (name, value) := paramValues[k];
      if name != "_meta" && (value != Null || name in t.requiredParams) {
        var converted := ConvertFieldValue(name, value, floatOf);
        if converted.OverflowRaised? {
          OverflowPersists(t.requiredParams, paramValues, k + 1, floatOf);
          return OverflowEscaped(name);
        }
        if converted.v != Null {
          filtered := Put(filtered, name, converted.v);
        }
      }
      k := k + 1;
    }
    assert paramValues[..k] == paramValues;
    // collect the required names left without a value
    var missing: seq<string> := [];
    var m := 0;
    while m < |t.requiredParams|
      invariant 0 <= m <= |t.requiredParams|
      invariant missing == MissingRequired(t.requiredParams[..m], filtered)
    {
      assert t.requiredParams[..m + 1][..m] == t.requiredParams[..m];
      if t.requiredParams[m] !in Keys(filtered) {
        missing := missing + [t.requiredParams[m]];
      }
      m := m + 1;
    }
    assert t.requiredParams[..m] == t.requiredParams;
    if missing != [] {
      return MissingFields(missing, t.modelClass.name, t.requiredParams, t.optionalParams, Keys(filtered),
                           FieldSchemas(t.fields));
    }
    // check each surviving value of an enum-typed field
    var errors: seq<EnumError> := [];
    var e := 0;
    while e < |filtered|
      invariant 0 <= e <= |filtered|
      invariant errors == EnumErrors(t.fields, filtered[..e])
    {
      assert filtered[..e + 1][..e] == filtered[..e];
      var (name, value) := filtered[e];
      var field := FindField(t.fields, name);
      if field.Some? && field.value.typeInfo.enumInfo.Some? && value != Null {
        var info := field.value.typeInfo.enumInfo.value;
        if !EnumAccepts(value, info) {
          errors := errors + [EnumError(name, value, MemberNames(info))];
        }
      }
      e := e + 1;
    }
    assert filtered[..e] == filtered;
    if errors != [] {
      return EnumInvalid(errors, t.modelClass.name);
    }
    // only now is the constructor consulted
    match construct(t.modelClass, filtered)
    case Success(model) => r := Created(model);
    case Failure(message) => r := ConstructionFailed(message);
  }

  // ---------------------------------------------------------------------------
  // Properties of a call

  lemma RequiredDistinct(t: Tool)
    requires ValidTool(t)
    ensures Distinct(t.requiredParams)
  {
    forall a, b | 0 <= a < b < |t.requiredParams| ensures t.requiredParams[a] != t.requiredParams[b] {
      assert AllParams(t)[a] == t.requiredParams[a] && AllParams(t)[b] == t.requiredParams[b];
    }
  }

  /**
   * When the conversion does not raise, the call reports missing fields
   * exactly when some required parameter is left without a surviving value.
   */
  lemma MissingFieldsWhen(t: Tool, args: seq<Value>, kwargs: Dict<Value>, floatOf: string -> FloatParse,
                          construct: (ModelClass, Dict<Value>) -> Result<Value, string>)
    requires ValidTool(t)
    requires FilterArguments(t.requiredParams, MapArguments(AllParams(t), args, kwargs), floatOf).Filtered?
    ensures Invocation(t, args, kwargs, floatOf, construct).MissingFields? <==>
            exists i :: 0 <= i < |t.requiredParams| &&
                        Survivor(MapArguments(AllParams(t), args, kwargs), t.requiredParams[i], floatOf) == None
  {
    var pv := MapArguments(AllParams(t), args, kwargs);
    var required := t.requiredParams;
    MapArgumentsDistinct(AllParams(t), args, kwargs);
    RequiredDistinct(t);
    FilteredArguments(required, pv, floatOf);
    var fk := FilterArguments(required, pv, floatOf).kwargs;
    MissingRequiredExact(required, fk);
    var missing := MissingRequired(required, fk);
    assert Invocation(t, args, kwargs, floatOf, construct).MissingFields? <==> missing != [];
    if missing != [] {
      assert missing[0] in missing;
      var i := IndexIn(required, missing[0]);
      assert Lookup(fk, required[i]) == None;
    }
    if exists i :: 0 <= i < |required| && Survivor(pv, required[i], floatOf) == None {
      var i :| 0 <= i < |required| && Survivor(pv, required[i], floatOf) == None;
      assert required[i] !in Keys(fk);
      assert required[i] in missing;
    }
  }

  /**
   * The missing-fields report lists exactly the required parameters left
   * without a surviving value, each once and in required order, and shows the
   * class name, the required and optional parameter lists, and the provided
   * (surviving) fields in argument order.
   */
  lemma MissingFieldsReport(t: Tool, args: seq<Value>, kwargs: Dict<Value>, floatOf: string -> FloatParse,
                            construct: (ModelClass, Dict<Value>) -> Result<Value, string>)
    requires ValidTool(t)
    requires Invocation(t, args, kwargs, floatOf, construct).MissingFields?
    ensures var pv := MapArguments(AllParams(t), args, kwargs);
            var o := Invocation(t, args, kwargs, floatOf, construct);
            && (forall f :: f in o.missing <==> f in t.requiredParams && Survivor(pv, f, floatOf) == None)
            && InOrderOf(o.missing, t.requiredParams)
            && Distinct(o.missing)
            && o.modelClass == t.modelClass.name
            && o.requiredFields == t.requiredParams
            && o.optionalFields == t.optionalParams
            && InOrderOf(o.providedFields, Keys(pv))
            && (forall f :: f in o.providedFields <==> Survivor(pv, f, floatOf).Some?)
  {
    var pv := MapArguments(AllParams(t), args, kwargs);
    var required := t.requiredParams;
    MapArgumentsDistinct(AllParams(t), args, kwargs);
    RequiredDistinct(t);
    FilteredArguments(required, pv, floatOf);
    var fk := FilterArguments(required, pv, floatOf).kwargs;
    MissingRequiredExact(required, fk);
    var o := Invocation(t, args, kwargs, floatOf, construct);
    assert o.missing == MissingRequired(required, fk) && o.providedFields == Keys(fk);
    forall f ensures f in Keys(fk) <==> Survivor(pv, f, floatOf).Some? {
      assert Lookup(fk, f) == Survivor(pv, f, floatOf);
    }
  }

  /** A required parameter passed by keyword as None (and no overflow) is reported missing. */
  lemma RequiredNoneIsMissing(t: Tool, args: seq<Value>, kwargs: Dict<Value>, floatOf: string -> FloatParse,
                              construct: (ModelClass, Dict<Value>) -> Result<Value, string>, f: string)
    requires ValidTool(t) && DistinctKeys(kwargs)
    requires f in t.requiredParams && Lookup(kwargs, f) == Some(Null)
    ensures var o := Invocation(t, args, kwargs, floatOf, construct);
            o.OverflowEscaped? || (o.MissingFields? && f in o.missing)
  {
    var pv := MapArguments(AllParams(t), args, kwargs);
    MapArgumentsLookup(AllParams(t), args, kwargs, f);
    assert Survivor(pv, f, floatOf) == None;
    if FilterArguments(t.requiredParams, pv, floatOf).Filtered? {
      assert f == t.requiredParams[IndexIn(t.requiredParams, f)];
      MissingFieldsWhen(t, args, kwargs, floatOf, construct);
      MissingFieldsReport(t, args, kwargs, floatOf, construct);
    }
  }

  /**
   * The OverflowError escapes exactly when the conversion of some mapped
   * argument other than `_meta` raises it; it names the first such argument.
   */
  lemma OverflowOutcome(t: Tool, args: seq<Value>, kwargs: Dict<Value>, floatOf: string -> FloatParse,
                        construct: (ModelClass, Dict<Value>) -> Result<Value, string>)
    ensures var pv := MapArguments(AllParams(t), args, kwargs);
            var o := Invocation(t, args, kwargs, floatOf, construct);
            && (o.OverflowEscaped? <==> exists i :: 0 <= i < |pv| && Overflows(pv[i], floatOf))
            && (o.OverflowEscaped? ==>
                  exists i :: 0 <= i < |pv| && Overflows(pv[i], floatOf) && pv[i].0 == o.field
                              && forall j :: 0 <= j < i ==> !Overflows(pv[j], floatOf))
  {
    var pv := MapArguments(AllParams(t), args, kwargs);
    FilterOverflowExact(t.requiredParams, pv, floatOf);
  }

  /** The constructor runs, and its result is the tool's, only after validation has passed. */
  lemma ConstructsOnlyValidated(t: Tool, args: seq<Value>, kwargs: Dict<Value>, floatOf: string -> FloatParse,
                                construct: (ModelClass, Dict<Value>) -> Result<Value, string>)
    ensures var o := Invocation(t, args, kwargs, floatOf, construct);
            (o.Created? || o.ConstructionFailed?) <==> Validate(t, args, kwargs, floatOf).Success?
  {
  }

  /**
   * Validation passes only for keyword arguments that hold every required
   * parameter, only surviving converted values (no `_meta`, no None), and only
   * values the enum check accepts.
   */
  lemma ConstructorArguments(t: Tool, args: seq<Value>, kwargs: Dict<Value>, floatOf: string -> FloatParse)
    requires Validate(t, args, kwargs, floatOf).Success?
    ensures var fk := Validate(t, args, kwargs, floatOf).value;
            var pv := MapArguments(AllParams(t), args, kwargs);
            && (forall f :: f in t.requiredParams ==> f in Keys(fk))
            && "_meta" !in Keys(fk)
            && (forall i :: 0 <= i < |fk| ==> fk[i].1 != Null)
            && (forall k :: Lookup(fk, k) == Survivor(pv, k, floatOf))
            && (forall i :: 0 <= i < |fk| ==> EnumCheck(t.fields, fk[i].0, fk[i].1) == None)
  {
    var pv := MapArguments(AllParams(t), args, kwargs);
    MapArgumentsDistinct(AllParams(t), args, kwargs);
    var fk := FilterArguments(t.requiredParams, pv, floatOf).kwargs;
    assert Validate(t, args, kwargs, floatOf).value == fk;
    assert MissingRequired(t.requiredParams, fk) == [];
    assert EnumErrors(t.fields, fk) == [];
    FilteredArguments(t.requiredParams, pv, floatOf);
    FilteredIsClean(t.requiredParams, pv, floatOf);
    EnumErrorsExact(t.fields, fk);
    forall f | f in t.requiredParams ensures f in Keys(fk) {
      if f !in Keys(fk) {
        MissingRequiredInclusion(t.requiredParams, fk, f);
      }
    }
  }

  lemma {:induction false} MissingRequiredInclusion(required: seq<string>, fk: Dict<Value>, f: string)
    requires f in required && f !in Keys(fk)
    ensures f in MissingRequired(required, fk)
  {
    var n := |required| - 1;
    if required[n] != f {
      assert f in required[..n];
      MissingRequiredInclusion(required[..n], fk, f);
    }
  }

  /** When validation fails, the constructor is never consulted: the result is the same for any constructor. */
  lemma ValidationFailureIgnoresConstructor(t: Tool, args: seq<Value>, kwargs: Dict<Value>, floatOf: string -> FloatParse,
                                            c1: (ModelClass, Dict<Value>) -> Result<Value, string>,
                                            c2: (ModelClass, Dict<Value>) -> Result<Value, string>)
    requires Validate(t, args, kwargs, floatOf).Failure?
    ensures Invocation(t, args, kwargs, floatOf, c1) == Invocation(t, args, kwargs, floatOf, c2)
    ensures !Invocation(t, args, kwargs, floatOf, c1).Created?
    ensures !Invocation(t, args, kwargs, floatOf, c1).ConstructionFailed?
  {
  }
}
