/**
 * Which classes of a module become tools (`get_model_classes`), and the
 * lookup of `get_model_schema` over the merged catalogues
 * (xrpl/server/models/enhanced_main.py).
 */
module ModelRegistry {
  import opened Wrappers
  import opened Strings
  import opened Sequences
  import opened OrderedDicts
  import opened FieldTypes
  import opened ModelTools

  /** What `getattr(members, name)` is, as far as `get_model_classes` looks at it. */
  datatype ModuleMember =
    | NotAClass                       // a function, a constant, a submodule ...
    | OtherClass                      // a class that is not a BaseModel subclass
    | BaseModelItself                 // BaseModel re-exported by the module
    | ModelSubclass(cls: ModelClass)  // a proper subclass of BaseModel

  /** Names that are skipped even for a model class. */
  predicate NameKept(name: string)
  {
    !EndsWith(name, "Interface") && !EndsWith(name, "Flag") && !StartsWith(name, "_")
  }

  /** The condition of `get_model_classes` for one `(name, object)` of `dir(members)`. */
  predicate IsModelEntry(entry: (string, ModuleMember))
  {
    entry.1.ModelSubclass? && NameKept(entry.0)
  }

  /** The dict `get_model_classes` builds from the members of a module, in `dir()` order. */
  function Catalogue(members: Dict<ModuleMember>): Dict<ModelClass>
  {
    if members == [] then []
    else
      var n := |members| - 1;
      var c := Catalogue(members[..n]);
      if IsModelEntry(members[n]) then Put(c, members[n].0, members[n].1.cls) else c
  }

  /** The class the catalogue should hold for `name`: the module's member, when it is a kept model class. */
  function KeptClass(members: Dict<ModuleMember>, name: string): Option<ModelClass>
  {
    match Lookup(members, name)
    case Some(m) => if m.ModelSubclass? && NameKept(name) then Some(m.cls) else None
    case None => None
  }

  /** `get_model_classes(members)`. */
  method GetModelClasses(members: Dict<ModuleMember>) returns (classes: Dict<ModelClass>)
    ensures classes == Catalogue(members)
  {
    classes := [];
    var i := 0;
    while i < |members|
      invariant 0 <= i <= |members|
      invariant classes == Catalogue(members[..i])
    {
      assert members[..i + 1][..i] == members[..i];
      var (name, obj) := members[i];
      if obj.ModelSubclass? && !EndsWith(name, "Interface") && !EndsWith(name, "Flag") && !StartsWith(name, "_") {
        classes := Put(classes, name, obj.cls);
      }
      i := i + 1;
    }
    assert members[..i] == members;
  }

  /**
   * The catalogue maps a name to a class exactly when the module's member of
   * that name is a model class whose name is kept, and lists the names in
   * the module's order.
   */
  lemma {:induction false} CatalogueExact(members: Dict<ModuleMember>)
    requires DistinctKeys(members)
    ensures forall k :: Lookup(Catalogue(members), k) == KeptClass(members, k)
    ensures DistinctKeys(Catalogue(members))
    ensures InOrderOf(Keys(Catalogue(members)), Keys(members))
  {
    if members != [] {
      var n := |members| - 1;
      var init := members[..n];
      var (name, obj) := members[n];
      assert members == init + [(name, obj)];
      assert Keys(members) == Keys(init) + [name];
      assert name !in Keys(init) by {
        forall i | 0 <= i < n ensures Keys(init)[i] != name {
          assert init[i] == members[i];
        }
      }
      assert DistinctKeys(init) by {
        forall i, j | 0 <= i < j < n ensures init[i].0 != init[j].0 {
          assert init[i] == members[i] && init[j] == members[j];
        }
      }
      CatalogueExact(init);
      var c0 := Catalogue(init);
      var c := Catalogue(members);
      assert name !in Keys(c0) by {
        forall p | 0 <= p < |Keys(c0)| ensures Keys(c0)[p] != name {
          assert Keys(c0)[p] in Keys(init);
        }
      }
      InOrderExtend(Keys(c0), Keys(init), name);
      if IsModelEntry((name, obj)) {
        PutKeys(c0, name, obj.cls);
        PutDistinct(c0, name, obj.cls);
      }
      forall k ensures Lookup(c, k) == KeptClass(members, k) {
        LookupAppend(init, (name, obj), k);
        if IsModelEntry((name, obj)) {
          PutLookup(c0, name, obj.cls, k);
        }
      }
    }
  }

  /**
   * Hence an entry of the module is in the catalogue exactly when it is a
   * BaseModel subclass other than BaseModel itself whose name neither ends
   * with "Interface" or "Flag" nor starts with "_".
   */
  lemma ModelClassesKept(members: Dict<ModuleMember>)
    requires DistinctKeys(members)
    ensures forall i :: 0 <= i < |members| ==>
              (members[i].0 in Keys(Catalogue(members)) <==> IsModelEntry(members[i]))
  {
    CatalogueExact(members);
    forall i | 0 <= i < |members|
      ensures members[i].0 in Keys(Catalogue(members)) <==> IsModelEntry(members[i])
    {
      LookupAt(members, i);
      assert Lookup(Catalogue(members), members[i].0) == KeptClass(members, members[i].0);
    }
  }

  // ---------------------------------------------------------------------------
  // get_model_schema

  /** The catalogues merged into one dict; where a name occurs in several, the later catalogue's class wins. */
  function Merge(catalogues: seq<Dict<ModelClass>>): Dict<ModelClass>
  {
    if catalogues == [] then []
    else PutAll(Merge(catalogues[..|catalogues| - 1]), catalogues[|catalogues| - 1])
  }

  /** A name is in the merged catalogue exactly when some catalogue has it. */
  lemma {:induction false} MergeKeys(catalogues: seq<Dict<ModelClass>>, k: string)
    ensures k in Keys(Merge(catalogues)) <==> exists j :: 0 <= j < |catalogues| && k in Keys(catalogues[j])
  {
    if catalogues != [] {
      var n := |catalogues| - 1;
      MergeKeys(catalogues[..n], k);
      PutAllKeys(Merge(catalogues[..n]), catalogues[n], k);
      if k in Keys(Merge(catalogues[..n])) {
        var j :| 0 <= j < n && k in Keys(catalogues[..n][j]);
        assert catalogues[j] == catalogues[..n][j];
      }
      if exists j :: 0 <= j < |catalogues| && k in Keys(catalogues[j]) {
        var j :| 0 <= j < |catalogues| && k in Keys(catalogues[j]);
        if j < n {
          assert catalogues[..n][j] == catalogues[j];
        }
      }
    }
  }

  /** The merged catalogue takes a name's class from the last catalogue that has the name. */
  lemma {:induction false} MergeLookup(catalogues: seq<Dict<ModelClass>>, j: nat, k: string)
    requires forall i :: 0 <= i < |catalogues| ==> DistinctKeys(catalogues[i])
    requires j < |catalogues| && k in Keys(catalogues[j])
    requires forall i :: j < i < |catalogues| ==> k !in Keys(catalogues[i])
    ensures Lookup(Merge(catalogues), k) == Lookup(catalogues[j], k)
  {
    var n := |catalogues| - 1;
    PutAllLookup(Merge(catalogues[..n]), catalogues[n], k);
    if j < n {
      MergeLookup(catalogues[..n], j, k);
    }
  }

  /** What `get_model_schema` returns (without descriptions and type texts). */
  datatype Schema =
    | NotFound(modelName: string, available: seq<string>)
    | Found(modelName: string, toolName: string, fields: seq<FieldInfo>)

  /** `get_model_schema(model_name)` over the given catalogues. */
  method GetModelSchema(catalogues: seq<Dict<ModelClass>>, modelName: string) returns (r: Schema)
    ensures r.NotFound? <==> forall j :: 0 <= j < |catalogues| ==> modelName !in Keys(catalogues[j])
    ensures r.NotFound? ==> r == NotFound(modelName, Keys(Merge(catalogues)))
    ensures r.Found? ==>
              && r.modelName == modelName
              && r.toolName == "create_" + Lower(modelName)
              && Lookup(Merge(catalogues), modelName).Some?
              && r.fields == FieldInfos(Lookup(Merge(catalogues), modelName).value)
  {
    var allModels := Merge(catalogues);
    MergeKeys(catalogues, modelName);
    var found := Lookup(allModels, modelName);
    if found.None? {
      return NotFound(modelName, Keys(allModels));
    }
    var info := GetComprehensiveModelInfo(found.value);
    forall i | 0 <= i < |info.fields| ensures info.fields[i] == FieldInfoOf(found.value.fields[i]) {
      var f := info.fields[i];
      assert f == FieldInfo(f.name, f.required, f.typeInfo, f.default);
    }
    r := Found(modelName, "create_" + Lower(modelName), info.fields);
  }

  /**
   * The tool name the schema reports is never the name the tool is
   * registered under: the registered name has the category in it.
   */
  lemma SchemaToolNameIsNotRegistered(category: string, modelName: string)
    ensures "create_" + Lower(modelName) != ToolName(category, modelName)
  {
    assert |ToolName(category, modelName)| == 8 + |category| + |modelName|;
  }
}
