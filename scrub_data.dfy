/**
 * The `scrub_data` command: for every selected model it builds a table from
 * fields to scrubbing rules (global rules by field name or by field type,
 * overridden by the model's own rules), drops the fields marked `Keep`,
 * realises lazy rules, drops disabled (falsy) ones, and hands the result to
 * one bulk update. Also the retry logic used when trimming deletes rows.
 */
module ScrubData {
  import opened Wrappers
  import opened PyText

  // ================================================================ values

  /** A plain value a rule can write into a column (`Expression` stands for a database expression object). */
  datatype Datum = Null | Bool(b: bool) | Int(i: int) | Text(s: string) | Expression(id: nat)

  /**
   * What a scrubber table maps a field to: the `Keep` sentinel, a literal
   * value, or a callable (a scrubber class or a lazy generator) that is
   * invoked with the field. Realising a callable can give back any value,
   * so realised tables hold the same type.
   */
  datatype Scrubber = Keep | Literal(datum: Datum) | Lazy(generator: nat)

  /** Python truthiness. Classes and callables are truthy. */
  predicate Truthy(v: Scrubber) {
    match v
    case Keep => true
    case Lazy(_) => true
    case Literal(d) =>
      match d
      case Null => false
      case Bool(b) => b
      case Int(i) => i != 0
      case Text(t) => |t| > 0
      case Expression(_) => true
  }

  predicate IsCallable(v: Scrubber) {
    v.Lazy?
  }

  /** A model field: its name, its column attribute name, and the exact class it is an instance of. */
  datatype Field = Field(name: string, attname: string, kind: string)

  /**
   * Calling a generator with a field: `raises` says whether the call raises
   * an exception, `value` what it returns otherwise (any value).
   */
  datatype Generators = Generators(raises: (nat, Field) -> bool, value: (nat, Field) -> Scrubber)

  /** The global table is keyed by field names and by field classes alike. */
  datatype GlobalKey = ByName(name: string) | ByType(kind: string)

  /** One entry of a scrubber class's own attribute dictionary, in definition order. */
  datatype Attr = Attr(name: string, value: Scrubber)

  /**
   * A model's metadata. `fields` are its forward fields that are not
   * many-to-many (`_meta.fields`); `related` are the further fields its field
   * lookup finds (many-to-many and reverse relations); `scrubbers` is the
   * attribute dictionary of its nested `Scrubbers` class, when it has one.
   * `autoCreatedOrSwapped` marks an automatically created many-to-many
   * through model or a swapped-out model: the registry still finds it by
   * name, but does not list it among all models.
   */
  datatype Model = Model(
    modelLabel: string,
    appLabel: string,
    modelName: string,
    appName: string,
    proxy: bool,
    managed: bool,
    fields: seq<Field>,
    related: seq<Field>,
    scrubbers: Option<seq<Attr>>,
    autoCreatedOrSwapped: bool)

  function AllFields(m: Model): seq<Field> {
    m.fields + m.related
  }

  /** Field names are unique within a model, as the framework guarantees. */
  predicate WellFormed(m: Model) {
    forall i, j :: 0 <= i < |AllFields(m)| && 0 <= j < |AllFields(m)| && AllFields(m)[i].name == AllFields(m)[j].name ==> i == j
  }

  predicate DistinctNames(fs: set<Field>) {
    forall f, g :: f in fs && g in fs && f.name == g.name ==> f == g
  }

  lemma WellFormedDistinct(m: Model, fs: set<Field>)
    requires WellFormed(m)
    requires forall f :: f in fs ==> f in AllFields(m)
    ensures DistinctNames(fs)
  {
    forall f, g | f in fs && g in fs && f.name == g.name ensures f == g {
      var i :| 0 <= i < |AllFields(m)| && AllFields(m)[i] == f;
      var j :| 0 <= j < |AllFields(m)| && AllFields(m)[j] == g;
    }
  }

  // ============================================== global rules (handle, 78-83)

  /** The global rule for a field: by its name if there is one, else by its exact class. */
  function GlobalRule(f: Field, global: map<GlobalKey, Scrubber>): Option<Scrubber> {
    if ByName(f.name) in global then Some(global[ByName(f.name)])
    else if ByType(f.kind) in global then Some(global[ByType(f.kind)])
    else None
  }

  function GlobalTable(fields: seq<Field>, global: map<GlobalKey, Scrubber>): map<Field, Scrubber> {
    map f | f in fields && GlobalRule(f, global).Some? :: GlobalRule(f, global).value
  }

  /** The loop over the model's fields that fills the table from the global rules. */
  method BuildGlobalTable(fields: seq<Field>, global: map<GlobalKey, Scrubber>) returns (table: map<Field, Scrubber>)
    ensures forall f :: f in table <==> f in fields && (ByName(f.name) in global || ByType(f.kind) in global)
    ensures forall f :: f in table && ByName(f.name) in global ==> table[f] == global[ByName(f.name)]
    ensures forall f :: f in table && ByName(f.name) !in global ==> table[f] == global[ByType(f.kind)]
    ensures table == GlobalTable(fields, global)
  {
    table := map[];
    for i := 0 to |fields|
      invariant forall f :: f in table <==> f in fields[..i] && GlobalRule(f, global).Some?
      invariant forall f :: f in table ==> table[f] == GlobalRule(f, global).value
    {
      var field := fields[i];
      assert fields[..i + 1] == fields[..i] + [field];
      if ByName(field.name) in global {
        table := table[field := global[ByName(field.name)]];
      } else if ByType(field.kind) in global {
        table := table[field := global[ByType(field.kind)]];
      }
    }
    assert fields[..|fields|] == fields;
  }

  // ================================== model-declared rules (_get_model_scrubbers)

  /** `_get_fields`: the attributes whose names do not start with `_`, in order. */
  function PublicAttrs(attrs: seq<Attr>): (r: seq<Attr>)
    ensures |r| <= |attrs|
    ensures forall i :: 0 <= i < |r| ==> r[i] in attrs && !StartsWith(r[i].name, "_")
    decreases |attrs|
  {
    if |attrs| == 0 then []
    else
      var last := attrs[|attrs| - 1];
      PublicAttrs(attrs[..|attrs| - 1]) + if StartsWith(last.name, "_") then [] else [last]
  }

  /** `_get_fields` keeps exactly the attributes whose names do not start with `_`. */
  lemma {:induction false} PublicAttrsExact(attrs: seq<Attr>)
    ensures forall a :: a in PublicAttrs(attrs) <==> a in attrs && !StartsWith(a.name, "_")
    decreases |attrs|
  {
    if |attrs| > 0 {
      var init := attrs[..|attrs| - 1];
      PublicAttrsExact(init);
      assert attrs == init + [attrs[|attrs| - 1]];
    }
  }

  /** ... and keeps their order: filtering two blocks gives the two filtered blocks. */
  lemma {:induction false} PublicAttrsAppend(a: seq<Attr>, b: seq<Attr>)
    ensures PublicAttrs(a + b) == PublicAttrs(a) + PublicAttrs(b)
    decreases |b|
  {
    if |b| == 0 {
      assert a + b == a;
    } else {
      var b' := b[..|b| - 1];
      assert (a + b)[..|a + b| - 1] == a + b';
      assert (a + b)[|a + b| - 1] == b[|b| - 1];
      PublicAttrsAppend(a, b');
    }
  }

  /** `Options.get_field`: the first field whose name or column attribute name is `name`. */
  function FindField(fs: seq<Field>, name: string): (r: Option<Field>)
    ensures r.Some? ==> r.value in fs && (r.value.name == name || r.value.attname == name)
    ensures r.None? ==> forall f :: f in fs ==> f.name != name && f.attname != name
  {
    if |fs| == 0 then None
    else if fs[0].name == name || fs[0].attname == name then Some(fs[0])
    else FindField(fs[1..], name)
  }

  function GetField(m: Model, name: string): Option<Field> {
    FindField(AllFields(m), name)
  }

  /** What the model declares: field rules, and the attribute names that matched no field (each one warned about). */
  datatype Declared = Declared(rules: map<Field, Scrubber>, missing: seq<string>)

  /** The loop over the scrubber class's attributes: `Meta` is skipped, unknown names are collected, later entries win. */
  function CollectDeclared(m: Model, attrs: seq<Attr>): (r: Declared)
    ensures forall f :: f in r.rules ==> f in AllFields(m)
    ensures |r.missing| <= |attrs|
    decreases |attrs|
  {
    if |attrs| == 0 then Declared(map[], [])
    else
      var prev := CollectDeclared(m, attrs[..|attrs| - 1]);
      var a := attrs[|attrs| - 1];
      if a.name == "Meta" then prev
      else match GetField(m, a.name)
        case Some(f) => Declared(prev.rules[f := a.value], prev.missing)
        case None => Declared(prev.rules, prev.missing + [a.name])
  }

  /** The attribute at `j` gives a rule for the field it names, unless a later attribute names the same field. */
  predicate Overridden(m: Model, attrs: seq<Attr>, j: nat)
    requires j < |attrs|
  {
    exists k :: j < k < |attrs| && attrs[k].name != "Meta" && GetField(m, attrs[k].name) == GetField(m, attrs[j].name)
  }

  /** Every declared rule is for a field of the model that some non-`Meta` attribute names. */
  lemma {:induction false} DeclaredRulesSound(m: Model, attrs: seq<Attr>)
    ensures forall f :: f in CollectDeclared(m, attrs).rules ==>
      (f in AllFields(m) && exists j :: 0 <= j < |attrs| && attrs[j].name != "Meta" && GetField(m, attrs[j].name) == Some(f))
    decreases |attrs|
  {
    if |attrs| > 0 {
      var n := |attrs| - 1;
      var init := attrs[..n];
      DeclaredRulesSound(m, init);
      forall f | f in CollectDeclared(m, attrs).rules
        ensures exists j :: 0 <= j < |attrs| && attrs[j].name != "Meta" && GetField(m, attrs[j].name) == Some(f)
      {
        if f in CollectDeclared(m, init).rules {
          var j :| 0 <= j < |init| && init[j].name != "Meta" && GetField(m, init[j].name) == Some(f);
          assert attrs[j] == init[j];
        } else {
          assert GetField(m, attrs[n].name) == Some(f);
        }
      }
    }
  }

  /** Every field a non-`Meta` attribute names gets a rule. */
  lemma {:induction false} DeclaredRulesComplete(m: Model, attrs: seq<Attr>)
    ensures forall j :: 0 <= j < |attrs| && attrs[j].name != "Meta" && GetField(m, attrs[j].name).Some? ==>
      GetField(m, attrs[j].name).value in CollectDeclared(m, attrs).rules
    decreases |attrs|
  {
    if |attrs| > 0 {
      var init := attrs[..|attrs| - 1];
      DeclaredRulesComplete(m, init);
      assert forall j :: 0 <= j < |init| ==> attrs[j] == init[j];
    }
  }

  /** The rule for a field is the value of the last non-`Meta` attribute naming it. */
  lemma {:induction false} DeclaredRulesLastWins(m: Model, attrs: seq<Attr>)
    ensures forall j :: 0 <= j < |attrs| && attrs[j].name != "Meta" && GetField(m, attrs[j].name).Some? && !Overridden(m, attrs, j) ==>
      (GetField(m, attrs[j].name).value in CollectDeclared(m, attrs).rules &&
       CollectDeclared(m, attrs).rules[GetField(m, attrs[j].name).value] == attrs[j].value)
    decreases |attrs|
  {
    if |attrs| > 0 {
      var n := |attrs| - 1;
      var init := attrs[..n];
      DeclaredRulesLastWins(m, init);
      DeclaredRulesComplete(m, attrs);
      var a := attrs[n];
      forall j | 0 <= j < n && attrs[j].name != "Meta" && GetField(m, attrs[j].name).Some? && !Overridden(m, attrs, j)
        ensures GetField(m, attrs[j].name).value in CollectDeclared(m, attrs).rules &&
          CollectDeclared(m, attrs).rules[GetField(m, attrs[j].name).value] == attrs[j].value
      {
        assert init[j] == attrs[j];
        if a.name != "Meta" && GetField(m, a.name).Some? {
          assert GetField(m, a.name) != GetField(m, attrs[j].name);
        }
      }
    }
  }

  /** The names warned about are exactly the non-`Meta` attribute names that match no field. */
  lemma {:induction false} DeclaredMissingExact(m: Model, attrs: seq<Attr>)
    ensures forall k :: 0 <= k < |CollectDeclared(m, attrs).missing| ==>
      (CollectDeclared(m, attrs).missing[k] != "Meta" && GetField(m, CollectDeclared(m, attrs).missing[k]).None?)
    ensures forall j :: 0 <= j < |attrs| && attrs[j].name != "Meta" && GetField(m, attrs[j].name).None? ==>
      attrs[j].name in CollectDeclared(m, attrs).missing
    decreases |attrs|
  {
    if |attrs| > 0 {
      var init := attrs[..|attrs| - 1];
      DeclaredMissingExact(m, init);
      assert forall j :: 0 <= j < |init| ==> attrs[j] == init[j];
    }
  }

  type Modules = map<string, map<string, seq<Attr>>>

  /** The exceptions the modelled code can raise. */
  datatype Failure =
    | ImportFailure(path: string)        // ImportError: mapped scrubber class could not be found
    | MissingAttribute(path: string)     // AttributeError: module found, class missing (not caught)
    | RelativeImport(path: string)       // TypeError: relative module name without a package (not caught)
    | BadModelArgument(argument: string) // ValueError: `--model` holds no dot, unpacking fails
    | CommandError(message: string)
    | MissingSetting(name: string)       // AttributeError: the project's settings do not define it
    | GeneratorFailure(fields: set<string>) // a lazy rule raised; one of these fields' calls is the one raised first

  /** The exceptions that resolving a mapped scrubber class path can raise. */
  predicate ImportStage(e: Failure) {
    e.ImportFailure? || e.MissingAttribute? || e.RelativeImport?
  }

  /**
   * `_parse_scrubber_class_from_string`: split the dotted path at its last
   * dot, import the module part, fetch the class part. `Modules` maps the
   * importable module names to their classes' attribute dictionaries. An
   * empty module name is a `ValueError` and is reported like a missing
   * module; a module name starting with a dot asks `importlib` for a relative
   * import without a package, a `TypeError` that escapes the handler.
   */
  function ParseScrubberClass(path: string, modules: Modules): (r: Result<seq<Attr>, Failure>)
    ensures '.' !in path ==> r == Failure(ImportFailure(path))
    ensures r.Failure? ==> ImportStage(r.error) && r.error.path == path
  {
    var parts := RSplitOnce(path, '.');
    if |parts| != 2 then Failure(ImportFailure(path))
    else if parts[0] == "" then Failure(ImportFailure(path))
    else if parts[0][0] == '.' then Failure(RelativeImport(path))
    else if parts[0] !in modules then Failure(ImportFailure(path))
    else if parts[1] !in modules[parts[0]] then Failure(MissingAttribute(path))
    else Success(modules[parts[0]][parts[1]])
  }

  /**
   * A path is resolved as module = everything before the last dot, class =
   * the rest; an empty or unknown module is an import error, a relative one a
   * type error, a missing class an attribute error.
   */
  lemma ParseScrubberClassSplit(moduleName: string, className: string, modules: Modules)
    requires '.' !in className
    ensures ParseScrubberClass(moduleName + "." + className, modules)
         == if moduleName == "" then Failure(ImportFailure(moduleName + "." + className))
            else if StartsWith(moduleName, ".") then Failure(RelativeImport(moduleName + "." + className))
            else if moduleName !in modules then Failure(ImportFailure(moduleName + "." + className))
            else if className !in modules[moduleName] then Failure(MissingAttribute(moduleName + "." + className))
            else Success(modules[moduleName][className])
  {
    RSplitOnceOf(moduleName, '.', className);
  }

  /** Where the model's own rules come from: the settings mapping by model label, else the model's `Scrubbers` class, else nowhere. */
  function ScrubberClass(m: Model, mapping: map<string, string>, modules: Modules): Result<Option<seq<Attr>>, Failure> {
    if m.modelLabel in mapping then
      match ParseScrubberClass(mapping[m.modelLabel], modules)
      case Success(attrs) => Success(Some(attrs))
      case Failure(e) => Failure(e)
    else Success(m.scrubbers)
  }

  /**
   * The rules a model declares: only for its own fields, none when it has
   * neither a mapping entry nor a `Scrubbers` class, and an exception only
   * from a mapped class path.
   */
  function ModelScrubbers(m: Model, mapping: map<string, string>, modules: Modules): (r: Result<Declared, Failure>)
    ensures r.Success? ==> forall f :: f in r.value.rules ==> f in AllFields(m)
    ensures m.modelLabel !in mapping && m.scrubbers.None? ==> r == Success(Declared(map[], []))
    ensures r.Failure? ==> m.modelLabel in mapping && ImportStage(r.error) && r.error.path == mapping[m.modelLabel]
  {
    match ScrubberClass(m, mapping, modules)
    case Failure(e) => Failure(e)
    case Success(None) => Success(Declared(map[], []))
    case Success(Some(attrs)) => Success(CollectDeclared(m, PublicAttrs(attrs)))
  }

  /**
   * Where the declared rules come from: a mapped class's public attributes,
   * whatever `Scrubbers` class the model has; otherwise the public
   * attributes of the model's own `Scrubbers` class.
   */
  lemma ModelScrubbersSource(m: Model, mapping: map<string, string>, modules: Modules, s: Option<seq<Attr>>)
    ensures m.modelLabel !in mapping && m.scrubbers.Some? ==>
      ModelScrubbers(m, mapping, modules) == Success(CollectDeclared(m, PublicAttrs(m.scrubbers.value)))
    ensures m.modelLabel in mapping && ParseScrubberClass(mapping[m.modelLabel], modules).Success? ==>
      ModelScrubbers(m, mapping, modules) == Success(CollectDeclared(m, PublicAttrs(ParseScrubberClass(mapping[m.modelLabel], modules).value)))
    ensures m.modelLabel in mapping ==> ModelScrubbers(m, mapping, modules) == ModelScrubbers(m.(scrubbers := s), mapping, modules)
  {
    CollectDeclaredByFields(m, m.(scrubbers := s), if m.modelLabel in mapping && ParseScrubberClass(mapping[m.modelLabel], modules).Success? then PublicAttrs(ParseScrubberClass(mapping[m.modelLabel], modules).value) else []);
  }

  /** The declared rules depend on the model only through its fields. */
  lemma {:induction false} CollectDeclaredByFields(m: Model, m': Model, attrs: seq<Attr>)
    requires AllFields(m) == AllFields(m')
    ensures CollectDeclared(m, attrs) == CollectDeclared(m', attrs)
    decreases |attrs|
  {
    if |attrs| > 0 {
      CollectDeclaredByFields(m, m', attrs[..|attrs| - 1]);
    }
  }

  /** `_get_model_scrubbers`. */
  method GetModelScrubbers(m: Model, mapping: map<string, string>, modules: Modules) returns (r: Result<Declared, Failure>)
    ensures r == ModelScrubbers(m, mapping, modules)
    ensures r.Success? ==> forall f :: f in r.value.rules ==> f in AllFields(m)
  {
    var cls: seq<Attr>;
    if m.modelLabel in mapping {
      var parsed := ParseScrubberClass(mapping[m.modelLabel], modules);
      if parsed.Failure? {
        return Failure(parsed.error);
      }
      cls := parsed.value;
    } else {
      if m.scrubbers.None? {
        return Success(Declared(map[], []));
      }
      cls := m.scrubbers.value;
    }
    var declared := CollectRules(m, PublicAttrs(cls));
    return Success(declared);
  }

  /** `_get_model_scrubbers`' loop over the class's public attributes. */
  method CollectRules(m: Model, attrs: seq<Attr>) returns (declared: Declared)
    ensures declared == CollectDeclared(m, attrs)
  {
    var rules: map<Field, Scrubber> := map[];
    var missing: seq<string> := [];
    for i := 0 to |attrs|
      invariant Declared(rules, missing) == CollectDeclared(m, attrs[..i])
    {
      var a := attrs[i];
      assert attrs[..i + 1][..i] == attrs[..i];
      if a.name == "Meta" {
        continue;
      }
      match GetField(m, a.name) {
        case Some(field) => rules := rules[field := a.value];
        case None => missing := missing + [a.name];
      }
    }
    assert attrs[..|attrs|] == attrs;
    return Declared(rules, missing);
  }

  // ======================================= merging, keep filter, realisation

  /**
   * `scrubbers.update(_get_model_scrubbers(model))`: model-declared rules
   * win; every other field keeps its global rule, and has one only if it is
   * one of `_meta.fields` with a global rule.
   */
  function Merged(m: Model, global: map<GlobalKey, Scrubber>, d: Declared): (r: map<Field, Scrubber>)
    ensures forall f :: f in d.rules ==> f in r && r[f] == d.rules[f]
    ensures forall f :: f !in d.rules ==> (f in r <==> f in m.fields && GlobalRule(f, global).Some?)
    ensures forall f :: f !in d.rules && f in r ==> r[f] == GlobalRule(f, global).value
  {
    GlobalTable(m.fields, global) + d.rules
  }

  /** The rules that are not `Keep`, each unchanged. */
  function WithoutKept(d: map<Field, Scrubber>): (r: map<Field, Scrubber>)
    ensures forall f :: f in r <==> f in d && d[f] != Keep
    ensures forall f :: f in r ==> r[f] == d[f]
  {
    map f | f in d && d[f] != Keep :: d[f]
  }

  /** The loop that drops every field marked `Keep`. */
  method DropKept(d: map<Field, Scrubber>) returns (r: map<Field, Scrubber>)
    ensures forall f :: f in r <==> f in d && d[f] != Keep
    ensures forall f :: f in r ==> r[f] == d[f]
    ensures r == WithoutKept(d)
  {
    r := map[];
    var todo := d.Keys;
    while todo != {}
      invariant todo <= d.Keys
      invariant forall f :: f in r <==> f in d && f !in todo && d[f] != Keep
      invariant forall f :: f in r ==> r[f] == d[f]
      decreases todo
    {
      var f :| f in todo;
      if d[f] != Keep {
        r := r[f := d[f]];
      }
      todo := todo - {f};
    }
  }

  /** `callable(v) and v(k)` raises: only a callable is called. */
  predicate Raises(f: Field, v: Scrubber, invoke: Generators) {
    IsCallable(v) && invoke.raises(v.generator, f)
  }

  /**
   * `callable(v) and v(k) or v`, when the call returns: a callable's result
   * when it is truthy, otherwise the rule itself. A non-callable is left
   * alone, and the outcome is truthy exactly when the rule was callable or
   * truthy.
   */
  function Realize(f: Field, v: Scrubber, invoke: Generators): (r: Scrubber)
    ensures !IsCallable(v) ==> r == v
    ensures IsCallable(v) ==> r == v || r == invoke.value(v.generator, f)
    ensures Truthy(r) <==> IsCallable(v) || Truthy(v)
  {
    if IsCallable(v) && Truthy(invoke.value(v.generator, f)) then invoke.value(v.generator, f) else v
  }

  /** The names of the fields whose lazy rule raises when called. */
  function RaisingFields(d: map<Field, Scrubber>, invoke: Generators): set<string> {
    set f | f in d && Raises(f, d[f], invoke) :: f.name
  }

  /**
   * `_call_callables`: realise every rule and key the result by field name.
   * The comprehension raises when any lazy rule raises; the exception names
   * the fields that can have raised it.
   */
  function CallCallables(d: map<Field, Scrubber>, invoke: Generators): (r: Result<map<string, Scrubber>, Failure>)
    requires DistinctNames(d.Keys)
    ensures r.Failure? <==> exists f :: f in d && Raises(f, d[f], invoke)
    ensures r.Failure? ==> r.error.GeneratorFailure? && r.error.fields == RaisingFields(d, invoke)
    ensures r.Success? ==> r.value.Keys == set f | f in d :: f.name
    ensures r.Success? ==> forall f :: f in d ==> r.value[f.name] == Realize(f, d[f], invoke)
  {
    if exists f :: f in d && Raises(f, d[f], invoke) then
      Failure(GeneratorFailure(RaisingFields(d, invoke)))
    else
      Success(map f | f in d :: f.name := Realize(f, d[f], invoke))
  }

  /** `_filter_out_disabled`: exactly the truthy entries survive, unchanged. */
  function FilterOutDisabled(d: map<string, Scrubber>): (r: map<string, Scrubber>)
    ensures forall k :: k in r <==> k in d && Truthy(d[k])
    ensures forall k :: k in r ==> r[k] == d[k]
  {
    map k | k in d && Truthy(d[k]) :: d[k]
  }

  /** `_filter_out_disabled(_call_callables(d))`. */
  function Realized(d: map<Field, Scrubber>, invoke: Generators): Result<map<string, Scrubber>, Failure>
    requires DistinctNames(d.Keys)
  {
    match CallCallables(d, invoke)
    case Failure(e) => Failure(e)
    case Success(c) => Success(FilterOutDisabled(c))
  }

  /**
   * The cases of realisation: a raising call raises for the whole table;
   * otherwise one entry per field, keyed by its name, that is the rule
   * itself unless it is callable with a truthy result.
   */
  lemma CallCallablesCases(d: map<Field, Scrubber>, invoke: Generators)
    requires DistinctNames(d.Keys)
    ensures forall f :: f in d && Raises(f, d[f], invoke) ==>
      CallCallables(d, invoke).Failure? && f.name in CallCallables(d, invoke).error.fields
    ensures CallCallables(d, invoke).Success? ==> CallCallables(d, invoke).value.Keys == set f | f in d :: f.name
    ensures CallCallables(d, invoke).Success? ==> forall f :: f in d && !IsCallable(d[f]) ==> CallCallables(d, invoke).value[f.name] == d[f]
    ensures CallCallables(d, invoke).Success? ==> forall f :: f in d && IsCallable(d[f]) && Truthy(invoke.value(d[f].generator, f)) ==>
      CallCallables(d, invoke).value[f.name] == invoke.value(d[f].generator, f)
    ensures CallCallables(d, invoke).Success? ==> forall f :: f in d && IsCallable(d[f]) && !Truthy(invoke.value(d[f].generator, f)) ==>
      CallCallables(d, invoke).value[f.name] == d[f]
  {
  }

  /** The filter only removes keys, and filtering again changes nothing. */
  lemma FilterOutDisabledSpec(d: map<string, Scrubber>)
    ensures FilterOutDisabled(d).Keys <= d.Keys
    ensures FilterOutDisabled(FilterOutDisabled(d)) == FilterOutDisabled(d)
  {
  }

  /**
   * Realisation raises exactly when some lazy rule raises. Otherwise, after
   * filtering, a field is present exactly when its rule is callable or a
   * truthy literal: a callable whose result is falsy is kept as the callable
   * itself, so only a falsy literal disables a field.
   */
  lemma RealizedEntries(d: map<Field, Scrubber>, invoke: Generators)
    requires DistinctNames(d.Keys)
    ensures Realized(d, invoke).Failure? <==> exists f :: f in d && Raises(f, d[f], invoke)
    ensures Realized(d, invoke).Success? ==>
      var rz := Realized(d, invoke).value;
      && (forall f :: f in d ==> (f.name in rz <==> IsCallable(d[f]) || Truthy(d[f])))
      && (forall f :: f in d && f.name in rz ==> rz[f.name] == Realize(f, d[f], invoke))
      && (forall n :: n in rz ==> exists f :: f in d && f.name == n)
  {
  }

  // ============================================ model selection and the gate

  const AllowedEnvironments: seq<string> := ["STAGING", "DEVELOP", "NONPROD"]

  /**
   * The settings the command reads. `environment` is the project's own
   * `ENVIRONMENT` setting, `None` when the project does not define it. An
   * empty `appsList` stands for an unset or empty list.
   */
  datatype Settings = Settings(
    environment: Option<string>,
    strictMode: bool,
    globalScrubbers: map<GlobalKey, Scrubber>,
    appsList: seq<string>,
    skipUnmanaged: bool,
    mapping: map<string, string>)

  /** `settings.ENVIRONMENT` is defined and is one of the allowed environments. */
  predicate EnvironmentAllowed(s: Settings) {
    s.environment.Some? && s.environment.value in AllowedEnvironments
  }

  /** Proxy models are never scrubbed; unmanaged ones not when so configured; with an app list, only models of listed apps. */
  predicate Selected(m: Model, s: Settings): (b: bool)
    ensures b ==> !m.proxy
    ensures b && s.skipUnmanaged ==> m.managed
    ensures b && |s.appsList| > 0 ==> m.appName in s.appsList
    ensures !m.proxy && (m.managed || !s.skipUnmanaged) && (|s.appsList| == 0 || m.appName in s.appsList) ==> b
  {
    && !m.proxy
    && !(s.skipUnmanaged && !m.managed)
    && !(|s.appsList| > 0 && m.appName !in s.appsList)
  }

  const ModelArgumentMessage: string := "--model should be defined as <app_label>.<model_name>"

  /** `apps.get_model(app_label, model_name)`: the model name is matched lower-cased. */
  function FindModel(registry: seq<Model>, appLabel: string, modelName: string): (r: Option<Model>)
    ensures r.Some? ==> r.value in registry && r.value.appLabel == appLabel && r.value.modelName == Lower(modelName)
    ensures r.None? ==> forall m :: m in registry ==> !(m.appLabel == appLabel && m.modelName == Lower(modelName))
  {
    if |registry| == 0 then None
    else if registry[0].appLabel == appLabel && registry[0].modelName == Lower(modelName) then Some(registry[0])
    else FindModel(registry[1..], appLabel, modelName)
  }

  /**
   * `apps.get_models()`: the registered models in registry order, without
   * the auto-created and swapped-out ones.
   */
  function ListedModels(registry: seq<Model>): (r: seq<Model>)
    ensures |r| <= |registry|
    ensures forall m :: m in r <==> m in registry && !m.autoCreatedOrSwapped
    decreases |registry|
  {
    if |registry| == 0 then []
    else (if registry[0].autoCreatedOrSwapped then [] else [registry[0]]) + ListedModels(registry[1..])
  }

  /** The listing keeps registry order: listing two blocks gives the two listings. */
  lemma {:induction false} ListedModelsAppend(a: seq<Model>, b: seq<Model>)
    ensures ListedModels(a + b) == ListedModels(a) + ListedModels(b)
    decreases |a|
  {
    if |a| == 0 {
      assert a + b == b;
    } else {
      assert (a + b)[0] == a[0];
      assert (a + b)[1..] == a[1..] + b;
      ListedModelsAppend(a[1..], b);
    }
  }

  /**
   * The models to visit: every model `apps.get_models()` lists, or the one
   * `--model` names, which may also be an auto-created or swapped-out one.
   */
  function TargetModels(arg: Option<string>, registry: seq<Model>): (r: Result<seq<Model>, Failure>)
    ensures r.Success? ==> forall m :: m in r.value ==> m in registry
    ensures arg.None? ==> r == Success(ListedModels(registry))
    ensures arg.None? ==> forall m :: m in r.value <==> m in registry && !m.autoCreatedOrSwapped
    ensures arg.Some? && r.Success? ==> |r.value| == 1
  {
    match arg
    case None => Success(ListedModels(registry))
    case Some(a) =>
      var parts := RSplitOnce(a, '.');
      if |parts| != 2 then Failure(BadModelArgument(a))
      else match FindModel(registry, parts[0], parts[1])
        case None => Failure(CommandError(ModelArgumentMessage))
        case Some(m) => Success([m])
  }

  /** `--model app.Name` is split at its last dot; an unknown model raises the command error. */
  lemma ModelArgument(app: string, name: string, registry: seq<Model>)
    requires '.' !in name
    ensures TargetModels(Some(app + "." + name), registry)
         == if FindModel(registry, app, name).Some? then Success([FindModel(registry, app, name).value])
            else Failure(CommandError(ModelArgumentMessage))
  {
    RSplitOnceOf(app, '.', name);
  }

  /** A `--model` value without a dot fails in the split itself, not with the command error. */
  lemma ModelArgumentWithoutDot(a: string, registry: seq<Model>)
    requires '.' !in a
    ensures TargetModels(Some(a), registry) == Failure(BadModelArgument(a))
  {
  }

  // ====================================================== the per-model loop

  /**
   * What one visited model contributes: its label and realised table. It
   * stands for the whole block that disconnects signals, trims and updates.
   */
  datatype Step = Step(model: string, realized: map<string, Scrubber>)

  datatype Resolution = Resolution(step: Option<Step>, warnings: seq<string>)

  /**
   * An exception that ends the visit to a model, with the warnings the visit
   * had already issued: `_get_model_scrubbers` warns about unknown names
   * before `_call_callables` can raise.
   */
  datatype Raise = Raise(failure: Failure, warned: seq<string>)

  datatype Config = Config(settings: Settings, modules: Modules, invoke: Generators)

  /**
   * The body of the loop over models, for one model. A model that is not
   * selected contributes nothing; a step is always labelled with its model;
   * an exception comes only from a selected model, either from its mapped
   * class path or from a lazy rule for one of its fields.
   */
  function Resolve(m: Model, cfg: Config): (r: Result<Resolution, Raise>)
    requires WellFormed(m)
    ensures !Selected(m, cfg.settings) ==> r == Success(Resolution(None, []))
    ensures r.Success? && r.value.step.Some? ==> Selected(m, cfg.settings) && r.value.step.value.model == m.modelLabel
    ensures r.Failure? ==> Selected(m, cfg.settings) && (r.error.failure.GeneratorFailure? || m.modelLabel in cfg.settings.mapping)
    ensures r.Failure? && !r.error.failure.GeneratorFailure? ==> r.error.warned == []
    ensures r.Failure? && r.error.failure.GeneratorFailure? ==>
      r.error.failure.fields != {} && forall n :: n in r.error.failure.fields ==> exists f :: f in AllFields(m) && f.name == n
  {
    if !Selected(m, cfg.settings) then Success(Resolution(None, []))
    else match ModelScrubbers(m, cfg.settings.mapping, cfg.modules)
      case Failure(e) => Failure(Raise(e, []))
      case Success(d) =>
        var table := WithoutKept(Merged(m, cfg.settings.globalScrubbers, d));
        WellFormedDistinct(m, table.Keys);
        RaisingFieldsWithin(m, table, cfg.invoke);
        if |table| == 0 then Success(Resolution(None, d.missing))
        else match Realized(table, cfg.invoke)
          case Failure(e) => Failure(Raise(e, d.missing))
          case Success(rz) => Success(Resolution(Some(Step(m.modelLabel, rz)), d.missing))
  }

  /** The warnings a visit to one model issued, whether or not it then raised. */
  function Issued(r: Result<Resolution, Raise>): seq<string> {
    match r
    case Success(res) => res.warnings
    case Failure(x) => x.warned
  }

  /** When a rule of the table raises, some field is named as raising, and only fields of the model are. */
  lemma RaisingFieldsWithin(m: Model, table: map<Field, Scrubber>, invoke: Generators)
    requires forall f :: f in table ==> f in AllFields(m)
    ensures (exists f :: f in table && Raises(f, table[f], invoke)) ==> RaisingFields(table, invoke) != {}
    ensures forall n :: n in RaisingFields(table, invoke) ==> exists f :: f in AllFields(m) && f.name == n
  {
    if exists f :: f in table && Raises(f, table[f], invoke) {
      var f :| f in table && Raises(f, table[f], invoke);
      assert f.name in RaisingFields(table, invoke);
    }
  }

  /**
   * On any table of rules: nothing is left once the `Keep` entries are
   * dropped exactly when every rule is `Keep`; realisation raises exactly
   * when some rule's call raises; otherwise a field is present exactly when
   * its rule is not `Keep` and is callable or truthy, with its realised
   * value, and every name present is some field's.
   */
  lemma KeptNeverRealized(rules: map<Field, Scrubber>, invoke: Generators)
    requires DistinctNames(rules.Keys)
    ensures DistinctNames(WithoutKept(rules).Keys)
    ensures |WithoutKept(rules)| == 0 <==> forall f :: f in rules ==> rules[f] == Keep
    ensures Realized(WithoutKept(rules), invoke).Failure? <==> exists f :: f in rules && Raises(f, rules[f], invoke)
    ensures Realized(WithoutKept(rules), invoke).Success? ==>
      var rz := Realized(WithoutKept(rules), invoke).value;
      && (forall f :: f in rules ==> (f.name in rz <==> rules[f] != Keep && (IsCallable(rules[f]) || Truthy(rules[f]))))
      && (forall f :: f in rules && f.name in rz ==> rz[f.name] == Realize(f, rules[f], invoke))
      && (forall n :: n in rz ==> exists f :: f in rules && f.name == n)
  {
    var table := WithoutKept(rules);
    WithoutKeptEmpty(rules);
    RealizedEntries(table, invoke);
    if exists f :: f in rules && Raises(f, rules[f], invoke) {
      var f :| f in rules && Raises(f, rules[f], invoke);
      assert f in table && Raises(f, table[f], invoke);
    }
  }

  /** Dropping the `Keep` entries leaves nothing exactly when every rule is `Keep`. */
  lemma WithoutKeptEmpty(rules: map<Field, Scrubber>)
    ensures |WithoutKept(rules)| == 0 <==> forall f :: f in rules ==> rules[f] == Keep
  {
    if |WithoutKept(rules)| != 0 {
      var f0 :| f0 in WithoutKept(rules);
    }
  }

  /**
   * For a selected model whose own rules resolve: its warnings are the
   * declared names that match no field; there is no step when every merged
   * rule is `Keep`; otherwise the step carries the model's label and exactly
   * the fields whose merged rule is not `Keep` and is callable or truthy,
   * with their realised values. A field marked `Keep` is never written.
   */
  lemma ResolvedStep(m: Model, cfg: Config, d: Declared)
    requires WellFormed(m) && Selected(m, cfg.settings)
    requires ModelScrubbers(m, cfg.settings.mapping, cfg.modules) == Success(d)
    ensures var rules := Merged(m, cfg.settings.globalScrubbers, d);
      Resolve(m, cfg).Failure? <==> exists f :: f in rules && Raises(f, rules[f], cfg.invoke)
    ensures Issued(Resolve(m, cfg)) == d.missing
    ensures var rules := Merged(m, cfg.settings.globalScrubbers, d);
      Resolve(m, cfg).Success? ==> (Resolve(m, cfg).value.step.None? <==> forall f :: f in rules ==> rules[f] == Keep)
    ensures var rules := Merged(m, cfg.settings.globalScrubbers, d);
      Resolve(m, cfg).Success? && Resolve(m, cfg).value.step.Some? ==>
        var st := Resolve(m, cfg).value.step.value;
        && st.model == m.modelLabel
        && (forall f :: f in rules ==>
             (f.name in st.realized <==> rules[f] != Keep && (IsCallable(rules[f]) || Truthy(rules[f]))))
        && (forall f :: f in rules && f.name in st.realized ==> st.realized[f.name] == Realize(f, rules[f], cfg.invoke))
        && (forall n :: n in st.realized ==> exists f :: f in rules && f.name == n)
  {
    var rules := Merged(m, cfg.settings.globalScrubbers, d);
    WellFormedDistinct(m, rules.Keys);
    KeptNeverRealized(rules, cfg.invoke);
  }

  /** What the loop has done after a prefix of the models: its steps, its warnings, and the exception that ended it, if any. */
  datatype Run = Run(steps: seq<Step>, warnings: seq<string>, error: Option<Failure>)

  /**
   * The loop over models, given what each model resolves to: steps and
   * warnings accumulate in order, and the first exception ends the loop.
   */
  function Fold(rs: seq<Result<Resolution, Raise>>): (r: Run)
    ensures r.error.Some? ==> |rs| > 0
    decreases |rs|
  {
    if |rs| == 0 then Run([], [], None)
    else
      var prev := Fold(rs[..|rs| - 1]);
      if prev.error.Some? then prev
      else match rs[|rs| - 1]
        case Failure(x) => Run(prev.steps, prev.warnings + x.warned, Some(x.failure))
        case Success(res) =>
          Run(prev.steps + (if res.step.Some? then [res.step.value] else []), prev.warnings + res.warnings, None)
  }

  function Resolutions(ms: seq<Model>, cfg: Config): seq<Result<Resolution, Raise>>
    requires forall i :: 0 <= i < |ms| ==> WellFormed(ms[i])
  {
    seq(|ms|, i requires 0 <= i < |ms| => Resolve(ms[i], cfg))
  }

  function ScrubModels(ms: seq<Model>, cfg: Config): Run
    requires forall i :: 0 <= i < |ms| ==> WellFormed(ms[i])
  {
    Fold(Resolutions(ms, cfg))
  }

  /** One more model, after a prefix that raised nothing: its error ends the loop, or its step and warnings are appended. */
  lemma FoldNext(rs: seq<Result<Resolution, Raise>>, i: nat)
    requires i < |rs| && Fold(rs[..i]).error.None?
    ensures rs[i].Failure? ==> Fold(rs[..i + 1]) == Run(Fold(rs[..i]).steps, Fold(rs[..i]).warnings + rs[i].error.warned, Some(rs[i].error.failure))
    ensures rs[i].Success? ==>
      (Fold(rs[..i + 1]) ==
       Run(Fold(rs[..i]).steps + (if rs[i].value.step.Some? then [rs[i].value.step.value] else []),
           Fold(rs[..i]).warnings + rs[i].value.warnings, None))
  {
    assert rs[..i + 1][..i] == rs[..i];
  }

  /** Each model contributes at most one step. */
  lemma {:induction false} FoldLength(rs: seq<Result<Resolution, Raise>>)
    ensures |Fold(rs).steps| <= |rs|
    decreases |rs|
  {
    if |rs| > 0 {
      FoldLength(rs[..|rs| - 1]);
    }
  }

  /** Once a model raises, the models after it are not visited. */
  lemma {:induction false} FoldStops(rs: seq<Result<Resolution, Raise>>, k: nat)
    requires k <= |rs|
    requires Fold(rs[..k]).error.Some?
    ensures Fold(rs) == Fold(rs[..k])
    decreases |rs| - k
  {
    if k < |rs| {
      assert rs[..|rs| - 1][..k] == rs[..k];
      FoldStops(rs[..|rs| - 1], k);
    } else {
      assert rs[..k] == rs;
    }
  }

  /** Every step of the loop is the step some model resolved to. */
  lemma {:induction false} FoldSound(rs: seq<Result<Resolution, Raise>>)
    ensures forall k :: 0 <= k < |Fold(rs).steps| ==>
      exists j :: 0 <= j < |rs| && rs[j].Success? && rs[j].value.step == Some(Fold(rs).steps[k])
    decreases |rs|
  {
    if |rs| > 0 {
      var n := |rs| - 1;
      var init := rs[..n];
      FoldSound(init);
      var prev := Fold(init);
      assert rs[..|rs| - 1] == init;
      assert Fold(rs).steps[..|prev.steps|] == prev.steps;
      forall k | 0 <= k < |Fold(rs).steps|
        ensures exists j :: 0 <= j < |rs| && rs[j].Success? && rs[j].value.step == Some(Fold(rs).steps[k])
      {
        if k < |prev.steps| {
          assert Fold(rs).steps[k] == prev.steps[k];
          assert exists j :: 0 <= j < |init| && init[j].Success? && init[j].value.step == Some(Fold(init).steps[k]);
          var j :| 0 <= j < |init| && init[j].Success? && init[j].value.step == Some(prev.steps[k]);
          assert rs[j] == init[j];
          assert 0 <= j < |rs| && rs[j].Success? && rs[j].value.step == Some(Fold(rs).steps[k]);
        } else {
          assert rs[n].Success? && rs[n].value.step == Some(Fold(rs).steps[k]);
        }
      }
    } else {
      assert Fold(rs).steps == [];
    }
  }

  /** When nothing raised, every model resolved and every step a model resolved to is in the loop's steps. */
  lemma {:induction false} FoldComplete(rs: seq<Result<Resolution, Raise>>)
    ensures Fold(rs).error.None? ==>
      forall j :: 0 <= j < |rs| ==> (rs[j].Success? && (rs[j].value.step.Some? ==> rs[j].value.step.value in Fold(rs).steps))
    decreases |rs|
  {
    if |rs| > 0 {
      var n := |rs| - 1;
      var init := rs[..n];
      FoldComplete(init);
      if Fold(rs).error.None? {
        assert Fold(init).error.None?;
        forall j | 0 <= j < n
          ensures rs[j].Success? && (rs[j].value.step.Some? ==> rs[j].value.step.value in Fold(rs).steps)
        {
          assert rs[j] == init[j];
        }
      }
    }
  }

  /** When something raised, it is the error of the first model that did not resolve. */
  lemma {:induction false} FoldFirstFailure(rs: seq<Result<Resolution, Raise>>)
    ensures Fold(rs).error.Some? ==>
      exists j :: 0 <= j < |rs| && rs[j].Failure? && rs[j].error.failure == Fold(rs).error.value && (forall i :: 0 <= i < j ==> rs[i].Success?)
    decreases |rs|
  {
    if |rs| > 0 {
      var n := |rs| - 1;
      var init := rs[..n];
      FoldFirstFailure(init);
      FoldComplete(init);
      if Fold(init).error.Some? {
        var j :| 0 <= j < |init| && init[j].Failure? && init[j].error.failure == Fold(init).error.value && (forall i :: 0 <= i < j ==> init[i].Success?);
        assert rs[j] == init[j];
        assert forall i :: 0 <= i < j ==> rs[i] == init[i];
      } else if Fold(rs).error.Some? {
        assert rs[n].Failure? && rs[n].error.failure == Fold(rs).error.value;
        assert forall i :: 0 <= i < n ==> rs[i] == init[i];
      }
    }
  }

  /** The warnings of the given visits, one after the other. */
  function IssuedAll(rs: seq<Result<Resolution, Raise>>): seq<string>
    decreases |rs|
  {
    if |rs| == 0 then [] else IssuedAll(rs[..|rs| - 1]) + Issued(rs[|rs| - 1])
  }

  /** A loop in which every model resolved raised nothing. */
  lemma {:induction false} FoldNoError(rs: seq<Result<Resolution, Raise>>)
    requires forall i :: 0 <= i < |rs| ==> rs[i].Success?
    ensures Fold(rs).error.None?
    decreases |rs|
  {
    if |rs| > 0 {
      FoldNoError(rs[..|rs| - 1]);
    }
  }

  /** When nothing raised, the run's warnings are those of every model, in order. */
  lemma {:induction false} FoldWarningsDone(rs: seq<Result<Resolution, Raise>>)
    ensures Fold(rs).error.None? ==> Fold(rs).warnings == IssuedAll(rs)
    decreases |rs|
  {
    if |rs| > 0 {
      FoldWarningsDone(rs[..|rs| - 1]);
    }
  }

  /** The first model that raises ends the run with the warnings of every model up to and including it. */
  lemma FoldWarningsAt(rs: seq<Result<Resolution, Raise>>, j: nat)
    requires j < |rs| && rs[j].Failure? && forall i :: 0 <= i < j ==> rs[i].Success?
    ensures Fold(rs).warnings == IssuedAll(rs[..j + 1])
  {
    var init := rs[..j];
    assert forall i :: 0 <= i < |init| ==> init[i] == rs[i];
    FoldNoError(init);
    FoldWarningsDone(init);
    FoldNext(rs, j);
    assert rs[..j + 1][..j] == init;
    FoldStops(rs, j + 1);
  }

  /**
   * When something raised, the run's warnings are those of every visited
   * model in order, up to and including the model that raised.
   */
  lemma FoldWarningsRaised(rs: seq<Result<Resolution, Raise>>)
    ensures Fold(rs).error.Some? ==>
      exists j :: 0 <= j < |rs| && rs[j].Failure? && (forall i :: 0 <= i < j ==> rs[i].Success?) &&
        Fold(rs).warnings == IssuedAll(rs[..j + 1])
  {
    FoldFirstFailure(rs);
    if Fold(rs).error.Some? {
      var j :| 0 <= j < |rs| && rs[j].Failure? && rs[j].error.failure == Fold(rs).error.value && (forall i :: 0 <= i < j ==> rs[i].Success?);
      FoldWarningsAt(rs, j);
    }
  }

  /** `st` is what model `m` resolves to. */
  predicate Produces(m: Model, cfg: Config, st: Step) {
    WellFormed(m) && Resolve(m, cfg).Success? && Resolve(m, cfg).value.step == Some(st)
  }

  /** Every step of the run is the resolution of some selected model. */
  lemma StepsSound(ms: seq<Model>, cfg: Config)
    requires forall i :: 0 <= i < |ms| ==> WellFormed(ms[i])
    ensures forall st :: st in ScrubModels(ms, cfg).steps ==> exists m :: m in ms && Selected(m, cfg.settings) && Produces(m, cfg, st)
  {
    var rs := Resolutions(ms, cfg);
    forall st | st in Fold(rs).steps
      ensures exists m :: m in ms && Selected(m, cfg.settings) && Produces(m, cfg, st)
    {
      FoldSound(rs);
      var k :| 0 <= k < |Fold(rs).steps| && Fold(rs).steps[k] == st;
      var j :| 0 <= j < |rs| && rs[j].Success? && rs[j].value.step == Some(Fold(rs).steps[k]);
      assert rs[j] == Resolve(ms[j], cfg);
      assert Produces(ms[j], cfg, st);
    }
    assert ScrubModels(ms, cfg) == Fold(rs);
  }

  /** When nothing raised, every model was resolved and every step a model produces is in the run. */
  lemma StepsComplete(ms: seq<Model>, cfg: Config)
    requires forall i :: 0 <= i < |ms| ==> WellFormed(ms[i])
    ensures ScrubModels(ms, cfg).error.None? ==>
      forall j :: 0 <= j < |ms| ==> (Resolve(ms[j], cfg).Success? &&
        (Resolve(ms[j], cfg).value.step.Some? ==> Resolve(ms[j], cfg).value.step.value in ScrubModels(ms, cfg).steps))
  {
    var rs := Resolutions(ms, cfg);
    FoldComplete(rs);
    assert forall j :: 0 <= j < |ms| ==> rs[j] == Resolve(ms[j], cfg);
  }

  /** When something raised, it is the error of the first model that did not resolve. */
  lemma FirstFailure(ms: seq<Model>, cfg: Config)
    requires forall i :: 0 <= i < |ms| ==> WellFormed(ms[i])
    ensures ScrubModels(ms, cfg).error.Some? ==>
      exists j :: 0 <= j < |ms| && Resolve(ms[j], cfg).Failure? && Resolve(ms[j], cfg).error.failure == ScrubModels(ms, cfg).error.value &&
        (forall i :: 0 <= i < j ==> Resolve(ms[i], cfg).Success?)
  {
    var rs := Resolutions(ms, cfg);
    FoldFirstFailure(rs);
    assert ScrubModels(ms, cfg) == Fold(rs);
    if Fold(rs).error.Some? {
      var j :| 0 <= j < |rs| && rs[j].Failure? && rs[j].error.failure == Fold(rs).error.value && (forall i :: 0 <= i < j ==> rs[i].Success?);
      assert Resolve(ms[j], cfg) == rs[j];
      forall i | 0 <= i < j
        ensures Resolve(ms[i], cfg).Success?
      {
        assert rs[i] == Resolve(ms[i], cfg);
      }
    }
  }

  // ============================================================== handle

  /** The command's switches that matter here. */
  datatype Options = Options(model: Option<string>, keepSessions: bool, removeFakeData: bool)

  datatype Outcome =
    | WrongEnvironment    // refused, returns False
    | StrictModeViolation // refused, returns False
    | Raised(error: Failure, scrubbed: seq<Step>, warnings: seq<string>)
    | Finished(scrubbed: seq<Step>, warnings: seq<string>, truncateSessions: bool, truncateFakeData: bool)

  /**
   * The whole command. `unscrubbed` is the number of unscrubbed text fields
   * the validator reports.
   */
  function Scrub(cfg: Config, opts: Options, registry: seq<Model>, unscrubbed: nat): (r: Outcome)
    requires forall i :: 0 <= i < |registry| ==> WellFormed(registry[i])
    ensures cfg.settings.environment.None? ==> r == Raised(MissingSetting("ENVIRONMENT"), [], [])
    ensures r == WrongEnvironment <==> cfg.settings.environment.Some? && cfg.settings.environment.value !in AllowedEnvironments
    ensures r == StrictModeViolation <==> EnvironmentAllowed(cfg.settings) && cfg.settings.strictMode && unscrubbed > 0
    ensures r.Finished? ==> r.truncateSessions == !opts.keepSessions && r.truncateFakeData == opts.removeFakeData
    ensures r.Raised? && TargetModels(opts.model, registry).Failure? ==> r.scrubbed == [] && r.warnings == []
  {
    if cfg.settings.environment.None? then Raised(MissingSetting("ENVIRONMENT"), [], [])
    else if cfg.settings.environment.value !in AllowedEnvironments then WrongEnvironment
    else if cfg.settings.strictMode && unscrubbed > 0 then StrictModeViolation
    else match TargetModels(opts.model, registry)
      case Failure(e) => Raised(e, [], [])
      case Success(ms) =>
        assert forall i :: 0 <= i < |ms| ==> ms[i] in registry;
        var run := ScrubModels(ms, cfg);
        if run.error.Some? then Raised(run.error.value, run.steps, run.warnings)
        else Finished(run.steps, run.warnings, !opts.keepSessions, opts.removeFakeData)
  }

  /** The body of `handle`'s loop over models, for one model. */
  method ResolveModel(m: Model, cfg: Config) returns (r: Result<Resolution, Raise>)
    requires WellFormed(m)
    ensures r == Resolve(m, cfg)
  {
    if !Selected(m, cfg.settings) {
      return Success(Resolution(None, []));
    }
    var scrubbers := BuildGlobalTable(m.fields, cfg.settings.globalScrubbers);
    var declared := GetModelScrubbers(m, cfg.settings.mapping, cfg.modules);
    if declared.Failure? {
      return Failure(Raise(declared.error, []));
    }
    scrubbers := scrubbers + declared.value.rules;
    assert scrubbers == Merged(m, cfg.settings.globalScrubbers, declared.value);
    scrubbers := DropKept(scrubbers);
    if |scrubbers| == 0 {
      return Success(Resolution(None, declared.value.missing));
    }
    WellFormedDistinct(m, scrubbers.Keys);
    var called := CallCallables(scrubbers, cfg.invoke);
    if called.Failure? {
      return Failure(Raise(called.error, declared.value.missing));
    }
    var realized := FilterOutDisabled(called.value);
    return Success(Resolution(Some(Step(m.modelLabel, realized)), declared.value.missing));
  }

  /** `handle`'s loop over the target models: resolve each in turn, stop at the first exception. */
  method ScrubTargets(models: seq<Model>, cfg: Config) returns (run: Run)
    requires forall i :: 0 <= i < |models| ==> WellFormed(models[i])
    ensures run == ScrubModels(models, cfg)
  {
    var steps: seq<Step> := [];
    var warnings: seq<string> := [];
    ghost var rs := Resolutions(models, cfg);
    for i := 0 to |models|
      invariant Run(steps, warnings, None) == Fold(rs[..i])
    {
      var resolved := ResolveModel(models[i], cfg);
      assert resolved == rs[i];
      FoldNext(rs, i);
      match resolved {
        case Failure(x) =>
          FoldStops(rs, i + 1);
          return Run(steps, warnings + x.warned, Some(x.failure));
        case Success(res) =>
          warnings := warnings + res.warnings;
          if res.step.Some? {
            steps := steps + [res.step.value];
          }
      }
    }
    assert rs[..|models|] == rs;
    return Run(steps, warnings, None);
  }

  /** `Command.handle`. */
  method Handle(cfg: Config, opts: Options, registry: seq<Model>, unscrubbed: nat) returns (outcome: Outcome)
    requires forall i :: 0 <= i < |registry| ==> WellFormed(registry[i])
    ensures outcome == Scrub(cfg, opts, registry, unscrubbed)
  {
    if cfg.settings.environment.None? {
      return Raised(MissingSetting("ENVIRONMENT"), [], []);
    }
    if cfg.settings.environment.value !in AllowedEnvironments {
      return WrongEnvironment;
    }
    if cfg.settings.strictMode && unscrubbed > 0 {
      return StrictModeViolation;
    }
    var targets := TargetModels(opts.model, registry);
    if targets.Failure? {
      return Raised(targets.error, [], []);
    }
    var models := targets.value;
    assert forall i :: 0 <= i < |models| ==> models[i] in registry;
    var run := ScrubTargets(models, cfg);
    if run.error.Some? {
      return Raised(run.error.value, run.steps, run.warnings);
    }
    return Finished(run.steps, run.warnings, !opts.keepSessions, opts.removeFakeData);
  }

  /** The steps the command performs are those of its run over the target models. */
  lemma ScrubbedRun(cfg: Config, opts: Options, registry: seq<Model>, unscrubbed: nat)
    requires forall i :: 0 <= i < |registry| ==> WellFormed(registry[i])
    requires EnvironmentAllowed(cfg.settings) && !(cfg.settings.strictMode && unscrubbed > 0)
    ensures Scrub(cfg, opts, registry, unscrubbed).scrubbed == [] ||
      (TargetModels(opts.model, registry).Success? &&
       (forall i :: 0 <= i < |TargetModels(opts.model, registry).value| ==> WellFormed(TargetModels(opts.model, registry).value[i])) &&
       Scrub(cfg, opts, registry, unscrubbed).scrubbed == ScrubModels(TargetModels(opts.model, registry).value, cfg).steps)
  {
    var t := TargetModels(opts.model, registry);
    if t.Success? {
      assert forall i :: 0 <= i < |t.value| ==> t.value[i] in registry;
    }
  }

  /** Every model the command scrubs is a selected registered model, and the step is that model's resolution. */
  lemma ScrubbedSound(cfg: Config, opts: Options, registry: seq<Model>, unscrubbed: nat)
    requires forall i :: 0 <= i < |registry| ==> WellFormed(registry[i])
    requires EnvironmentAllowed(cfg.settings) && !(cfg.settings.strictMode && unscrubbed > 0)
    ensures forall st :: st in Scrub(cfg, opts, registry, unscrubbed).scrubbed ==>
      exists m :: m in registry && Selected(m, cfg.settings) && Produces(m, cfg, st)
  {
    ScrubbedRun(cfg, opts, registry, unscrubbed);
    if Scrub(cfg, opts, registry, unscrubbed).scrubbed != [] {
      StepsSound(TargetModels(opts.model, registry).value, cfg);
    }
  }

  /** With `--model`, the command scrubs at most the one model named. */
  lemma NamedModelOnly(cfg: Config, opts: Options, registry: seq<Model>, unscrubbed: nat)
    requires forall i :: 0 <= i < |registry| ==> WellFormed(registry[i])
    requires EnvironmentAllowed(cfg.settings) && !(cfg.settings.strictMode && unscrubbed > 0)
    requires opts.model.Some?
    ensures |Scrub(cfg, opts, registry, unscrubbed).scrubbed| <= 1
    ensures forall st :: st in Scrub(cfg, opts, registry, unscrubbed).scrubbed ==>
      TargetModels(opts.model, registry).Success? && st.model == TargetModels(opts.model, registry).value[0].modelLabel
  {
    ScrubbedRun(cfg, opts, registry, unscrubbed);
    if Scrub(cfg, opts, registry, unscrubbed).scrubbed != [] {
      OneModelOneStep(TargetModels(opts.model, registry).value, cfg);
    }
  }

  /** A run over one model has at most one step, labelled with that model. */
  lemma OneModelOneStep(ms: seq<Model>, cfg: Config)
    requires |ms| == 1 && WellFormed(ms[0])
    ensures |ScrubModels(ms, cfg).steps| <= 1
    ensures forall st :: st in ScrubModels(ms, cfg).steps ==> st.model == ms[0].modelLabel
  {
    var rs := Resolutions(ms, cfg);
    assert rs[0] == Resolve(ms[0], cfg);
    FoldSingle(rs, ms[0].modelLabel);
    assert ScrubModels(ms, cfg) == Fold(rs);
  }

  /** A loop over one model has at most that model's step. */
  lemma FoldSingle(rs: seq<Result<Resolution, Raise>>, name: string)
    requires |rs| == 1
    requires rs[0].Success? && rs[0].value.step.Some? ==> rs[0].value.step.value.model == name
    ensures |Fold(rs).steps| <= 1
    ensures forall st :: st in Fold(rs).steps ==> st.model == name
  {
    assert rs[..0] == [];
  }

  // ============================================ _force_delete (inside _large_delete)

  /** How the database answers one `delete()`. */
  datatype DeleteAnswer = Deleted | Protected | OtherError(reason: string)

  /** `_force_delete` is given a queryset (dependent rows, the final sweep) or a model instance (one row of a page). */
  datatype Target = QuerySet | Instance

  datatype DeleteResult = Removed | Warned(reason: string) | Propagated(reason: string)

  /** The result, and the hard-delete flag carried by each `delete()` issued, in order. */
  datatype DeleteRun = DeleteRun(result: DeleteResult, calls: seq<bool>)

  /** The answer to the n-th `delete()` call, given whether it carries the hard-delete flag. */
  type Database = (nat, bool) -> DeleteAnswer

  const ProtectedReason: string := "ProtectedError"
  const NoAnnotate: string := "AttributeError: a model instance has no annotate()"

  function Reason(a: DeleteAnswer): string {
    if a.OtherError? then a.reason else ProtectedReason
  }

  /**
   * `_force_delete` as written. `annotate` returns a new queryset that is
   * discarded, so a retried queryset delete carries no flag; a model
   * instance has no `annotate`, so for it the retry fails before deleting.
   */
  function ForceDelete(target: Target, db: Database): (run: DeleteRun)
    ensures 1 <= |run.calls| <= 2 && !run.calls[0]
    ensures run.result.Propagated? <==> db(0, false).OtherError?
    ensures db(0, false) == Deleted ==> run == DeleteRun(Removed, [false])
    ensures db(0, false) == Protected ==> !run.result.Propagated? && (|run.calls| == 2 <==> target == QuerySet)
    ensures run.result.Removed? <==> db(|run.calls| - 1, run.calls[|run.calls| - 1]) == Deleted && !(target == Instance && |run.calls| == 1 && db(0, false) == Protected)
    ensures forall i :: 0 <= i < |run.calls| ==> !run.calls[i]
  {
    match db(0, false)
    case Deleted => DeleteRun(Removed, [false])
    case OtherError(e) => DeleteRun(Propagated(e), [false])
    case Protected =>
      match target
      case Instance => DeleteRun(Warned(NoAnnotate), [false])
      case QuerySet =>
        var second := db(1, false);
        DeleteRun(if second == Deleted then Removed else Warned(Reason(second)), [false, false])
  }

  /** `_force_delete` as intended: the one retry carries the hard-delete flag, for either kind of target. */
  function ForceDeleteIntended(target: Target, db: Database): (run: DeleteRun)
    ensures run.result.Propagated? <==> db(0, false).OtherError?
    ensures db(0, false) != Protected ==> run.calls == [false]
    ensures db(0, false) == Protected ==> run.calls == [false, true] && !run.result.Propagated?
    ensures run.result.Removed? <==> db(|run.calls| - 1, run.calls[|run.calls| - 1]) == Deleted
  {
    match db(0, false)
    case Deleted => DeleteRun(Removed, [false])
    case OtherError(e) => DeleteRun(Propagated(e), [false])
    case Protected =>
      var second := db(1, true);
      DeleteRun(if second == Deleted then Removed else Warned(Reason(second)), [false, true])
  }

  /**
   * A database that refuses a plain delete and accepts a flagged one: the
   * rows stay as written, for both kinds of target, and are removed as intended.
   */
  lemma HardDeleteFlagIsLost()
    ensures var db: Database := (n: nat, hard: bool) => if hard then Deleted else Protected;
      && ForceDelete(Instance, db).result.Warned?
      && ForceDelete(QuerySet, db).result.Warned?
      && ForceDeleteIntended(Instance, db).result.Removed?
      && ForceDeleteIntended(QuerySet, db).result.Removed?
  {
  }
}
