/**
 * Loading a module: the parsed specifications become a map from query name to callable,
 * after a check that every kind is in the kind table; and the `DB` object's per-filename
 * cache of loaded modules.
 *
 * The kind check and the cache test both use JavaScript's `in` on a plain object, which is
 * also true of the properties every object inherits from `Object.prototype`.
 */
module Registry {
  import opened Wrappers
  import opened Parser
  import opened Kinds

  /** The names every plain object inherits from `Object.prototype`. */
  const ObjectPrototypeNames: set<string> := {
    "constructor", "__defineGetter__", "__defineSetter__", "hasOwnProperty",
    "__lookupGetter__", "__lookupSetter__", "isPrototypeOf", "propertyIsEnumerable",
    "toString", "valueOf", "__proto__", "toLocaleString"
  }

  datatype LoadError =
    | Unparsable(parse: ParseError)   // the parse failed
    | UnknownKind(kind: string)       // `Error('Unknown kind of query: ...')`
    | NotAFunction(kind: string)      // the `TypeError` of calling an inherited member as a factory

  /** `spec.kind in kinds`: an own entry of the table or an inherited member. */
  predicate InKinds(kind: string) {
    KindNamed(kind).Some? || kind in ObjectPrototypeNames
  }

  /** The map entry for one specification, or the error this specification raises. */
  function EntryFor(spec: Spec): (r: Result<(string, Callable), LoadError>)
    ensures r.Success? <==> KindNamed(spec.kind).Some?
    ensures r.Success? ==> r.value == (spec.name, Factory(KindNamed(spec.kind).value, spec.arg, spec.sql))
    ensures r.Failure? && !InKinds(spec.kind) ==> r.error == UnknownKind(spec.kind)
    ensures r.Failure? && InKinds(spec.kind) ==> r.error == NotAFunction(spec.kind)
  {
    match KindNamed(spec.kind)
    case Some(k) => Success((spec.name, Factory(k, spec.arg, spec.sql)))
    case None => if spec.kind in ObjectPrototypeNames then Failure(NotAFunction(spec.kind)) else Failure(UnknownKind(spec.kind))
  }

  /** The index of the first specification whose kind is not one of the table's own. */
  predicate FirstBadKind(specs: seq<Spec>, i: int) {
    0 <= i < |specs| && KindNamed(specs[i].kind).None?
    && forall j | 0 <= j < i :: KindNamed(specs[j].kind).Some?
  }

  /**
   * `specs.map(...)`: the entries in specification order, or the error of the first
   * specification with a kind that is not the table's own.
   */
  function Compile(specs: seq<Spec>): (r: Result<seq<(string, Callable)>, LoadError>)
    ensures r.Success? <==> forall i | 0 <= i < |specs| :: KindNamed(specs[i].kind).Some?
    ensures r.Success? ==> |r.value| == |specs|
    ensures r.Success? ==> forall i | 0 <= i < |specs| :: Success(r.value[i]) == EntryFor(specs[i])
    ensures r.Failure? ==> exists i :: FirstBadKind(specs, i) && Failure(r.error) == EntryFor(specs[i])
  {
    if specs == [] then Success([])
    else
      var init := specs[..|specs| - 1];
      match Compile(init)
      case Failure(e) =>
        assert forall i | 0 <= i < |init| :: init[i] == specs[i];
        Failure(e)
      case Success(es) =>
        match EntryFor(specs[|specs| - 1])
        case Failure(e) =>
          assert FirstBadKind(specs, |specs| - 1);
          Failure(e)
        case Success(x) => Success(es + [x])
  }

  /** The entries' keys. */
  function Keys(es: seq<(string, Callable)>): set<string>
  {
    set i | 0 <= i < |es| :: es[i].0
  }

  /** `Object.fromEntries(es)`: later entries overwrite earlier ones with the same name. */
  function FromEntries(es: seq<(string, Callable)>): (m: map<string, Callable>)
    ensures m.Keys == Keys(es)
  {
    if es == [] then map[]
    else
      var init := es[..|es| - 1];
      assert Keys(es) == Keys(init) + {es[|es| - 1].0} by {
        forall k | k in Keys(es) ensures k in Keys(init) + {es[|es| - 1].0} {
          var i :| 0 <= i < |es| && es[i].0 == k;
          if i < |init| { assert init[i] == es[i]; }
        }
        forall k | k in Keys(init) ensures k in Keys(es) {
          var i :| 0 <= i < |init| && init[i].0 == k;
          assert es[i] == init[i];
        }
      }
      FromEntries(init)[es[|es| - 1].0 := es[|es| - 1].1]
  }

  /** Entry `i` is the last one with its name. */
  predicate LastOfName(es: seq<(string, Callable)>, i: int) {
    0 <= i < |es| && forall j | i < j < |es| :: es[j].0 != es[i].0
  }

  /** The map holds, under each name, the callable of the last entry with that name. */
  lemma {:induction false} FromEntriesLastWins(es: seq<(string, Callable)>, i: int)
    requires LastOfName(es, i)
    ensures es[i].0 in FromEntries(es) && FromEntries(es)[es[i].0] == es[i].1
  {
    var init := es[..|es| - 1];
    if i < |es| - 1 {
      assert init[i] == es[i];
      assert LastOfName(init, i) by {
        forall j | i < j < |init| ensures init[j].0 != init[i].0 {
          assert init[j] == es[j];
        }
      }
      FromEntriesLastWins(init, i);
    }
  }

  /** With distinct names, every entry ends up in the map. */
  lemma DistinctNamesAllKept(es: seq<(string, Callable)>)
    requires forall i, j | 0 <= i < j < |es| :: es[i].0 != es[j].0
    ensures forall i | 0 <= i < |es| :: es[i].0 in FromEntries(es) && FromEntries(es)[es[i].0] == es[i].1
  {
    forall i | 0 <= i < |es| ensures es[i].0 in FromEntries(es) && FromEntries(es)[es[i].0] == es[i].1 {
      FromEntriesLastWins(es, i);
    }
  }

  /** The `fromEntries` of a module's specifications, once the kind check has passed. */
  function LoadSpecs(specs: seq<Spec>): Result<map<string, Callable>, LoadError>
  {
    match Compile(specs)
    case Failure(e) => Failure(e)
    case Success(es) => Success(FromEntries(es))
  }

  /** Specification `i` is the last one with its name. */
  predicate LastNamed(specs: seq<Spec>, i: int) {
    0 <= i < |specs| && forall j | i < j < |specs| :: specs[j].name != specs[i].name
  }

  /**
   * Loading succeeds exactly when every kind is the table's own; the module's keys are then
   * the specifications' names, and a name maps to the callable built from the last
   * specification that bears it.
   */
  lemma LoadSpecsIff(specs: seq<Spec>)
    ensures LoadSpecs(specs).Success? <==> forall i | 0 <= i < |specs| :: KindNamed(specs[i].kind).Some?
    ensures LoadSpecs(specs).Success? ==>
              LoadSpecs(specs).value.Keys == set i | 0 <= i < |specs| :: specs[i].name
  {
    var c := Compile(specs);
    if c.Success? {
      var es := c.value;
      assert forall i | 0 <= i < |specs| :: es[i].0 == specs[i].name;
      assert Keys(es) == set i | 0 <= i < |specs| :: specs[i].name;
    }
  }

  lemma LoadSpecsLastWins(specs: seq<Spec>, i: int)
    requires LoadSpecs(specs).Success?
    requires LastNamed(specs, i)
    ensures specs[i].name in LoadSpecs(specs).value
    ensures LoadSpecs(specs).value[specs[i].name]
         == Factory(KindNamed(specs[i].kind).value, specs[i].arg, specs[i].sql)
  {
    var es := Compile(specs).value;
    assert forall j | 0 <= j < |specs| :: es[j].0 == specs[j].name;
    assert LastOfName(es, i);
    FromEntriesLastWins(es, i);
  }

  /**
   * `#loadModule`: parse the file's lines, then build the module's map. A file that parses
   * loads exactly when every kind is the table's own, and its module is keyed by exactly the
   * specifications' names.
   */
  function LoadModule(lines: seq<string>): (r: Result<map<string, Callable>, LoadError>)
    ensures Specs(lines).Failure? ==> r == Failure(Unparsable(Specs(lines).error))
    ensures Specs(lines).Success? ==>
              (r.Success? <==> forall i | 0 <= i < |Specs(lines).value| :: KindNamed(Specs(lines).value[i].kind).Some?)
    ensures r.Success? ==>
              Specs(lines).Success?
              && r.value.Keys == set i | 0 <= i < |Specs(lines).value| :: Specs(lines).value[i].name
  {
    match Specs(lines)
    case Failure(e) => Failure(Unparsable(e))
    case Success(specs) =>
      LoadSpecsIff(specs);
      LoadSpecs(specs)
  }

  /**
   * An inherited kind name passes the `in` test and then fails as a call: loading reports a
   * `TypeError`, not the unknown-kind error.
   */
  lemma InheritedKindIsNotAFunction(name: string, arg: Option<string>, sql: string)
    ensures LoadSpecs([Spec(name, "toString", arg, sql)]) == Failure(NotAFunction("toString"))
    ensures InKinds("toString") && KindNamed("toString").None?
  {
    assert [Spec(name, "toString", arg, sql)][..0] == [];
  }

  /** The check as intended, on the table's own entries only (`Object.hasOwn(kinds, kind)`). */
  function EntryForIntended(spec: Spec): (r: Result<(string, Callable), LoadError>)
    ensures r.Failure? <==> KindNamed(spec.kind).None?
    ensures r.Failure? ==> r.error == UnknownKind(spec.kind)
    ensures r.Success? ==> r == EntryFor(spec)
  {
    match KindNamed(spec.kind)
    case Some(k) => Success((spec.name, Factory(k, spec.arg, spec.sql)))
    case None => Failure(UnknownKind(spec.kind))
  }

  /** The two checks differ exactly on the inherited names. */
  lemma EntryForDiffers(spec: Spec)
    ensures EntryForIntended(spec) != EntryFor(spec) <==> spec.kind in ObjectPrototypeNames
  {
  }

  /** What a cache lookup in `this.modules` can return. */
  datatype Entry =
    | Loaded(queries: map<string, Callable>)  // a module loaded earlier under this filename
    | Inherited(member: string)                // the `Object.prototype` member of that name

  /**
   * `module(filename)` on the cache `modules`, with the file's lines: the answer and the new
   * cache. Only successful loads are stored; a failing load throws before the assignment.
   */
  function CacheStep(modules: map<string, map<string, Callable>>, filename: string, lines: seq<string>)
    : (r: (Result<Entry, LoadError>, map<string, map<string, Callable>>))
    ensures filename in modules ==> r == (Success(Loaded(modules[filename])), modules)
    ensures filename !in modules && filename in ObjectPrototypeNames ==>
              r == (Success(Inherited(filename)), modules)
    ensures filename !in modules && filename !in ObjectPrototypeNames ==>
              match LoadModule(lines)
              case Failure(e) => r == (Failure(e), modules)
              case Success(m) => r == (Success(Loaded(m)), modules[filename := m])
  {
    if filename in modules then (Success(Loaded(modules[filename])), modules)
    else if filename in ObjectPrototypeNames then (Success(Inherited(filename)), modules)
    else match LoadModule(lines)
      case Failure(e) => (Failure(e), modules)
      case Success(m) => (Success(Loaded(m)), modules[filename := m])
  }

  /**
   * Asking twice for the same file answers the second time with what the first load stored,
   * whatever the file holds by then, and leaves the cache as it was.
   */
  lemma CachedAnswerRepeats(modules: map<string, map<string, Callable>>, filename: string,
                            lines1: seq<string>, lines2: seq<string>)
    requires CacheStep(modules, filename, lines1).0.Success?
    ensures var (a1, m1) := CacheStep(modules, filename, lines1);
            CacheStep(m1, filename, lines2) == (a1, m1)
  {
  }

  /** A call touches no other filename's entry and adds at most its own. */
  lemma CacheFrame(modules: map<string, map<string, Callable>>, filename: string, lines: seq<string>)
    ensures var m1 := CacheStep(modules, filename, lines).1;
            m1.Keys - {filename} == modules.Keys - {filename}
            && (forall g | g in modules :: g in m1 && m1[g] == modules[g])
  {
  }

  /**
   * A filename that `Object.prototype` already has is never loaded: on an empty cache the
   * answer is the inherited member, whatever the file holds, and nothing is stored.
   */
  lemma InheritedFilenameNeverLoads(lines: seq<string>)
    ensures CacheStep(map[], "constructor", lines) == (Success(Inherited("constructor")), map[])
  {
  }

  /** `module` as intended, testing own entries only. */
  function CacheStepIntended(modules: map<string, map<string, Callable>>, filename: string, lines: seq<string>)
    : (r: (Result<Entry, LoadError>, map<string, map<string, Callable>>))
    ensures filename in modules ==> r == (Success(Loaded(modules[filename])), modules)
    ensures filename !in modules ==>
              match LoadModule(lines)
              case Failure(e) => r == (Failure(e), modules)
              case Success(m) => r == (Success(Loaded(m)), modules[filename := m])
    ensures r.0.Success? ==> r.0.value.Loaded? && filename in r.1 && r.1[filename] == r.0.value.queries
  {
    if filename in modules then (Success(Loaded(modules[filename])), modules)
    else match LoadModule(lines)
      case Failure(e) => (Failure(e), modules)
      case Success(m) => (Success(Loaded(m)), modules[filename := m])
  }

  /** The two caches agree on every filename that is not an inherited name. */
  lemma CacheStepAgrees(modules: map<string, map<string, Callable>>, filename: string, lines: seq<string>)
    requires filename !in ObjectPrototypeNames
    ensures CacheStepIntended(modules, filename, lines) == CacheStep(modules, filename, lines)
  {
  }

  /** The `DB` object's module cache (`this.modules`); the database handle is not modelled. */
  class DB {
    var modules: map<string, map<string, Callable>>

    /** `this.modules = {}`. */
    constructor()
      ensures modules == map[]
    {
      modules := map[];
    }

    /**
     * `module(filename)`: answers from the cache, or loads the file (its lines are given) and
     * stores the module when the load succeeds.
     */
    method Module(filename: string, lines: seq<string>) returns (r: Result<Entry, LoadError>)
      modifies this
      ensures (r, modules) == CacheStep(old(modules), filename, lines)
    {
      if !(filename in modules || filename in ObjectPrototypeNames) {
        var parsed := ParseSpecs(lines);
        if parsed.Failure? {
          return Failure(Unparsable(parsed.error));
        }
        var loaded := LoadSpecs(parsed.value);
        if loaded.Failure? {
          return Failure(loaded.error);
        }
        modules := modules[filename := loaded.value];
      }
      if filename in modules {
        r := Success(Loaded(modules[filename]));
      } else {
        r := Success(Inherited(filename));
      }
    }
  }
}
