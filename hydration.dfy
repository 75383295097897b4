/**
 * Turning search hits back into models (src/Hunter.php): `newFromHitBuilder`
 * reads the class from the document's `huntable_type`, and
 * `newFromBuilderRecursive` sets the attributes, hydrates every attribute
 * named after a relation of the class into related models
 * (`loadRelationsAttributesRecursive`, `hydrateRecursive`) and turns a
 * `pivot` attribute into the pivot of the parent relation
 * (`loadPivotAttribute`).
 *
 * Each step is first given as a function, then as the method that does it
 * the way the source does (loops, unsetting attributes in place), proved to
 * compute the same result.
 */
module Hydration {
  import opened PhpString
  import opened Php

  /** A model rebuilt from the index. */
  datatype Instance = Instance(
    cls: string,
    table: string,
    attributes: seq<Pair>,
    relations: seq<Loaded>,
    pivot: Option<seq<Pair>>,
    documentScore: Value
  )

  /** A relation set on a rebuilt model, with the models hydrated for it. */
  datatype Loaded = Loaded(name: string, models: seq<Instance>)

  /** The class `new $name` instantiates: a leading `\` names the same class. */
  function ClassName(name: string): (r: string)
    ensures |r| <= |name|
  {
    if |name| > 0 && name[0] == '\\' then name[1..] else name
  }

  /** `basename(str_replace('\\', '/', strtolower($model)))`. */
  function ResultType(name: string): string {
    Basename(ReplaceChar(ToLower(name), '\\', '/'))
  }

  // ---------------------------------------------------------------------------
  // The hydration, as functions
  // ---------------------------------------------------------------------------

  /** `isMultiLevelArray`: every value of the array is itself an array. */
  predicate MultiLevel(es: seq<Pair>) {
    forall i :: 0 <= i < |es| ==> es[i].val.Arr?
  }

  /** Whether an attribute key names a relation method of the class. */
  predicate IsRelationKey(info: ClassInfo, k: Key) {
    k.StrKey? && k.s in info.relations
  }

  /**
   * The items a relation attribute is hydrated from: a null or a
   * single-level array stands for one model, a multi-level array for one
   * model per element; any other value is refused by `isMultiLevelArray`.
   */
  function RelationItems(v: Value): (r: Result<seq<Pair>>)
    ensures r.Success? ==> SizeOfEntries(r.value) <= Size(v)
    ensures r.Failure? <==> !v.Null? && !v.Arr?
  {
    if v.Null? then
      SizeOfSingle(Pair(IntKey(0), v));
      assert List([v]) == [Pair(IntKey(0), v)];
      Success(List([v]))
    else if !v.Arr? then
      Failure(TypeError("isMultiLevelArray(): Argument #1 ($array) must be of type array"))
    else if MultiLevel(v.entries) then
      Success(v.entries)
    else
      SizeOfSingle(Pair(IntKey(0), v));
      assert List([v]) == [Pair(IntKey(0), v)];
      Success(List([v]))
  }

  lemma SizeOfSingle(p: Pair)
    ensures SizeOfEntries([p]) == Size(p.val)
  {
    var ns := seq(|[p]|, i requires 0 <= i < |[p]| => Size([p][i].val));
    assert |ns| == 1 && ns[0] == Size(p.val);
    assert Sum(ns) == ns[0] + Sum(ns[1..]);
    assert |ns[1..]| == 0;
  }

  /** `$item ?: []` passed where an array is required. */
  function ItemAttributes(item: Value): (r: Result<seq<Pair>>)
    ensures r.Success? ==> SizeOfEntries(r.value) < Size(item)
    ensures r.Failure? <==> Truthy(item) && !item.Arr?
  {
    if !Truthy(item) then Success([])
    else if item.Arr? then Success(item.entries)
    else Failure(TypeError("newFromBuilderRecursive(): Argument #2 ($attributes) must be of type array"))
  }

  /**
   * A model of class `cls` with raw attributes `attrs`, its relations
   * loaded and its pivot taken from its parent relation `parent`.
   */
  function Build(reg: Registry, cls: string, attrs: seq<Pair>, parent: Option<RelationDecl>): Result<Instance>
    requires cls in reg
    decreases SizeOfEntries(attrs), 3, 0
  {
    var loaded :- LoadRelationsFrom(reg, reg[cls], attrs, 0);
    var pivoted :- LoadPivot(loaded.0, parent);
    Success(Instance(cls, reg[cls].table, pivoted.0, loaded.1, pivoted.1, Null))
  }

  /**
   * The attributes from index `j` on that stay attributes, and the relations
   * hydrated from the others, in attribute order.
   */
  function LoadRelationsFrom(reg: Registry, info: ClassInfo, attrs: seq<Pair>, j: nat): Result<(seq<Pair>, seq<Loaded>)>
    requires j <= |attrs|
    decreases SizeOfEntries(attrs), 2, |attrs| - j
  {
    if j == |attrs| then Success(([], []))
    else
      var p := attrs[j];
      if IsRelationKey(info, p.key) then
        var decl := info.relations[p.key.s];
        if decl.target !in reg then Failure(ClassNotFound(decl.target))
        else
          SizeOfValue(attrs, j);
          var models :- RelationModels(reg, decl, p.val);
          var rest :- LoadRelationsFrom(reg, info, attrs, j + 1);
          Success((rest.0, [Loaded(p.key.s, models)] + rest.1))
      else
        var rest :- LoadRelationsFrom(reg, info, attrs, j + 1);
        Success(([p] + rest.0, rest.1))
  }

  /** The models a relation attribute's value is hydrated into. */
  function RelationModels(reg: Registry, decl: RelationDecl, v: Value): Result<seq<Instance>>
    requires decl.target in reg
    decreases Size(v), 1, 0
  {
    var items :- RelationItems(v);
    HydrateItems(reg, decl, items)
  }

  /** `hydrateRecursive`: one model of the relation's class per item, in order. */
  function HydrateItems(reg: Registry, decl: RelationDecl, items: seq<Pair>): Result<seq<Instance>>
    requires decl.target in reg
    decreases SizeOfEntries(items), 0, |items|
  {
    if |items| == 0 then Success([])
    else
      var attrs :- ItemAttributes(items[0].val);
      SizeOfEntriesCons(items);
      var first :- Build(reg, decl.target, attrs, Some(decl));
      var rest :- HydrateItems(reg, decl, items[1..]);
      Success([first] + rest)
  }

  /**
   * `loadPivotAttribute`: a `pivot` attribute leaves the attributes and
   * becomes the pivot the parent relation builds from it. Without a parent
   * relation the call is on null; a relation that is not many-to-many has no
   * `newExistingPivot`.
   */
  function LoadPivot(attrs: seq<Pair>, parent: Option<RelationDecl>): Result<(seq<Pair>, Option<seq<Pair>>)> {
    match Lookup(attrs, StrKey("pivot"))
    case None => Success((attrs, None))
    case Some(v) =>
      if parent.None? then Failure(CallOnNull("newExistingPivot"))
      else if !parent.value.pivots then Failure(UndefinedMethod("newExistingPivot"))
      else if !v.Arr? then Failure(TypeError("newExistingPivot(): Argument #1 ($attributes) must be of type array"))
      else Success((Unset(attrs, StrKey("pivot")), Some(v.entries)))
  }

  lemma SizeOfValue(attrs: seq<Pair>, j: nat)
    requires j < |attrs|
    ensures Size(attrs[j].val) <= SizeOfEntries(attrs)
  {
    SizeOfEntry(attrs, j);
  }

  /**
   * `newFromHitBuilder`: a hit whose document has no (or a falsy)
   * `huntable_type` gives null; otherwise the model of that class, with
   * `result_type` set to the lower-cased short class name and the hit's
   * score as its `documentScore`.
   */
  function FromHit(reg: Registry, hit: Value): Result<Option<Instance>> {
    if !hit.Arr? then Failure(TypeError("Cannot use a hit that is not an array"))
    else
      match Lookup(hit.entries, StrKey("_source"))
      case None => Failure(TypeError("array_key_exists(): Argument #2 ($array) must be of type array"))
      case Some(source) =>
        if !source.Arr? then Failure(TypeError("array_key_exists(): Argument #2 ($array) must be of type array"))
        else
          var model := Lookup(source.entries, StrKey("huntable_type"));
          if model.None? || !Truthy(model.value) then Success(None)
          else if !model.value.Str? then Failure(TypeError("Class name must be a valid object or a string"))
          else
            var instance :- BuildFromType(reg, model.value.s, source.entries);
            match Lookup(hit.entries, StrKey("_score"))
            case None => Failure(UndefinedIndex("_score"))
            case Some(score) => Success(Some(instance.(documentScore := score)))
  }

  /** The document's fields without `huntable_type`, with `result_type` set. */
  function HitAttributes(source: seq<Pair>, name: string): seq<Pair> {
    Set(Unset(source, StrKey("huntable_type")), StrKey("result_type"), Str(ResultType(name)))
  }

  /** `newFromBuilderRecursive(new $model, $attributes)` for the class the document names. */
  function BuildFromType(reg: Registry, name: string, source: seq<Pair>): Result<Instance> {
    if ClassName(name) !in reg then Failure(ClassNotFound(ClassName(name)))
    else Build(reg, ClassName(name), HitAttributes(source, name), None)
  }

  /** `$result['hits']['hits']`, the hits `array_map` runs over. */
  function Hits(response: Value): Result<seq<Pair>> {
    if !response.Arr? then Failure(TypeError("hydrateResults(): Argument #1 ($result) must be of type array"))
    else
      match Lookup(response.entries, StrKey("hits"))
      case None => Failure(UndefinedIndex("hits"))
      case Some(outer) =>
        if !outer.Arr? then Failure(TypeError("Trying to access array offset on a value that is not an array"))
        else
          match Lookup(outer.entries, StrKey("hits"))
          case None => Failure(UndefinedIndex("hits"))
          case Some(hits) =>
            if hits.Arr? then Success(hits.entries)
            else Failure(TypeError("array_map(): Argument #2 ($array) must be of type array"))
  }

  lemma HitsWellFormed(response: Value)
    requires WellFormed(response) && Hits(response).Success?
    ensures WellFormed(Arr(Hits(response).value))
  {
    WellFormedLookup(response.entries, StrKey("hits"));
    var outer := Lookup(response.entries, StrKey("hits")).value;
    WellFormedLookup(outer.entries, StrKey("hits"));
  }

  function HitModels(reg: Registry, hits: seq<Pair>): Result<seq<Option<Instance>>> {
    if |hits| == 0 then Success([])
    else
      var first :- FromHit(reg, hits[0].val);
      var rest :- HitModels(reg, hits[1..]);
      Success([first] + rest)
  }

  /** `hydrateResults`: one entry per hit, in order, null for a hit without a type. */
  function HydrateResultsSpec(reg: Registry, response: Value): Result<seq<Option<Instance>>> {
    var hits :- Hits(response);
    HitModels(reg, hits)
  }

  // ---------------------------------------------------------------------------
  // What the hydration promises
  // ---------------------------------------------------------------------------

  /** The attributes that stay attributes: every entry not named after a relation. */
  function Kept(info: ClassInfo, es: seq<Pair>): (r: seq<Pair>)
    ensures |r| <= |es|
  {
    if |es| == 0 then []
    else (if IsRelationKey(info, es[0].key) then [] else [es[0]]) + Kept(info, es[1..])
  }

  lemma {:induction false} KeptMembers(info: ClassInfo, es: seq<Pair>, p: Pair)
    requires p in Kept(info, es)
    ensures p in es && !IsRelationKey(info, p.key)
  {
    if |es| > 0 && p in Kept(info, es[1..]) {
      KeptMembers(info, es[1..], p);
    }
  }

  lemma {:induction false} KeptConcat(info: ClassInfo, a: seq<Pair>, b: seq<Pair>)
    ensures Kept(info, a + b) == Kept(info, a) + Kept(info, b)
  {
    if |a| > 0 {
      KeptConcat(info, a[1..], b);
      assert (a + b)[0] == a[0] && (a + b)[1..] == a[1..] + b;
    } else {
      assert a + b == b;
    }
  }

  lemma {:induction false} KeptDistinct(info: ClassInfo, es: seq<Pair>)
    requires Distinct(es)
    ensures Distinct(Kept(info, es))
  {
    if |es| > 0 {
      var rest := es[1..];
      assert Distinct(rest) by {
        forall a, b | 0 <= a < b < |rest| ensures rest[a].key != rest[b].key {
          assert rest[a] == es[a + 1] && rest[b] == es[b + 1];
        }
      }
      KeptDistinct(info, rest);
      if !IsRelationKey(info, es[0].key) {
        forall q | q in Kept(info, rest) ensures q.key != es[0].key {
          KeptMembers(info, rest, q);
          var m :| 0 <= m < |rest| && rest[m] == q;
          assert es[m + 1] == q;
        }
        DistinctCons(es[0], Kept(info, rest));
      }
    }
  }

  /** A key of the kept attributes maps to what it mapped to, unless it names a relation. */
  lemma {:induction false} LookupKept(info: ClassInfo, es: seq<Pair>, k: Key)
    ensures Lookup(Kept(info, es), k) == if IsRelationKey(info, k) then None else Lookup(es, k)
  {
    if |es| > 0 {
      var rest := Kept(info, es[1..]);
      LookupKept(info, es[1..], k);
      if IsRelationKey(info, es[0].key) {
        assert Kept(info, es) == rest;
      } else {
        var r := [es[0]] + rest;
        assert Kept(info, es) == r;
        assert r[0] == es[0] && r[1..] == rest;
        if es[0].key == k {
          assert Lookup(r, k) == Some(es[0].val);
        } else {
          assert Lookup(r, k) == Lookup(rest, k);
        }
      }
    }
  }

  /** Relation loading keeps exactly the non-relation attributes, in order. */
  lemma {:induction false} LoadRelationsKeeps(reg: Registry, info: ClassInfo, attrs: seq<Pair>, j: nat)
    requires j <= |attrs| && LoadRelationsFrom(reg, info, attrs, j).Success?
    ensures LoadRelationsFrom(reg, info, attrs, j).value.0 == Kept(info, attrs[j..])
    decreases |attrs| - j
  {
    if j < |attrs| {
      LoadRelationsKeeps(reg, info, attrs, j + 1);
      assert attrs[j..][0] == attrs[j] && attrs[j..][1..] == attrs[j + 1..];
    } else {
      assert attrs[j..] == [];
    }
  }

  /** Each relation gets one model per item of its attribute. */
  lemma {:induction false} HydrateItemsLength(reg: Registry, decl: RelationDecl, items: seq<Pair>)
    requires decl.target in reg && HydrateItems(reg, decl, items).Success?
    ensures |HydrateItems(reg, decl, items).value| == |items|
    ensures forall i :: 0 <= i < |items| ==>
      HydrateItems(reg, decl, items).value[i].cls == decl.target &&
      HydrateItems(reg, decl, items).value[i].documentScore == Null
    decreases |items|
  {
    if |items| > 0 {
      HydrateItemsLength(reg, decl, items[1..]);
    }
  }

  /** A null relation value or a single-level array is one model; a multi-level array is one model per element. */
  lemma RelationItemsCount(v: Value)
    requires RelationItems(v).Success?
    ensures v.Null? ==> |RelationItems(v).value| == 1
    ensures v.Arr? && MultiLevel(v.entries) ==> |RelationItems(v).value| == |v.entries|
    ensures v.Arr? && !MultiLevel(v.entries) ==> RelationItems(v).value == [Pair(IntKey(0), v)]
  {
  }

  /**
   * A rebuilt model keeps every raw attribute that neither names one of its
   * relations nor is `pivot`; those are gone from its attributes, and it has
   * a pivot exactly when a `pivot` attribute was kept.
   */
  lemma BuildAttributes(reg: Registry, cls: string, attrs: seq<Pair>, parent: Option<RelationDecl>, k: Key)
    requires cls in reg && Build(reg, cls, attrs, parent).Success?
    ensures var inst := Build(reg, cls, attrs, parent).value;
      Lookup(inst.attributes, k) ==
        if IsRelationKey(reg[cls], k) || k == StrKey("pivot") then None else Lookup(attrs, k)
    ensures var inst := Build(reg, cls, attrs, parent).value;
      inst.pivot.Some? <==> HasKey(Kept(reg[cls], attrs), StrKey("pivot"))
    ensures var inst := Build(reg, cls, attrs, parent).value;
      inst.cls == cls && inst.table == reg[cls].table && inst.documentScore == Null
  {
    LoadRelationsKeeps(reg, reg[cls], attrs, 0);
    assert attrs[0..] == attrs;
    var kept := Kept(reg[cls], attrs);
    LookupKept(reg[cls], attrs, k);
    LookupUnset(kept, StrKey("pivot"), k);
  }

  /** A hit whose document carries no usable `huntable_type` is skipped as null. */
  lemma UntypedHitSkipped(reg: Registry, hit: Value)
    requires hit.Arr? && HasKey(hit.entries, StrKey("_source"))
    requires var source := Lookup(hit.entries, StrKey("_source")).value;
      source.Arr? && !(HasKey(source.entries, StrKey("huntable_type")) &&
                       Truthy(Lookup(source.entries, StrKey("huntable_type")).value))
    ensures FromHit(reg, hit) == Success(None)
  {
  }

  /** Lower-casing brings in no `/`. */
  lemma LowerHasNoSlash(name: string)
    requires '/' !in name
    ensures '/' !in ToLower(name)
  {
    forall i | 0 <= i < |name| ensures ToLower(name)[i] != '/' {
      assert name[i] in name;
    }
  }

  /**
   * `result_type` is the last namespace segment of the class name, lower-cased:
   * the part after the last backslash.
   */
  lemma ResultTypeIsShortName(name: string)
    requires '/' !in name
    requires |name| > 0 && name[|name| - 1] != '\\'
    ensures ResultType(name) == AfterLast('\\', ToLower(name))
    ensures var parts := Explode('\\', ToLower(name)); ResultType(name) == parts[|parts| - 1]
  {
    var lower := ToLower(name);
    LowerHasNoSlash(name);
    var replaced := ReplaceChar(lower, '\\', '/');
    assert replaced[|replaced| - 1] != '/';
    assert TrimTrailing('/', replaced) == replaced;
    AfterLastReplaced(lower, '\\', '/');
    AfterLastIsLastPiece('\\', lower);
  }

  /**
   * The model built for a document's type is of that class, no longer
   * carries `huntable_type`, and has the short class name as `result_type`
   * unless that attribute names a relation.
   */
  lemma BuildFromTypeFacts(reg: Registry, name: string, source: seq<Pair>)
    requires BuildFromType(reg, name, source).Success?
    ensures var inst := BuildFromType(reg, name, source).value;
      inst.cls == ClassName(name) && inst.documentScore == Null &&
      !HasKey(inst.attributes, StrKey("huntable_type")) &&
      (!IsRelationKey(reg[ClassName(name)], StrKey("result_type")) ==>
        Lookup(inst.attributes, StrKey("result_type")) == Some(Str(ResultType(name))))
  {
    var stripped := Unset(source, StrKey("huntable_type"));
    var attrs := HitAttributes(source, name);
    var cls := ClassName(name);
    assert |"result_type"| == 11 && |"huntable_type"| == 13 && |"pivot"| == 5;
    BuildAttributes(reg, cls, attrs, None, StrKey("huntable_type"));
    BuildAttributes(reg, cls, attrs, None, StrKey("result_type"));
    LookupSet(stripped, StrKey("result_type"), Str(ResultType(name)), StrKey("huntable_type"));
    LookupSet(stripped, StrKey("result_type"), Str(ResultType(name)), StrKey("result_type"));
    LookupUnset(source, StrKey("huntable_type"), StrKey("huntable_type"));
  }

  /**
   * A typed hit becomes a model of its class whose score is the hit's, which
   * no longer carries `huntable_type`, and whose `result_type` is the short
   * class name unless that attribute names a relation.
   */
  lemma TypedHitModel(reg: Registry, hit: Value)
    requires FromHit(reg, hit).Success? && FromHit(reg, hit).value.Some?
    ensures var inst := FromHit(reg, hit).value.value;
      var source := Lookup(hit.entries, StrKey("_source")).value;
      var name := Lookup(source.entries, StrKey("huntable_type")).value.s;
      inst.cls == ClassName(name) &&
      inst.documentScore == Lookup(hit.entries, StrKey("_score")).value &&
      !HasKey(inst.attributes, StrKey("huntable_type")) &&
      (!IsRelationKey(reg[ClassName(name)], StrKey("result_type")) ==>
        Lookup(inst.attributes, StrKey("result_type")) == Some(Str(ResultType(name))))
  {
    var source := Lookup(hit.entries, StrKey("_source")).value;
    var name := Lookup(source.entries, StrKey("huntable_type")).value.s;
    BuildFromTypeFacts(reg, name, source.entries);
  }

  /** One result per hit, in order. */
  lemma {:induction false} HitModelsLength(reg: Registry, hits: seq<Pair>)
    requires HitModels(reg, hits).Success?
    ensures |HitModels(reg, hits).value| == |hits|
    ensures forall i :: 0 <= i < |hits| ==> Success(HitModels(reg, hits).value[i]) == FromHit(reg, hits[i].val)
  {
    if |hits| > 0 {
      var first := FromHit(reg, hits[0].val).value;
      var rest := HitModels(reg, hits[1..]).value;
      assert HitModels(reg, hits).value == [first] + rest;
      HitModelsLength(reg, hits[1..]);
      forall i | 0 < i < |hits| ensures Success(HitModels(reg, hits).value[i]) == FromHit(reg, hits[i].val) {
        assert hits[1..][i - 1] == hits[i];
        assert HitModels(reg, hits).value[i] == rest[i - 1];
      }
    }
  }

  // ---------------------------------------------------------------------------
  // The hydration, as the source does it
  // ---------------------------------------------------------------------------

  /** `isMultiLevelArray`. */
  method IsMultiLevelArray(es: seq<Pair>) returns (r: bool)
    ensures r <==> MultiLevel(es)
  {
    for i := 0 to |es|
      invariant forall m :: 0 <= m < i ==> es[m].val.Arr?
    {
      if !es[i].val.Arr? {
        return false;
      }
    }
    return true;
  }

  /** `newFromBuilderRecursive`. */
  method NewFromBuilderRecursive(reg: Registry, cls: string, attrs: seq<Pair>, parent: Option<RelationDecl>)
    returns (r: Result<Instance>)
    requires cls in reg && WellFormed(Arr(attrs))
    ensures r == Build(reg, cls, attrs, parent)
    decreases SizeOfEntries(attrs), 3, 0
  {
    var loaded :- LoadRelationsAttributesRecursive(reg, reg[cls], attrs);
    LoadRelationsKeeps(reg, reg[cls], attrs, 0);
    assert attrs[0..] == attrs;
    KeptDistinct(reg[cls], attrs);
    var pivoted :- LoadPivotAttribute(loaded.0, parent);
    r := Success(Instance(cls, reg[cls].table, pivoted.0, loaded.1, pivoted.1, Null));
  }

  /** The outcome of the rest of the loop, behind what the loop has done so far. */
  function AfterLoaded(kept: seq<Pair>, loaded: seq<Loaded>, rest: Result<(seq<Pair>, seq<Loaded>)>): Result<(seq<Pair>, seq<Loaded>)> {
    match rest
    case Failure(e) => Failure(e)
    case Success(r) => Success((kept + r.0, loaded + r.1))
  }

  lemma AfterNothingLoaded(rest: Result<(seq<Pair>, seq<Loaded>)>)
    ensures AfterLoaded([], [], rest) == rest
  {
    if rest.Success? {
      assert [] + rest.value.0 == rest.value.0 && [] + rest.value.1 == rest.value.1;
    }
  }

  lemma AfterLoadedMore(kept: seq<Pair>, loaded: seq<Loaded>, kept': seq<Pair>, loaded': seq<Loaded>,
                        rest: Result<(seq<Pair>, seq<Loaded>)>)
    ensures AfterLoaded(kept, loaded, AfterLoaded(kept', loaded', rest)) ==
      AfterLoaded(kept + kept', loaded + loaded', rest)
  {
    if rest.Success? {
      assert kept + (kept' + rest.value.0) == (kept + kept') + rest.value.0;
      assert loaded + (loaded' + rest.value.1) == (loaded + loaded') + rest.value.1;
    }
  }

  lemma AfterAllLoaded(kept: seq<Pair>, loaded: seq<Loaded>)
    ensures AfterLoaded(kept, loaded, Success(([], []))) == Success((kept, loaded))
  {
    assert kept + [] == kept && loaded + [] == loaded;
  }

  /** Unsetting the key of the entry at the seam drops just that entry. */
  lemma UnsetAtSeam(kept: seq<Pair>, p: Pair, rest: seq<Pair>)
    requires forall q :: q in kept ==> q.key != p.key
    requires forall q :: q in rest ==> q.key != p.key
    ensures Unset(kept + ([p] + rest), p.key) == kept + rest
  {
    UnsetConcat(kept, [p] + rest, p.key);
    UnsetAbsent(kept, p.key);
    UnsetAbsent(rest, p.key);
  }

  /** Kept attributes grow by one entry at a time. */
  lemma KeptSnoc(info: ClassInfo, attrs: seq<Pair>, j: nat)
    requires j < |attrs|
    ensures Kept(info, attrs[..j + 1]) ==
      Kept(info, attrs[..j]) + if IsRelationKey(info, attrs[j].key) then [] else [attrs[j]]
  {
    var p := attrs[j];
    assert attrs[..j + 1] == attrs[..j] + [p];
    KeptConcat(info, attrs[..j], [p]);
    assert [p][1..] == [];
  }

  /**
   * Unsetting an attribute that names a relation from the model's
   * attributes drops just that attribute: its key occurs nowhere else.
   */
  lemma UnsetRelationAttribute(info: ClassInfo, attrs: seq<Pair>, j: nat)
    requires Distinct(attrs) && j < |attrs| && IsRelationKey(info, attrs[j].key)
    ensures Unset(Kept(info, attrs[..j]) + attrs[j..], attrs[j].key) == Kept(info, attrs[..j + 1]) + attrs[j + 1..]
  {
    var p := attrs[j];
    KeptSnoc(info, attrs, j);
    assert attrs[j..] == [p] + attrs[j + 1..];
    forall q | q in Kept(info, attrs[..j]) ensures q.key != p.key {
      KeptMembers(info, attrs[..j], q);
      var m :| 0 <= m < |attrs[..j]| && attrs[..j][m] == q;
      assert attrs[m] == q;
    }
    forall q | q in attrs[j + 1..] ensures q.key != p.key {
      var m :| 0 <= m < |attrs[j + 1..]| && attrs[j + 1..][m] == q;
      assert attrs[j + 1 + m] == q;
    }
    UnsetAtSeam(Kept(info, attrs[..j]), p, attrs[j + 1..]);
    assert Kept(info, attrs[..j]) + [] == Kept(info, attrs[..j]);
  }

  /** Any other attribute stays where it is. */
  lemma KeepAttribute(info: ClassInfo, attrs: seq<Pair>, j: nat)
    requires j < |attrs| && !IsRelationKey(info, attrs[j].key)
    ensures Kept(info, attrs[..j]) + attrs[j..] == Kept(info, attrs[..j + 1]) + attrs[j + 1..]
  {
    var p := attrs[j];
    KeptSnoc(info, attrs, j);
    assert attrs[j..] == [p] + attrs[j + 1..];
    assert (Kept(info, attrs[..j]) + [p]) + attrs[j + 1..] == Kept(info, attrs[..j]) + ([p] + attrs[j + 1..]);
  }

  /** The items of a well-formed relation value are well-formed. */
  lemma RelationItemsWellFormed(v: Value)
    requires WellFormed(v) && RelationItems(v).Success?
    ensures RelationItems(v) == Success(if v.Arr? && MultiLevel(v.entries) then v.entries else List([v]))
    ensures forall i :: 0 <= i < |RelationItems(v).value| ==> WellFormed(RelationItems(v).value[i].val)
  {
  }

  /** An attribute that names no relation is passed over. */
  lemma AttributeStep(reg: Registry, info: ClassInfo, attrs: seq<Pair>, j: nat)
    requires j < |attrs| && !IsRelationKey(info, attrs[j].key)
    ensures LoadRelationsFrom(reg, info, attrs, j) ==
      AfterLoaded([attrs[j]], [], LoadRelationsFrom(reg, info, attrs, j + 1))
  {
    var rest := LoadRelationsFrom(reg, info, attrs, j + 1);
    if rest.Success? {
      assert [] + rest.value.1 == rest.value.1;
    }
  }

  /** An attribute that names a relation becomes that relation, with the models hydrated from it. */
  lemma RelationStep(reg: Registry, info: ClassInfo, attrs: seq<Pair>, j: nat, models: seq<Instance>)
    requires j < |attrs| && IsRelationKey(info, attrs[j].key)
    requires info.relations[attrs[j].key.s].target in reg
    requires RelationModels(reg, info.relations[attrs[j].key.s], attrs[j].val) == Success(models)
    ensures LoadRelationsFrom(reg, info, attrs, j) ==
      AfterLoaded([], [Loaded(attrs[j].key.s, models)], LoadRelationsFrom(reg, info, attrs, j + 1))
  {
    var rest := LoadRelationsFrom(reg, info, attrs, j + 1);
    if rest.Success? {
      assert [] + rest.value.0 == rest.value.0;
    }
  }

  /** What the loop has returned so far, after the `j`-th attribute is handled. */
  lemma LoadedStep(reg: Registry, info: ClassInfo, attrs: seq<Pair>, j: nat, loaded: seq<Loaded>, more: seq<Loaded>)
    requires j < |attrs|
    requires LoadRelationsFrom(reg, info, attrs, 0) ==
      AfterLoaded(Kept(info, attrs[..j]), loaded, LoadRelationsFrom(reg, info, attrs, j))
    requires LoadRelationsFrom(reg, info, attrs, j) ==
      AfterLoaded(if IsRelationKey(info, attrs[j].key) then [] else [attrs[j]], more, LoadRelationsFrom(reg, info, attrs, j + 1))
    ensures LoadRelationsFrom(reg, info, attrs, 0) ==
      AfterLoaded(Kept(info, attrs[..j + 1]), loaded + more, LoadRelationsFrom(reg, info, attrs, j + 1))
    ensures more == [] ==> (LoadRelationsFrom(reg, info, attrs, 0) ==
      AfterLoaded(Kept(info, attrs[..j + 1]), loaded, LoadRelationsFrom(reg, info, attrs, j + 1)))
  {
    assert more == [] ==> loaded + more == loaded;
    KeptSnoc(info, attrs, j);
    AfterLoadedMore(Kept(info, attrs[..j]), loaded, if IsRelationKey(info, attrs[j].key) then [] else [attrs[j]], more,
      LoadRelationsFrom(reg, info, attrs, j + 1));
  }

  /**
   * `loadRelationsAttributesRecursive`: walks the raw attributes; each one
   * named after a relation is hydrated into that relation and unset from the
   * model's attributes.
   */
  method LoadRelationsAttributesRecursive(reg: Registry, info: ClassInfo, attrs: seq<Pair>)
    returns (r: Result<(seq<Pair>, seq<Loaded>)>)
    requires Distinct(attrs) && forall i :: 0 <= i < |attrs| ==> WellFormed(attrs[i].val)
    ensures r == LoadRelationsFrom(reg, info, attrs, 0)
    decreases SizeOfEntries(attrs), 2, |attrs|
  {
    var current := attrs;
    var loaded: seq<Loaded> := [];
    var j := 0;
    assert attrs[..0] == [] && attrs[0..] == attrs;
    AfterNothingLoaded(LoadRelationsFrom(reg, info, attrs, 0));
    while j < |attrs|
      invariant 0 <= j <= |attrs|
      invariant current == Kept(info, attrs[..j]) + attrs[j..]
      invariant LoadRelationsFrom(reg, info, attrs, 0) ==
        AfterLoaded(Kept(info, attrs[..j]), loaded, LoadRelationsFrom(reg, info, attrs, j))
    {
      var key := attrs[j].key;
      var value := attrs[j].val;
      if IsRelationKey(info, key) {
        var decl := info.relations[key.s];
        if decl.target !in reg {
          return Failure(ClassNotFound(decl.target));
        }
        SizeOfValue(attrs, j);
        var models :- HydrateRelation(reg, decl, value);
        RelationStep(reg, info, attrs, j, models);
        LoadedStep(reg, info, attrs, j, loaded, [Loaded(key.s, models)]);
        UnsetRelationAttribute(info, attrs, j);
        current := Unset(current, key);
        loaded := loaded + [Loaded(key.s, models)];
      } else {
        KeepAttribute(info, attrs, j);
        AttributeStep(reg, info, attrs, j);
        LoadedStep(reg, info, attrs, j, loaded, []);
      }
      j := j + 1;
    }
    assert attrs[..j] == attrs && attrs[j..] == [];
    AfterAllLoaded(current, loaded);
    assert current + [] == current;
    r := Success((current, loaded));
  }

  /**
   * The relation branch of `loadRelationsAttributesRecursive`: a null or
   * single-level value is wrapped into a one-item list, then
   * `hydrateRecursive` builds one model per item.
   */
  method HydrateRelation(reg: Registry, decl: RelationDecl, value: Value) returns (r: Result<seq<Instance>>)
    requires decl.target in reg && WellFormed(value)
    ensures r == RelationModels(reg, decl, value)
    decreases Size(value), 1, 0
  {
    if !value.Null? && !value.Arr? {
      return Failure(TypeError("isMultiLevelArray(): Argument #1 ($array) must be of type array"));
    }
    var multi := false;
    if !value.Null? {
      multi := IsMultiLevelArray(value.entries);
    }
    var items := if multi then value.entries else List([value]);
    RelationItemsWellFormed(value);
    r := HydrateRecursive(reg, decl, items);
  }

  /** `loadPivotAttribute`: looks for the `pivot` attribute among the model's attributes. */
  method LoadPivotAttribute(attrs: seq<Pair>, parent: Option<RelationDecl>)
    returns (r: Result<(seq<Pair>, Option<seq<Pair>>)>)
    requires Distinct(attrs)
    ensures r == LoadPivot(attrs, parent)
  {
    var current := attrs;
    var pivot: Option<seq<Pair>> := None;
    for i := 0 to |attrs|
      invariant forall m :: 0 <= m < i ==> attrs[m].key != StrKey("pivot")
      invariant current == attrs && pivot == None
    {
      if attrs[i].key == StrKey("pivot") {
        LookupAt(attrs, i);
        current := Unset(current, attrs[i].key);
        if parent.None? {
          return Failure(CallOnNull("newExistingPivot"));
        }
        if !parent.value.pivots {
          return Failure(UndefinedMethod("newExistingPivot"));
        }
        if !attrs[i].val.Arr? {
          return Failure(TypeError("newExistingPivot(): Argument #1 ($attributes) must be of type array"));
        }
        pivot := Some(attrs[i].val.entries);
        // the key is unique, so no later entry is the pivot
        return Success((current, pivot));
      }
    }
    r := Success((current, pivot));
  }

  /** The outcome of the rest of `array_map`, behind the models built so far. */
  function AfterModels<T>(done: seq<T>, rest: Result<seq<T>>): Result<seq<T>> {
    match rest
    case Failure(e) => Failure(e)
    case Success(ms) => Success(done + ms)
  }

  lemma AfterNoModels<T>(rest: Result<seq<T>>)
    ensures AfterModels([], rest) == rest
  {
    if rest.Success? {
      assert [] + rest.value == rest.value;
    }
  }

  lemma AfterOneMore<T>(done: seq<T>, m: T, rest: Result<seq<T>>)
    ensures AfterModels(done, AfterModels([m], rest)) == AfterModels(done + [m], rest)
  {
    if rest.Success? {
      assert done + ([m] + rest.value) == (done + [m]) + rest.value;
    }
  }

  lemma AfterAllModels<T>(done: seq<T>)
    ensures AfterModels(done, Success([])) == Success(done)
  {
    assert done + [] == done;
  }

  /** `hydrateRecursive`: the `array_map` over the items of one relation. */
  lemma HydrateItemsStep(reg: Registry, decl: RelationDecl, items: seq<Pair>, j: nat, m: Instance)
    requires decl.target in reg && j < |items| && ItemAttributes(items[j].val).Success?
    requires Build(reg, decl.target, ItemAttributes(items[j].val).value, Some(decl)) == Success(m)
    ensures HydrateItems(reg, decl, items[j..]) == AfterModels([m], HydrateItems(reg, decl, items[j + 1..]))
  {
    assert items[j..][0] == items[j] && items[j..][1..] == items[j + 1..];
  }

  method HydrateRecursive(reg: Registry, decl: RelationDecl, items: seq<Pair>) returns (r: Result<seq<Instance>>)
    requires decl.target in reg
    requires forall i :: 0 <= i < |items| ==> WellFormed(items[i].val)
    ensures r == HydrateItems(reg, decl, items)
    decreases SizeOfEntries(items), 0, |items|
  {
    var models: seq<Instance> := [];
    var j := 0;
    assert items[0..] == items;
    AfterNoModels(HydrateItems(reg, decl, items));
    while j < |items|
      invariant 0 <= j <= |items|
      invariant HydrateItems(reg, decl, items) == AfterModels(models, HydrateItems(reg, decl, items[j..]))
    {
      assert items[j..][0] == items[j] && items[j..][1..] == items[j + 1..];
      var attrs :- ItemAttributes(items[j].val);
      SizeOfValue(items, j);
      var m :- NewFromBuilderRecursive(reg, decl.target, attrs, Some(decl));
      HydrateItemsStep(reg, decl, items, j, m);
      AfterOneMore(models, m, HydrateItems(reg, decl, items[j + 1..]));
      models := models + [m];
      j := j + 1;
    }
    assert items[j..] == [];
    AfterAllModels(models);
    r := Success(models);
  }

  /** The steps of `newFromHitBuilder` once the document's type is a class name. */
  lemma FromHitSteps(reg: Registry, hit: Value, source: seq<Pair>, name: string)
    requires hit.Arr? && Lookup(hit.entries, StrKey("_source")) == Some(Arr(source))
    requires Lookup(source, StrKey("huntable_type")) == Some(Str(name)) && Truthy(Str(name))
    ensures FromHit(reg, hit) ==
      if ClassName(name) !in reg then Failure(ClassNotFound(ClassName(name)))
      else match Build(reg, ClassName(name), HitAttributes(source, name), None)
        case Failure(e) => Failure(e)
        case Success(instance) =>
          match Lookup(hit.entries, StrKey("_score"))
          case None => Failure(UndefinedIndex("_score"))
          case Some(score) => Success(Some(instance.(documentScore := score)))
  {
  }

  /** `newFromHitBuilder`. */
  method NewFromHitBuilder(reg: Registry, hit: Value) returns (r: Result<Option<Instance>>)
    requires WellFormed(hit)
    ensures r == FromHit(reg, hit)
  {
    if !hit.Arr? {
      return Failure(TypeError("Cannot use a hit that is not an array"));
    }
    // a missing `_source` is created as null by the by-reference `Arr::pull`
    var source := Lookup(hit.entries, StrKey("_source"));
    if source.None? || !source.value.Arr? {
      return Failure(TypeError("array_key_exists(): Argument #2 ($array) must be of type array"));
    }
    WellFormedLookup(hit.entries, StrKey("_source"));
    // Arr::pull($hit['_source'], 'huntable_type')
    var model := Lookup(source.value.entries, StrKey("huntable_type"));
    var attributes := Unset(source.value.entries, StrKey("huntable_type"));
    if model.None? || !Truthy(model.value) {
      return Success(None);
    }
    if !model.value.Str? {
      return Failure(TypeError("Class name must be a valid object or a string"));
    }
    attributes := Set(attributes, StrKey("result_type"), Str(ResultType(model.value.s)));
    HitAttributesWellFormed(source.value.entries, model.value.s);
    FromHitSteps(reg, hit, source.value.entries, model.value.s);
    var cls := ClassName(model.value.s);
    if cls !in reg {
      return Failure(ClassNotFound(cls));
    }
    var instance :- NewFromBuilderRecursive(reg, cls, attributes, None);
    var score := Lookup(hit.entries, StrKey("_score"));
    if score.None? {
      return Failure(UndefinedIndex("_score"));
    }
    r := Success(Some(instance.(documentScore := score.value)));
  }

  /** The attributes a well-formed document gives are well-formed. */
  lemma HitAttributesWellFormed(source: seq<Pair>, name: string)
    requires WellFormed(Arr(source))
    ensures WellFormed(Arr(HitAttributes(source, name)))
  {
    var stripped := Unset(source, StrKey("huntable_type"));
    var attributes := HitAttributes(source, name);
    UnsetDistinct(source, StrKey("huntable_type"));
    SetDistinct(stripped, StrKey("result_type"), Str(ResultType(name)));
    forall p | p in attributes ensures WellFormed(p.val) {
      if p in source {
        var m :| 0 <= m < |source| && source[m] == p;
      }
    }
    WellFormedFromMembers(attributes);
  }

  /** `hydrateResults`: `newFromHitBuilder` over every hit of the response. */
  lemma HitModelsStep(reg: Registry, hits: seq<Pair>, j: nat, item: Option<Instance>)
    requires j < |hits| && FromHit(reg, hits[j].val) == Success(item)
    ensures HitModels(reg, hits[j..]) == AfterModels([item], HitModels(reg, hits[j + 1..]))
  {
    assert hits[j..][0] == hits[j] && hits[j..][1..] == hits[j + 1..];
  }

  method HydrateResults(reg: Registry, response: Value) returns (r: Result<seq<Option<Instance>>>)
    requires WellFormed(response)
    ensures r == HydrateResultsSpec(reg, response)
  {
    var hits :- Hits(response);
    HitsWellFormed(response);
    var results: seq<Option<Instance>> := [];
    var j := 0;
    assert hits[0..] == hits;
    AfterNoModels(HitModels(reg, hits));
    while j < |hits|
      invariant 0 <= j <= |hits|
      invariant HitModels(reg, hits) == AfterModels(results, HitModels(reg, hits[j..]))
    {
      assert hits[j..][0] == hits[j] && hits[j..][1..] == hits[j + 1..];
      var item :- NewFromHitBuilder(reg, hits[j].val);
      HitModelsStep(reg, hits, j, item);
      AfterOneMore(results, item, HitModels(reg, hits[j + 1..]));
      results := results + [item];
      j := j + 1;
    }
    assert hits[j..] == [];
    AfterAllModels(results);
    r := Success(results);
  }
}
