/**
 * The search request the Hunter builds (src/Hunter.php): the basic
 * parameters (`getBasicParams`), the paging options `search` merges in, and
 * the query body with its locale and term filters (`getSearchParams`).
 */
module Query {
  import opened PhpString
  import opened Php
  import opened Documents

  /** `$this->config($key, $default)`. */
  function Config(config: seq<Pair>, key: string, default: Value): Value {
    ArrGet(Arr(config), key, default)
  }

  // ---------------------------------------------------------------------------
  // getBasicParams
  // ---------------------------------------------------------------------------

  /** `preg_replace('/\s+/', '', $subject)` on each element of an array subject, keeping keys. */
  function StripEach(es: seq<Pair>): (r: Result<seq<Pair>>)
    ensures r.Success? ==> |r.value| == |es|
    ensures r.Success? ==> forall i :: 0 <= i < |es| ==>
      r.value[i].key == es[i].key && r.value[i].val.Str? && NoWhitespace(r.value[i].val.s)
  {
    if |es| == 0 then Success([])
    else
      var s :- ToPhpString(es[0].val);
      var rest :- StripEach(es[1..]);
      Success([Pair(es[0].key, Str(StripWhitespace(s)))] + rest)
  }

  /** `preg_replace('/\s+/', '', $types)`: every whitespace run removed, from a string or each element of an array. */
  function StripTypes(types: Value): (r: Result<Value>)
    ensures types.Str? ==> r == Success(Str(StripWhitespace(types.s)))
    ensures r.Success? ==> r.value.Str? || r.value.Arr?
  {
    if types.Arr? then
      var es :- StripEach(types.entries);
      Success(Arr(es))
    else
      var s :- ToPhpString(types);
      Success(Str(StripWhitespace(s)))
  }

  /** The types to search: the `types` option, else the configured `types` (default `_all`); a model stands for its index type. */
  function TypesOption(config: seq<Pair>, options: seq<Pair>): Value {
    var types := ArrGet(Arr(options), "types", Config(config, "types", Str("_all")));
    if types.Obj? then GetModelIndexName(types.model) else types
  }

  /** `is_numeric($size) ? $size : 25`, with `size` defaulting to 25. */
  function SizeParam(options: seq<Pair>): Value {
    var size := ArrGet(Arr(options), "size", Int(25));
    if IsNumeric(size) then size else Int(25)
  }

  /** `is_numeric($from) ? $from : null`. */
  function FromParam(options: seq<Pair>): Value {
    var from := ArrGet(Arr(options), "from", Null);
    if IsNumeric(from) then from else Null
  }

  lemma SizeFromParams(options: seq<Pair>)
    ensures SizeParam(options) ==
      match Lookup(options, StrKey("size"))
      case None => Int(25)
      case Some(s) => if IsNumeric(s) then s else Int(25)
    ensures FromParam(options) ==
      match Lookup(options, StrKey("from"))
      case None => Null
      case Some(f) => if IsNumeric(f) then f else Null
  {
    KeyOfWord("size");
    KeyOfWord("from");
  }

  function BasicCandidates(config: seq<Pair>, options: seq<Pair>, typ: Value): seq<Pair> {
    [
      Pair(StrKey("index"), GetIndexName(config)),
      Pair(StrKey("type"), typ),
      Pair(StrKey("size"), SizeParam(options)),
      Pair(StrKey("from"), FromParam(options))
    ]
  }

  /** The four keys are distinct; none of them is `body`. */
  lemma BasicKeys(es: seq<Pair>)
    requires |es| == 4
    requires es[0].key == StrKey("index") && es[1].key == StrKey("type")
    requires es[2].key == StrKey("size") && es[3].key == StrKey("from")
    ensures Distinct(es) && !HasKey(es, StrKey("body"))
  {
    assert |"index"| == 5 && |"type"| == 4 && |"size"| == 4 && |"from"| == 4 && |"body"| == 4;
    assert "type"[0] != "size"[0] && "type"[0] != "from"[0] && "size"[0] != "from"[0];
    assert "body"[0] != "type"[0] && "body"[0] != "size"[0] && "body"[0] != "from"[0];
    assert Distinct(es);
    forall i | 0 <= i < 4 ensures es[i].key != StrKey("body") {
    }
  }

  lemma BasicCandidatesLookup(config: seq<Pair>, options: seq<Pair>, typ: Value)
    ensures Distinct(BasicCandidates(config, options, typ))
    ensures Lookup(BasicCandidates(config, options, typ), StrKey("index")) == Some(GetIndexName(config))
    ensures Lookup(BasicCandidates(config, options, typ), StrKey("type")) == Some(typ)
    ensures Lookup(BasicCandidates(config, options, typ), StrKey("size")) == Some(SizeParam(options))
    ensures Lookup(BasicCandidates(config, options, typ), StrKey("from")) == Some(FromParam(options))
    ensures !HasKey(BasicCandidates(config, options, typ), StrKey("body"))
  {
    var es := BasicCandidates(config, options, typ);
    BasicKeys(es);
    LookupAt(es, 0);
    LookupAt(es, 1);
    LookupAt(es, 2);
    LookupAt(es, 3);
  }

  /** `getBasicParams`: index, type, size and from, with the falsy ones dropped. */
  function GetBasicParams(config: seq<Pair>, options: seq<Pair>): (r: Result<seq<Pair>>)
    ensures r.Success? ==> forall i :: 0 <= i < |r.value| ==> Truthy(r.value[i].val)
    ensures r.Success? ==> !HasKey(r.value, StrKey("body"))
    ensures r.Failure? <==> StripTypes(TypesOption(config, options)).Failure?
  {
    var typ :- StripTypes(TypesOption(config, options));
    var es := BasicCandidates(config, options, typ);
    BasicCandidatesLookup(config, options, typ);
    LookupArrayFilter(es, StrKey("body"));
    Success(ArrayFilter(es))
  }

  /** Looking a key up in the filtered candidates. */
  lemma BasicParamsLookup(config: seq<Pair>, options: seq<Pair>, k: Key)
    requires GetBasicParams(config, options).Success?
    ensures var typ := StripTypes(TypesOption(config, options)).value;
      Lookup(GetBasicParams(config, options).value, k) ==
        match Lookup(BasicCandidates(config, options, typ), k)
        case Some(v) => if Truthy(v) then Some(v) else None
        case None => None
  {
    var typ := StripTypes(TypesOption(config, options)).value;
    BasicCandidatesLookup(config, options, typ);
    LookupArrayFilter(BasicCandidates(config, options, typ), k);
  }

  /**
   * `size` defaults to 25 and replaces a non-numeric size; `from` is dropped
   * unless numeric; a zero size or offset is dropped with the other falsy
   * entries; the index is the configured one.
   */
  lemma BasicParamsFields(config: seq<Pair>, options: seq<Pair>)
    requires GetBasicParams(config, options).Success?
    ensures var r := GetBasicParams(config, options).value;
      Lookup(r, StrKey("size")) ==
        match Lookup(options, StrKey("size"))
        case None => Some(Int(25))
        case Some(s) => if !IsNumeric(s) then Some(Int(25)) else if Truthy(s) then Some(s) else None
    ensures var r := GetBasicParams(config, options).value;
      Lookup(r, StrKey("from")) ==
        match Lookup(options, StrKey("from"))
        case None => None
        case Some(f) => if IsNumeric(f) && Truthy(f) then Some(f) else None
    ensures var r := GetBasicParams(config, options).value;
      Lookup(r, StrKey("index")) == if Truthy(GetIndexName(config)) then Some(GetIndexName(config)) else None
  {
    var typ := StripTypes(TypesOption(config, options)).value;
    BasicCandidatesLookup(config, options, typ);
    SizeFromParams(options);
    BasicParamsLookup(config, options, StrKey("size"));
    BasicParamsLookup(config, options, StrKey("from"));
    BasicParamsLookup(config, options, StrKey("index"));
  }

  /** The `type` parameter is the requested types with all whitespace removed, or absent when that is empty. */
  lemma BasicParamsType(config: seq<Pair>, options: seq<Pair>)
    requires GetBasicParams(config, options).Success?
    ensures var typ := StripTypes(TypesOption(config, options)).value;
      Lookup(GetBasicParams(config, options).value, StrKey("type")) == if Truthy(typ) then Some(typ) else None
    ensures TypesOption(config, options).Str? ==>
      match Lookup(GetBasicParams(config, options).value, StrKey("type"))
      case Some(t) => t.Str? && NoWhitespace(t.s)
      case None => true
  {
    var typ := StripTypes(TypesOption(config, options)).value;
    BasicCandidatesLookup(config, options, typ);
    BasicParamsLookup(config, options, StrKey("type"));
  }

  // ---------------------------------------------------------------------------
  // search: paging options
  // ---------------------------------------------------------------------------

  /** `array_merge(['size' => $perPage, 'from' => $page * $perPage - $perPage], $options)`. */
  function SearchOptions(perPage: int, page: int, options: seq<Pair>): seq<Pair> {
    ArrayMerge([Pair(StrKey("size"), Int(perPage)), Pair(StrKey("from"), Int(page * perPage - perPage))], options)
  }

  /** The caller's own `size` and `from` options win over the paging ones. */
  lemma SearchOptionsLookup(perPage: int, page: int, options: seq<Pair>)
    requires Distinct(options)
    ensures Lookup(SearchOptions(perPage, page, options), StrKey("size")) ==
      if HasKey(options, StrKey("size")) then Lookup(options, StrKey("size")) else Some(Int(perPage))
    ensures Lookup(SearchOptions(perPage, page, options), StrKey("from")) ==
      if HasKey(options, StrKey("from")) then Lookup(options, StrKey("from")) else Some(Int(page * perPage - perPage))
  {
    var paging := [Pair(StrKey("size"), Int(perPage)), Pair(StrKey("from"), Int(page * perPage - perPage))];
    assert |"size"| == 4 && "size"[0] != "from"[0];
    assert Distinct(paging);
    LookupAt(paging, 0);
    LookupAt(paging, 1);
    LookupArrayMerge(paging, options, "size");
    LookupArrayMerge(paging, options, "from");
  }

  /**
   * Page `page` of `perPage` results starts at offset `page * perPage - perPage`;
   * on the first page that offset is zero and is dropped from the request.
   */
  lemma PageOffset(config: seq<Pair>, perPage: int, page: int, options: seq<Pair>)
    requires Distinct(options) && !HasKey(options, StrKey("from")) && !HasKey(options, StrKey("size"))
    requires GetBasicParams(config, SearchOptions(perPage, page, options)).Success?
    ensures var r := GetBasicParams(config, SearchOptions(perPage, page, options)).value;
      Lookup(r, StrKey("from")) == if page * perPage - perPage != 0 then Some(Int(page * perPage - perPage)) else None
    ensures var r := GetBasicParams(config, SearchOptions(perPage, page, options)).value;
      Lookup(r, StrKey("size")) == if perPage != 0 then Some(Int(perPage)) else None
  {
    SearchOptionsLookup(perPage, page, options);
    PagingParams(config, SearchOptions(perPage, page, options), perPage, page * perPage - perPage);
  }

  /** The first page sends no offset at all. */
  lemma FirstPageHasNoOffset(config: seq<Pair>, perPage: int, options: seq<Pair>)
    requires Distinct(options) && !HasKey(options, StrKey("from"))
    requires GetBasicParams(config, SearchOptions(perPage, 1, options)).Success?
    ensures !HasKey(GetBasicParams(config, SearchOptions(perPage, 1, options)).value, StrKey("from"))
  {
    SearchOptionsLookup(perPage, 1, options);
    BasicParamsFields(config, SearchOptions(perPage, 1, options));
  }

  lemma PagingParams(config: seq<Pair>, merged: seq<Pair>, size: int, from: int)
    requires Lookup(merged, StrKey("size")) == Some(Int(size)) && Lookup(merged, StrKey("from")) == Some(Int(from))
    requires GetBasicParams(config, merged).Success?
    ensures Lookup(GetBasicParams(config, merged).value, StrKey("from")) == if from != 0 then Some(Int(from)) else None
    ensures Lookup(GetBasicParams(config, merged).value, StrKey("size")) == if size != 0 then Some(Int(size)) else None
  {
    BasicParamsFields(config, merged);
  }

  // ---------------------------------------------------------------------------
  // getSearchParams
  // ---------------------------------------------------------------------------

  /** The fields to search: the `field` option when it is a string, else the configured `fields`. */
  function SearchFields(config: seq<Pair>, options: seq<Pair>): Value {
    var field := ArrGet(Arr(options), "field", Null);
    if field.Str? then field else Config(config, "fields", Null)
  }

  function MultiMatch(term: Value, fields: Value): Value {
    Arr([Pair(StrKey("multi_match"), Arr([Pair(StrKey("query"), term), Pair(StrKey("fields"), fields)]))])
  }

  /**
   * `body.query`: a `multi_match` of the term over the fields under
   * `bool.must` when there are fields, else the term under `match._all`.
   */
  function QueryClause(term: Value, fields: Value): Value {
    if Truthy(fields) then
      Arr([Pair(StrKey("bool"), Arr([Pair(StrKey("must"), Arr(List([MultiMatch(term, fields)])))]))])
    else
      Arr([Pair(StrKey("match"), Arr([Pair(StrKey("_all"), Arr(List([term])))]))])
  }

  /** Exactly one of the two query forms is present, and it carries the term. */
  lemma QueryClauseShape(term: Value, fields: Value)
    ensures Truthy(fields) ==>
      Dig(QueryClause(term, fields), [StrKey("bool"), StrKey("must")]) == Some(Arr([Pair(IntKey(0), MultiMatch(term, fields))])) &&
      Dig(QueryClause(term, fields), [StrKey("match")]) == None
    ensures !Truthy(fields) ==>
      Dig(QueryClause(term, fields), [StrKey("match"), StrKey("_all")]) == Some(Arr([Pair(IntKey(0), term)])) &&
      Dig(QueryClause(term, fields), [StrKey("bool")]) == None
  {
    assert |"bool"| == 4 && |"match"| == 5;
    assert List([MultiMatch(term, fields)]) == [Pair(IntKey(0), MultiMatch(term, fields))];
    assert List([term]) == [Pair(IntKey(0), term)];
  }

  /** The string `Arr::get` walks for `filter_musts.<field>`. */
  function LocalePath(name: string): string {
    "filter_musts." + name
  }

  /**
   * The options after the locale step: unless the locale is ignored or no
   * locale field is configured, `filter_musts.<field>` is set to the
   * application locale when the caller left it null or absent.
   */
  function LocaleOptions(config: seq<Pair>, ignoreLocale: Value, options: seq<Pair>, appLocale: Value): (r: Result<seq<Pair>>)
    ensures ignoreLocale != Bool(false) ==> r == Success(options)
    ensures !Truthy(Config(config, "locale_field", Null)) ==> r == Success(options)
  {
    var field := Config(config, "locale_field", Null);
    if ignoreLocale != Bool(false) || !Truthy(field) then Success(options)
    else
      var name :- ToPhpString(field);
      if ArrGet(Arr(options), LocalePath(name), Null) != Null then Success(options)
      else
        var k :- OffsetKey(field);
        match Lookup(options, StrKey("filter_musts"))
        case None => Success(Set(options, StrKey("filter_musts"), Arr([Pair(k, appLocale)])))
        case Some(fm) =>
          if fm == Null || fm == Bool(false) then Success(Set(options, StrKey("filter_musts"), Arr([Pair(k, appLocale)])))
          else if fm.Arr? then Success(Set(options, StrKey("filter_musts"), Arr(Set(fm.entries, k, appLocale))))
          else Failure(TypeError("Cannot use a scalar value as an array"))
  }

  /** `filter_musts.<field>` is a string key and walks as `filter_musts`, then the field. */
  lemma LocalePathFacts(name: string)
    requires '.' !in name
    ensures KeyOf(LocalePath(name)) == StrKey(LocalePath(name))
    ensures '.' in LocalePath(name)
    ensures Explode('.', LocalePath(name)) == ["filter_musts", name]
  {
    assert LocalePath(name) == "filter_musts" + ['.'] + name;
    assert LocalePath(name)[0] == 'f' && LocalePath(name)[12] == '.';
    KeyOfWord(LocalePath(name));
    ExplodeSplit('.', "filter_musts", name);
    ExplodeNoDelimiter('.', name);
  }

  /** What `Arr::get($options, 'filter_musts.<field>')` finds. */
  lemma LocaleLookup(options: seq<Pair>, name: string)
    requires '.' !in name && !HasKey(options, StrKey(LocalePath(name)))
    ensures ArrGet(Arr(options), LocalePath(name), Null) ==
      match Lookup(options, StrKey("filter_musts"))
      case Some(Arr(fm)) => (match Lookup(fm, KeyOf(name)) case Some(v) => v case None => Null)
      case _ => Null
  {
    LocalePathFacts(name);
    KeyOfWord("filter_musts");
    assert ArrGet(Arr(options), LocalePath(name), Null) == Walk(Arr(options), ["filter_musts", name], Null);
    WalkTwo(Arr(options), "filter_musts", name, Null);
  }

  /** With no `filter_musts` from the caller, the locale becomes the only must-filter. */
  lemma LocaleInjected(config: seq<Pair>, options: seq<Pair>, appLocale: Value, name: string)
    requires Config(config, "locale_field", Null) == Str(name) && Truthy(Str(name)) && '.' !in name
    requires !HasKey(options, StrKey("filter_musts")) && !HasKey(options, StrKey(LocalePath(name)))
    ensures LocaleOptions(config, Bool(false), options, appLocale) ==
      Success(options + [Pair(StrKey("filter_musts"), Arr([Pair(KeyOf(name), appLocale)]))])
  {
    LocaleLookup(options, name);
    SetAbsent(options, StrKey("filter_musts"), Arr([Pair(KeyOf(name), appLocale)]));
  }

  /** A locale the caller already filters on is left as the caller gave it. */
  lemma LocaleRespectsCaller(config: seq<Pair>, options: seq<Pair>, appLocale: Value, name: string, fm: seq<Pair>, v: Value)
    requires Config(config, "locale_field", Null) == Str(name) && Truthy(Str(name)) && '.' !in name
    requires !HasKey(options, StrKey(LocalePath(name)))
    requires Lookup(options, StrKey("filter_musts")) == Some(Arr(fm)) && Lookup(fm, KeyOf(name)) == Some(v) && v != Null
    ensures LocaleOptions(config, Bool(false), options, appLocale) == Success(options)
  {
    LocaleLookup(options, name);
  }

  /** Once the caller's locale filter is found null, the locale goes into the must-filters the caller gave. */
  lemma LocaleIntoFilters(config: seq<Pair>, options: seq<Pair>, appLocale: Value, name: string, fm: Value)
    requires Config(config, "locale_field", Null) == Str(name) && Truthy(Str(name))
    requires ArrGet(Arr(options), LocalePath(name), Null) == Null
    requires Lookup(options, StrKey("filter_musts")) == Some(fm)
    ensures LocaleOptions(config, Bool(false), options, appLocale) ==
      if fm == Null || fm == Bool(false) then Success(Set(options, StrKey("filter_musts"), Arr([Pair(KeyOf(name), appLocale)])))
      else if fm.Arr? then Success(Set(options, StrKey("filter_musts"), Arr(Set(fm.entries, KeyOf(name), appLocale))))
      else Failure(TypeError("Cannot use a scalar value as an array"))
  {
  }

  /** Caller must-filters without the locale field get the locale added to them. */
  lemma LocaleMerged(config: seq<Pair>, options: seq<Pair>, appLocale: Value, name: string, fm: seq<Pair>)
    requires Config(config, "locale_field", Null) == Str(name) && Truthy(Str(name)) && '.' !in name
    requires !HasKey(options, StrKey(LocalePath(name)))
    requires Lookup(options, StrKey("filter_musts")) == Some(Arr(fm)) && !HasKey(fm, KeyOf(name))
    ensures LocaleOptions(config, Bool(false), options, appLocale) ==
      Success(Set(options, StrKey("filter_musts"), Arr(Set(fm, KeyOf(name), appLocale))))
  {
    LocaleLookup(options, name);
    LocaleIntoFilters(config, options, appLocale, name, Arr(fm));
  }

  /** A null locale filter from the caller is replaced by the application locale. */
  lemma LocaleOverridesNull(config: seq<Pair>, options: seq<Pair>, appLocale: Value, name: string, fm: seq<Pair>)
    requires Config(config, "locale_field", Null) == Str(name) && Truthy(Str(name)) && '.' !in name
    requires !HasKey(options, StrKey(LocalePath(name)))
    requires Lookup(options, StrKey("filter_musts")) == Some(Arr(fm)) && Lookup(fm, KeyOf(name)) == Some(Null)
    ensures LocaleOptions(config, Bool(false), options, appLocale) ==
      Success(Set(options, StrKey("filter_musts"), Arr(Set(fm, KeyOf(name), appLocale))))
  {
    LocaleLookup(options, name);
    LocaleIntoFilters(config, options, appLocale, name, Arr(fm));
  }

  /** Must-filters given as null or false are replaced by the locale alone. */
  lemma LocaleReplacesFalsy(config: seq<Pair>, options: seq<Pair>, appLocale: Value, name: string, fm: Value)
    requires Config(config, "locale_field", Null) == Str(name) && Truthy(Str(name)) && '.' !in name
    requires !HasKey(options, StrKey(LocalePath(name)))
    requires Lookup(options, StrKey("filter_musts")) == Some(fm) && (fm == Null || fm == Bool(false))
    ensures LocaleOptions(config, Bool(false), options, appLocale) ==
      Success(Set(options, StrKey("filter_musts"), Arr([Pair(KeyOf(name), appLocale)])))
  {
    LocaleLookup(options, name);
  }

  /** A locale field that is an array cannot name the filter: the locale step fails. */
  lemma LocaleArrayField(config: seq<Pair>, options: seq<Pair>, appLocale: Value)
    requires Config(config, "locale_field", Null).Arr? && Truthy(Config(config, "locale_field", Null))
    ensures LocaleOptions(config, Bool(false), options, appLocale) == Failure(TypeError("Array to string conversion"))
  {
  }

  /** One `term` clause: `[ 'term' => [ $filter => $value ] ]`. */
  function TermClause(p: Pair): Value {
    Arr([Pair(StrKey("term"), Arr([p]))])
  }

  /** The `term` clauses of the filters, in order. */
  function TermClauses(filters: seq<Pair>): seq<Value> {
    if |filters| == 0 then []
    else TermClauses(filters[..|filters| - 1]) + [TermClause(filters[|filters| - 1])]
  }

  /** There is one clause per filter, and a clause for a filter exactly when it is one of them. */
  lemma {:induction false} TermClausesMembers(filters: seq<Pair>)
    ensures |TermClauses(filters)| == |filters|
    ensures forall p :: TermClause(p) in TermClauses(filters) <==> p in filters
  {
    if |filters| > 0 {
      var init := filters[..|filters| - 1];
      TermClausesMembers(init);
      assert filters == init + [filters[|filters| - 1]];
    }
  }

  /**
   * The must-filters sent are the caller's truthy ones: a `term` clause for
   * an entry exactly when its value is truthy, one clause per such entry.
   */
  lemma FilterClausesExact(fm: seq<Pair>)
    ensures |TermClauses(ArrayFilter(fm))| == |ArrayFilter(fm)| <= |fm|
    ensures forall p :: TermClause(p) in TermClauses(ArrayFilter(fm)) <==> p in fm && Truthy(p.val)
  {
    TermClausesMembers(ArrayFilter(fm));
  }

  /** `body.filter`, present only when there is at least one clause. */
  function FilterSection(clauses: seq<Value>): seq<Pair> {
    if |clauses| == 0 then []
    else [Pair(StrKey("filter"), Arr([Pair(StrKey("bool"), Arr([Pair(StrKey("must"), Arr(List(clauses)))]))]))]
  }

  /** The must-filters after the locale step, if any are set. */
  function MustFilters(opts: seq<Pair>): Value {
    ArrGet(Arr(opts), "filter_musts", Null)
  }

  /** The must-filters are the `filter_musts` entry, null when there is none. */
  lemma MustFiltersLookup(opts: seq<Pair>)
    ensures MustFilters(opts) == match Lookup(opts, StrKey("filter_musts")) case Some(v) => v case None => Null
  {
    KeyOfWord("filter_musts");
    ArrGetPlain(opts, "filter_musts", Null);
  }

  /** The request body: the query, then the term filters when there are any. */
  function SearchBody(term: Value, fields: Value, fm: Value): Value {
    var query := Pair(StrKey("query"), QueryClause(term, fields));
    if Truthy(fm) && fm.Arr? then Arr([query] + FilterSection(TermClauses(ArrayFilter(fm.entries))))
    else Arr([query])
  }

  /** `getSearchParams` as it is evidently meant to work: the parameters are returned. */
  function SearchParams(config: seq<Pair>, ignoreLocale: Value, term: Value, options: seq<Pair>, appLocale: Value): Result<seq<Pair>> {
    var basic :- GetBasicParams(config, options);
    var opts :- LocaleOptions(config, ignoreLocale, options, appLocale);
    var fm := MustFilters(opts);
    if Truthy(fm) && !fm.Arr? then Failure(TypeError("array_filter(): Argument #1 ($array) must be of type array"))
    else Success(Set(basic, StrKey("body"), SearchBody(term, SearchFields(config, options), fm)))
  }

  /** `filter.bool.must` of a filter section: the clauses, when there are any. */
  lemma FilterSectionDig(query: Pair, clauses: seq<Value>)
    requires query.key == StrKey("query")
    ensures Dig(Arr([query] + FilterSection(clauses)), [StrKey("query")]) == Some(query.val)
    ensures Dig(Arr([query] + FilterSection(clauses)), [StrKey("filter"), StrKey("bool"), StrKey("must")]) ==
      if |clauses| > 0 then Some(Arr(List(clauses))) else None
  {
    var es := [query] + FilterSection(clauses);
    assert |"query"| == 5 && |"filter"| == 6;
    DigFirst(Arr(es), StrKey("query"), []);
    if |clauses| > 0 {
      var must := Arr([Pair(StrKey("must"), Arr(List(clauses)))]);
      var filter := Arr([Pair(StrKey("bool"), must)]);
      assert es == [query, Pair(StrKey("filter"), filter)];
      assert Lookup(es, StrKey("filter")) == Some(filter);
      DigFirst(Arr(es), StrKey("filter"), [StrKey("bool"), StrKey("must")]);
      DigFirst(filter, StrKey("bool"), [StrKey("must")]);
      DigFirst(must, StrKey("must"), []);
    } else {
      assert es == [query];
    }
  }

  /** The body holds the query, and the filter clauses exactly when some must-filter is truthy. */
  lemma SearchBodyShape(term: Value, fields: Value, fm: Value)
    ensures Dig(SearchBody(term, fields, fm), [StrKey("query")]) == Some(QueryClause(term, fields))
    ensures Dig(SearchBody(term, fields, fm), [StrKey("filter"), StrKey("bool"), StrKey("must")]) ==
      if fm.Arr? && |ArrayFilter(fm.entries)| > 0 then Some(Arr(List(TermClauses(ArrayFilter(fm.entries))))) else None
  {
    var query := Pair(StrKey("query"), QueryClause(term, fields));
    if Truthy(fm) && fm.Arr? {
      TermClausesMembers(ArrayFilter(fm.entries));
      FilterSectionDig(query, TermClauses(ArrayFilter(fm.entries)));
    } else {
      FilterSectionDig(query, []);
      assert [query] + FilterSection([]) == [query];
      if fm.Arr? {
        assert |ArrayFilter(fm.entries)| <= |fm.entries| == 0;
      }
    }
  }

  /** The basic parameters with a search body set: the body is found by `Dig`, the rest unchanged. */
  lemma WithBodyShape(basic: seq<Pair>, term: Value, fields: Value, fm: Value)
    ensures forall k :: k != StrKey("body") ==> Lookup(Set(basic, StrKey("body"), SearchBody(term, fields, fm)), k) == Lookup(basic, k)
    ensures Dig(Arr(Set(basic, StrKey("body"), SearchBody(term, fields, fm))), [StrKey("body"), StrKey("query")]) == Some(QueryClause(term, fields))
    ensures Dig(Arr(Set(basic, StrKey("body"), SearchBody(term, fields, fm))), [StrKey("body"), StrKey("filter"), StrKey("bool"), StrKey("must")]) ==
      if fm.Arr? && |ArrayFilter(fm.entries)| > 0 then Some(Arr(List(TermClauses(ArrayFilter(fm.entries))))) else None
  {
    var body := SearchBody(term, fields, fm);
    var r := Set(basic, StrKey("body"), body);
    forall k | k != StrKey("body") ensures Lookup(r, k) == Lookup(basic, k) {
      LookupSet(basic, StrKey("body"), body, k);
    }
    LookupSet(basic, StrKey("body"), body, StrKey("body"));
    SearchBodyShape(term, fields, fm);
    DigFirst(Arr(r), StrKey("body"), [StrKey("query")]);
    DigFirst(Arr(r), StrKey("body"), [StrKey("filter"), StrKey("bool"), StrKey("must")]);
  }

  lemma SearchParamsValue(config: seq<Pair>, ignoreLocale: Value, term: Value, options: seq<Pair>, appLocale: Value)
    requires SearchParams(config, ignoreLocale, term, options, appLocale).Success?
    ensures GetBasicParams(config, options).Success? && LocaleOptions(config, ignoreLocale, options, appLocale).Success?
    ensures SearchParams(config, ignoreLocale, term, options, appLocale).value ==
      Set(GetBasicParams(config, options).value, StrKey("body"), SearchBody(term, SearchFields(config, options),
        MustFilters(LocaleOptions(config, ignoreLocale, options, appLocale).value)))
  {
  }

  /**
   * A successful request keeps the basic parameters, and its body holds the
   * query for the chosen fields followed, when there are truthy
   * must-filters, by their term clauses.
   */
  lemma SearchParamsBody(config: seq<Pair>, ignoreLocale: Value, term: Value, options: seq<Pair>, appLocale: Value)
    requires SearchParams(config, ignoreLocale, term, options, appLocale).Success?
    ensures var r := SearchParams(config, ignoreLocale, term, options, appLocale).value;
      forall k :: k != StrKey("body") ==> Lookup(r, k) == Lookup(GetBasicParams(config, options).value, k)
    ensures var r := SearchParams(config, ignoreLocale, term, options, appLocale).value;
      Dig(Arr(r), [StrKey("body"), StrKey("query")]) == Some(QueryClause(term, SearchFields(config, options)))
    ensures var r := SearchParams(config, ignoreLocale, term, options, appLocale).value;
      var fm := MustFilters(LocaleOptions(config, ignoreLocale, options, appLocale).value);
      Dig(Arr(r), [StrKey("body"), StrKey("filter"), StrKey("bool"), StrKey("must")]) ==
        if fm.Arr? && |ArrayFilter(fm.entries)| > 0 then Some(Arr(List(TermClauses(ArrayFilter(fm.entries))))) else None
  {
    SearchParamsValue(config, ignoreLocale, term, options, appLocale);
    WithBodyShape(GetBasicParams(config, options).value, term, SearchFields(config, options),
      MustFilters(LocaleOptions(config, ignoreLocale, options, appLocale).value));
  }


  /** The search-parameter step as the package ships it: it dumps the parameters and halts. */
  datatype SearchOutcome = Returned(params: seq<Pair>) | Dumped(params: seq<Pair>)

  /** `getSearchParams` as written, ending in `dd($params)`. */
  function GetSearchParamsAsWritten(config: seq<Pair>, ignoreLocale: Value, term: Value, options: seq<Pair>, appLocale: Value): (r: Result<SearchOutcome>)
    ensures r.Success? ==> r.value.Dumped?
    ensures r.Failure? <==> SearchParams(config, ignoreLocale, term, options, appLocale).Failure?
  {
    var params :- SearchParams(config, ignoreLocale, term, options, appLocale);
    Success(Dumped(params))
  }

  /** Without a `types` option or setting, the search is over `_all` and the basic parameters exist. */
  lemma DefaultTypes(config: seq<Pair>, options: seq<Pair>)
    requires !HasKey(config, StrKey("types")) && !HasKey(options, StrKey("types"))
    ensures TypesOption(config, options) == Str("_all")
    ensures GetBasicParams(config, options).Success?
  {
    KeyOfWord("types");
    ArrGetPlain(config, "types", Str("_all"));
    ArrGetPlain(options, "types", Config(config, "types", Str("_all")));
  }

  /** The parameters exist exactly when the basic ones do, the locale step succeeds and the filters are an array or falsy. */
  lemma SearchParamsSuccess(config: seq<Pair>, ignoreLocale: Value, term: Value, options: seq<Pair>, appLocale: Value)
    ensures SearchParams(config, ignoreLocale, term, options, appLocale).Success? <==>
      GetBasicParams(config, options).Success? && LocaleOptions(config, ignoreLocale, options, appLocale).Success? &&
      (var fm := MustFilters(LocaleOptions(config, ignoreLocale, options, appLocale).value); !Truthy(fm) || fm.Arr?)
  {
  }

  /**
   * As written, no call ever returns parameters: even the simplest search
   * (no types or filters in the options or the configuration, the locale
   * ignored) ends in the dump, where the corrected version returns them.
   */
  lemma AsWrittenNeverReturns(config: seq<Pair>, term: Value, options: seq<Pair>, appLocale: Value)
    requires !HasKey(config, StrKey("types")) && !HasKey(options, StrKey("types")) && !HasKey(options, StrKey("filter_musts"))
    ensures SearchParams(config, Bool(true), term, options, appLocale).Success?
    ensures GetSearchParamsAsWritten(config, Bool(true), term, options, appLocale).Success?
    ensures GetSearchParamsAsWritten(config, Bool(true), term, options, appLocale).value.Dumped?
  {
    DefaultTypes(config, options);
    MustFiltersLookup(options);
    assert MustFilters(options) == Null;
    assert LocaleOptions(config, Bool(true), options, appLocale) == Success(options);
    SearchParamsSuccess(config, Bool(true), term, options, appLocale);
  }
}
