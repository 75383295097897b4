/**
 * The fluent search builder a huntable model's `search()` returns
 * (src/Builder.php): it keeps the model, the query and the caller's
 * options, and an optional result limit, and runs the search through the
 * Hunter.
 */
module Builder {
  import opened PhpString
  import opened Php
  import opened Documents
  import opened Query
  import opened Hydration
  import Hunter

  /** The options `get` searches with: the caller's, with `size` and `types` overridden. */
  function GetOptions(options: seq<Pair>, limit: Value, model: Model): seq<Pair> {
    ArrayMerge(options, [Pair(StrKey("size"), limit), Pair(StrKey("types"), Obj(model))])
  }

  /** The options `paginate` searches with: the caller's, with `types` overridden. */
  function PaginateOptions(options: seq<Pair>, model: Model): seq<Pair> {
    ArrayMerge(options, [Pair(StrKey("types"), Obj(model))])
  }

  /** `$perPage ?: $this->model->getPerPage()`. */
  function PerPage(perPage: int, model: Model): (r: int)
    ensures perPage != 0 ==> r == perPage
    ensures perPage == 0 ==> r == model.info.perPage
  {
    if perPage != 0 then perPage else model.info.perPage
  }

  /** `first`: the first result, or null when there is none. */
  function FirstSpec(results: Result<seq<Option<Instance>>>): (r: Result<Option<Instance>>)
    ensures r.Failure? <==> results.Failure?
    ensures r.Success? && |results.value| > 0 ==> r.value == results.value[0]
    ensures r.Success? && |results.value| == 0 ==> r.value == None
  {
    var items :- results;
    if |items| == 0 then Success(None) else Success(items[0])
  }

  /**
   * `get` asks for `limit` results of the builder's own model type, whatever
   * the caller's options say; every other option is the caller's.
   */
  lemma GetOptionsOverride(options: seq<Pair>, limit: Value, model: Model, s: string)
    requires Distinct(options)
    ensures Lookup(GetOptions(options, limit, model), StrKey("size")) == Some(limit)
    ensures Lookup(GetOptions(options, limit, model), StrKey("types")) == Some(Obj(model))
    ensures s != "size" && s != "types" ==>
      Lookup(GetOptions(options, limit, model), StrKey(s)) == Lookup(options, StrKey(s))
  {
    var extra := [Pair(StrKey("size"), limit), Pair(StrKey("types"), Obj(model))];
    assert |"size"| == 4 && |"types"| == 5;
    assert Distinct(extra);
    LookupAt(extra, 0);
    LookupAt(extra, 1);
    LookupArrayMerge(options, extra, "size");
    LookupArrayMerge(options, extra, "types");
    LookupArrayMerge(options, extra, s);
  }

  /** `paginate` searches the builder's own model type; every other option is the caller's. */
  lemma PaginateOptionsOverride(options: seq<Pair>, model: Model, s: string)
    requires Distinct(options)
    ensures Lookup(PaginateOptions(options, model), StrKey("types")) == Some(Obj(model))
    ensures s != "types" ==> Lookup(PaginateOptions(options, model), StrKey(s)) == Lookup(options, StrKey(s))
  {
    var extra := [Pair(StrKey("types"), Obj(model))];
    LookupArrayMerge(options, extra, "types");
    LookupArrayMerge(options, extra, s);
  }

  /**
   * A builder's search is always over its model's index type, and asks for
   * the limit when that is numeric and 25 results otherwise (so 25 before
   * `take` is called).
   */
  lemma BuilderSearchesModel(config: seq<Pair>, options: seq<Pair>, limit: Value, model: Model)
    requires Distinct(options)
    ensures TypesOption(config, GetOptions(options, limit, model)) == GetModelIndexName(model)
    ensures TypesOption(config, PaginateOptions(options, model)) == GetModelIndexName(model)
    ensures SizeParam(GetOptions(options, limit, model)) == if IsNumeric(limit) then limit else Int(25)
  {
    GetOptionsOverride(options, limit, model, "types");
    PaginateOptionsOverride(options, model, "types");
    KeyOfWord("types");
    ArrGetPlain(GetOptions(options, limit, model), "types", Config(config, "types", Str("_all")));
    ArrGetPlain(PaginateOptions(options, model), "types", Config(config, "types", Str("_all")));
    SizeFromParams(GetOptions(options, limit, model));
  }

  class Builder {
    /** The caller's search options. */
    var options: seq<Pair>
    /** The model whose type is searched. */
    var model: Model
    /** The search term. */
    var query: Value
    /** The result limit; null until `take` sets it. */
    var limit: Value

    constructor(model: Model, query: Value, options: seq<Pair>)
      ensures this.model == model && this.query == query && this.options == options
      ensures limit == Null
    {
      this.model := model;
      this.query := query;
      this.options := options;
      limit := Null;
    }

    /** `take`: sets the limit and returns the builder itself. */
    method Take(limit: Value) returns (b: Builder)
      modifies this`limit
      ensures this.limit == limit && b == this
    {
      this.limit := limit;
      b := this;
    }

    /** `get`: the Hunter's search with the builder's options. */
    method Get(hunter: Hunter.Hunter, appLocale: Value, reg: Registry, response: Value)
      returns (r: Result<seq<Option<Instance>>>)
      requires WellFormed(response)
      modifies hunter`requests
      ensures r == Hunter.PerformSearchSpec(hunter.config, hunter.ignoreLocale, query,
        GetOptions(options, limit, model), appLocale, reg, response)
      ensures hunter.requests == old(hunter.requests) + Hunter.SearchRequest(
        SearchParams(hunter.config, hunter.ignoreLocale, query, GetOptions(options, limit, model), appLocale))
    {
      var opts := ArrayMerge(options, [Pair(StrKey("size"), limit), Pair(StrKey("types"), Obj(model))]);
      r := hunter.PerformSearch(query, opts, appLocale, reg, response);
    }

    /** `first`: the first result of `get`. */
    method First(hunter: Hunter.Hunter, appLocale: Value, reg: Registry, response: Value)
      returns (r: Result<Option<Instance>>)
      requires WellFormed(response)
      modifies hunter`requests
      ensures r == FirstSpec(Hunter.PerformSearchSpec(hunter.config, hunter.ignoreLocale, query,
        GetOptions(options, limit, model), appLocale, reg, response))
      ensures hunter.requests == old(hunter.requests) + Hunter.SearchRequest(
        SearchParams(hunter.config, hunter.ignoreLocale, query, GetOptions(options, limit, model), appLocale))
    {
      var results :- Get(hunter, appLocale, reg, response);
      r := if |results| == 0 then Success(None) else Success(results[0]);
    }

    /** `paginate`: page `page` of the Hunter's paginated search, `perPage` defaulting to the model's. */
    method Paginate(perPage: int, hunter: Hunter.Hunter, page: int, appLocale: Value, reg: Registry, response: Value)
      returns (r: Result<Hunter.Page>)
      requires WellFormed(response)
      modifies hunter`requests
      ensures r == Hunter.SearchSpec(hunter.config, hunter.ignoreLocale, query, PerPage(perPage, model),
        PaginateOptions(options, model), page, appLocale, reg, response)
      ensures hunter.requests == old(hunter.requests) + Hunter.SearchRequest(SearchParams(hunter.config,
        hunter.ignoreLocale, query, SearchOptions(PerPage(perPage, model), page, PaginateOptions(options, model)), appLocale))
    {
      var size := if perPage != 0 then perPage else model.info.perPage;
      var opts := ArrayMerge(options, [Pair(StrKey("types"), Obj(model))]);
      r := hunter.Search(query, size, opts, page, appLocale, reg, response);
    }
  }
}
