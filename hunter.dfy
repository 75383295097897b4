/**
 * The Hunter (src/Hunter.php): the one object that talks to Elasticsearch.
 * It keeps its configuration and whether to ignore the locale field; the
 * client it sends requests through is modelled as the list of requests it
 * has sent, and the responses it gets back are parameters.
 */
module Hunter {
  import opened Php
  import opened Documents
  import opened BulkSync
  import opened Query
  import opened Hydration

  /** A request sent to Elasticsearch: a bulk call or a search call, with its parameters. */
  datatype Request = Bulk(params: Value) | SearchCall(params: Value)

  /** Results grouped by table: `$groups[$item->getTable()][] = $item`. */
  datatype Group = Group(key: Key, members: seq<Instance>)

  /** What `quickSearch` returns: the hydrated results, or those results grouped by table. */
  datatype QuickResults = Items(items: seq<Option<Instance>>) | Groups(groups: seq<Group>)

  /** The page `paginateResults` builds (its path and query-string plumbing is left out). */
  datatype Page = Page(items: seq<Option<Instance>>, total: Value, perPage: int, currentPage: int, appends: seq<Pair>)

  // ---------------------------------------------------------------------------
  // Grouping by table
  // ---------------------------------------------------------------------------

  /** The array key a table name becomes. */
  function TableKey(m: Instance): Key {
    KeyOf(m.table)
  }

  /** Appending a model to the group of key `k`, opening the group at the end when it is new. */
  function AddToGroup(groups: seq<Group>, k: Key, m: Instance): seq<Group> {
    if |groups| == 0 then [Group(k, [m])]
    else if groups[0].key == k then [Group(k, groups[0].members + [m])] + groups[1..]
    else [groups[0]] + AddToGroup(groups[1..], k, m)
  }

  /** The groups of a list of models, built model by model. */
  function Grouped(items: seq<Instance>): seq<Group> {
    if |items| == 0 then []
    else
      var last := items[|items| - 1];
      AddToGroup(Grouped(items[..|items| - 1]), TableKey(last), last)
  }

  /** The models of a list whose table is `k`, in order. */
  function WithKey(items: seq<Instance>, k: Key): (r: seq<Instance>)
    ensures |r| <= |items|
  {
    if |items| == 0 then []
    else
      var last := items[|items| - 1];
      WithKey(items[..|items| - 1], k) + if TableKey(last) == k then [last] else []
  }

  /** The members of the first group of key `k`; none when there is no such group. */
  function GroupOf(groups: seq<Group>, k: Key): seq<Instance> {
    if |groups| == 0 then []
    else if groups[0].key == k then groups[0].members
    else GroupOf(groups[1..], k)
  }

  predicate DistinctKeys(groups: seq<Group>) {
    forall i, j :: 0 <= i < j < |groups| ==> groups[i].key != groups[j].key
  }

  /** The values of the results, leaving out the nulls. */
  function Present(results: seq<Option<Instance>>): (r: seq<Instance>)
    ensures |r| <= |results|
  {
    if |results| == 0 then []
    else
      var last := results[|results| - 1];
      Present(results[..|results| - 1]) + if last.Some? then [last.value] else []
  }

  lemma {:induction false} AddToGroupOf(groups: seq<Group>, k: Key, m: Instance, k': Key)
    ensures GroupOf(AddToGroup(groups, k, m), k') == GroupOf(groups, k') + if k' == k then [m] else []
  {
    if |groups| > 0 && groups[0].key != k {
      AddToGroupOf(groups[1..], k, m, k');
      var r := [groups[0]] + AddToGroup(groups[1..], k, m);
      assert r[0] == groups[0] && r[1..] == AddToGroup(groups[1..], k, m);
    } else if |groups| > 0 {
      var r := [Group(k, groups[0].members + [m])] + groups[1..];
      assert r[0] == Group(k, groups[0].members + [m]) && r[1..] == groups[1..];
    }
  }

  lemma {:induction false} AddToGroupNonEmpty(groups: seq<Group>, k: Key, m: Instance)
    requires forall g :: g in groups ==> |g.members| > 0
    ensures forall g :: g in AddToGroup(groups, k, m) ==> |g.members| > 0
  {
    if |groups| > 0 && groups[0].key != k {
      AddToGroupNonEmpty(groups[1..], k, m);
    }
  }

  /** The keys of some groups. */
  function Keys(groups: seq<Group>): set<Key> {
    set g | g in groups :: g.key
  }

  /** Adding a model introduces its key and no other. */
  lemma {:induction false} AddToGroupOrigin(groups: seq<Group>, k: Key, m: Instance)
    ensures Keys(AddToGroup(groups, k, m)) == Keys(groups) + {k}
  {
    if |groups| > 0 {
      var rest := groups[1..];
      assert groups == [groups[0]] + rest;
      if groups[0].key != k {
        AddToGroupOrigin(rest, k, m);
        assert Keys([groups[0]] + AddToGroup(rest, k, m)) == {groups[0].key} + Keys(AddToGroup(rest, k, m));
        assert Keys(groups) == {groups[0].key} + Keys(rest);
      } else {
        var first := Group(k, groups[0].members + [m]);
        assert Keys([first] + rest) == {k} + Keys(rest);
        assert Keys(groups) == {k} + Keys(rest);
      }
    }
  }

  lemma DistinctTail(groups: seq<Group>)
    requires |groups| > 0 && DistinctKeys(groups)
    ensures DistinctKeys(groups[1..]) && groups[0].key !in Keys(groups[1..])
  {
    var rest := groups[1..];
    forall i, j | 0 <= i < j < |rest| ensures rest[i].key != rest[j].key {
      assert rest[i] == groups[i + 1] && rest[j] == groups[j + 1];
    }
    forall n | 0 <= n < |rest| ensures rest[n].key != groups[0].key {
      assert rest[n] == groups[n + 1];
    }
  }

  lemma {:induction false} AddToGroupKeys(groups: seq<Group>, k: Key, m: Instance)
    requires DistinctKeys(groups)
    ensures DistinctKeys(AddToGroup(groups, k, m))
  {
    if |groups| > 0 {
      var rest := groups[1..];
      DistinctTail(groups);
      if groups[0].key != k {
        AddToGroupKeys(rest, k, m);
        AddToGroupOrigin(rest, k, m);
        var added := AddToGroup(rest, k, m);
        var r := [groups[0]] + added;
        forall j | 0 < j < |r| ensures r[0].key != r[j].key {
          assert r[j] == added[j - 1];
          assert r[j].key in Keys(added);
        }
        forall i, j | 0 < i < j < |r| ensures r[i].key != r[j].key {
          assert r[i] == added[i - 1] && r[j] == added[j - 1];
        }
      } else {
        var r := [Group(k, groups[0].members + [m])] + rest;
        forall i, j | 0 <= i < j < |r| ensures r[i].key != r[j].key {
          assert r[j] == groups[j];
          if i > 0 {
            assert r[i] == groups[i];
          }
        }
      }
    }
  }


  /**
   * Grouping puts every model in the group of its table and nowhere else:
   * the group of a key holds exactly the models with that table, in the
   * order they came; no key has two groups and no group is empty.
   */
  lemma {:induction false} GroupedByTable(items: seq<Instance>, k: Key)
    ensures GroupOf(Grouped(items), k) == WithKey(items, k)
    ensures DistinctKeys(Grouped(items))
    ensures forall g :: g in Grouped(items) ==> |g.members| > 0
  {
    if |items| > 0 {
      var init := items[..|items| - 1];
      var last := items[|items| - 1];
      GroupedByTable(init, k);
      AddToGroupOf(Grouped(init), TableKey(last), last, k);
      AddToGroupKeys(Grouped(init), TableKey(last), last);
      AddToGroupNonEmpty(Grouped(init), TableKey(last), last);
    }
  }

  /** A group is there exactly when some model has that table. */
  lemma GroupExists(items: seq<Instance>, k: Key)
    ensures (exists g :: g in Grouped(items) && g.key == k) <==> |WithKey(items, k)| > 0
  {
    GroupedByTable(items, k);
    var groups := Grouped(items);
    if exists g :: g in groups && g.key == k {
      var g :| g in groups && g.key == k;
      FirstGroupOf(groups, g);
    }
    if |WithKey(items, k)| > 0 {
      GroupOfFound(groups, k);
    }
  }

  lemma {:induction false} FirstGroupOf(groups: seq<Group>, g: Group)
    requires g in groups && DistinctKeys(groups)
    ensures GroupOf(groups, g.key) == g.members
  {
    if groups[0] != g {
      var rest := groups[1..];
      assert g in rest;
      var j :| 0 <= j < |rest| && rest[j] == g;
      assert groups[j + 1] == g;
      assert DistinctKeys(rest) by {
        forall a, b | 0 <= a < b < |rest| ensures rest[a].key != rest[b].key {
          assert rest[a] == groups[a + 1] && rest[b] == groups[b + 1];
        }
      }
      FirstGroupOf(rest, g);
    }
  }

  lemma {:induction false} GroupOfFound(groups: seq<Group>, k: Key)
    requires |GroupOf(groups, k)| > 0
    ensures exists g :: g in groups && g.key == k
  {
    if groups[0].key != k {
      GroupOfFound(groups[1..], k);
      var g :| g in groups[1..] && g.key == k;
      assert g in groups;
    } else {
      assert groups[0] in groups;
    }
  }

  // ---------------------------------------------------------------------------
  // What the searches compute
  // ---------------------------------------------------------------------------

  /** `performSearch`: the search parameters are sent, and the response is hydrated. */
  function PerformSearchSpec(config: seq<Pair>, ignoreLocale: Value, term: Value, options: seq<Pair>,
                             appLocale: Value, reg: Registry, response: Value): Result<seq<Option<Instance>>> {
    var params :- SearchParams(config, ignoreLocale, term, options, appLocale);
    HydrateResultsSpec(reg, response)
  }

  /** `$result['hits']['total']`. */
  function Total(response: Value): Result<Value> {
    if !response.Arr? then Failure(TypeError("paginateResults(): Argument #1 ($result) must be of type array"))
    else
      match Lookup(response.entries, StrKey("hits"))
      case None => Failure(UndefinedIndex("hits"))
      case Some(hits) =>
        if !hits.Arr? then Failure(TypeError("Trying to access array offset on a value that is not an array"))
        else
          match Lookup(hits.entries, StrKey("total"))
          case None => Failure(UndefinedIndex("total"))
          case Some(total) => Success(total)
  }

  /** `paginateResults`: the hydrated hits of the page, with the total and the search term to append. */
  /** The page number the paginator keeps: a page below 1 is page 1. */
  function CurrentPage(page: int): (r: int)
    ensures r >= 1
    ensures page >= 1 ==> r == page
    ensures page < 1 ==> r == 1
  {
    if page >= 1 then page else 1
  }

  function PaginateSpec(reg: Registry, response: Value, page: int, perPage: int, term: Value): Result<Page> {
    var total :- Total(response);
    var items :- HydrateResultsSpec(reg, response);
    if perPage == 0 then Failure(DivisionByZero)
    else Success(Page(items, total, perPage, CurrentPage(page), [Pair(StrKey("q"), term)]))
  }

  /**
   * A page is built only for a non-zero page size (the paginator divides
   * the total by it), and holds every hydrated hit, the response's total and
   * the term to append.
   */
  lemma PaginatedPage(reg: Registry, response: Value, page: int, perPage: int, term: Value)
    ensures PaginateSpec(reg, response, page, perPage, term).Success? <==>
      Total(response).Success? && HydrateResultsSpec(reg, response).Success? && perPage != 0
    ensures var r := PaginateSpec(reg, response, page, perPage, term);
      r.Success? ==> (r.value.items == HydrateResultsSpec(reg, response).value &&
        r.value.total == Total(response).value && r.value.perPage == perPage &&
        r.value.currentPage == CurrentPage(page) && r.value.appends == [Pair(StrKey("q"), term)])
  {
  }

  /** `search`: the page of `perPage` results the paging options ask for. */
  function SearchSpec(config: seq<Pair>, ignoreLocale: Value, term: Value, perPage: int, options: seq<Pair>,
                      page: int, appLocale: Value, reg: Registry, response: Value): Result<Page> {
    var params :- SearchParams(config, ignoreLocale, term, SearchOptions(perPage, page, options), appLocale);
    PaginateSpec(reg, response, page, perPage, term)
  }

  /** The options `quickSearch` searches with. */
  function QuickOptions(perPage: Value): seq<Pair> {
    [Pair(StrKey("size"), perPage)]
  }

  /** `groupResults`: fails on the first null result, else groups by table. */
  function GroupResultsSpec(results: seq<Option<Instance>>): Result<seq<Group>> {
    if forall i :: 0 <= i < |results| ==> results[i].Some? then Success(Grouped(Present(results)))
    else Failure(CallOnNull("getTable"))
  }

  /** `quickSearch`: `perPage` results, grouped by table when asked. */
  function QuickSearchSpec(config: seq<Pair>, ignoreLocale: Value, term: Value, perPage: Value, group: Value,
                           appLocale: Value, reg: Registry, response: Value): Result<QuickResults> {
    var results :- PerformSearchSpec(config, ignoreLocale, term, QuickOptions(perPage), appLocale, reg, response);
    if Truthy(group) then
      var groups :- GroupResultsSpec(results);
      Success(Groups(groups))
    else Success(Items(results))
  }

  /** The request a search sends, if its parameters can be built. */
  function SearchRequest(params: Result<seq<Pair>>): seq<Request> {
    if params.Success? then [SearchCall(Arr(params.value))] else []
  }

  /**
   * A quick search asks for `perPage` results when that is a non-zero
   * number, for the default 25 when it is not a number, and leaves the size
   * to Elasticsearch when it is zero; it never asks for an offset.
   */
  lemma QuickOptionsLookup(perPage: Value)
    ensures Lookup(QuickOptions(perPage), StrKey("size")) == Some(perPage)
    ensures Lookup(QuickOptions(perPage), StrKey("from")) == None
  {
    assert |"size"| == 4 && |"from"| == 4;
    assert "size"[0] != "from"[0];
  }

  lemma QuickSearchSize(config: seq<Pair>, ignoreLocale: Value, term: Value, perPage: Value, appLocale: Value)
    requires SearchParams(config, ignoreLocale, term, QuickOptions(perPage), appLocale).Success?
    ensures var params := SearchParams(config, ignoreLocale, term, QuickOptions(perPage), appLocale).value;
      Lookup(params, StrKey("size")) ==
        if !IsNumeric(perPage) then Some(Int(25)) else if Truthy(perPage) then Some(perPage) else None
    ensures var params := SearchParams(config, ignoreLocale, term, QuickOptions(perPage), appLocale).value;
      !HasKey(params, StrKey("from"))
  {
    var options := QuickOptions(perPage);
    QuickOptionsLookup(perPage);
    BasicParamsFields(config, options);
    SearchParamsBody(config, ignoreLocale, term, options, appLocale);
  }

  /** The groups of the first `n` results, built result by result as the loop of `groupResults` does. */
  function GroupedUpTo(results: seq<Option<Instance>>, n: nat): seq<Group>
    requires n <= |results|
  {
    if n == 0 then []
    else
      var groups := GroupedUpTo(results, n - 1);
      match results[n - 1]
      case Some(item) => AddToGroup(groups, TableKey(item), item)
      case None => groups
  }

  /** Building the groups result by result gives the groups of the present results. */
  lemma {:induction false} GroupedUpToPresent(results: seq<Option<Instance>>, n: nat)
    requires n <= |results|
    ensures GroupedUpTo(results, n) == Grouped(Present(results[..n]))
  {
    if n > 0 {
      GroupedUpToPresent(results, n - 1);
      assert results[..n][..n - 1] == results[..n - 1];
      var p := Present(results[..n - 1]);
      if results[n - 1].Some? {
        var q := p + [results[n - 1].value];
        assert Present(results[..n]) == q;
        assert q[..|q| - 1] == p;
      } else {
        assert Present(results[..n]) == p;
      }
    }
  }


  /** A null result makes the grouping fail. */
  lemma GroupResultsNull(results: seq<Option<Instance>>, i: nat)
    requires i < |results| && results[i].None?
    ensures GroupResultsSpec(results) == Failure(CallOnNull("getTable"))
  {
  }

  /** When every result is present, grouping gives the groups of all of them. */
  lemma GroupResultsAll(results: seq<Option<Instance>>, groups: seq<Group>)
    requires forall m :: 0 <= m < |results| ==> results[m].Some?
    requires groups == GroupedUpTo(results, |results|)
    ensures GroupResultsSpec(results) == Success(groups)
  {
    GroupedUpToPresent(results, |results|);
    assert results[..|results|] == results;
  }

  /** Grouping succeeds only when every result is present, and groups them by table. */
  lemma GroupResultsByTable(results: seq<Option<Instance>>)
    requires GroupResultsSpec(results).Success?
    ensures forall i :: 0 <= i < |results| ==> results[i].Some?
    ensures forall k :: GroupOf(GroupResultsSpec(results).value, k) == WithKey(Present(results), k)
  {
    forall k ensures GroupOf(GroupResultsSpec(results).value, k) == WithKey(Present(results), k) {
      GroupedByTable(Present(results), k);
    }
  }

  /** Quick-search results are grouped only when asked for, and then every model sits in its table's group. */
  lemma QuickSearchGroups(config: seq<Pair>, ignoreLocale: Value, term: Value, perPage: Value, group: Value,
                          appLocale: Value, reg: Registry, response: Value)
    requires QuickSearchSpec(config, ignoreLocale, term, perPage, group, appLocale, reg, response).Success?
    ensures var r := QuickSearchSpec(config, ignoreLocale, term, perPage, group, appLocale, reg, response).value;
      var results := PerformSearchSpec(config, ignoreLocale, term, QuickOptions(perPage), appLocale, reg, response).value;
      (r.Groups? <==> Truthy(group)) &&
      (r.Items? ==> r.items == results) &&
      (r.Groups? ==> (forall i :: 0 <= i < |results| ==> results[i].Some?) &&
                     forall k :: GroupOf(r.groups, k) == WithKey(Present(results), k))
  {
    var results := PerformSearchSpec(config, ignoreLocale, term, QuickOptions(perPage), appLocale, reg, response).value;
    if Truthy(group) {
      GroupResultsByTable(results);
    }
  }

  /** `SearchParams` once its basic parameters and its options are known. */
  lemma SearchParamsSteps(config: seq<Pair>, ignoreLocale: Value, term: Value, options: seq<Pair>, appLocale: Value,
                          basic: seq<Pair>, opts: seq<Pair>)
    requires GetBasicParams(config, options) == Success(basic)
    requires LocaleOptions(config, ignoreLocale, options, appLocale) == Success(opts)
    ensures SearchParams(config, ignoreLocale, term, options, appLocale) ==
      if Truthy(MustFilters(opts)) && !MustFilters(opts).Arr? then
        Failure(TypeError("array_filter(): Argument #1 ($array) must be of type array"))
      else Success(Set(basic, StrKey("body"), SearchBody(term, SearchFields(config, options), MustFilters(opts))))
  {
  }

  lemma TermClausesSnoc(filters: seq<Pair>, i: nat)
    requires i < |filters|
    ensures TermClauses(filters[..i + 1]) == TermClauses(filters[..i]) + [TermClause(filters[i])]
  {
    assert filters[..i + 1][..i] == filters[..i];
  }

  lemma TermClausesAll(filters: seq<Pair>)
    ensures TermClauses(filters[..|filters|]) == TermClauses(filters)
  {
    assert filters[..|filters|] == filters;
  }

  // ---------------------------------------------------------------------------
  // The Hunter
  // ---------------------------------------------------------------------------

  class Hunter {
    /** The package configuration (`config/hunt.php`). */
    const config: seq<Pair>
    /** `$ignore_locale`: only the boolean `false` makes searches add the locale filter. */
    var ignoreLocale: Value
    /** Every request sent to Elasticsearch, in order. */
    var requests: seq<Request>

    /** The locale field is ignored exactly when none is configured. */
    constructor(config: seq<Pair>)
      ensures this.config == config
      ensures ignoreLocale == Bool(!Truthy(Config(config, "locale_field", Null)))
      ensures requests == []
    {
      this.config := config;
      ignoreLocale := Bool(!Truthy(Config(config, "locale_field", Null)));
      requests := [];
    }

    /** `ignoreLocale`. */
    method IgnoreLocale(val: Value)
      modifies this`ignoreLocale
      ensures ignoreLocale == val
    {
      ignoreLocale := val;
    }

    /** `update`: one bulk request indexing every model. */
    method Update(models: Models)
      modifies this`requests
      ensures requests == old(requests) + [Bulk(BulkParams(UpdateBody(config, AsCollection(models))))]
    {
      var ms := AsCollection(models);
      var body: seq<Value> := [];
      for i := 0 to |ms|
        invariant body == UpdateBody(config, ms[..i])
        invariant requests == old(requests)
      {
        var m := ms[i];
        // the document always holds `huntable_type`, so the `empty` guard never skips a model
        var document := GetModelDocumentData(m);
        body := body + [IndexAction(config, m), Arr(document)];
        UpdateBodySnoc(config, ms, i);
      }
      assert ms[..|ms|] == ms;
      requests := requests + [Bulk(BulkParams(body))];
    }

    /** `remove`: one bulk request deleting every model. */
    method Remove(models: Models)
      modifies this`requests
      ensures requests == old(requests) + [Bulk(BulkParams(RemoveBody(config, AsCollection(models))))]
    {
      var ms := AsCollection(models);
      var body: seq<Value> := [];
      for i := 0 to |ms|
        invariant body == RemoveBody(config, ms[..i])
        invariant requests == old(requests)
      {
        body := body + [DeleteAction(config, ms[i])];
        RemoveBodySnoc(config, ms, i);
      }
      assert ms[..|ms|] == ms;
      requests := requests + [Bulk(BulkParams(body))];
    }

    /**
     * `getSearchParams`, returning the parameters it builds: the basic
     * parameters, then the query, then one term filter per truthy
     * must-filter once the locale is filled in.
     */
    method GetSearchParams(term: Value, options: seq<Pair>, appLocale: Value) returns (r: Result<seq<Pair>>)
      ensures r == SearchParams(config, ignoreLocale, term, options, appLocale)
    {
      var params :- GetBasicParams(config, options);
      var query := QueryClause(term, SearchFields(config, options));
      var opts :- LocaleOptions(config, ignoreLocale, options, appLocale);
      SearchParamsSteps(config, ignoreLocale, term, options, appLocale, params, opts);
      var body := [Pair(StrKey("query"), query)];
      var filterMusts := MustFilters(opts);
      if Truthy(filterMusts) {
        if !filterMusts.Arr? {
          return Failure(TypeError("array_filter(): Argument #1 ($array) must be of type array"));
        }
        var clauses := TermFilters(ArrayFilter(filterMusts.entries));
        body := body + FilterSection(clauses);
      }
      assert Arr(body) == SearchBody(term, SearchFields(config, options), filterMusts);
      r := Success(Set(params, StrKey("body"), Arr(body)));
    }

    /** The `foreach` of `getSearchParams`: one term clause per must-filter, in order. */
    method TermFilters(filters: seq<Pair>) returns (clauses: seq<Value>)
      ensures clauses == TermClauses(filters)
    {
      clauses := [];
      for i := 0 to |filters|
        invariant clauses == TermClauses(filters[..i])
      {
        TermClausesSnoc(filters, i);
        clauses := clauses + [TermClause(filters[i])];
      }
      TermClausesAll(filters);
    }

    /** `performSearch`: sends the search and hydrates its response. */
    method PerformSearch(term: Value, options: seq<Pair>, appLocale: Value, reg: Registry, response: Value)
      returns (r: Result<seq<Option<Instance>>>)
      requires WellFormed(response)
      modifies this`requests
      ensures r == PerformSearchSpec(config, ignoreLocale, term, options, appLocale, reg, response)
      ensures requests == old(requests) + SearchRequest(SearchParams(config, ignoreLocale, term, options, appLocale))
    {
      var params := GetSearchParams(term, options, appLocale);
      if params.Failure? {
        return Failure(params.error);
      }
      requests := requests + [SearchCall(Arr(params.value))];
      r := HydrateResults(reg, response);
    }

    /** `paginateResults`. */
    method PaginateResults(reg: Registry, response: Value, page: int, perPage: int, term: Value) returns (r: Result<Page>)
      requires WellFormed(response)
      ensures r == PaginateSpec(reg, response, page, perPage, term)
    {
      var total :- Total(response);
      var items :- HydrateResults(reg, response);
      if perPage == 0 {
        r := Failure(DivisionByZero);
      } else {
        var current := if page >= 1 then page else 1;
        r := Success(Page(items, total, perPage, current, [Pair(StrKey("q"), term)]));
      }
    }

    /** `search`: the current page `page` of `perPage` results. */
    method Search(term: Value, perPage: int, options: seq<Pair>, page: int, appLocale: Value, reg: Registry, response: Value)
      returns (r: Result<Page>)
      requires WellFormed(response)
      modifies this`requests
      ensures r == SearchSpec(config, ignoreLocale, term, perPage, options, page, appLocale, reg, response)
      ensures requests == old(requests) +
        SearchRequest(SearchParams(config, ignoreLocale, term, SearchOptions(perPage, page, options), appLocale))
    {
      var params := GetSearchParams(term, SearchOptions(perPage, page, options), appLocale);
      if params.Failure? {
        return Failure(params.error);
      }
      requests := requests + [SearchCall(Arr(params.value))];
      r := PaginateResults(reg, response, page, perPage, term);
    }

    /** `quickSearch`. */
    method QuickSearch(term: Value, perPage: Value, group: Value, appLocale: Value, reg: Registry, response: Value)
      returns (r: Result<QuickResults>)
      requires WellFormed(response)
      modifies this`requests
      ensures r == QuickSearchSpec(config, ignoreLocale, term, perPage, group, appLocale, reg, response)
      ensures requests == old(requests) +
        SearchRequest(SearchParams(config, ignoreLocale, term, QuickOptions(perPage), appLocale))
    {
      var results :- PerformSearch(term, [Pair(StrKey("size"), perPage)], appLocale, reg, response);
      if Truthy(group) {
        var groups :- GroupResults(results);
        r := Success(Groups(groups));
      } else {
        r := Success(Items(results));
      }
    }

    /** `groupResults`: walks the results, appending each to the group of its table. */
    method GroupResults(results: seq<Option<Instance>>) returns (r: Result<seq<Group>>)
      ensures r == GroupResultsSpec(results)
    {
      var groups: seq<Group> := [];
      for i := 0 to |results|
        invariant forall m :: 0 <= m < i ==> results[m].Some?
        invariant groups == GroupedUpTo(results, i)
      {
        if results[i].None? {
          GroupResultsNull(results, i);
          return Failure(CallOnNull("getTable"));
        }
        var item := results[i].value;
        groups := AddToGroup(groups, TableKey(item), item);
      }
      GroupResultsAll(results, groups);
      r := Success(groups);
    }
  }
}
