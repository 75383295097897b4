/**
 * How the Hunter turns a model into index coordinates and a document:
 * `getIndexName`, `getModelIndexName`, `getModelDocumentData` and
 * `getModelParams` (src/Hunter.php), with the `Huntable` trait's defaults
 * they fall back on (`getHunterIndex`, `getHunterDocumentData`).
 */
module Documents {
  import opened Php
  import Huntable

  /** `config('index', 'default')`: the one index every model lives in. */
  function GetIndexName(config: seq<Pair>): (r: Value)
    ensures !HasKey(config, StrKey("index")) ==> r == Str("default")
    ensures HasKey(config, StrKey("index")) ==> Some(r) == Lookup(config, StrKey("index"))
  {
    KeyOfWord("index");
    ArrGet(Arr(config), "index", Str("default"))
  }

  /** `getModelIndexName`: the model's `searchableAs()` when its class declares one, else `getHunterIndex()`. */
  function GetModelIndexName(m: Model): Value {
    match m.info.searchableAs
    case Some(name) => name
    case None => Huntable.GetHunterIndex(m)
  }

  /** Without a `searchableAs()` override the index type of a model is its table name. */
  lemma ModelIndexNameFallback(m: Model)
    ensures m.info.searchableAs.None? ==> GetModelIndexName(m) == Str(m.info.table)
    ensures m.info.searchableAs.Some? ==> GetModelIndexName(m) == m.info.searchableAs.value
  {
  }

  /**
   * `getModelDocumentData`: the model's `getHunterDocumentData()` with the
   * class name added under `huntable_type`, so the document is never empty.
   */
  function GetModelDocumentData(m: Model): (r: seq<Pair>)
    ensures Lookup(r, StrKey("huntable_type")) == Some(Str(m.cls))
    ensures |r| > 0
  {
    var data := Huntable.GetHunterDocumentData(m);
    LookupSet(data, StrKey("huntable_type"), Str(m.cls), StrKey("huntable_type"));
    Set(data, StrKey("huntable_type"), Str(m.cls))
  }

  /** Every other field of the document is the model's own `toArray()` field. */
  lemma DocumentDataKeepsFields(m: Model, k: Key)
    requires k != StrKey("huntable_type")
    ensures Lookup(GetModelDocumentData(m), k) == Lookup(m.data, k)
  {
    LookupSet(m.data, StrKey("huntable_type"), Str(m.cls), k);
  }

  /** `getModelParams`: index, type and id of the model, with the falsy ones dropped. */
  function GetModelParams(config: seq<Pair>, m: Model): (r: seq<Pair>)
    ensures forall i :: 0 <= i < |r| ==> Truthy(r[i].val)
  {
    ArrayFilter(ModelCoordinates(config, m))
  }

  function ModelCoordinates(config: seq<Pair>, m: Model): seq<Pair> {
    [
      Pair(StrKey("index"), GetIndexName(config)),
      Pair(StrKey("type"), GetModelIndexName(m)),
      Pair(StrKey("id"), m.key)
    ]
  }

  /** Each of index, type and id is present exactly when it is truthy, with its own value. */
  lemma ModelParamsFields(config: seq<Pair>, m: Model)
    ensures Lookup(GetModelParams(config, m), StrKey("id")) ==
      if Truthy(m.key) then Some(m.key) else None
    ensures Lookup(GetModelParams(config, m), StrKey("type")) ==
      if Truthy(GetModelIndexName(m)) then Some(GetModelIndexName(m)) else None
    ensures Lookup(GetModelParams(config, m), StrKey("index")) ==
      if Truthy(GetIndexName(config)) then Some(GetIndexName(config)) else None
  {
    var es := ModelCoordinates(config, m);
    assert |"index"| == 5 && |"type"| == 4 && |"id"| == 2;
    assert Distinct(es);
    LookupAt(es, 0);
    LookupAt(es, 1);
    LookupAt(es, 2);
    LookupArrayFilter(es, StrKey("id"));
    LookupArrayFilter(es, StrKey("type"));
    LookupArrayFilter(es, StrKey("index"));
  }
}
