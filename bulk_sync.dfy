/**
 * The bulk requests `Hunter::update` and `Hunter::remove` send
 * (src/Hunter.php): one action line per model, followed by the model's
 * document for an index action.
 */
module BulkSync {
  import opened Php
  import opened Documents

  /** A single model (wrapped into a one-element collection) or a collection of models. */
  datatype Models = One(model: Model) | Many(models: seq<Model>)

  function AsCollection(models: Models): (ms: seq<Model>)
    ensures models.One? ==> ms == [models.model]
    ensures models.Many? ==> ms == models.models
  {
    match models
    case One(m) => [m]
    case Many(ms) => ms
  }

  /** The `index` action line for one model. */
  function IndexAction(config: seq<Pair>, m: Model): Value {
    Arr([Pair(StrKey("index"), Arr([
      Pair(StrKey("_index"), GetIndexName(config)),
      Pair(StrKey("_type"), GetModelIndexName(m)),
      Pair(StrKey("_id"), m.key),
      Pair(StrKey("_retry_on_conflict"), Int(3))
    ]))])
  }

  /** The `delete` action line for one model. */
  function DeleteAction(config: seq<Pair>, m: Model): Value {
    Arr([Pair(StrKey("delete"), Arr([
      Pair(StrKey("_index"), GetIndexName(config)),
      Pair(StrKey("_type"), GetModelIndexName(m)),
      Pair(StrKey("_id"), m.key)
    ]))])
  }

  /**
   * The body `update` collects, model by model. The `empty($array)` guard
   * never fires: the document always holds `huntable_type`.
   */
  function UpdateBody(config: seq<Pair>, ms: seq<Model>): seq<Value> {
    if |ms| == 0 then []
    else
      var m := ms[|ms| - 1];
      UpdateBody(config, ms[..|ms| - 1]) + [IndexAction(config, m), Arr(GetModelDocumentData(m))]
  }

  /** The body `remove` collects, model by model. */
  function RemoveBody(config: seq<Pair>, ms: seq<Model>): seq<Value> {
    if |ms| == 0 then [] else RemoveBody(config, ms[..|ms| - 1]) + [DeleteAction(config, ms[|ms| - 1])]
  }

  /** The parameters of the bulk call: refresh the index, and send the body as a list. */
  function BulkParams(body: seq<Value>): (r: Value)
    ensures r.Arr? && Lookup(r.entries, StrKey("refresh")) == Some(Bool(true))
    ensures Lookup(r.entries, StrKey("body")) == Some(Arr(List(body)))
  {
    var es := [Pair(StrKey("refresh"), Bool(true)), Pair(StrKey("body"), Arr(List(body)))];
    assert |"refresh"| == 7 && |"body"| == 4;
    LookupAt(es, 0);
    LookupAt(es, 1);
    Arr(es)
  }

  /** The body for a single model: its index action and its document, or its delete action. */
  lemma SingleModelBodies(config: seq<Pair>, m: Model)
    ensures UpdateBody(config, [m]) == [IndexAction(config, m), Arr(GetModelDocumentData(m))]
    ensures RemoveBody(config, [m]) == [DeleteAction(config, m)]
  {
    assert [m][..0] == [];
  }

  /** One more model appends its action and document. */
  lemma UpdateBodySnoc(config: seq<Pair>, ms: seq<Model>, i: nat)
    requires i < |ms|
    ensures UpdateBody(config, ms[..i + 1]) == UpdateBody(config, ms[..i]) + [IndexAction(config, ms[i]), Arr(GetModelDocumentData(ms[i]))]
  {
    assert ms[..i + 1][..i] == ms[..i];
  }

  /** One more model appends its delete action. */
  lemma RemoveBodySnoc(config: seq<Pair>, ms: seq<Model>, i: nat)
    requires i < |ms|
    ensures RemoveBody(config, ms[..i + 1]) == RemoveBody(config, ms[..i]) + [DeleteAction(config, ms[i])]
  {
    assert ms[..i + 1][..i] == ms[..i];
  }

  lemma {:induction false} UpdateBodyLength(config: seq<Pair>, ms: seq<Model>)
    ensures |UpdateBody(config, ms)| == 2 * |ms|
  {
    if |ms| > 0 {
      UpdateBodyLength(config, ms[..|ms| - 1]);
    }
  }

  /**
   * The update body alternates action and document: for the `i`-th model,
   * entry `2i` is its index action and entry `2i + 1` its document, so no
   * model is skipped, repeated or reordered.
   */
  lemma {:induction false} UpdateBodyShape(config: seq<Pair>, ms: seq<Model>, i: nat)
    requires i < |ms|
    ensures |UpdateBody(config, ms)| == 2 * |ms|
    ensures UpdateBody(config, ms)[2 * i] == IndexAction(config, ms[i])
    ensures UpdateBody(config, ms)[2 * i + 1] == Arr(GetModelDocumentData(ms[i]))
  {
    var init := ms[..|ms| - 1];
    var last := ms[|ms| - 1];
    var prefix := UpdateBody(config, init);
    var pair := [IndexAction(config, last), Arr(GetModelDocumentData(last))];
    UpdateBodyLength(config, init);
    assert UpdateBody(config, ms) == prefix + pair;
    if i < |init| {
      UpdateBodyShape(config, init, i);
      assert ms[i] == init[i];
      assert (prefix + pair)[2 * i] == prefix[2 * i] && (prefix + pair)[2 * i + 1] == prefix[2 * i + 1];
    } else {
      assert (prefix + pair)[2 * i] == pair[0] && (prefix + pair)[2 * i + 1] == pair[1];
    }
  }



  /** The remove body holds exactly one delete action per model, in order. */
  lemma {:induction false} RemoveBodyShape(config: seq<Pair>, ms: seq<Model>)
    ensures |RemoveBody(config, ms)| == |ms|
    ensures forall j :: 0 <= j < |ms| ==> RemoveBody(config, ms)[j] == DeleteAction(config, ms[j])
  {
    if |ms| > 0 {
      var init := ms[..|ms| - 1];
      RemoveBodyShape(config, init);
      forall j | 0 <= j < |ms| ensures RemoveBody(config, ms)[j] == DeleteAction(config, ms[j]) {
        if j < |init| {
          assert ms[j] == init[j];
        }
      }
    }
  }

  /**
   * Each index action names the configured index (`default` without one),
   * the model's index type and its key, and retries three times on conflict.
   */
  lemma IndexActionFields(config: seq<Pair>, m: Model)
    ensures IndexAction(config, m).Arr?
    ensures var meta := Lookup(IndexAction(config, m).entries, StrKey("index"));
      meta.Some? && meta.value.Arr? &&
      Lookup(meta.value.entries, StrKey("_index")) == Some(GetIndexName(config)) &&
      Lookup(meta.value.entries, StrKey("_type")) == Some(GetModelIndexName(m)) &&
      Lookup(meta.value.entries, StrKey("_id")) == Some(m.key) &&
      Lookup(meta.value.entries, StrKey("_retry_on_conflict")) == Some(Int(3))
    ensures !HasKey(config, StrKey("index")) ==>
      Lookup(Lookup(IndexAction(config, m).entries, StrKey("index")).value.entries, StrKey("_index")) ==
        Some(Str("default"))
  {
    var meta := [
      Pair(StrKey("_index"), GetIndexName(config)),
      Pair(StrKey("_type"), GetModelIndexName(m)),
      Pair(StrKey("_id"), m.key),
      Pair(StrKey("_retry_on_conflict"), Int(3))
    ];
    assert |"_index"| == 6 && |"_type"| == 5 && |"_id"| == 3 && |"_retry_on_conflict"| == 18;
    assert Distinct(meta);
    LookupAt(meta, 0);
    LookupAt(meta, 1);
    LookupAt(meta, 2);
    LookupAt(meta, 3);
  }
}
