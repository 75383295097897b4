/**
 * The side of the `Huntable` trait (src/Huntable.php) that acts through
 * other objects: a model adds itself to or removes itself from the index
 * through the application's Hunter, and `search` starts a builder.
 */
module HuntableHooks {
  import opened Php
  import opened Documents
  import opened BulkSync
  import opened Huntable
  import Hunter
  import Builder

  /** `addToHunt`: one bulk request with the model's index action and document. */
  method AddToHunt(m: Model, hunter: Hunter.Hunter)
    modifies hunter`requests
    ensures hunter.requests == old(hunter.requests) +
      [Hunter.Bulk(BulkParams([IndexAction(hunter.config, m), Arr(GetModelDocumentData(m))]))]
  {
    SingleModelBodies(hunter.config, m);
    hunter.Update(One(m));
  }

  /** `removeFromHunt`: one bulk request with the model's delete action. */
  method RemoveFromHunt(m: Model, hunter: Hunter.Hunter)
    modifies hunter`requests
    ensures hunter.requests == old(hunter.requests) + [Hunter.Bulk(BulkParams([DeleteAction(hunter.config, m)]))]
  {
    SingleModelBodies(hunter.config, m);
    hunter.Remove(One(m));
  }

  /** `search`: a new builder over a fresh instance of the class, with no limit yet. */
  method Search(cls: string, info: ClassInfo, query: Value, options: seq<Pair>) returns (b: Builder.Builder)
    ensures fresh(b)
    ensures b.model == NewInstance(cls, info) && b.query == query && b.options == options && b.limit == Null
  {
    b := new Builder.Builder(NewInstance(cls, info), query, options);
  }
}
