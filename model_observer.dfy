/**
 * The observer the `Huntable` trait registers on every huntable model
 * (src/ModelObserver.php): the model's lifecycle events keep its document
 * in the index.
 */
module ModelObserver {
  import opened Php
  import opened Documents
  import opened BulkSync
  import Hunter
  import HuntableHooks

  /** `created`: the model is indexed. */
  method Created(m: Model, hunter: Hunter.Hunter)
    modifies hunter`requests
    ensures hunter.requests == old(hunter.requests) +
      [Hunter.Bulk(BulkParams([IndexAction(hunter.config, m), Arr(GetModelDocumentData(m))]))]
  {
    HuntableHooks.AddToHunt(m, hunter);
  }

  /** `updated`: the model is indexed again, replacing its document. */
  method Updated(m: Model, hunter: Hunter.Hunter)
    modifies hunter`requests
    ensures hunter.requests == old(hunter.requests) +
      [Hunter.Bulk(BulkParams([IndexAction(hunter.config, m), Arr(GetModelDocumentData(m))]))]
  {
    Created(m, hunter);
  }

  /** `deleted`: the model's document is deleted. */
  method Deleted(m: Model, hunter: Hunter.Hunter)
    modifies hunter`requests
    ensures hunter.requests == old(hunter.requests) + [Hunter.Bulk(BulkParams([DeleteAction(hunter.config, m)]))]
  {
    HuntableHooks.RemoveFromHunt(m, hunter);
  }

  /** `restored`: a soft-deleted model is indexed again. */
  method Restored(m: Model, hunter: Hunter.Hunter)
    modifies hunter`requests
    ensures hunter.requests == old(hunter.requests) +
      [Hunter.Bulk(BulkParams([IndexAction(hunter.config, m), Arr(GetModelDocumentData(m))]))]
  {
    Created(m, hunter);
  }
}
