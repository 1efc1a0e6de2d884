/**
 * Properties of the catalog handlers that relate several requests: records are never
 * removed, the availability and deletion flags only move one way, deleted records stay
 * out of every listing, the end-user listing sits inside the admin listing, and the
 * bulk and delete operations are idempotent.
 */
module CatalogProperties {
  import opened Wrappers
  import opened ItemStore
  import opened ItemsController

  /** `after` keeps every record of `before`, and neither flag has moved back:
      a sold record stays sold and a deleted record stays deleted. */
  predicate OneWay(before: Store, after: Store) {
    && before.Keys <= after.Keys
    && forall id :: id in before ==>
         && (!before[id].available ==> !after[id].available)
         && (before[id].deleted ==> after[id].deleted)
  }

  /** Every handler keeps the schema's required fields on every record. */
  lemma HandleKeepsStoreValid(store: Store, req: Request, env: Env)
    requires ValidStore(store)
    ensures ValidStore(Handle(store, req, env).store)
  {
    match req
    case SaveItemRequest(save) => SaveKeepsStoreValid(store, save, env.upload, env.newId);
    case UpdateItemRequest(id, update) => UpdateKeepsStoreValid(store, id, update, env.upload);
    case MarkUnavailableRequest(ids) => MarkKeepsStoreValid(store, ids);
    case DeleteItemRequest(id) => DeleteKeepsStoreValid(store, id);
    case _ =>
  }

  lemma SaveKeepsStoreValid(store: Store, req: SaveRequest, upload: Option<string>, newId: Id)
    requires ValidStore(store)
    ensures ValidStore(SaveItem(store, req, upload, newId).store)
  {
  }

  lemma UpdateKeepsStoreValid(store: Store, id: Id, req: UpdateRequest, upload: Option<string>)
    requires ValidStore(store)
    ensures ValidStore(UpdateItem(store, id, req, upload).store)
  {
    var out := UpdateItem(store, id, req, upload);
    if out.response.Ok? {
      assert HasRequiredFields(out.store[id]);
    }
  }

  lemma MarkKeepsStoreValid(store: Store, itemIds: Option<seq<Id>>)
    requires ValidStore(store)
    ensures ValidStore(MarkItemsUnavailable(store, itemIds).store)
  {
  }

  lemma DeleteKeepsStoreValid(store: Store, id: Id)
    requires ValidStore(store)
    ensures ValidStore(DeleteItem(store, id).store)
  {
  }

  /** No handler removes a record, makes a sold record available, or undeletes one. */
  lemma HandleIsOneWay(store: Store, req: Request, env: Env)
    ensures OneWay(store, Handle(store, req, env).store)
  {
    match req
    case SaveItemRequest(save) => SaveIsOneWay(store, save, env.upload, env.newId);
    case UpdateItemRequest(id, update) => UpdateIsOneWay(store, id, update, env.upload);
    case MarkUnavailableRequest(ids) => MarkIsOneWay(store, ids);
    case DeleteItemRequest(id) => DeleteIsOneWay(store, id);
    case _ =>
  }

  /** A create leaves every existing record exactly as it was. */
  lemma SaveIsOneWay(store: Store, req: SaveRequest, upload: Option<string>, newId: Id)
    ensures var after := SaveItem(store, req, upload, newId).store;
            store.Keys <= after.Keys && forall id :: id in store ==> after[id] == store[id]
    ensures OneWay(store, SaveItem(store, req, upload, newId).store)
  {
  }

  /** An update keeps the set of records and changes neither flag of any record. */
  lemma UpdateIsOneWay(store: Store, id: Id, req: UpdateRequest, upload: Option<string>)
    ensures var after := UpdateItem(store, id, req, upload).store;
            && after.Keys == store.Keys
            && forall k :: k in store ==>
                 after[k].available == store[k].available && after[k].deleted == store[k].deleted
    ensures OneWay(store, UpdateItem(store, id, req, upload).store)
  {
  }

  lemma MarkIsOneWay(store: Store, itemIds: Option<seq<Id>>)
    ensures OneWay(store, MarkItemsUnavailable(store, itemIds).store)
  {
  }

  lemma DeleteIsOneWay(store: Store, id: Id)
    ensures OneWay(store, DeleteItem(store, id).store)
  {
  }

  /** A whole run of requests keeps every store valid. */
  lemma {:induction false} RunKeepsStoreValid(store: Store, reqs: seq<Request>, envs: seq<Env>)
    requires |reqs| == |envs|
    requires ValidStore(store)
    ensures ValidStore(Run(store, reqs, envs))
    decreases |reqs|
  {
    if |reqs| > 0 {
      HandleKeepsStoreValid(store, reqs[0], envs[0]);
      RunKeepsStoreValid(Handle(store, reqs[0], envs[0]).store, reqs[1..], envs[1..]);
    }
  }

  /** Over any run of requests, records are kept and both flags move one way only. */
  lemma {:induction false} RunIsOneWay(store: Store, reqs: seq<Request>, envs: seq<Env>)
    requires |reqs| == |envs|
    ensures OneWay(store, Run(store, reqs, envs))
    decreases |reqs|
  {
    if |reqs| > 0 {
      var next := Handle(store, reqs[0], envs[0]).store;
      HandleIsOneWay(store, reqs[0], envs[0]);
      RunIsOneWay(next, reqs[1..], envs[1..]);
    }
  }

  /** Once deleted, a record never shows in either listing again, whatever requests
      follow, yet a lookup by id still returns it, marked deleted. */
  lemma DeletedStaysHidden(store: Store, reqs: seq<Request>, envs: seq<Env>, id: Id)
    requires |reqs| == |envs|
    requires id in store && store[id].deleted
    ensures var final := Run(store, reqs, envs);
            && (GetItems(final).Ok? ==> id !in GetItems(final).value.items)
            && (GetItemsForUsers(final).Ok? ==> id !in GetItemsForUsers(final).value.items)
            && GetOneItem(final, id).Ok? && GetOneItem(final, id).value.item.deleted
  {
    RunIsOneWay(store, reqs, envs);
  }

  /** Once sold, a record never reaches the end-user listing again, whatever requests
      follow; the admin listing still shows it for as long as it is not deleted. */
  lemma SoldStaysOffUserListing(store: Store, reqs: seq<Request>, envs: seq<Env>, id: Id)
    requires |reqs| == |envs|
    requires id in store && !store[id].available
    ensures var final := Run(store, reqs, envs);
            && id in final && !final[id].available
            && (GetItemsForUsers(final).Ok? ==> id !in GetItemsForUsers(final).value.items)
            && (!final[id].deleted ==>
                  GetItems(final).Ok? && id in GetItems(final).value.items)
  {
    RunIsOneWay(store, reqs, envs);
  }

  /** The end-user listing is part of the admin listing: whenever users get a listing,
      the admin gets one too, holding each of those records unchanged. An admin-listed
      record is user-listed exactly when it is available. */
  lemma UserListingWithinAdminListing(store: Store)
    ensures GetItemsForUsers(store).Ok? ==> GetItems(store).Ok?
    ensures GetItemsForUsers(store).Ok? ==>
              var users, admin := GetItemsForUsers(store).value.items, GetItems(store).value.items;
              users.Keys <= admin.Keys && forall id :: id in users ==> users[id] == admin[id]
    ensures GetItems(store).Ok? && GetItemsForUsers(store).Ok? ==>
              forall id :: id in GetItems(store).value.items ==>
                (id in GetItemsForUsers(store).value.items <==> store[id].available)
  {
  }

  /** Marking the same ids twice leaves the store as marking them once. */
  lemma MarkIsIdempotent(store: Store, itemIds: Option<seq<Id>>)
    ensures var once := MarkItemsUnavailable(store, itemIds).store;
            MarkItemsUnavailable(once, itemIds).store == once
  {
    var once := MarkItemsUnavailable(store, itemIds).store;
    var twice := MarkItemsUnavailable(once, itemIds).store;
    assert forall id :: id in once ==> twice[id] == once[id];
  }

  /** Deleting a record twice leaves the store as deleting it once. */
  lemma DeleteIsIdempotent(store: Store, id: Id)
    ensures var once := DeleteItem(store, id).store;
            DeleteItem(once, id).store == once
  {
  }

  /** After a successful delete the record is kept and found by id, flagged deleted and
      otherwise as it was, and neither listing shows it. */
  lemma DeleteHidesButKeeps(store: Store, id: Id)
    requires DeleteItem(store, id).response.Ok?
    ensures var after := DeleteItem(store, id).store;
            && GetOneItem(after, id) == Ok(Found(store[id].(deleted := true)))
            && (GetItems(after).Ok? ==> id !in GetItems(after).value.items)
            && (GetItemsForUsers(after).Ok? ==> id !in GetItemsForUsers(after).value.items)
  {
  }

  /** Resending the same text fields (no file) changes nothing more. */
  lemma UpdateWithoutFileIsIdempotent(store: Store, id: Id, req: UpdateRequest, upload: Option<string>)
    requires !req.hasFile
    ensures var once := UpdateItem(store, id, req, upload).store;
            UpdateItem(once, id, req, upload).store == once
  {
    if id in store {
      UpdatedRecordIsStable(store[id], req, upload);
    }
  }

  lemma UpdatedRecordIsStable(item: Item, req: UpdateRequest, upload: Option<string>)
    requires !req.hasFile
    ensures var r := UpdatedRecord(item, req, upload);
            r.Some? ==> UpdatedRecord(r.value, req, upload) == r
  {
  }

  /** Creating an item, then asking for it, then creating it again: the record comes
      back available and not deleted, and the second create is refused as a duplicate
      (after the upload it still makes). */
  lemma SaveThenDuplicate(store: Store, req: SaveRequest, upload: Option<string>, newId: Id,
                          upload2: Option<string>, newId2: Id)
    requires SaveItem(store, req, upload, newId).response.Ok?
    requires upload2.Some?
    ensures var after := SaveItem(store, req, upload, newId).store;
            && GetOneItem(after, newId).Ok?
            && GetOneItem(after, newId).value.item.available
            && !GetOneItem(after, newId).value.item.deleted
            && SaveItem(after, req, upload2, newId2)
                 == Step(after, Err(BadRequest("Item already available")), [Uploaded(upload2.value)])
  {
    var after := SaveItem(store, req, upload, newId).store;
    assert HasDuplicate(after, req.name.value, req.price.value, req.size.value) by {
      assert after[newId].name == req.name.value;
    }
  }

  /** The duplicate lookup does not skip deleted records: after soft-deleting an item,
      creating it again is still refused. */
  lemma DeletedItemStillBlocksSave(store: Store, id: Id, req: SaveRequest, upload: Option<string>, newId: Id)
    requires DeleteItem(store, id).response.Ok?
    requires Truthy(req.name) && Truthy(req.price) && Truthy(req.size) && req.hasFile && upload.Some?
    requires req.name.value == store[id].name && req.price.value == store[id].price
             && req.size.value == store[id].size
    ensures SaveItem(DeleteItem(store, id).store, req, upload, newId).response
              == Err(BadRequest("Item already available"))
  {
    var after := DeleteItem(store, id).store;
    assert after[id].name == store[id].name;
  }
}
