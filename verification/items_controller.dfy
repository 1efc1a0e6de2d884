/**
 * The catalog request handlers (`server/controllers/itemsController.js`), each a pure
 * function from the store and the request to the new store, the HTTP response and the
 * calls made to the media host.
 *
 * The media host's upload is an oracle argument (`Some(url)` on success, `None` when it
 * throws); a destroy call never fails and is only recorded. The id the database would
 * give a new document is an argument too.
 */
module ItemsController {
  import opened Wrappers
  import opened ItemStore
  import Text

  // ---------------------------------------------------------------- responses

  datatype Failure =
    | BadRequest(message: string)    // 400
    | NotFound(message: string)      // 404
    | ServerError(message: string)   // 500

  datatype Reply =
    | Saved(id: Id, item: Item)      // 201
    | Catalog(items: Store)          // 200, a listing
    | Found(item: Item)              // 200
    | Updated(item: Item)            // 200
    | Done(message: string)          // 200

  type Response = Result<Reply, Failure>

  /** The HTTP status code the handler sends. */
  function Status(r: Response): (code: nat)
    ensures r.Ok? <==> code < 400
    ensures code == 201 <==> r.Ok? && r.value.Saved?
    ensures code == 200 <==> r.Ok? && !r.value.Saved?
    ensures code == 400 <==> r.Err? && r.error.BadRequest?
    ensures code == 404 <==> r.Err? && r.error.NotFound?
    ensures code == 500 <==> r.Err? && r.error.ServerError?
  {
    match r
    case Ok(Saved(_, _)) => 201
    case Ok(_) => 200
    case Err(BadRequest(_)) => 400
    case Err(NotFound(_)) => 404
    case Err(ServerError(_)) => 500
  }

  /** A call made to the media host. */
  datatype MediaEvent = Uploaded(url: string) | Destroyed(publicId: string)

  /** What one handler invocation leaves behind. */
  datatype Step = Step(store: Store, response: Response, media: seq<MediaEvent>)

  /** A form field is truthy in JavaScript: present and not the empty string. */
  predicate Truthy(field: Option<string>) {
    field.Some? && field.value != ""
  }

  // ---------------------------------------------------------------- saveItem

  datatype SaveRequest = SaveRequest(
    name: Option<string>, price: Option<string>, size: Option<string>, hasFile: bool)

  /** Some record, deleted or not, already has exactly this name, price and size. */
  predicate HasDuplicate(store: Store, name: string, price: string, size: string) {
    exists id :: id in store && store[id].name == name && store[id].price == price
                              && store[id].size == size
  }

  /** `saveItem`: the field check, then the file check, then the upload, then the
      duplicate lookup (which does not skip deleted records), then the insert. */
  function SaveItem(store: Store, req: SaveRequest, upload: Option<string>, newId: Id): (out: Step)
    // the gates, in order
    ensures !(Truthy(req.name) && Truthy(req.price) && Truthy(req.size)) ==>
              out == Step(store, Err(BadRequest("All details required")), [])
    ensures Truthy(req.name) && Truthy(req.price) && Truthy(req.size) && !req.hasFile ==>
              out == Step(store, Err(BadRequest("Image is required!")), [])
    ensures Truthy(req.name) && Truthy(req.price) && Truthy(req.size) && req.hasFile
            && upload.Some? && HasDuplicate(store, req.name.value, req.price.value, req.size.value) ==>
              out == Step(store, Err(BadRequest("Item already available")), [Uploaded(upload.value)])
    // a failed upload, and an insert the database refuses, are server failures
    ensures Truthy(req.name) && Truthy(req.price) && Truthy(req.size) && req.hasFile && upload.None? ==>
              out == Step(store, Err(ServerError("Server failed to save item")), [])
    ensures Truthy(req.name) && Truthy(req.price) && Truthy(req.size) && req.hasFile
            && upload.Some? && !HasDuplicate(store, req.name.value, req.price.value, req.size.value)
            && newId in store ==>
              out == Step(store, Err(ServerError("Server failed to save item")), [Uploaded(upload.value)])
    // success, and only then, changes the store: by one new record
    ensures out.response.Ok? <==>
              Truthy(req.name) && Truthy(req.price) && Truthy(req.size) && req.hasFile && upload.Some?
              && !HasDuplicate(store, req.name.value, req.price.value, req.size.value) && newId !in store
    ensures out.response.Err? ==> out.store == store
    ensures out.response.Ok? ==>
              && out.store.Keys == store.Keys + {newId}
              && out.response.value == Saved(newId, out.store[newId])
              && (forall id :: id in store ==> out.store[id] == store[id])
              && out.store[newId] == Item(req.name.value, Some(upload.value), req.price.value,
                                          req.size.value, true, false)
              && out.media == [Uploaded(upload.value)]
  {
    if !(Truthy(req.name) && Truthy(req.price) && Truthy(req.size)) then
      Step(store, Err(BadRequest("All details required")), [])
    else if !req.hasFile then
      Step(store, Err(BadRequest("Image is required!")), [])
    else if upload.None? then
      Step(store, Err(ServerError("Server failed to save item")), [])
    else
      var media := [Uploaded(upload.value)];
      var name, price, size := req.name.value, req.price.value, req.size.value;
      if HasDuplicate(store, name, price, size) then
        Step(store, Err(BadRequest("Item already available")), media)
      else if newId in store then
        // the insert is refused as a duplicate key
        Step(store, Err(ServerError("Server failed to save item")), media)
      else
        match Create(name, price, size, Some(upload.value), None)
        case None => Step(store, Err(ServerError("Server failed to save item")), media)
        case Some(item) => Step(store[newId := item], Ok(Saved(newId, item)), media)
  }

  // ---------------------------------------------------------------- listings

  /** The records a listing query selects: those not deleted and, for end users,
      also available. */
  function Select(store: Store, forUsers: bool): (sel: Store)
    ensures forall id :: id in sel <==> id in store && !store[id].deleted
                                        && (forUsers ==> store[id].available)
    ensures forall id :: id in sel ==> sel[id] == store[id]
  {
    map id | id in store && !store[id].deleted && (forUsers ==> store[id].available) :: store[id]
  }

  /** A listing is sent only when it is not empty; an empty one is a 404. */
  function ListingResponse(sel: Store): (r: Response)
    ensures r.Ok? <==> sel != map[]
    ensures r.Ok? ==> r.value == Catalog(sel)
    ensures r.Err? ==> r.error == NotFound("No items available")
  {
    if sel == map[] then Err(NotFound("No items available")) else Ok(Catalog(sel))
  }

  /** `getItems`: every record that is not deleted. */
  function GetItems(store: Store): (r: Response)
    ensures r.Ok? <==> exists id :: id in store && !store[id].deleted
    ensures r.Ok? ==> (r.value.Catalog? &&
              forall id :: id in r.value.items <==> id in store && !store[id].deleted)
    ensures r.Ok? ==> forall id :: id in r.value.items ==> r.value.items[id] == store[id]
    ensures r.Err? ==> r.error == NotFound("No items available")
  {
    var sel := Select(store, false);
    assert (exists id :: id in store && !store[id].deleted) ==> sel != map[] by {
      if exists id :: id in store && !store[id].deleted {
        var id :| id in store && !store[id].deleted;
        assert id in sel;
      }
    }
    ListingResponse(sel)
  }

  /** `getItemsForUsers`: every record that is neither deleted nor unavailable. */
  function GetItemsForUsers(store: Store): (r: Response)
    ensures r.Ok? <==> exists id :: id in store && !store[id].deleted && store[id].available
    ensures r.Ok? ==> (r.value.Catalog? &&
              forall id :: id in r.value.items <==>
                id in store && !store[id].deleted && store[id].available)
    ensures r.Ok? ==> forall id :: id in r.value.items ==> r.value.items[id] == store[id]
    ensures r.Err? ==> r.error == NotFound("No items available")
  {
    var sel := Select(store, true);
    assert (exists id :: id in store && !store[id].deleted && store[id].available) ==> sel != map[] by {
      if exists id :: id in store && !store[id].deleted && store[id].available {
        var id :| id in store && !store[id].deleted && store[id].available;
        assert id in sel;
      }
    }
    ListingResponse(sel)
  }

  /** `getOneItem`: lookup by id, deleted records included. */
  function GetOneItem(store: Store, id: Id): (r: Response)
    ensures r.Ok? <==> id in store
    ensures r.Ok? ==> r.value == Found(store[id])
    ensures r.Err? ==> r.error == NotFound("Item not found")
  {
    if id in store then Ok(Found(store[id])) else Err(NotFound("Item not found"))
  }

  // ---------------------------------------------------------------- media cleanup

  /** The destroy call made for a record's current image: only for a non-empty URL on
      the media host, addressed by the URL's public id. */
  function CleanupEvents(image: Option<string>): (events: seq<MediaEvent>)
    ensures |events| <= 1
    ensures events != [] <==> Truthy(image) && Text.Contains(image.value, "cloudinary.com")
    ensures events != [] ==> events[0] == Destroyed(Text.PublicId(image.value))
  {
    if Truthy(image) && Text.Includes(image.value, "cloudinary.com") then
      [Destroyed(Text.PublicId(image.value))]
    else []
  }

  // ---------------------------------------------------------------- updateItem

  datatype UpdateRequest = UpdateRequest(
    name: Option<string>, price: Option<string>, size: Option<string>, hasFile: bool)

  /** The fields an update sets; `None` leaves a field as it is. */
  datatype UpdateData = UpdateData(
    name: Option<string>, price: Option<string>, size: Option<string>, image: Option<string>)

  function Override(current: string, update: Option<string>): string {
    match update case Some(v) => v case None => current
  }

  /** The record after `findByIdAndUpdate` with the given data. */
  function Apply(item: Item, data: UpdateData): (r: Item)
    ensures r.available == item.available && r.deleted == item.deleted
    ensures data.name.None? ==> r.name == item.name
    ensures data.price.None? ==> r.price == item.price
    ensures data.size.None? ==> r.size == item.size
    ensures data.image.None? ==> r.image == item.image
    ensures data.name.Some? ==> r.name == data.name.value
    ensures data.price.Some? ==> r.price == data.price.value
    ensures data.size.Some? ==> r.size == data.size.value
    ensures data.image.Some? ==> r.image == data.image
  {
    item.(name := Override(item.name, data.name),
          price := Override(item.price, data.price),
          size := Override(item.size, data.size),
          image := match data.image case Some(u) => Some(u) case None => item.image)
  }

  /** Update validators run on the paths being set: a required field may not be set to
      the empty string. */
  predicate PassesUpdateValidators(data: UpdateData) {
    data.name != Some("") && data.price != Some("") && data.size != Some("")
  }

  /** The text fields of the request that go into the update: only truthy ones, with
      name and size trimmed and price as given. */
  function TextUpdates(req: UpdateRequest): (data: UpdateData)
    ensures data.image.None?
    ensures data.name.Some? <==> Truthy(req.name)
    ensures data.price.Some? <==> Truthy(req.price)
    ensures data.size.Some? <==> Truthy(req.size)
    ensures data.name.Some? ==> data.name.value == Text.Trim(req.name.value)
    ensures data.price.Some? ==> data.price.value == req.price.value
    ensures data.size.Some? ==> data.size.value == Text.Trim(req.size.value)
  {
    UpdateData(
      if Truthy(req.name) then Some(Text.Trim(req.name.value)) else None,
      if Truthy(req.price) then req.price else None,
      if Truthy(req.size) then Some(Text.Trim(req.size.value)) else None,
      None)
  }

  /** `updateItem`: lookup, build the update from the truthy fields, replace the image
      (destroy the old one, then upload) when a file came, then update with validators. */
  function UpdateItem(store: Store, id: Id, req: UpdateRequest, upload: Option<string>): (out: Step)
    ensures id !in store ==> out == Step(store, Err(NotFound("Item not found")), [])
    ensures id in store && out.response.Err? ==>
              out.response.error == ServerError("Server failed to update item")
    ensures out.response.Err? ==> out.store == store
    ensures out.response.Ok? <==>
              && id in store
              && (req.hasFile ==> upload.Some?)
              && (Truthy(req.name) ==> Text.Trim(req.name.value) != "")
              && (Truthy(req.size) ==> Text.Trim(req.size.value) != "")
    // a successful update rewrites this one record, and only the requested fields of it
    ensures out.response.Ok? ==> id in store && out.response.value.Updated?
    ensures out.response.Ok? ==>
              var old_, new_ := store[id], out.response.value.item;
              && out.store == store[id := new_]
              && new_.available == old_.available && new_.deleted == old_.deleted
              && new_.name == (if Truthy(req.name) then Text.Trim(req.name.value) else old_.name)
              && new_.price == (if Truthy(req.price) then req.price.value else old_.price)
              && new_.size == (if Truthy(req.size) then Text.Trim(req.size.value) else old_.size)
              && new_.image == (if req.hasFile then upload else old_.image)
    // a new file first destroys the old image, even when the upload then fails
    ensures id in store && req.hasFile ==> out.media == ReplacementMedia(store[id].image, upload)
    ensures !req.hasFile ==> out.media == []
  {
    if id !in store then Step(store, Err(NotFound("Item not found")), [])
    else
      var item := store[id];
      var media := if req.hasFile then ReplacementMedia(item.image, upload) else [];
      match UpdatedRecord(item, req, upload)
      case None => Step(store, Err(ServerError("Server failed to update item")), media)
      case Some(updated) => Step(store[id := updated], Ok(Updated(updated)), media)
  }

  /** The media calls of an image replacement: destroy the old image, then upload. */
  function ReplacementMedia(image: Option<string>, upload: Option<string>): (media: seq<MediaEvent>)
    ensures |media| == |CleanupEvents(image)| + (if upload.Some? then 1 else 0)
    ensures media[..|CleanupEvents(image)|] == CleanupEvents(image)
    ensures upload.Some? ==> media[|media| - 1] == Uploaded(upload.value)
  {
    CleanupEvents(image) + (if upload.Some? then [Uploaded(upload.value)] else [])
  }

  /** The record `findByIdAndUpdate` writes, or `None` when the update fails: the upload
      threw, or a validator refused a field. */
  function UpdatedRecord(item: Item, req: UpdateRequest, upload: Option<string>): (r: Option<Item>)
    ensures r.Some? <==>
              && (req.hasFile ==> upload.Some?)
              && (Truthy(req.name) ==> Text.Trim(req.name.value) != "")
              && (Truthy(req.size) ==> Text.Trim(req.size.value) != "")
    ensures r.Some? ==>
              && r.value.available == item.available && r.value.deleted == item.deleted
              && r.value.name == (if Truthy(req.name) then Text.Trim(req.name.value) else item.name)
              && r.value.price == (if Truthy(req.price) then req.price.value else item.price)
              && r.value.size == (if Truthy(req.size) then Text.Trim(req.size.value) else item.size)
              && r.value.image == (if req.hasFile then upload else item.image)
  {
    if req.hasFile && upload.None? then None
    else
      var text := TextUpdates(req);
      var data := if req.hasFile then text.(image := upload) else text;
      if PassesUpdateValidators(data) then Some(Apply(item, data)) else None
  }

  // ---------------------------------------------------------------- markItemsUnavailable

  /** `markItemsUnavailable`: `itemIds` must be an array (`None` stands for a missing
      or non-array value); every record whose id is listed becomes unavailable, and ids
      that match no record are ignored. */
  function MarkItemsUnavailable(store: Store, itemIds: Option<seq<Id>>): (out: Step)
    ensures out.media == []
    ensures itemIds.None? ==> out == Step(store, Err(BadRequest("itemIds array is required")), [])
    ensures itemIds.Some? ==> out.response == Ok(Done("Items marked unavailable"))
    ensures out.store.Keys == store.Keys
    ensures itemIds.Some? ==> forall id :: id in store ==>
              if id in itemIds.value then out.store[id] == store[id].(available := false)
              else out.store[id] == store[id]
  {
    match itemIds
    case None => Step(store, Err(BadRequest("itemIds array is required")), [])
    case Some(ids) =>
      var marked := map id | id in store ::
        if id in ids then store[id].(available := false) else store[id];
      Step(marked, Ok(Done("Items marked unavailable")), [])
  }

  // ---------------------------------------------------------------- deleteItem

  /** `deleteItem`: lookup, destroy the image on the media host, then set `deleted` and
      save the record (saving validates the record's required fields). */
  function DeleteItem(store: Store, id: Id): (out: Step)
    ensures id !in store ==> out == Step(store, Err(NotFound("Item not available")), [])
    ensures id in store && out.response.Err? ==>
              out.response.error == ServerError("Server failed to delete item")
    ensures out.response.Err? ==> out.store == store
    ensures id in store ==> out.media == CleanupEvents(store[id].image)
    ensures out.response.Ok? <==> id in store && HasRequiredFields(store[id])
    ensures out.response.Ok? ==>
              && out.response.value == Done("Item deleted successfully")
              && out.store == store[id := store[id].(deleted := true)]
  {
    if id !in store then Step(store, Err(NotFound("Item not available")), [])
    else
      var item := store[id];
      var media := CleanupEvents(item.image);
      if !HasRequiredFields(item) then
        Step(store, Err(ServerError("Server failed to delete item")), media)
      else
        Step(store[id := item.(deleted := true)], Ok(Done("Item deleted successfully")), media)
  }

  // ---------------------------------------------------------------- dispatch

  /** The routed endpoints. */
  datatype Request =
    | SaveItemRequest(save: SaveRequest)
    | GetItemsRequest
    | GetItemsForUsersRequest
    | GetOneItemRequest(id: Id)
    | UpdateItemRequest(id: Id, update: UpdateRequest)
    | MarkUnavailableRequest(itemIds: Option<seq<Id>>)
    | DeleteItemRequest(id: Id)

  /** What the collaborators answer during one request: the upload's URL (or failure)
      and the id the database gives a new document. */
  datatype Env = Env(upload: Option<string>, newId: Id)

  /** Runs one request against the store. */
  function Handle(store: Store, req: Request, env: Env): (out: Step)
    ensures req.GetItemsRequest? || req.GetItemsForUsersRequest? || req.GetOneItemRequest? ==>
              out.store == store && out.media == []
  {
    match req
    case SaveItemRequest(save) => SaveItem(store, save, env.upload, env.newId)
    case GetItemsRequest => Step(store, GetItems(store), [])
    case GetItemsForUsersRequest => Step(store, GetItemsForUsers(store), [])
    case GetOneItemRequest(id) => Step(store, GetOneItem(store, id), [])
    case UpdateItemRequest(id, update) => UpdateItem(store, id, update, env.upload)
    case MarkUnavailableRequest(ids) => MarkItemsUnavailable(store, ids)
    case DeleteItemRequest(id) => DeleteItem(store, id)
  }

  /** Runs a sequence of requests, one after the other, each with its own environment. */
  function Run(store: Store, reqs: seq<Request>, envs: seq<Env>): Store
    requires |reqs| == |envs|
    decreases |reqs|
  {
    if |reqs| == 0 then store
    else Run(Handle(store, reqs[0], envs[0]).store, reqs[1..], envs[1..])
  }
}
