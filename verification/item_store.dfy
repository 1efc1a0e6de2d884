/**
 * The catalog record (`server/models/ItemStore.js`) and the store of records,
 * keyed by the document id the database assigns.
 */
module ItemStore {
  import opened Wrappers

  /** A document id; the database hands out fresh ones. */
  type Id = nat

  /** One catalog record. `price` and `size` are text, as the schema declares them;
      `image` may be absent; `deleted` is the soft-delete marker the controller reads
      and writes. */
  datatype Item = Item(
    name: string,
    image: Option<string>,
    price: string,
    size: string,
    available: bool,
    deleted: bool)

  type Store = map<Id, Item>

  /** The schema's `required` fields are present: a required string may not be empty. */
  predicate HasRequiredFields(item: Item) {
    item.name != "" && item.price != "" && item.size != ""
  }

  /** Every record in the store passes the schema's validation. */
  predicate ValidStore(store: Store) {
    forall id :: id in store ==> HasRequiredFields(store[id])
  }

  /** Creating a document from the given fields: validation refuses a record without
      name, price or size; `available` defaults to true when not supplied; a new record
      starts out not deleted. */
  function Create(name: string, price: string, size: string, image: Option<string>,
                  available: Option<bool>): (r: Option<Item>)
    ensures r.Some? <==> name != "" && price != "" && size != ""
    ensures r.Some? ==> HasRequiredFields(r.value)
    ensures r.Some? ==> r.value.name == name && r.value.price == price && r.value.size == size
                        && r.value.image == image && !r.value.deleted
    ensures r.Some? && available.None? ==> r.value.available
    ensures r.Some? && available.Some? ==> r.value.available == available.value
  {
    if name == "" || price == "" || size == "" then None
    else
      var avail := match available case Some(b) => b case None => true;
      Some(Item(name, image, price, size, avail, false))
  }
}
