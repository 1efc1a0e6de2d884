# Zimark catalog and cart, modelled in Dafny

This project models three sequential pieces of the Zimark shop:

- **The catalog store on the server** (`server/controllers/itemsController.js`, with the record of `server/models/ItemStore.js`). Each handler is a pure function from the store to a `Step`. A `Step` holds three things:
  - the new store;
  - the HTTP outcome: `Ok` with a reply, or a 400, 404 or 500 failure carrying the source's message;
  - the calls made to the media host, in order.

  The handlers are `saveItem`, `getItems`, `getItemsForUsers`, `getOneItem`, `updateItem`, `markItemsUnavailable` and `deleteItem`.
- **The web client's cart** (`zimark-web/src/App.jsx`). The cart is a sequence of lines, changed by `addCart`, `removeCart` and `updateCartQuantity`.
- **The cart page** (`zimark-web/src/pages/Cart.jsx`). This covers:
  - the running `totalPrice`;
  - the quantity input, which goes through `parseInt`;
  - the order decision of `handlePlaceOrder`: the gates in order, the filter to available lines, the ids sent to mark-unavailable, and the receipt handed to WhatsApp.

The media host and the database are replaced by arguments:

- **upload** is `Some(url)` when it succeeds and `None` when it throws.
- **destroy** never fails and is only recorded, as a `Destroyed(publicId)` event.
- **newId** is the id the database gives a new document. An id already in use makes the insert fail with a 500, as a duplicate key would.

The JavaScript string operations the handlers depend on are written out in the `Text` module:

- `trim` removes exactly the WhiteSpace and LineTerminator characters.
- `includes`.
- `split` with a one-character separator.
- the public-id expression.
- `parseInt` without a radix.

Files:

| file | contents |
|---|---|
| `wrappers.dfy` | `Option`, `Result` |
| `text.dfy` | module `Text`: the string operations |
| `item_store.dfy` | module `ItemStore`: the record, the store, creation and validation |
| `items_controller.dfy` | module `ItemsController`: the handlers, dispatch and runs |
| `catalog_properties.dfy` | module `CatalogProperties`: invariants, frames and idempotence of the handlers |
| `cart.dfy` | module `Cart`: cart lines and the three cart operations |
| `cart_properties.dfy` | module `CartProperties`: the cart invariant and the algebra of removal and quantity changes |
| `cart_page.dfy` | module `CartPage`: totals, the quantity input, and placing an order |
| `order_properties.dfy` | module `OrderProperties`: the order's filter, totals and hand-off, and the server's reaction to it |

Behaviour of the code worth knowing:

- **`saveItem`.** The duplicate lookup has no `deleted` filter, so a soft-deleted record still blocks a new one with the same name, price and size. The upload happens before that lookup, so a refused duplicate still leaves an uploaded image behind.
- **`updateItem`.** The update runs with validators. A name or size that trims to the empty string therefore fails the required check, and the answer is a 500, not a silent write. The old image is destroyed before the new upload is attempted.
- **`deleteItem`.** The handler saves the document. A record lacking a required field therefore fails to save and gives a 500 after its image has already been destroyed. This only happens to a record that is not valid in the first place.

## Model

| member | source | states |
|---|---|---|
| ItemStore.Create | server/models/ItemStore.js:3-9 | a record exists exactly when name, price and size are non-empty strings; the fields are kept as given (price and size as text, image optional); `available` defaults to true; a new record is not deleted |
| ItemsController.Status | server/controllers/itemsController.js:36-42 | a created record is answered with 201 and any other success with 200; a bad request is 400, a missing record 404 and a server failure 500; every success is below 400 and every failure at or above it |
| ItemsController.SaveItem | server/controllers/itemsController.js:7-44 | the field check comes before the file check; a duplicate (deleted or not) is refused after the upload, leaving that upload behind; success happens exactly when all gates pass and adds one new record, with the given fields and the uploaded URL, available and not deleted; every other record is unchanged; a failed upload, or an insert the database refuses for a taken id, is a 500 "Server failed to save item"; a refusal leaves the store unchanged |
| ItemsController.Select | server/controllers/itemsController.js:50 | a listing query selects exactly the records that are not deleted (and, for end users, available), with their stored contents |
| ItemsController.GetItems | server/controllers/itemsController.js:47-62 | the admin listing holds exactly the records that are not deleted, each with its stored contents; when there are none the answer is a 404 "No items available" |
| ItemsController.GetItemsForUsers | server/controllers/itemsController.js:65-80 | the user listing holds exactly the records that are neither deleted nor unavailable, each with its stored contents; when there are none the answer is a 404 "No items available" |
| ItemsController.GetOneItem | server/controllers/itemsController.js:83-98 | a lookup by id finds any record, deleted ones included, and is a 404 "Item not found" exactly when the id is unknown |
| ItemsController.CleanupEvents | server/controllers/itemsController.js:117-120 | at most one destroy call is made; there is one exactly when the image URL is non-empty and contains "cloudinary.com"; it is addressed by the URL's public id |
| ItemsController.Apply | server/controllers/itemsController.js:129-133 | every field the update sets takes the supplied value, every field it leaves out keeps its old value, and `available` and `deleted` are never touched |
| ItemsController.UpdatedRecord | server/controllers/itemsController.js:109-133 | the new record exists exactly when the upload (if any) succeeded and no trimmed name or size is empty; it carries the trimmed name and size, the given price and the new image, and keeps both flags |
| ItemsController.UpdateItem | server/controllers/itemsController.js:102-143 | an unknown id is a 404 with no change and no media call; on an existing id every failure (a refused field or a failed upload) is a 500 "Server failed to update item"; success rewrites this one record with only the requested fields and keeps both flags; every other record is unchanged; a failure changes nothing in the store; with a file, the old image is destroyed even when the upload then fails |
| ItemsController.MarkItemsUnavailable | server/controllers/itemsController.js:146-164 | a missing or non-array `itemIds` is a 400 with no change; otherwise every listed record that exists becomes unavailable and nothing else about it changes; unlisted records are untouched; unknown ids are ignored; no record is added or removed |
| ItemsController.DeleteItem | server/controllers/itemsController.js:172-194 | an unknown id is a 404 "Item not available"; otherwise the image is destroyed when on the media host; a valid record is kept with only `deleted` set; an invalid one fails to save with a 500 "Server failed to delete item" and the store is unchanged; no other failure occurs on an existing id |
| ItemsController.Handle | server/controllers/itemsController.js:47-98 | the three read handlers change neither the store nor the media host |
| CatalogProperties.HandleKeepsStoreValid | server/models/ItemStore.js:4-7 | every handler keeps name, price and size non-empty on every record |
| CatalogProperties.SaveKeepsStoreValid | server/controllers/itemsController.js:29-34 | a create keeps every record valid |
| CatalogProperties.UpdateKeepsStoreValid | server/controllers/itemsController.js:129-133 | an update with validators keeps every record valid |
| CatalogProperties.MarkKeepsStoreValid | server/controllers/itemsController.js:154-157 | marking records unavailable keeps every record valid |
| CatalogProperties.DeleteKeepsStoreValid | server/controllers/itemsController.js:186-187 | a soft delete keeps every record valid |
| CatalogProperties.HandleIsOneWay | server/controllers/itemsController.js:186 | no handler removes a record, makes an unavailable record available, or undeletes one |
| CatalogProperties.SaveIsOneWay | server/controllers/itemsController.js:29-34 | a create removes no record and leaves every existing record exactly as it was |
| CatalogProperties.UpdateIsOneWay | server/controllers/itemsController.js:129-133 | an update adds or removes no record and changes neither flag of any record |
| CatalogProperties.MarkIsOneWay | server/controllers/itemsController.js:154-157 | marking only ever clears `available` |
| CatalogProperties.DeleteIsOneWay | server/controllers/itemsController.js:186-187 | a delete only ever sets `deleted` |
| CatalogProperties.RunKeepsStoreValid | server/models/ItemStore.js:4-7 | any sequence of requests, whatever the collaborators answer, keeps every record valid |
| CatalogProperties.RunIsOneWay | server/controllers/itemsController.js:154-157 | over any sequence of requests, records are kept and both flags move one way only |
| CatalogProperties.DeletedStaysHidden | server/controllers/itemsController.js:50 | once deleted, a record stays out of both listings whatever follows, yet a lookup by id still returns it |
| CatalogProperties.SoldStaysOffUserListing | server/controllers/itemsController.js:68 | once marked unavailable, a record stays unavailable and never returns to the user listing, whatever follows; the admin listing still shows it as long as it is not deleted |
| CatalogProperties.UserListingWithinAdminListing | server/controllers/itemsController.js:68 | the user listing is contained in the admin listing; if the user listing is sent, so is the admin one |
| CatalogProperties.MarkIsIdempotent | server/controllers/itemsController.js:154-157 | marking the same ids twice gives the same store as marking them once |
| CatalogProperties.DeleteIsIdempotent | server/controllers/itemsController.js:186-187 | deleting twice leaves the same store as deleting once |
| CatalogProperties.DeleteHidesButKeeps | server/controllers/itemsController.js:186 | after a delete, the lookup returns the record marked deleted, and neither listing contains it |
| CatalogProperties.UpdateWithoutFileIsIdempotent | server/controllers/itemsController.js:109-113 | sending the same text update (no file) a second time changes nothing more |
| CatalogProperties.UpdatedRecordIsStable | server/controllers/itemsController.js:109-133 | applying the same file-less update to its own result gives that result again |
| CatalogProperties.SaveThenDuplicate | server/controllers/itemsController.js:24-34 | after a successful create, the lookup finds the new record, available and not deleted, and an identical second create is refused as a duplicate |
| CatalogProperties.DeletedItemStillBlocksSave | server/controllers/itemsController.js:24-27 | a soft-deleted record still blocks a new record with the same name, price and size |
| Cart.AddCart | zimark-web/src/App.jsx:47-70 | an unavailable product leaves the cart as it is; a product already present gets one more unit on its line, with the length and every other line unchanged; a new product is appended with quantity 1 |
| Cart.RemoveCart | zimark-web/src/App.jsx:77-79 | no line with the id remains, and the cart does not grow |
| Cart.UpdateCartQuantity | zimark-web/src/App.jsx:82-93 | a quantity below 1 is refused; otherwise exactly the lines with the id get the quantity and the others are unchanged |
| CartProperties.AddCartKeepsValid | zimark-web/src/App.jsx:56-68 | adding keeps line ids distinct and quantities at least 1 |
| CartProperties.RemoveCartKeepsCartLines | zimark-web/src/App.jsx:78 | every line left after a removal is a line of the cart |
| CartProperties.RemoveCartKeepsValid | zimark-web/src/App.jsx:78 | removing keeps line ids distinct and quantities at least 1 |
| CartProperties.UpdateCartQuantityKeepsValid | zimark-web/src/App.jsx:82-93 | a quantity change keeps line ids distinct and quantities at least 1 |
| CartProperties.UpdateAbsentIsNoOp | zimark-web/src/App.jsx:88-92 | changing the quantity of an id not in the cart leaves the cart as it is |
| CartProperties.RemoveAbsent | zimark-web/src/App.jsx:78 | removing an id not in the cart leaves the cart as it is |
| CartProperties.RemoveCartAppend | zimark-web/src/App.jsx:78 | removal distributes over concatenation, so it keeps the remaining lines in order |
| CartProperties.RemoveExactlyOne | zimark-web/src/App.jsx:77-79 | with distinct ids, removing the id at position k cuts out exactly that line and keeps the rest in order |
| CartProperties.RemoveUndoesAdd | zimark-web/src/App.jsx:67 | removing a product just appended restores the cart |
| CartProperties.AddExistingIncrementsOneLine | zimark-web/src/App.jsx:56-63 | with distinct ids, adding a product already present is exactly a one-unit increment of its line |
| CartProperties.UpdateQuantityRoundTrip | zimark-web/src/App.jsx:88-92 | setting a line's quantity and then setting its old quantity back restores the cart |
| CartProperties.ApplyOpKeepsAvailable | zimark-web/src/App.jsx:48-51 | no cart operation introduces a line from an unavailable product |
| CartProperties.ApplyOpsKeepsValid | zimark-web/src/App.jsx:47-93 | after any sequence of the three operations, ids are distinct, quantities are at least 1, and every line came from an available product |
| CartPage.TotalPriceAppend | zimark-web/src/pages/Cart.jsx:15-18 | the total of the empty cart is 0, and the total of two carts joined is the sum of their totals |
| CartPage.TotalPrice | zimark-web/src/pages/Cart.jsx:15-18 | the running total the page computes from the first line on equals `LineSum`, the plain sum of price times quantity over the lines taken from the head |
| CartPage.TotalPriceCoversEachLine | zimark-web/src/pages/Cart.jsx:15-18 | with quantities at least 1, the total is at least each line's subtotal, which is not negative |
| CartPage.TotalPriceReplace | zimark-web/src/pages/Cart.jsx:15-18 | changing one line changes the total by exactly the difference of its subtotals |
| CartPage.TotalPriceAfterAddNew | zimark-web/src/App.jsx:67 | adding a new available product raises the total by its price |
| CartPage.TotalPriceIncrement | zimark-web/src/pages/Cart.jsx:15-18 | one more unit on a line raises the total by that line's price |
| CartPage.TotalPriceAfterAddExisting | zimark-web/src/App.jsx:61-63 | adding a product already present raises the total by the price recorded on its line |
| CartPage.TotalPriceAfterRemove | zimark-web/src/App.jsx:77-79 | removing a line lowers the total by exactly its subtotal |
| CartPage.QuantityInput | zimark-web/src/pages/Cart.jsx:139-143 | text that parses to a whole number of at least 1 sets the line's quantity to that number; text that parses to `NaN` or to a number below 1 leaves the cart as it is; a valid cart stays valid |
| CartPage.QuantityInputSetsTypedNumber | zimark-web/src/pages/Cart.jsx:140-142 | a positive whole number typed in (with or without a fraction) becomes the line's quantity |
| CartPage.QuantityInputIgnoresNegative | zimark-web/src/pages/Cart.jsx:140-141 | a negative number typed in changes nothing |
| CartPage.AvailableLines | zimark-web/src/pages/Cart.jsx:43 | the ordered lines are available and no more numerous than the cart's |
| CartPage.Ids | zimark-web/src/pages/Cart.jsx:81 | the ids sent are the lines' ids, one per line, in order |
| CartPage.ReceiptLines | zimark-web/src/pages/Cart.jsx:63-69 | one receipt row per ordered line, with its name, quantity and subtotal |
| CartPage.PlaceOrder | zimark-web/src/pages/Cart.jsx:24-97 | an empty cart is refused first, then missing customer details, then a cart with no available line, each with its own message and no effect; otherwise the ordered ids are sent to mark-unavailable and then WhatsApp is opened with the receipt (total of the whole cart, rows of the ordered lines); the toast depends on the request's outcome |
| OrderProperties.AvailableLinesAppend | zimark-web/src/pages/Cart.jsx:43 | the availability filter distributes over concatenation, so the ordered lines keep the cart's order |
| OrderProperties.AvailableLinesMembers | zimark-web/src/pages/Cart.jsx:43 | a line is ordered exactly when it is a line of the cart and is available |
| OrderProperties.TotalSplitsByAvailability | zimark-web/src/pages/Cart.jsx:72 | the receipt total is the total of the ordered lines plus that of the dropped ones |
| OrderProperties.AllAvailableKeepsEveryLine | zimark-web/src/pages/Cart.jsx:43 | when every line is available, the filter keeps every line and drops none |
| OrderProperties.ReceiptRowsSumToOrderTotal | zimark-web/src/pages/Cart.jsx:63-69 | the receipt rows' subtotals add up to the total of the ordered lines |
| OrderProperties.HandOffDespiteMarkFailure | zimark-web/src/pages/Cart.jsx:78-93 | whether mark-unavailable answers or fails, the same order is placed with the same effects |
| OrderProperties.BuiltCartOrdersEverything | zimark-web/src/pages/Cart.jsx:43-93 | for a cart built by the page's own operations, the order is placed exactly when the cart is non-empty and the details are complete; the ids of the whole cart are sent, each once; the receipt rows add up to the receipt total |
| OrderProperties.OrderedItemsLeaveUserListing | zimark-web/src/pages/Cart.jsx:80-82 | when the server handles the ids the page sends, every ordered record it holds becomes unavailable with nothing else changed and leaves the user listing; records not ordered are untouched |
| Text.Trim | server/controllers/itemsController.js:111 | the trimmed text sits in the input with only whitespace on either side, and neither starts nor ends with whitespace |
| Text.TrimIsIdempotent | server/controllers/itemsController.js:113 | trimming twice is trimming once |
| Text.Includes | server/controllers/itemsController.js:117 | the scan answers true exactly when the text occurs at some index |
| Text.Split | server/controllers/itemsController.js:118 | `split` with a one-character separator gives at least one piece; joining the pieces with the separator gives the input back, and no piece contains the separator |
| Text.SplitFromLast | server/controllers/itemsController.js:118 | the last piece of a split is the text after the last separator |
| Text.PublicId | server/controllers/itemsController.js:118 | the public id contains no "/" and no "."; it starts right after the URL's last "/" (or at its start) and runs up to the first "." after that (or to the end) |
| Text.PublicIdIsSplitExpression | server/controllers/itemsController.js:181 | the public id equals the controller's expression: the first "."-piece of the last "/"-piece of the URL |
| Text.ParseIntDecimal | zimark-web/src/pages/Cart.jsx:140 | `parseInt` of a decimal numeral, with or without a fraction after it, is that number |
| Text.ParseIntNegative | zimark-web/src/pages/Cart.jsx:140 | `parseInt` of a minus sign followed by a decimal numeral is the negated number |
| Text.ParseInt | zimark-web/src/pages/Cart.jsx:140 | `parseInt` gives `NaN` when, after leading whitespace, the text is empty or starts with neither a sign nor a decimal digit; a negative result comes only from a leading minus sign |

## Left out

- Ordering of listings: `sort({ createdAt: -1 })` sorts by a field the schema never declares, so listings are modelled as sets of records keyed by id, not ordered results.
- The `deleted` field: the controller reads and writes it, but the schema does not declare it. The model keeps the field the controller uses. Mongoose's strict-mode handling of undeclared paths is not modelled.
- Database and media-host failures other than the upload: a `find`, `findById`, `updateMany` or `save` that throws, and a `destroy` that fails, are not modelled. So the 500 answers of the read handlers and of `markItemsUnavailable` do not appear.
- Malformed ids: ids are abstract naturals, so the cast error a malformed id would raise does not arise.
- Cart.RemoveCart: its contract states only that the id is gone and the cart does not grow. The rest is in the lemmas `RemoveAbsent`, `RemoveCartAppend`, `RemoveExactlyOne` and `RemoveCartKeepsCartLines`.
- CartPage.AvailableLines: its contract states availability and length only. Which lines are kept is in `OrderProperties.AvailableLinesMembers`, and their order is in `OrderProperties.AvailableLinesAppend`.
- Number coercion and formatting: prices on the client are naturals. `Number()` of an arbitrary string, floating point, `toFixed`, `padEnd`, `encodeURIComponent`, the WhatsApp URL and the receipt's layout are not modelled. The receipt is kept as its content: customer, rows and total.
- Text.ParseInt: its contract states when the answer is `NaN` and that only a leading minus gives a negative. The value read is stated only for decimal numerals, in `ParseIntDecimal` and `ParseIntNegative`, not for hexadecimal `0x` input.
- Text.ParseIntDecimal: `parseInt`'s loss of precision beyond 2^53 is not modelled; numbers are unbounded.
- The multipart form: `req.file` is reduced to whether a file came. A field sent more than once (which would arrive as an array) is not modelled.
- Routing and wiring (`server/routes/catalogRoute.js`, `server/server.js`, `server/config/cfg.js`): the handlers are called directly. `server/controllers/test.js` is a set of handlers that is not routed and is not part of this model.
- Client state and UI: React state, effects, toasts as rendering, `localStorage` persistence of the cart, and the item fetch on start-up. The toasts of `handlePlaceOrder` are kept as values.
- Concurrency: check-then-act races between requests and out-of-order client fetches are outside a sequential model.
