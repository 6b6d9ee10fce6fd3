# Inventory items: a verified model of the item routes

The inventory backend keeps a single collection of items. Each item has a
name, a quantity, an added date, soft-delete bookkeeping, an optional image
path and an owning address. Authenticated users reach it through a set of
HTTP routes. This project models those routes and the item schema they rely
on:

- `item.dfy` (module `ItemModel`) is the schema from `models/Item.js`. It
  holds the `Item` record, the validators that `save`/`insertMany` run
  (`SchemaValid`, `DraftValid`), the constructor with its defaults
  (`NewItem`), the soft-delete stamp (`Stamp`) and the unvalidated update
  effect (`Patch`).
- `queries.dfy` (module `ItemQueries`) has the read-only queries: the owner
  filter (`OwnedBy`), the newest-first sort (`SortNewest`) and the
  three-most-recent query (`Recent`).
- `ledger.dfy` (module `Ledger`) builds the CSV ledger row that bulk import
  appends for each inserted item.
- `routes.dfy` (module `ItemRoutes`) has the class `ItemTable`. It holds
  the collection as a map from identifiers to items, plus the natural order
  and the next fresh identifier. Each state-changing route is a method that
  updates the table in place and returns a `Response`; each listing route
  is a function over the table.

Callers are resolved to `Option<string>`: the address on the caller's user
record, or `None` when no user record exists. Time is an integer `now`
passed in. An uploaded file is the optional path the upload middleware
stored.

Behaviour worth knowing:

- `PUT /:id` runs no validators, so a negative quantity or an empty name is
  stored as given. Because of this, quantity ≥ 1 is not a table invariant.
  A later `save` (decrement or soft delete) of such a record fails
  validation and answers 500.
- `DELETE /:id`, `GET /` and `GET /recent` answer 500 when the user record
  is missing, because reading its address throws. `POST /bulk` reads the
  address only while mapping the rows, so with no user it answers 500 for a
  non-empty body and 201 with an empty list for an empty one. Only
  `PUT /:id` and `POST /add-item` answer 404 "User not found".
- `POST /add-item` does not write to the ledger, and a non-empty
  `userAddress` in the request overrides the caller's address.
- Soft delete is not scoped by owner, and `GET /all` is unauthenticated.
  Both are kept as written. Soft-deleted items stay visible in every
  listing, since no query filters on `dateDeleted`.
- The table invariant (`ItemRoutes.Valid'`) records what holds of every
  stored item:
  - a non-empty address, which is checked at creation and never changed;
  - `dateDeleted` is null before any soft delete and the last entry of
    `dateDeletedArray` after one.

## Model

| member | source | states |
|---|---|---|
| `ItemModel.NewItem` | models/Item.js:3-33 | A draft is accepted exactly when name is present and non-empty, quantity is present and at least 1, and address is present and non-empty. An accepted item passes the schema, takes the draft's fields, gets `now` when no date was given, and has null `dateDeleted` and an empty history. |
| `ItemModel.NewItemFromOwnFields` | models/Item.js:3-33 | Every valid item that was never soft-deleted is exactly what the constructor builds from its own fields. |
| `ItemModel.NewItemKeepsDraft` | models/Item.js:13-16 | The fields read back from an accepted item are the draft, with the default date filled in. |
| `ItemModel.ImageUrlOptional` | models/Item.js:25-28 | Leaving out `imageUrl` never changes whether an item is accepted. |
| `ItemModel.Stamp` | routes/itemRoutes.js:238-242 | A soft delete grows the history by exactly one entry and keeps the earlier entries. The new last entry and `dateDeleted` are both `now`, the bookkeeping stays consistent, and every other field is unchanged. |
| `ItemModel.StampKeepsSchema` | routes/itemRoutes.js:241-244 | A stamped item passes the schema exactly when the original does. |
| `ItemModel.StampTwice` | routes/itemRoutes.js:240-242 | Two soft deletes append both times in call order, and `dateDeleted` is the second time. |
| `ItemModel.Patch` | routes/itemRoutes.js:115-119 | An update overwrites only the name and quantity it was given. Omitted fields and address, dates and image are kept. |
| `ItemModel.PatchNothing` | routes/itemRoutes.js:115-119 | An update with neither field leaves the item as it was. |
| `ItemModel.PatchKeepsDeletion` | routes/itemRoutes.js:115-119 | An update never breaks the deletion bookkeeping. |
| `ItemQueries.OwnedBy` | routes/itemRoutes.js:45 | The owner filter keeps exactly the documents with that address, each as often as in the collection. |
| `ItemQueries.InsertNewest` | routes/itemRoutes.js:59 | Inserting into a newest-first sequence keeps it newest-first and adds exactly that document. |
| `ItemQueries.SortNewest` | routes/itemRoutes.js:59 | The sort returns a newest-first permutation of its input. |
| `ItemQueries.Recent` | routes/itemRoutes.js:58-60 | The recent query returns min(3, number of owner documents) of the owner's documents, newest first, taking each document no more often than the owner filter holds it (so never twice from a collection with distinct ids). Every owner document it leaves out is no newer than the last one returned. |
| `Ledger.RowFor` | utils/csvUtils.js:23-30 | The ledger row can be built exactly when the history is read from the schema's own field. The row then carries the item's name, quantity, dates, address and full history. |
| `Ledger.AppendAsWrittenThrows` | utils/csvUtils.js:28 | As written (reading `deletionDates`), appending any non-empty batch throws. |
| `Ledger.AppendWithSchemaKey` | utils/csvUtils.js:23-30 | Reading `dateDeletedArray`, every append completes and records the full history. |
| `ItemRoutes.BuildBatch` | routes/itemRoutes.js:139-146 | A bulk batch is built exactly when every row has a non-empty 'Item Name', a 'Quantity Purchased' of at least 1, and the caller's address is non-empty. It then has one valid item per row, in row order, with name, quantity and date ('Date Added' or `now`) from their columns and owned by the caller. |
| `ItemRoutes.InsertBatch` | routes/itemRoutes.js:146 | Inserting a batch under fresh identifiers keeps the table invariant. No new identifier was in use, and each holds its item of the batch. |
| `ItemRoutes.BulkReply` | routes/itemRoutes.js:146-151 | After the insert, the reply is either 201 with the inserted documents or 500, and it is 500 exactly when something was inserted and the ledger reads the history from a property other than the schema's `dateDeletedArray`. |
| `ItemRoutes.BulkReplyAsWrittenFails` | routes/itemRoutes.js:146-151 | As written, a one-row import that the schema accepts is stored, yet the reply is a server error. |
| `ItemRoutes.BulkReplyLists` | routes/itemRoutes.js:147-148 | With the ledger reading the schema's field, the reply lists exactly the inserted documents. |
| `ItemRoutes.ItemTable.List` | routes/itemRoutes.js:40-50 | GET / lists exactly the stored documents whose address is the caller's, each once (no identifier repeats), and answers 500 without a user. |
| `ItemRoutes.ItemTable.ListRecent` | routes/itemRoutes.js:53-65 | GET /recent lists at most three of the caller's stored documents, each once (no identifier repeats), newest first. Any caller document left out is no newer than the last listed, and only when three were listed, so fewer than three means all of them. It answers 500 without a user. |
| `ItemRoutes.ItemTable.ListAll` | routes/itemRoutes.js:252-259 | GET /all lists every stored document, whatever its address, one entry per item and no identifier twice. |
| `ItemRoutes.ItemTable.DecrementOrDelete` | routes/itemRoutes.js:68-92 | If the item is not stored under the caller's address (even if it exists under another), the answer is not found and the table is unchanged. If quantity > 1, only that item changes, its quantity drops by exactly 1, and it stays stored; when the result fails the schema, the answer is 500 and nothing changes. If quantity ≤ 1, the item is removed and the rest is untouched. With no user, the answer is 500. |
| `ItemRoutes.ItemTable.Update` | routes/itemRoutes.js:95-130 | No user gives "User not found". An id not stored under the caller's address gives not found with the table unchanged. Quantity exactly 0 removes the item whatever the name and returns no item. Any other quantity overwrites only the supplied name/quantity of that item, with no validation, and returns the updated record. |
| `ItemRoutes.ItemTable.SoftDelete` | routes/itemRoutes.js:229-249 | The lookup is by id alone, with no caller. An unknown id gives not found. Otherwise the record stays, stamped with `now`; when the stamped record fails the schema, the answer is 500 and nothing changes. |
| `ItemRoutes.ItemTable.AddItem` | routes/itemRoutes.js:180-204 | No user gives "User not found", and no uploaded file gives 500. Otherwise the item is saved under a fresh id with `dateAdded = now` and the image path, owned by the request's non-empty `userAddress` or else the caller. An item the schema rejects gives 500 with nothing stored. |
| `ItemRoutes.ItemTable.Bulk` | routes/itemRoutes.js:133-153 | With no user and a non-empty body, or when any row is rejected, the answer is 500 and nothing is stored. With no user and an empty body, the answer is 201 with an empty list and nothing changes. Otherwise one item per row is stored under fresh ids, appended to the natural order, and the reply lists them: as many as there are rows, each imported from its row. |
| `ItemRoutes.DecrementScenario` | routes/itemRoutes.js:68-92 | Milk added with quantity 3 and decremented three times by its owner goes to 2, then 1, then is deleted. |

## Left out

- Writing the ledger file, the upload middleware and its disk storage, static file serving, the `/upload` routes, server wiring and the database connection are I/O. They are not modelled.
- Authentication and the user lookup are replaced by the resolved caller address, `Option<string>`.
- Request values arrive already typed: `Option<string>`, `Option<int>`, integer timestamps. The model does not cover:
  - the store casting strings to numbers;
  - non-integer or `null` quantities;
  - malformed identifiers, unparsable dates and a non-array bulk body, each of which answers 500 in the source.
- Store and network failures (the generic 500 of each handler) are not modelled. Only failures the code raises deterministically are.
- `insertMany` is taken to be all-or-nothing when a document fails validation. This is assumed, not derived.
- Concurrent requests on the same item, and the lost update they can cause, are not modelled.
- `ItemQueries.SortNewest`: the store leaves the order of equal `dateAdded` values unspecified. The model breaks ties by collection order, and no contract states which tied documents `GET /recent` picks.
- `ItemRoutes.ItemTable.List`: states which documents are listed, not their order (the store's natural order).
- `ItemModel.Patch`: assumes the store drops fields the request left undefined from the update, so they keep their values (the behaviour of Mongoose 6 and later). Under an older store that sets them to null, an omitted field would be cleared instead.
- The commented-out routes are not part of this model.

## Findings

| source | as written | input that shows it | evidently intended | confidence | as-written member | corrected member |
|---|---|---|---|---|---|---|
| utils/csvUtils.js:28 with routes/itemRoutes.js:146-151 | The ledger reads the deletion history from `deletionDates`, which the schema does not define (its field is `dateDeletedArray`). Mapping over the undefined value throws inside the bulk handler's `try`. So any non-empty import is stored and still answered with 500 | `POST /bulk` with `[{ 'Item Name': 'Milk', 'Quantity Purchased': 3 }]` for a user at "123 Main St" | The ledger reads `dateDeletedArray`, the append completes, and the reply is 201 with the inserted items | high, not executed | `ItemRoutes.BulkReplyAsWrittenFails` | `ItemRoutes.ItemTable.Bulk` |
