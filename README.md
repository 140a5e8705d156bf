# Vegetable shop backend: verified model of its core

This project models the parts of the vegetable-shop Express/MySQL backend that change
data, and proves properties of them in Dafny.

- **Product catalogue** (`Catalog`, `Shop.Store.CreateProduct` / `UpdateProduct`):
  - Creating a product fills in the defaults: category `Vegetables`, unit `kg`, and a
    null description when none or an empty one is given.
  - An uploaded image is stored as a blob and served from `/api/products/image/<id>`.
  - The partial update builds one `SET` clause per field the request supplies. Each
    field has its own rule for "supplied": a non-empty name, category or unit; a
    non-zero price; any stock or description. The clause list is applied to the row.
- **Order placement** (`Orders`, `Shop.Store.PlaceOrder`):
  - An empty or missing item list is refused.
  - Every line is checked against the stock as it stood before the order, and the
    first failing line decides the error.
  - Otherwise the order is inserted as `pending` with the total of the client's
    prices. Then one item row is inserted and one stock decrement is made per line.
  - Any failure rolls the whole transaction back.
- **Delivery** (`Delivery`, `Shop.Store.AssignDelivery` / `UpdateTaskStatus`):
  - Assignment marks the order `assigned` and opens an `assigned` task.
  - A task update stores any status on the task. It mirrors only `on_the_way` and
    `delivered` onto the order, and does not guard the transition.
- **Order history** (`OrderHistory.GroupByOrder`): the joined order/item/product rows
  are folded into one record per order. The record holds the header of the order's
  first row, the items in row order, and the sum of price times quantity.
- **Image migration** (`ImageMigration`): a one-off script.
  - It selects every product whose `image_url` starts with `/uploads/` and strips that
    prefix to get the filename.
  - It chooses a MIME type from the lower-cased extension and moves the file into the
    blob columns.
  - It counts each product once, as a success or as an error.

The database is a `Store` object with one field per table: `map`s keyed by id, and a
`seq` for `order_items`. There is one counter per AUTO_INCREMENT column. Money is
held as integers, in cents.

## Model

| member | source | states |
|---|---|---|
| Common.Decimal | server.js:129 | the decimal rendering of an id is non-empty and made of digits only |
| Common.DecimalInjective | server.js:129 | distinct ids render to distinct decimal strings |
| Catalog.ImageUrlInjective | server.js:129 | two products never share an image URL `/api/products/image/<id>` |
| Catalog.NewProduct | server.js:106-130 | a created row has a non-empty category and unit, never an empty description, and a URL and blob exactly when an image was uploaded; the URL names the new id and the blob and MIME type are the upload's |
| Shop.Store.CreateProduct | server.js:104-130 | inserts `NewProduct` under the next AUTO_INCREMENT id, which was free before; no other table changes |
| Catalog.CreateDefaults | server.js:106-122 | a falsy category, unit or description becomes `Vegetables`, `kg` or null and a truthy one is kept; name, price and stock are stored as sent; without an upload the URL, blob and MIME type are null |
| Catalog.SetClauses | server.js:147-164 | one clause per admitted field (non-empty name, category and unit, non-zero price, any stock and description) plus three for an upload |
| Catalog.SetClausesEnds | server.js:150-164 | the name clause, when pushed, comes first, and an upload's blob, MIME type and `/api/products/image/<id>` clauses come last in that order |
| Catalog.ApplyAllFrame | server.js:171-173 | a column that no SET clause names keeps its value |
| Catalog.ApplyAllAppend | server.js:171-173 | applying a concatenation of SET clauses is applying the first list, then the second |
| Catalog.PatchedColumns | server.js:150-173 | the assembled UPDATE leaves each column as the column-by-column rule says. Name, category and unit change when non-empty, price when non-zero, stock and description whenever given. Blob, MIME type and URL change together when an image came |
| Catalog.ApplyImageClauses | server.js:157-164 | the three image clauses set blob, MIME type and `/api/products/image/<id>` together, or nothing without an upload |
| Catalog.PatchByColumn | server.js:150-164 | an update never blanks the name, category or unit and never sets the price to 0; the blob, MIME type and URL either all stay or are all set, the URL to `/api/products/image/<id>` |
| Catalog.PatchIdempotent | server.js:141-176 | sending the same update twice leaves the row as sending it once |
| Catalog.NothingSuppliedKeepsRow | server.js:150-169 | the clause list is empty exactly when no field is admitted, and the row is then unchanged |
| Catalog.FalsyFieldRules | server.js:150-155 | a price of 0 is ignored while a stock of 0 and an empty description are written |
| Shop.Store.UpdateProduct | server.js:141-176 | a present row becomes `PatchByColumn` of itself, a missing id changes nothing, and the answer is the row as it now stands |
| Catalog.ImageResponse | server.js:180-193 | an image is served exactly when the row exists and holds a blob; the body is that blob and the content type is the stored MIME type when that is non-empty and `image/jpeg` otherwise |
| Catalog.CreatedImageRoundTrip | server.js:180-193 | an image uploaded at creation is served back byte for byte, with its MIME type or `image/jpeg` when that is empty |
| Catalog.UpdatedImageRoundTrip | server.js:180-193 | an image supplied to an update is what the image endpoint then serves |
| Orders.LineCheck | server.js:221-226 | a line passes exactly when its product exists with stock at least its quantity; `ProductNotFound` exactly when the product is missing, otherwise an insufficient-stock error naming that product |
| Orders.FirstFailure | server.js:221-226 | a reported error is the check result of some line, and never the empty-order error |
| Orders.OrderTotal | server.js:220-222 | the total of non-negative prices and quantities is non-negative |
| Orders.Debit | server.js:231-234 | the decrements add or remove no product |
| Orders.NoFailureIff | server.js:221-226 | no line fails exactly when every line's product exists with stock (before the order) at least the line's quantity |
| Orders.FirstFailureIsFirstFailingLine | server.js:221-226 | the error reported is the one of the first failing line |
| Orders.FirstFailurePrefix | server.js:221-226 | a failure found in a prefix of the lines is the failure of the whole order |
| Shop.Store.CheckLines | server.js:220-226 | the loop stops with exactly `FirstFailure` and, when nothing fails, the total of price times quantity |
| Orders.DebitStock | server.js:231-234 | the decrements lower each product's stock by the total quantity the lines ask of it, keep every other column, and add or remove no product |
| Orders.DemandUnnamed | server.js:231-234 | a product that no line names loses no stock |
| Orders.DemandCoveredWhenDistinct | server.js:221-234 | with distinct products, each line's own check covers the whole demand on its product |
| Orders.DistinctLinesKeepStockNonNegative | server.js:221-234 | with distinct products, an accepted order leaves no stock negative |
| Orders.DuplicateLinesOverdraw | server.js:221-234 | two lines of 3 against a stock of 5 both pass the check and drive the stock to -1 |
| Shop.Store.InsertItems | server.js:231-234 | appends one item row per line in order, and the products table becomes `Debit` of the lines |
| Shop.Store.PlaceOrder | server.js:209-243 | refuses missing or empty items. Fails exactly when `FirstFailure` does, with its error, and then leaves the whole store unchanged. Otherwise inserts a `pending` order with `OrderTotal`, one item row per line, and the debited stock |
| Delivery.SetOrderStatus | server.js:324 | the UPDATE changes only the status of the named order, and nothing when it is missing |
| Shop.Store.AssignDelivery | server.js:320-328 | marks the order `assigned` and inserts an `assigned` task under the next id (the duplicate route at server.js:480-487 does the same) |
| Delivery.MirroredStatus | server.js:336-342 | a task status is mirrored onto the order exactly when it is `on_the_way` or `delivered`, and then unchanged |
| Delivery.TasksAfterUpdate | server.js:335 | no task is added or removed, no task changes order or delivery person, the named task takes the status, every other task is unchanged, and a missing task id leaves the table as it is |
| Delivery.OrdersAfterUpdate | server.js:336-342 | no order is added or removed; only the task's own order can change, and only to the new status when that is `on_the_way` or `delivered`; a missing task or a missing order leaves the table as it is |
| Delivery.MissingTaskChangesNothing | server.js:331-345 | an update naming no task changes neither the tasks nor the orders, whatever the status |
| Delivery.TaskTakesAnyStatus | server.js:335 | a task update stores any status on that task only |
| Delivery.OrderMirrorsOnlyTwoStatuses | server.js:336-342 | the task's order takes the new status exactly for `on_the_way` and `delivered`; every other order is unchanged |
| Delivery.UpdateIdempotent | server.js:331-345 | repeating a task update changes nothing further |
| Delivery.DeliveredCanRegress | server.js:336-342 | nothing blocks a `delivered` order from going back to `on_the_way` |
| Shop.Store.UpdateTaskStatus | server.js:331-345 | the tasks and orders become `TasksAfterUpdate` and `OrdersAfterUpdate`; products and items are untouched |
| OrderHistory.ItemsFor | server.js:377-396 | an order lists no more items than there are rows |
| OrderHistory.ItemsComeFromOwnRows | server.js:377-396 | every item listed under an order comes from a row of that order |
| OrderHistory.TotalFor | server.js:377-396 | the total over non-negative prices and quantities is non-negative |
| OrderHistory.AddRow | server.js:378-396 | one pass adds the row's order if missing, leaves every other order alone, appends the row's item last, and for an existing record keeps its earlier items and header and adds price times quantity to its total |
| OrderHistory.AbsentOrderIsEmpty | server.js:377-396 | an order with no row has no items and a zero total |
| OrderHistory.TotalIsSumOverItems | server.js:377-396 | the accumulated total is the sum of price times quantity over the order's item list |
| OrderHistory.RowListedUnderItsOrder | server.js:377-396 | every joined row appears among the items of its own order |
| OrderHistory.AddRowGroups | server.js:377-396 | one pass of the loop body keeps every record's items and total equal to those of its rows so far |
| OrderHistory.AddRowHeaders | server.js:378-387 | one pass of the loop body keeps each record's header equal to that of the row that opened it |
| OrderHistory.FoldGroups | server.js:376-396 | running the loop body over the first rows gives one record per order seen, with that order's items and total over those rows and the header of its first row |
| OrderHistory.GroupByOrder | server.js:376-397 | one record per distinct order id, with the header of its first row, its items in row order, and the total of price times quantity over its rows |
| ImageMigration.ToLower | migrate-images-to-blob.js:37 | lower-casing keeps the length and maps each ASCII capital to its small letter, leaving every other character |
| ImageMigration.ToLowerIdempotent | migrate-images-to-blob.js:37 | lower-casing twice is lower-casing once |
| ImageMigration.MimeType | migrate-images-to-blob.js:37-42 | the type is always one of `image/png`, `image/gif`, `image/webp` and `image/jpeg` |
| ImageMigration.MimeTypeTable | migrate-images-to-blob.js:37-42 | `image/png`, `image/gif` and `image/webp` are chosen exactly for their extensions in any case, and `image/jpeg` exactly for every other extension |
| ImageMigration.MimeTypeIgnoresCase | migrate-images-to-blob.js:37 | the letter case of the extension never matters |
| ImageMigration.MimeTypeUpperCase | migrate-images-to-blob.js:37-41 | examples: `.PNG` and `.WebP` are recognised (the general rule is `MimeTypeIgnoresCase`) |
| ImageMigration.MimeTypeFallback | migrate-images-to-blob.js:38-42 | examples: the empty and the `.bmp` extension give `image/jpeg` (the general rule is the fourth clause of `MimeTypeTable`) |
| ImageMigration.IndexOf | migrate-images-to-blob.js:23 | the first occurrence of a pattern, or none when it does not occur |
| ImageMigration.ReplaceFirst | migrate-images-to-blob.js:23 | a string without the pattern comes back unchanged; otherwise its first occurrence, and only that one, is replaced |
| ImageMigration.UploadFilename | migrate-images-to-blob.js:23 | a URL without `/uploads/` is its own filename, and the filename is never longer than the URL |
| ImageMigration.UploadFilenameStripsPrefix | migrate-images-to-blob.js:23 | for a selected URL, the prefix `/uploads/` followed by the filename is the URL |
| ImageMigration.OnlyFirstOccurrenceStripped | migrate-images-to-blob.js:23 | only the leading `/uploads/` is removed: whatever follows it is the filename, even when it contains `/uploads/` again |
| ImageMigration.FileOfIsUploadFilename | migrate-images-to-blob.js:23 | the suffix after `/uploads/` is the filename the `replace` call extracts |
| ImageMigration.Selected | migrate-images-to-blob.js:11-13 | the selected products are rows of the table with an image URL, and none of them already points at its own blob endpoint |
| ImageMigration.Found | migrate-images-to-blob.js:27-48 | the products that migrate are among the selected ones |
| ImageMigration.MigrateOne | migrate-images-to-blob.js:34-48 | the UPDATE changes only the three image columns: the blob is the file the URL names, the MIME type is the one chosen from the extension of the filename the `replace` extracts, the URL becomes `/api/products/image/<id>`, and the row is no longer selected |
| ImageMigration.Migrated | migrate-images-to-blob.js:20-57 | no product is added or removed, a product that did not migrate is unchanged, and a migrated one is exactly `MigrateOne` of its old row |
| ImageMigration.ImageUrlNotSelected | migrate-images-to-blob.js:45-48 | a migrated URL `/api/products/image/<id>` is never selected again |
| ImageMigration.RerunSelectsOnlyFailures | migrate-images-to-blob.js:11-48 | a second run selects exactly the products the first could not migrate |
| ImageMigration.MigratedImageServed | migrate-images-to-blob.js:45-48 | a migrated product is then served from its file's bytes with the type chosen from its extension |
| ImageMigration.CountsCoverSelection | migrate-images-to-blob.js:17-62 | successes plus errors is the number of selected products |
| ImageMigration.CountStep | migrate-images-to-blob.js:27-56 | each visited row adds one to exactly one of the two counters |
| ImageMigration.MigratedSoFarStep | migrate-images-to-blob.js:20-57 | a row whose file exists (and nothing throws) is migrated; any other row is left as it was |
| ImageMigration.MigrateRows | migrate-images-to-blob.js:17-57 | the table becomes `Migrated`, the success count is the number of migrated products, and the error count is the number of the other selected products |
| ImageMigration.MigrateImagesToBlob | migrate-images-to-blob.js:6-74 | the products table is migrated and the counters cover the selection; no other table changes |

## Left out

- HTTP routing, request parsing, the JSON responses and status codes are not modelled. Handlers that change data are methods over the store; the image endpoint is a function over the products table (a 404 is `None`), the order history a function over the joined rows, and error answers are `Result` or `Option` values.
- SQL text and the database engine are not modelled. Each table is a map, each AUTO_INCREMENT column a counter, and `UPDATE ... WHERE id=?` on a missing row changes nothing.
- Row locks (`FOR UPDATE`), concurrency between requests and connection handling are not modelled. Each method runs alone and atomically, so a rollback is the store left unchanged.
- Foreign keys are not modelled. `AssignDelivery` inserts the task even when the order does not exist, as the handler's SQL asks.
- `created_at`, `assigned_at` and the other database timestamps are not modelled. `created_at` is an opaque number carried through the order history.
- Latitude and longitude are `real` values passed through unchanged. JavaScript floating point (`Number(...)` in the order total) is not modelled, and prices are exact integers.
- `OrderHistory.GroupByOrder` returns a map. The response lists the records with `Object.values`, in ascending order of id, and that order is not modelled.
- `Catalog.PatchByColumn` reads a price as supplied when it is non-zero, as a JSON number body gives it. The string `"0"` of a multipart form is truthy in JavaScript and would be written; that case is not modelled.
- A JSON `null` for description or stock is not modelled (it would write NULL). A missing stock at creation is not modelled either (it would insert NULL).
- A missing `name` or `price` at creation is not modelled: `CreateProduct` takes a `string` and an `int`, while the handler would insert NULL for them.
- The route id is a `nat`. The handler writes the id back as the text the request sent, so `PUT /api/products/007` updates row 7 but stores `/api/products/image/007`; the model stores `/api/products/image/7` (`Catalog.ImageUrl`), and that spelling of the URL is not modelled.
- A missing `status` in a task update is not modelled: `UpdateTaskStatus` takes a `string`, while the handler would run `SET status=NULL` on the task and mirror nothing.
- `ImageMigration.ToLower` lower-cases ASCII letters only. JavaScript's full Unicode case mapping is not modelled.
- `ImageMigration.IsSelected` reads `LIKE "/uploads/%"` as a case-sensitive prefix test. A case-insensitive collation would also select `/UPLOADS/...`, and that case is not modelled.
- The filesystem is not modelled. A file exists when its filename is a key of `files`, the read returns that value, and `path.join` normalisation is not modelled.
- `path.extname` is the `extname` parameter.
- Failures inside the migration's `try` are not modelled individually. A thrown read or a failed UPDATE is named by the `failing` set, and such a product is counted as an error and left unchanged.
- A failure of the initial SELECT is not modelled (the outer `catch` ends the run with no change). Closing the pool and the console output are not modelled either.
- `Orders.DuplicateLinesOverdraw`: each line is checked against the stock from before the order, so two lines for one product can overdraw it. The model follows the code: the claim that stock never goes negative holds only when the products are distinct (`Orders.DistinctLinesKeepStockNonNegative`).
- Login, sign-up, user listing, product listing and search, product delete, order listings and the delivery-person queries read or write data outside this core and are not part of this model. The same goes for the schema scripts (`add-address-fields.js`, `add-payment-field.js`, `check-db-schema.js`).
