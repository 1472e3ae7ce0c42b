# Product store: a Dafny model

This project models the core of a small HTTP service that keeps products in
memory. The service holds one table from integer id to product record
(`products`) and one counter (`nextID`), both behind a single lock. Its
handlers list, read, create, replace and delete records. At startup it seeds
two records, under ids 1 and 2.

The model has four modules:

- `Catalog` (catalog.dfy) holds the `Product` record, the table state
  `Db(products, nextID)` and its invariant `Valid`: every record sits under
  its own id, and every id is positive and below the counter. It also states
  the effect of each store operation as a function from the table before to
  the table after plus the response (`GetProductByID`, `CreateProduct`,
  `UpdateProduct`, `DeleteProduct`, `Apply`), the startup seeding (`Seed`,
  `Startup`) and what a listing is (`IsListing`): every record once, in any
  order.
- `History` (history.dfy) covers many requests. The lock serialises every
  operation, so any run of the service is a sequence of operations applied
  one after another (`Run`). Its lemmas cover such sequences: every run keeps the
  invariant, created ids are consecutive and never reused, a deleted id
  stays NotFound, and after startup any run with N creates and no deletes
  leaves N + 2 records.
- `Router` (router.dfy) holds the two handlers, `productsHandler` and
  `productByIDHandler`, as one pure function `Dispatch`. It maps the path
  shape, the parsed id, the method and the decoded body to the listing, one
  store operation, or an error. It also fixes which error wins.
- `Store` (store.dfy) holds the class `ProductStore`. Its `products` map and
  `nextID` counter are changed in place by one method per handler. Each
  method is proved against the matching `Catalog` function. `Serve` runs one
  request end to end, and `Start` is package initialisation followed by the
  seeding in `main`.

An update whose body id is non-zero and differs from the path id is answered
with 400 Bad Request and the message "ID in the URL and the Body do not
match" (main.go:146-148).

## Model

| member | source | states |
|---|---|---|
| `Catalog.GetProductByID` | main.go:101-111 | the table is unchanged; the lookup succeeds exactly when the id is stored, returns that record with status 200, and on a valid table the record carries the requested id; otherwise it is 404 "Product not found" |
| `Catalog.CreateProduct` | main.go:120-127 | the record is stored under the old counter value with that id, whatever id the client sent, and keeps the payload's name and price; the counter rises by exactly one; the key set grows by that one key; no other record changes; on a valid table the key was free and the invariant holds afterwards; the response is 201 with the stored record |
| `Catalog.UpdateProduct` | main.go:137-154 | an absent id gives 404 and no change; then a non-zero body id different from the path id gives 400 "ID in the URL and the Body do not match" and no change; success happens exactly when the id is stored and the body id is 0 or equal to the path id; on success the record becomes the payload carrying the path id, the key set and counter stay, every other record is unchanged, and the response is 200 with the stored record; the invariant is kept |
| `Catalog.DeleteProduct` | main.go:157-169 | an absent id gives 404 and no change; a present id is removed, with no other key removed and the counter kept, and the response is 204 with no body; every remaining record is unchanged; the invariant is kept |
| `Catalog.Apply` | main.go:101-169 | every store operation keeps the invariant; a failed operation (400 or 404 only) changes nothing; an operation fails exactly when its answer carries a 4xx code, and otherwise the code is 2xx; a lookup never changes the table; the counter moves only on a create, by one, and the created record carries the old counter; no key other than the operation's own target changes |
| `Catalog.Seed` | main.go:28-33 | seeding stores "Laptop" at 1200 under the counter and "Mouse" at 25 under the counter plus one, each carrying its key, adds exactly those two keys, advances the counter by two and keeps the invariant |
| `Catalog.Startup` | main.go:20-33 | the table the service starts serving with is valid, holds exactly the keys 1 and 2 with their seeded records, and has the counter at 3 |
| `Catalog.ListingMembership` | main.go:94-97 | a record is in a listing exactly when the table stores it under its own id |
| `Catalog.ListingsArePermutations` | main.go:94-97 | any two listings of the same table are permutations of each other, so only the order is left open |
| `Catalog.ListingAgreesWithLookup` | main.go:94-110 | on a valid table each listed record is what a lookup of its id returns, and every record a lookup finds is listed |
| `History.RunKeepsValid` | main.go:101-169 | every sequence of store operations from a valid table keeps the invariant and never lowers the counter |
| `History.CreatedIdsAreConsecutive` | main.go:123-125 | the i-th create in any run hands out the starting counter plus i, so ids have no duplicates and no gaps; the run ends with the counter just past the last id handed out, whatever deletes happened in between |
| `History.CreatedIdsAreFresh` | main.go:123-125 | no create in any run from a valid table hands out an id that was stored when the run began |
| `History.AbsentIdStaysAbsent` | main.go:123-167 | an id below the counter that is not stored (a deleted id) is not stored after any later run, so ids are never reused |
| `History.DeletedIdIsNotFound` | main.go:157-169 | after a delete, any later lookup, update or delete of that id, after any run of other operations, is 404; in particular a second delete is 404 |
| `History.CreatesAddOneRecordEach` | main.go:113-128 | a run of N creates from a valid table adds exactly N records, advances the counter by N and keeps every record already stored |
| `History.CreatesFillCounterRange` | main.go:113-128 | a run of creates stores its new records under exactly the ids from the starting counter up to the final one |
| `History.DeleteFreeRunKeepsIdsContiguous` | main.go:101-154 | when the stored ids are exactly 1 up to the counter, any run without a delete (creates, lookups and updates, failed ones included) keeps the invariant and that shape, advances the counter by the number of creates and adds exactly one record per create |
| `History.SeededThenCreates` | main.go:28-154 | from the startup table, any run with N creates and no deletes, whatever lookups and updates it also holds, leaves exactly N + 2 records, and a lookup finds each of the ids 1 to N + 2 |
| `Router.Dispatch` | main.go:46-135 | every rejection carries a 4xx code; on the item path an id that fails to parse gives 400 "Invalid Product Id", whatever the method and body; otherwise a method outside the path's set (GET, POST on the collection; GET, PUT, DELETE on an item) gives 405; a create or update whose body failed to decode gives 400 "Invalid request Body" and no store operation; collection GET lists; every other request calls the operation for its method, on the parsed id, with the decoded body |
| `Router.BodyIgnoredUnlessRead` | main.go:57-76 | for methods other than POST and PUT the route does not depend on the body |
| `Router.BadBodyBeatsNotFound` | main.go:130-144 | a PUT whose body fails to decode is 400 even when the id is not stored, although with a good body that update would be 404 |
| `Router.KeyboardWalkthrough` | main.go:113-168 | from the startup table: creating a keyboard answers 201 with id 3; reading it answers 200 with that record; updating it answers 200 with the new name and price under id 3; deleting it answers 204; reading it again answers 404 |
| `Store.ProductStore.constructor` | main.go:20-24 | the store starts with no records and the counter at 1, which satisfies the invariant |
| `Store.ProductStore.Seed` | main.go:28-33 | the fields after seeding are what `Catalog.Seed` gives for the fields before, and the invariant is kept |
| `Store.ProductStore.GetProducts` | main.go:89-99 | the answer is 200 with a list holding every stored record exactly once, in the order the loop visits the keys, which is left open |
| `Store.ProductStore.GetProductByID` | main.go:101-111 | the answer is what `Catalog.GetProductByID` gives for the current fields, and the lookup succeeds exactly when the id is stored |
| `Store.ProductStore.CreateProduct` | main.go:120-127 | the new fields and the answer are what `Catalog.CreateProduct` gives for the old fields, the old counter was not a key, the counter rose by one, and the invariant is kept |
| `Store.ProductStore.UpdateProduct` | main.go:137-154 | the new fields and the answer are what `Catalog.UpdateProduct` gives for the old fields; an error answer leaves the fields unchanged; the invariant is kept |
| `Store.ProductStore.DeleteProduct` | main.go:157-169 | the new fields and the answer are what `Catalog.DeleteProduct` gives for the old fields, the id is absent afterwards, and the invariant is kept |
| `Store.ProductStore.Serve` | main.go:36-76 | a rejected request answers with its error and leaves the store unchanged; a listing leaves the store unchanged and lists every record once; a store operation has exactly the effect `Catalog.Apply` states; the invariant is kept |
| `Store.Start` | main.go:20-33 | a fresh store after package initialisation and seeding holds exactly the startup table |
| `Store.KeyOrderGivesListing` | main.go:94-97 | reading a valid table's records off any repetition-free order of its keys gives a listing of the table |

## Left out

- Server setup, handler registration and path matching are left out. `ListenAndServe`, response headers and the writing of status and body are left out too. The result of path matching is an input (`Path`), and a response is an abstract value (`Response`).
- JSON decoding of request bodies is left out, because it is library code. The decoded body is an input, `Option<Product>`. A body without an id decodes with id 0, as Go's decoder leaves the field at its zero value.
- JSON encoding of responses is left out, and with it the encoder writing an empty listing as `null` rather than `[]` (the list starts as a nil slice). When encoding fails, `respondWithJSON` has already written the success status (main.go:80), so its `http.Error` with 500 (main.go:83) cannot change it: the client keeps the 200 or 201 status and the text "Internal Server Error" is written into the body. That path is not modelled.
- `strings.TrimPrefix` and `strconv.Atoi` are left out, because they are library code. Whether the trailing path segment parsed as an integer is an input, `Option<int>`.
- The mutex is left out. Each store method is one atomic step, and interleavings of concurrent requests are not modelled. `History.Run` sequences store operations only. It leaves out the listing, which changes nothing.
- The float64 price is modelled as a `real` that no operation computes on. The service only carries it.
- The counter is an unbounded integer. Go's platform-sized `int` wraps after about 2^31 creates on a 32-bit target and about 2^63 on a 64-bit one; the model does not cover that wrap-around.
- `http.Error` also writes a plain-text content type and a trailing newline. Only its status and message are modelled.
- Logging and console output (`log.Printf`, `fmt.Printf`, `log.Fatal`) are left out.
