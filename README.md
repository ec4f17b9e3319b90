# Book-ordering backend: controllers as a verified Dafny model

This project models the controllers of a Node/Express + PostgreSQL backend.
The backend serves a book catalogue, reader records, orders and an activity log.
The six PostgreSQL tables (`Book`, `Reader`, `ReaderHistory`, `Order`, `OrderedBook`, `ActivityLog`) and their id sequences live in one object: the `Db.Store` class.
Every handler that writes is a method on that store. It returns `Ok`, `NotFound`, `BadRequest` or `Error`, standing for 200/201, 404, 400 and 500.
Each such method is proved equal to a pure function of the old tables, and the lemmas beside that function state what the handler promises.
Read-only handlers are functions of the tables.

Modules:

- `Js`: the JavaScript semantics the controllers depend on.
  - truthiness, and `=== "true" || === true`;
  - `parseInt` as section 19.2.5 of ECMA-262 defines it: skip white space, optional sign, `0x` prefix, longest digit run, otherwise NaN;
  - `trim`, `split` and `join`;
  - how node-postgres turns a bound JavaScript value into column text.
- `Db`: row types, the store, uniqueness constraints, and the SQL shapes the queries use (lookup by key, `WHERE`, `ORDER BY … DESC/ASC`, `LIMIT/OFFSET`).
- `OrderController`:
  - `createOrder`, a transaction: find or create the reader by mobile, snapshot and update a changed reader, insert a `PENDING` order, one line per item that draws down stock, and a `NOTE` log; any failure rolls back;
  - `updateOrderStatus`, `updateOrderedBookStatus` and `getBookOrderStats`;
  - the order listings.
- `BookController`:
  - the `getAllBooks` filter and pagination, and `getBookById`;
  - `createBook`, `updateBook` (which keeps the stored cover unless a new one is uploaded), `deleteBook` and `deleteBooks`;
  - `createMultipleBooks`: the `books[<i>][<field>]` key parser and per-item accounting.
- `InterestController`: `createInterest`, which splits the name and finds or creates a reader.
- `ActivityController`: create, update and delete of activity logs, and the listings.
- `ReaderController`: `createReader`, `updateReader`, `deleteReader`, `getAllReaders` and `getReaderById`.

## Conventions

- **`now` parameter.** `NOW()` becomes a `now` parameter of each handler. One call uses one clock value.
- **Route parameters.** A route parameter reaches the model already through `parseInt`: `None` stands for NaN. PostgreSQL rejects the text `"NaN"` bound to an integer column, so such a call answers `Error(NaNParameter)`.
- **Id sequences.** A sequence value is spent by an `INSERT` that a unique constraint then refuses. It is not handed back by `ROLLBACK`. So after a failed `createOrder`, the tables equal their old contents but the sequences may have advanced.
- **Constraints.** The only store constraints are the unique `Reader.mobile` and the unique `Book.bookCode`. NULLs never collide.
- **Ties in `ORDER BY`.** PostgreSQL leaves the order of rows with equal keys unspecified. `Db.OrderByDesc` and `Db.OrderByAsc` break ties by a fixed order of their own. The listing contracts state only sortedness and the multiset of rows, but `BookController.ListBooksSlices` states page positions against that fixed order.

## Model

| member | source | states |
|---|---|---|
| OrderController.CreateOrder | src/controllers/order.controller.js:3-109 | The store ends exactly as the transaction function `PlaceOrder` says on success. On any failure every table equals its old contents, and only id sequences may have advanced (rollback). |
| OrderController.FindOrCreateReader | src/controllers/order.controller.js:10-51 | The reader step leaves the tables and sequences exactly as `ResolveReader` describes, and returns that reader. |
| OrderController.PlaceAll | src/controllers/order.controller.js:62-91 | The per-item loop produces exactly the lines, stock and sequences of the recursive `PlaceItems`. On a missing book it reports that item's error. |
| OrderController.PlaceLine | src/controllers/order.controller.js:63-90 | One loop iteration is one step of `PlaceItems`. A failed lookup changes nothing. |
| OrderController.AddLine | src/controllers/order.controller.js:73-90 | A placed line lowers that one book's stock, appends one OrderedBook and spends one line id. |
| OrderController.ResolvedReaderFoundAgain | src/controllers/order.controller.js:12-23 | After the reader step, a lookup by the mobile finds the returned reader. It is the new row (with the next reader id) exactly when none existed before, and otherwise the reader already found. |
| OrderController.ResolveReaderHistory | src/controllers/order.controller.js:14-50 | A new reader writes no history. An existing reader with a changed tracked field gets exactly one ReaderHistory row holding its old fields, and its row is replaced. An unchanged reader leaves Reader and ReaderHistory as they were. |
| OrderController.ResolvedContactIsRequest | src/controllers/order.controller.js:16-49 | The returned reader's seven tracked fields equal the request's. |
| OrderController.ResolveReaderFrame | src/controllers/order.controller.js:10-51 | The reader step touches only Reader and ReaderHistory and their sequences. |
| OrderController.OwnContactChanges | src/controllers/order.controller.js:24-31 | The `!==` comparison finds a change against the request's own fields iff some tracked field is neither a string nor null. |
| OrderController.RepeatOrderHistory | src/controllers/order.controller.js:24-33 | Repeating the same order data resolves to the same reader. It writes no new history iff every tracked field reads back unchanged. |
| OrderController.ResolveReaderWellFormed | src/controllers/order.controller.js:10-51 | The reader step keeps ids unique and below their sequences, and keeps mobiles unique. |
| OrderController.PlaceItemOutcome | src/controllers/order.controller.js:64-70 | An item is placed iff its `bookId` and `quantity` both parse and the book id names a stored book. Otherwise the error is the NaN bind error for a NaN `bookId`, the "Book with ID … not found" text for a missing book, and the NaN bind error for a NaN `quantity` of a found book. |
| OrderController.PlaceItemsSucceedsIff | src/controllers/order.controller.js:63-91 | The loop succeeds iff every item is placeable. |
| OrderController.PlaceItemsFailsAtFirst | src/controllers/order.controller.js:63-70 | A failing loop reports the error of the first unplaceable item, and all items before it are placeable. |
| OrderController.PlaceItemsFailureSticks | src/controllers/order.controller.js:63-105 | Once a prefix of the items fails, the whole run fails with that same message. |
| OrderController.PlaceItemsFrame | src/controllers/order.controller.js:62-91 | A successful loop appends one OrderedBook per item, in item order, numbered from the sequence. Each line carries its item's book id and quantity and the status `WAITLISTED` iff stock < quantity (else `NEW_ORDER`). No other table changes. |
| OrderController.PlaceItemsKeepsStock | src/controllers/order.controller.js:73-82 | After the loop, each book's stock equals its starting stock (null read as 0) minus the total quantity ordered for it, and may be negative. `isAvailable` is whether what is left is positive. |
| OrderController.PlaceItemKeepsStock | src/controllers/order.controller.js:73-82 | One placed line keeps the stock-follows-lines invariant. |
| OrderController.StockAfter | src/controllers/order.controller.js:73-80 | Stock after a run of lines is the start minus that book's ordered quantity. |
| OrderController.PlaceOrderSucceedsIff | src/controllers/order.controller.js:3-109 | The transaction commits iff `books` is iterable and every item has a parsable `bookId` and `quantity` and names an existing book. |
| OrderController.PlaceOrderFailsAtFirst | src/controllers/order.controller.js:63-105 | A failed transaction reports "books is not iterable", or the error of the first item that cannot be placed: a NaN `bookId`, a missing book or a NaN `quantity`. Every table is left as it was. |
| OrderController.OrderRecorded | src/controllers/order.controller.js:53-60 | On commit there is exactly one new Order: `PENDING`, owned by the resolved reader, with the shipping details and `now` as its dates. |
| OrderController.OrderLinesFromItems | src/controllers/order.controller.js:62-91 | On commit the OrderedBook table grows by exactly the returned lines, one per input item with that item's quantity and derived status. |
| OrderController.OrderDrawsStock | src/controllers/order.controller.js:73-82 | On commit every book's stock is its old stock minus the quantities the order's lines take from it. |
| OrderController.OrderLogged | src/controllers/order.controller.js:93-98 | On commit exactly one ActivityLog is appended: action `NOTE`, description "Order placed", with the order and reader ids. |
| OrderController.OrderSerials | src/controllers/order.controller.js:53-98 | On commit exactly one order id, one log id and one line id per item are spent. |
| OrderController.PlaceOrderWellFormed | src/controllers/order.controller.js:3-109 | A committed order keeps every table keyed and every unique column unique. |
| OrderController.NotMentionedNoQuantity | src/controllers/order.controller.js:73-82 | A book no line mentions has no quantity drawn. |
| OrderController.UpdateOrderStatus | src/controllers/order.controller.js:201-221 | The store ends as `ChangeStatus` says. A missing order or a NaN id changes nothing. |
| OrderController.ChangeStatusOutcome | src/controllers/order.controller.js:206-207 | 500 iff the id is NaN. 404 iff no order has the id. |
| OrderController.ChangeStatusWrites | src/controllers/order.controller.js:209-215 | A status change rewrites only that order's status and `updatedAt`. It appends one `STATUS_CHANGE` log with the previous status text and the order's reader, and touches no other table. |
| OrderController.DefaultStatusText | src/controllers/order.controller.js:214 | Without a description, the log text is exactly "Order status updated from ", the previous status ("null" when none), " -> " and the new status. |
| OrderController.OwnStatusText | src/controllers/order.controller.js:214 | A truthy description is logged as given. |
| OrderController.ChangeStatusWellFormed | src/controllers/order.controller.js:212-215 | A status change keeps the tables well formed. |
| OrderController.FindLine | src/controllers/order.controller.js:284-287 | It matches a line of that order by book id first; only when none matches does it match by the line's own id. None iff neither matches. |
| OrderController.UpdateOrderedBookStatus | src/controllers/order.controller.js:277-300 | The store ends as `ChangeLineStatus` says. Not found or NaN changes nothing. |
| OrderController.ChangeLineStatusOutcome | src/controllers/order.controller.js:281-291 | 500 iff either parameter is NaN. 404 iff no line of the order matches on book id or on line id. |
| OrderController.ChangeLineStatusWrites | src/controllers/order.controller.js:293-294 | Exactly one row changes: the matched line, and only its status. |
| OrderController.StatsRows | src/controllers/order.controller.js:247-255 | The joined rows are lines of that book only. |
| OrderController.TotalIsQuantityOf | src/controllers/order.controller.js:257 | `totalOrderedQuantity` is the sum of quantities over that book's lines, when every line joins an order and a reader. |
| OrderController.ReadersCountIsDistinct | src/controllers/order.controller.js:258-269 | `readers` holds one entry per distinct reader id, and `readersCount` is the number of distinct reader ids. |
| OrderController.DistinctReadersIds | src/controllers/order.controller.js:258-264 | The Map-by-id fold keeps exactly the input's ids, each once. |
| OrderController.DistinctIdsCount | src/controllers/order.controller.js:264-269 | With distinct ids, the length equals the number of ids. |
| OrderController.JoinBooks | src/controllers/order.controller.js:162-168 | Lines joined to their books: only that order's lines, each with its own book. Every line of the order whose book exists appears. |
| OrderController.JoinReaders | src/controllers/order.controller.js:152-154 | The order–reader inner join is sound and complete for orders whose reader exists. |
| OrderController.Views | src/controllers/order.controller.js:160-169 | Each listed order carries exactly its joined lines. |
| OrderController.GetAllOrdersSound | src/controllers/order.controller.js:111-175 | Every listed order exists, is joined to its reader and passes every supplied filter (`IN` lists, search), with its lines. The list is latest `orderDate` first. |
| OrderController.GetAllOrdersComplete | src/controllers/order.controller.js:111-175 | Every order with a reader that passes the filters is listed. |
| OrderController.GetAllOrdersFails | src/controllers/order.controller.js:117-158 | The listing fails iff a supplied filter is an empty list, because `IN ()` is a syntax error. |
| OrderController.LogsOfOrderSound | src/controllers/order.controller.js:192 | An order's activity is exactly the logs with its `orderId` (as a multiset), latest `createdAt` first. |
| OrderController.GetOrderByIdFinds | src/controllers/order.controller.js:177-199 | The order with that id, its reader, and exactly its logs, latest first. |
| OrderController.GetOrderByIdMissing | src/controllers/order.controller.js:180-181 | An unknown id gives "Order not found". |
| OrderController.OrdersOfReaderSound | src/controllers/order.controller.js:226 | A reader's orders are exactly those with that `readerId` (as a multiset), latest `orderDate` first. |
| OrderController.GetOrdersByReaderLists | src/controllers/order.controller.js:223-242 | Exactly that reader's orders (as a multiset), latest `orderDate` first, each with its lines. |
| OrderController.JoinOrders | src/controllers/order.controller.js:305-319 | Each row is a line of that book with its order, and the reader looked up only for a truthy `readerId`. |
| OrderController.JoinOrdersComplete | src/controllers/order.controller.js:305-312 | Every line of the book whose order exists appears. |
| OrderController.GetOrdersByBookSound | src/controllers/order.controller.js:302-326 | Rows are that book's lines with their orders, earliest order `createdAt` first. |
| OrderController.GetOrdersByBookComplete | src/controllers/order.controller.js:305-312 | Every line of the book whose order exists is listed. |
| BookController.CoverUrl | src/controllers/book.controller.js:400-405 | A cover URL exists iff a non-empty filename is stored. |
| BookController.CoverUrlNamesFile | src/controllers/book.controller.js:400-405 | The URL is the origin, then `/uploads/`, then the filename. |
| BookController.TransformBookKeeps | src/controllers/book.controller.js:398-406 | `transformBook` changes the two covers and nothing else of the row. |
| BookController.Transformed | src/controllers/book.controller.js:526 | Mapping keeps length and transforms row by row. |
| BookController.BookColumns | src/controllers/book.controller.js:591-601 | The covers come from the uploads. `stockQty` defaults to 0. The flags are true only for `"true"` or `true`. |
| BookController.Uploaded | src/controllers/book.controller.js:575-576 | An upload yields a filename iff one with a non-empty name was sent. |
| BookController.ParseEach | src/controllers/book.controller.js:716 | Element-wise `parseInt`. |
| BookController.SearchCodeOnlyForNumbers | src/controllers/book.controller.js:424-434 | The bookCode alternative is added iff `search` is given and `parseInt(search)` is not NaN. |
| BookController.NoFiltersQualifiesAll | src/controllers/book.controller.js:421-504 | With no filter supplied, every book qualifies. |
| BookController.SearchConditionsMean | src/controllers/book.controller.js:424-436 | The search group holds iff title or author contains the text, or the code equals the parsed number. |
| BookController.WithIdsMeans | src/controllers/book.controller.js:438-462 | The language and category conditions mean `IN` membership for a list and equality for a single value. |
| BookController.WithFlagAndTextMeans | src/controllers/book.controller.js:464-477 | The `isAvailable`, `kabatNumber` and `bookSize` conditions mean exactly their filters. |
| BookController.WithPagesMeans | src/controllers/book.controller.js:479-487 | `minPages` and `maxPages` are inclusive bounds. |
| BookController.WithYearsMeans | src/controllers/book.controller.js:489-502 | The three year conditions are equalities. |
| BookController.GroupsMean | src/controllers/book.controller.js:421-504 | The whole condition list holds iff the book qualifies. It is empty iff no filter was given. |
| BookController.BuildConditions | src/controllers/book.controller.js:421-504 | The pushed `conditions` hold of a book iff it satisfies every supplied filter. They are empty iff none was supplied. |
| BookController.PushSearch | src/controllers/book.controller.js:424-436 | The pushes build exactly the search group. |
| BookController.PushIds | src/controllers/book.controller.js:438-462 | The pushes build exactly the id conditions. |
| BookController.PushFlagAndText | src/controllers/book.controller.js:464-477 | The pushes build exactly the flag and text conditions. |
| BookController.PushPages | src/controllers/book.controller.js:479-487 | The pushes build exactly the page bounds. |
| BookController.PushYears | src/controllers/book.controller.js:489-502 | The pushes build exactly the year equalities. |
| BookController.IntOr | src/controllers/book.controller.js:410-411 | `page`/`limit` are the parsed value unless that is NaN or 0, in which case they are the default. |
| BookController.Matching | src/controllers/book.controller.js:504-508 | `WHERE` keeps exactly the stored books that qualify. |
| BookController.ListBooksFails | src/controllers/book.controller.js:410-537 | The listing fails (500) iff an id list is empty, a bound is NaN, or `LIMIT`/`OFFSET` is negative. |
| BookController.ListBooksCounts | src/controllers/book.controller.js:506-531 | `total` counts all matches. A page holds at most `limit` books. `totalPages` is the ceiling of `total / limit`. |
| BookController.ListBooksSlices | src/controllers/book.controller.js:510-526 | Position i of the page is match number `(page-1)*limit + i` in latest-first order, transformed. |
| BookController.ListBooksSound | src/controllers/book.controller.js:510-526 | Every listed book is a stored book that passes the filters, as the reply transforms it. |
| BookController.ListBooksLatestFirst | src/controllers/book.controller.js:510-526 | The page is latest `createdAt` first. |
| BookController.ListBooksUnfiltered | src/controllers/book.controller.js:504-508 | Without filters, `total` is the catalogue size. |
| BookController.GetBookById | src/controllers/book.controller.js:539-557 | 500 for NaN. 404 iff no book has the id. Otherwise that book, transformed. |
| BookController.InsertBookWellFormed | src/controllers/book.controller.js:603 | The insert succeeds iff the code is not taken. It keeps the tables well formed, and the id is spent either way. |
| BookController.CreateBook | src/controllers/book.controller.js:559-608 | One row with the body's columns is appended, or nothing on a duplicate code. The book id sequence always advances. |
| BookController.InsertBookRow | src/controllers/book.controller.js:603-604 | The INSERT appends exactly the new row and answers it transformed. |
| BookController.EditBookOutcome | src/controllers/book.controller.js:627-631 | 404 iff no book has the id. 500 iff the id is NaN or the new code clashes with another book. Never 400. |
| BookController.EditBookWrites | src/controllers/book.controller.js:633-674 | Only that row changes. Each cover is the new upload if one came, else the stored filename. `createdAt` is kept and the other columns come from the body. |
| BookController.EditBookWellFormed | src/controllers/book.controller.js:649-674 | An edit keeps the tables well formed. |
| BookController.UpdateBookRow | src/controllers/book.controller.js:610-679 | The store ends as `UpdateBook` says. 404 and errors change nothing. |
| BookController.EditBookRow | src/controllers/book.controller.js:649-675 | The UPDATE writes exactly the edited table. |
| BookController.RemoveBookExact | src/controllers/book.controller.js:686-694 | Delete removes exactly the row with that id: one row fewer, every other row kept. |
| BookController.DeleteBook | src/controllers/book.controller.js:681-704 | The store ends as `RemoveBook` says. 404 or NaN changes nothing. |
| BookController.Present | src/controllers/book.controller.js:716 | The NaN filter keeps exactly the parsed ids. It is empty iff every entry is NaN. |
| BookController.DeleteBooksRejects | src/controllers/book.controller.js:711-720 | 400 iff `ids` is not an array, is empty, or is all NaN. Otherwise the result is the delete of the parsed ids. |
| BookController.DeleteListedExact | src/controllers/book.controller.js:724-742 | Exactly the listed books are removed, and `deletedCount` is their number (> 0). |
| BookController.SplitListed | src/controllers/book.controller.js:724-733 | The listed and unlisted rows partition the table. |
| BookController.DeleteListedRows | src/controllers/book.controller.js:724-743 | The store ends as `DeleteListed` says. 404 changes nothing. |
| BookController.DeleteBooks | src/controllers/book.controller.js:706-748 | The store ends as `DeleteBooksOf` says. Rejections change nothing. |
| BookController.MatchFormKey | src/controllers/book.controller.js:879-882 | The key `books[<i>][<field>]` is recognised as `(i, field)` (round trip). |
| BookController.MatchBookKeySound | src/controllers/book.controller.js:879-882 | A recognised key is exactly `books[` + digits + `][` + field + `]`, and the index is the digits' value. |
| BookController.MatchBookKeyOf | src/controllers/book.controller.js:879 | The regex's pieces give the matched index and field. |
| BookController.GroupedIndexes | src/controllers/book.controller.js:878-884 | An index has a record iff some key carries it. |
| BookController.GroupedFields | src/controllers/book.controller.js:878-884 | A record has a field iff some key names that index and field. |
| BookController.GroupedLastWins | src/controllers/book.controller.js:884 | A field's value is that of the last key naming it. |
| BookController.InsertIndex | src/controllers/book.controller.js:887-888 | Inserting keeps the indexes strictly ascending and adds exactly that one. |
| BookController.Indexes | src/controllers/book.controller.js:887-888 | The record indexes in strictly ascending numeric order. |
| BookController.FormBooks | src/controllers/book.controller.js:887-889 | One record per index. |
| BookController.FormBooksOrdered | src/controllers/book.controller.js:877-889 | Records come in ascending index order, each holding exactly its index's fields. |
| BookController.FormBooksEmpty | src/controllers/book.controller.js:876-894 | There are no records iff no key matches. |
| BookController.CollectFormBooks | src/controllers/book.controller.js:876-890 | The key loop and sort build exactly `FormBooks`. |
| BookController.FileFor | src/controllers/book.controller.js:902-912 | The first upload whose field name is `books[<i>][<key>]` gives its original name. None iff there is no such upload. |
| BookController.ItemData | src/controllers/book.controller.js:949-959 | A bulk item's code defaults to 0, and its covers are looked up by loop position. |
| BookController.Prepared | src/controllers/book.controller.js:917-959 | Each item is paired with its completeness and columns, by position. |
| BookController.Attempted | src/controllers/book.controller.js:928-961 | Inserts are attempted at most once per item. |
| BookController.BulkAccounting | src/controllers/book.controller.js:914-975 | Every item lands in exactly one of `createdBooks` or `errors` (`count + failed = totalProcessed`). New rows are appended. One id is spent per attempted insert. |
| BookController.BulkErrorsOrdered | src/controllers/book.controller.js:928-965 | Errors are listed by ascending item index. |
| BookController.BulkReportsIncomplete | src/controllers/book.controller.js:928-931 | Every item without a title or code is reported as "Missing title or bookCode". |
| BookController.BulkCreatedFromItems | src/controllers/book.controller.js:928-962 | Every created row holds the columns of a complete item, so an incomplete item is never inserted. |
| BookController.BulkReplyOf | src/controllers/book.controller.js:968-975 | `errors` is omitted iff there were none. |
| BookController.InsertItems | src/controllers/book.controller.js:914-975 | The per-item loop ends with exactly the tables, sequence and reply of `BulkRunOf`. |
| BookController.CreateMultipleBooks | src/controllers/book.controller.js:870-979 | No items gives a 400 and no change. Otherwise the store ends as the per-item run says, with a 201 reply. |
| InterestController.SplitNameMissing | src/controllers/interest.controller.js:13-15 | A missing or empty name gives "Unknown" and "". |
| InterestController.SplitNameRoundTrip | src/controllers/interest.controller.js:13-15 | For a present name: `firstname` has no space, and `firstname` followed by " " + `lastname` (when non-empty) rebuilds the trimmed name. |
| InterestController.JoinAfterFirst | src/controllers/interest.controller.js:15 | Joining the tail after the first part gives what follows the first space. |
| InterestController.NewReader | src/controllers/interest.controller.js:17-22 | The inserted reader is active, has no address, has `''` for city, state and pincode, and has the request's mobile. |
| InterestController.CreateInterest | src/controllers/interest.controller.js:3-48 | An existing reader is reused with no writes at all. Otherwise one reader is inserted with the split name. The reply carries `parseInt` of the body's `bookId` (NaN as null), that reader's id and `notes`. A non-string name fails and writes nothing. |
| InterestController.CreatedReaderFoundAgain | src/controllers/interest.controller.js:9-23 | After the insert, a lookup by the mobile finds the new reader. |
| ReaderController.IsActive | src/controllers/reader.controller.js:87 | `isactive` is true iff absent, `"true"` or `true`. |
| ReaderController.OrEmpty | src/controllers/reader.controller.js:88-90 | A falsy value becomes `''`. |
| ReaderController.CreateColumns | src/controllers/reader.controller.js:81-91 | City, state and pincode are never NULL, and `isactive` follows the rule above. |
| ReaderController.UpdateColumns | src/controllers/reader.controller.js:115-124 | `isactive` is reset to true when absent. |
| ReaderController.InsertReader | src/controllers/reader.controller.js:76-92 | The insert succeeds iff no reader has the mobile. Otherwise it fails with the unique-constraint error. |
| ReaderController.InsertReaderWellFormed | src/controllers/reader.controller.js:92 | A reader insert keeps the tables well formed. |
| ReaderController.CreateReaderRow | src/controllers/reader.controller.js:73-97 | The new row carries the request's fields, the defaults and the next id. Its mobile was unused. |
| ReaderController.CreateReader | src/controllers/reader.controller.js:73-97 | One row is appended or none, and the reader id sequence always advances. |
| ReaderController.InsertReaderRow | src/controllers/reader.controller.js:92-93 | The INSERT appends exactly the new row. |
| ReaderController.EditReaderOutcome | src/controllers/reader.controller.js:125-131 | 500 for NaN. 404 iff no reader has the id. Ok iff it exists and the mobile is not another reader's. |
| ReaderController.EditReaderWrites | src/controllers/reader.controller.js:108-127 | Exactly that row is rewritten, all nine fields from the body, with `createdat` kept. |
| ReaderController.EditReaderWellFormed | src/controllers/reader.controller.js:127 | An edit keeps the tables well formed. |
| ReaderController.EditReaderRow | src/controllers/reader.controller.js:127-133 | The UPDATE writes exactly the edited table. |
| ReaderController.UpdateReader | src/controllers/reader.controller.js:99-137 | The store ends as `EditReader` says. No ReaderHistory row is written. |
| ReaderController.RemoveReaderExact | src/controllers/reader.controller.js:142 | Exactly the rows with that id go. An unknown id leaves the table as it was. |
| ReaderController.DeleteReader | src/controllers/reader.controller.js:139-147 | Success is reported iff the id parsed, whether or not a row existed. |
| ReaderController.GetAllReadersLists | src/controllers/reader.controller.js:3-22 | Every reader appears once, latest `createdat` first, and its `orderCount` is the number of its orders. |
| ReaderController.GetReaderByIdMissing | src/controllers/reader.controller.js:27-31 | An unknown id gives "Reader not found". |
| ReaderController.GetReaderByIdHistory | src/controllers/reader.controller.js:58-65 | Exactly that reader's history, latest `changedAt` first. |
| ReaderController.HistoryLatestFirst | src/controllers/reader.controller.js:62 | `ORDER BY "changedAt" DESC` puts the latest first. |
| ReaderController.GetReaderByIdOrders | src/controllers/reader.controller.js:35-56 | Exactly that reader's orders, latest `orderDate` first, each with its lines. |
| ActivityController.IdParamOf | src/controllers/activity.controller.js:98-99 | A falsy id is stored as null, a truthy one is `parseInt`ed, and NaN is kept apart. |
| ActivityController.Stored | src/controllers/activity.controller.js:98-99 | NULL exactly for a falsy id. |
| ActivityController.CreateColumns | src/controllers/activity.controller.js:95-100 | `action` defaults to "NOTE" when falsy. The description and ids are as bound. |
| ActivityController.UpdateColumns | src/controllers/activity.controller.js:133-139 | Update binds `action` without a default. |
| ActivityController.Fetched | src/controllers/activity.controller.js:106-113 | An id of 0 (falsy) is never fetched. |
| ActivityController.GetAllActivityLogsLists | src/controllers/activity.controller.js:4-20 | Every log appears once with its LEFT JOINed order and reader, latest first. |
| ActivityController.LatestFirst | src/controllers/activity.controller.js:13 | `ORDER BY "createdAt" DESC` puts the latest first. |
| ActivityController.GetActivityLogById | src/controllers/activity.controller.js:23-41 | 500 for NaN. 404 iff no log has the id. Otherwise that log, joined. |
| ActivityController.OrderLogsSound | src/controllers/activity.controller.js:44-53 | The logs selected for an order are exactly those with that `orderId` (as a multiset), latest first. |
| ActivityController.GetActivityLogsByOrderLists | src/controllers/activity.controller.js:44-60 | Exactly the logs with that `orderId`, each with its reader, latest first. |
| ActivityController.ReaderLogsSound | src/controllers/activity.controller.js:63-72 | The logs selected for a reader are exactly those with that `readerId` (as a multiset), latest first. |
| ActivityController.GetActivityLogsByReaderLists | src/controllers/activity.controller.js:63-79 | Exactly the logs with that `readerId`, each with its order, latest first. |
| ActivityController.CreateActivityLog | src/controllers/activity.controller.js:82-119 | A falsy description gives a 400 and no write. A NaN id gives a 500 and no write. Otherwise exactly one row is appended, with one id spent. |
| ActivityController.InsertLogRow | src/controllers/activity.controller.js:90-115 | The INSERT appends exactly the new row and answers it with its fetched order and reader. |
| ActivityController.CreatedLogColumns | src/controllers/activity.controller.js:95-100 | A created log has action "NOTE" when none was given and null for falsy ids, with the next id and `now`. |
| ActivityController.CreatedLogReadBack | src/controllers/activity.controller.js:102-115 | A created log is found again by id, as getActivityLogById (activity.controller.js:23-37) reads it. |
| ActivityController.EditLogWrites | src/controllers/activity.controller.js:127-141 | Exactly that row's action, description, orderId and readerId are overwritten. |
| ActivityController.EditLogMissing | src/controllers/activity.controller.js:141-142 | An unknown id gives "Activity log not found". |
| ActivityController.EditLogRow | src/controllers/activity.controller.js:141-156 | The UPDATE writes exactly the edited table. |
| ActivityController.UpdateActivityLog | src/controllers/activity.controller.js:122-160 | The store ends as `EditLog` says. 404 and errors change nothing. |
| ActivityController.RemoveLogExact | src/controllers/activity.controller.js:166-167 | Exactly that row goes, one fewer, and a later read of it is a 404. |
| ActivityController.DeleteActivityLog | src/controllers/activity.controller.js:163-172 | The store ends as `RemoveLog` says. 404 changes nothing. |
| Js.ParseIntOfIntToString | src/controllers/book.controller.js:569-572 | `parseInt(String(n)) == n` for every integer. |
| Js.ParseIntPrefix | src/controllers/book.controller.js:569-572 | `parseInt` reads an integer's digits and stops at the first non-digit. |
| Js.ParseIntSkipsWhite | src/controllers/book.controller.js:569-572 | Leading white space does not change `parseInt`. |
| Js.Split | src/controllers/interest.controller.js:13 | `split(' ')` gives pieces without the separator that join back to the string. |
| Js.Trim | src/controllers/interest.controller.js:13 | `trim` leaves no white space at either end and keeps a string that has none. |
| Js.StoredValueEquals | src/controllers/order.controller.js:24-31 | A column read back is `===` the bound value iff that value was a string or null. |
| Db.FirstWhere | src/controllers/order.controller.js:12 | The first row that matches, or None iff no row matches. |
| Db.OrderByDesc | src/controllers/order.controller.js:156 | A permutation of the rows, sorted by descending key. |
| Db.WhereDropsOne | src/controllers/book.controller.js:694 | A `DELETE … WHERE id = $1` whose id occurs on exactly one row drops exactly that one row; the same holds for activity.controller.js:166. |
| Db.TotalPages | src/controllers/book.controller.js:531 | `Math.ceil(total / limit)`: the fewest pages holding `total`. |

## Left out

- **Filesystem.**
  - Not modelled: `deleteImageFile`, `getBookImage` and multer disk storage.
  - The model does cover which filename is kept, sent or removed from the row.
- **`price`.** It is parsed with `parseFloat`, which is floating point, so it is not a column of the model.
- **`NOW()`.** It is a `now` parameter. The model claims nothing about the clock increasing.
- **`ILIKE`.** It is case-insensitive substring matching over ASCII lower case. The wildcards `%`, `_` and `\` inside a search text, and collation, are not modelled.
- **Listing joins.** The `Language` and `Category` joins of the book listings only attach related rows and are not modelled.
- Js.Value / Js.ToString: numbers in a body or query are assumed to be integers of magnitude below 1e21. Fractional and exponent-form numbers are not modelled, so neither is `parseInt` of 2.5 (which is 2), of 1e21 (which is 1, since `String(1e21)` is "1e+21") or of 1e-7 (which is 1). Nor is the exponent text node-postgres binds for such a number.
- **Integer ranges.** PostgreSQL's integer range errors are not modelled: integers are unbounded. Huge digit strings in form keys are read exactly, not with the precision of a double.
- **Foreign keys and NOT NULL.** The schema is not part of this model. Only the two unique constraints, `Book_bookCode_key` and `Reader_mobile_key`, are modelled. Their names follow the schema generator's convention.
- **`createdat`.** `createReader` takes `createdat` from the column default, assumed to be `NOW()`.
- **`updateOrderStatus` writes.** Its two writes are not in a transaction. The model runs them back to back, with no interleaving.
- **Concurrency.** Requests run one at a time, and transactions are not isolated from one another.
- **Route parameters.** They reach the model already through `parseInt`, as `Option<int>`.
- **Request envelope.** Express routing, request/response objects and status codes beyond the four outcomes are left out.
- OrderController.CreateOrder: every element of `books` is taken to be an object, read as its `bookId` and `quantity`. A `null` or `undefined` element, on which `item.bookId` throws a TypeError that rolls the order back with a 500, is not modelled.
- **Bulk item shape.**
  - Items of a JSON `books` array that are not objects are not modelled: each item is a field map.
  - The object-shaped `req.files` branch of `getFilename` (`req.files[fieldKey][0]`) is not modelled: uploads are always a list.
- **Covers and error indexes by position.** `createMultipleBooks` looks up covers and reports error indexes by array position, not by the form index. This is modelled as written, in `BookController.ItemData`.
- **Other controllers.**
  - `master.controller.js` (Language/Category CRUD) is not part of this model.
  - The commented-out legacy code in book.controller.js and interest.controller.js is not part of this model.
  - The placeholder interest list endpoints are not part of this model. They return fixed messages.
- **Logging.** The `console.log` and `console.error` calls are not modelled.
