/** src/controllers/order.controller.js: placing an order as one transaction
    (find or create the reader, a PENDING order, one line per item that draws the
    book's stock down, a NOTE log), status updates, and the order read side. */
module OrderController {
  import opened Js
  import opened Db

  /** One element of `books` in the request body. */
  datatype OrderItem = OrderItem(bookId: Value, quantity: Value)

  /** The body of POST /orders. `books` is what `for...of` walks (a string walks
      its characters, whose `bookId` is undefined), None when it is not iterable. */
  datatype OrderRequest = OrderRequest(
    firstname: Value,
    lastname: Value,
    mobile: Value,
    email: Value,
    address: Value,
    city: Value,
    state: Value,
    pincode: Value,
    books: Option<seq<OrderItem>>,
    shippingDetails: Value)

  /** The TypeError `for (const item of books)` throws on a non-iterable. */
  const NotIterable := "books is not iterable"

  // ---------------------------------------------------------------- the reader

  /** The seven tracked fields as the request writes them to the Reader row. */
  function RequestContact(req: OrderRequest): Contact {
    Contact(ColumnText(req.firstname), ColumnText(req.lastname), ColumnText(req.email),
            ColumnText(req.address), ColumnText(req.city), ColumnText(req.state),
            ColumnText(req.pincode))
  }

  /** `hasChanges`: some stored field is not `===` the request's value. */
  predicate HasChanges(c: Contact, req: OrderRequest) {
    !StrictEquals(c.firstname, req.firstname) || !StrictEquals(c.lastname, req.lastname)
    || !StrictEquals(c.email, req.email) || !StrictEquals(c.address, req.address)
    || !StrictEquals(c.city, req.city) || !StrictEquals(c.state, req.state)
    || !StrictEquals(c.pincode, req.pincode)
  }

  /** Every tracked field is a string or null, the only values that compare
      equal to what they leave in a column. */
  predicate TrackedFieldsReadBack(req: OrderRequest) {
    var fields := [req.firstname, req.lastname, req.email, req.address, req.city, req.state, req.pincode];
    forall i :: 0 <= i < |fields| ==> fields[i].Str? || fields[i].Null?
  }

  datatype Resolved = Resolved(t: Tables, s: Serials, reader: Reader)

  /** Step 1 of createOrder: find the reader by mobile or insert one; when a
      tracked field differs, first snapshot the old fields into ReaderHistory,
      then overwrite them. */
  function ResolveReader(t: Tables, s: Serials, req: OrderRequest, now: int): Resolved {
    var mobile := ColumnText(req.mobile);
    match FindReaderByMobile(t.readers, mobile)
    case None =>
      var r := Reader(s.reader, mobile, RequestContact(req), true, now);
      Resolved(t.(readers := t.readers + [r]), s.(reader := s.reader + 1), r)
    case Some(k) =>
      var r := t.readers[k];
      if HasChanges(r.contact, req) then
        var updated := r.(contact := RequestContact(req));
        Resolved(
          t.(history := t.history + [ReaderHistory(s.history, r.id, r.contact, now)],
             readers := t.readers[k := updated]),
          s.(history := s.history + 1),
          updated)
      else Resolved(t, s, r)
  }

  // ---------------------------------------------------------------- the lines

  /** `book.stockQty || 0` */
  function StockOf(b: Book): int {
    match b.data.stockQty
    case None => 0
    case Some(n) => n
  }

  /** A line waits when the stock cannot cover it. */
  function LineStatus(current: int, quantity: int): string {
    if current < quantity then "WAITLISTED" else "NEW_ORDER"
  }

  /** The transaction's state while the items are placed. */
  datatype Placed = Placed(t: Tables, s: Serials, lines: seq<OrderedBook>)

  /** The book after a line for `quantity` copies: stock lowered (possibly below
      zero) and `isAvailable` recomputed from what is left. */
  function Drawn(book: Book, quantity: int): Book {
    var newStock := StockOf(book) - quantity;
    book.(data := book.data.(stockQty := Some(newStock), isAvailable := newStock > 0))
  }

  /** The line for `quantity` copies of book `k`, with the status the book's
      current stock decides. */
  function LineFor(p: Placed, orderId: int, k: nat, quantity: int): OrderedBook
    requires k < |p.t.books|
  {
    OrderedBook(p.s.orderedBook, orderId, p.t.books[k].id, quantity,
                Some(LineStatus(StockOf(p.t.books[k]), quantity)))
  }

  /** The line added and book `k` drawn down. */
  function AddLine(p: Placed, orderId: int, k: nat, quantity: int): (q: Placed)
    requires k < |p.t.books|
    ensures q.t == p.t.(books := p.t.books[k := Drawn(p.t.books[k], quantity)],
                        orderedBooks := p.t.orderedBooks + [LineFor(p, orderId, k, quantity)])
    ensures q.s == p.s.(orderedBook := p.s.orderedBook + 1)
    ensures q.lines == p.lines + [LineFor(p, orderId, k, quantity)]
  {
    var line := LineFor(p, orderId, k, quantity);
    Placed(
      p.t.(books := p.t.books[k := Drawn(p.t.books[k], quantity)], orderedBooks := p.t.orderedBooks + [line]),
      p.s.(orderedBook := p.s.orderedBook + 1),
      p.lines + [line])
  }

  /** `parseInt(item.bookId)` and `parseInt(item.quantity)`; None is NaN. */
  datatype ItemIds = ItemIds(bookId: Option<int>, quantity: Option<int>)

  function ParseItem(item: OrderItem): ItemIds {
    ItemIds(JsParseInt(item.bookId), JsParseInt(item.quantity))
  }

  function ParseItems(items: seq<OrderItem>): (r: seq<ItemIds>)
    ensures |r| == |items|
  {
    seq(|items|, j requires 0 <= j < |items| => ParseItem(items[j]))
  }


  /** One pass of the item loop: look the book up, draw its stock down and add
      the line. */
  function PlaceItem(p: Placed, orderId: int, item: ItemIds): Response<Placed> {
    match item.bookId
    case None => Error(NaNParameter)
    case Some(bookId) =>
      match FindBook(p.t.books, bookId)
      case None => Error("Book with ID " + IntToString(bookId) + " not found")
      case Some(k) =>
        match item.quantity
        case None => Error(NaNParameter)
        case Some(quantity) => Ok(AddLine(p, orderId, k, quantity))
  }

  /** What placing `n` items leaves alone and what it adds: the other tables, the
      book ids and codes stay, and exactly `n` lines are appended. */
  ghost predicate ItemsFrame(p: Placed, q: Placed, n: nat) {
    q.t.readers == p.t.readers && q.t.history == p.t.history
    && q.t.orders == p.t.orders && q.t.logs == p.t.logs
    && |q.t.books| == |p.t.books|
    && (forall m :: 0 <= m < |p.t.books| ==>
          q.t.books[m].id == p.t.books[m].id && q.t.books[m].data.bookCode == p.t.books[m].data.bookCode)
    && |q.lines| == |p.lines| + n && q.lines[..|p.lines|] == p.lines
    && q.t.orderedBooks == p.t.orderedBooks + q.lines[|p.lines|..]
    && q.s == p.s.(orderedBook := p.s.orderedBook + n)
  }

  /** The lines carry the items' parsed ids and quantities, in item order, with
      consecutive ids from `firstId`. */
  ghost predicate LinesFromItems(lines: seq<OrderedBook>, items: seq<ItemIds>, orderId: int, firstId: int) {
    |lines| == |items|
    && forall j :: 0 <= j < |items| ==>
         lines[j].id == firstId + j && lines[j].orderId == orderId
         && items[j].bookId == Some(lines[j].bookId) && items[j].quantity == Some(lines[j].quantity)
  }

  /** The item loop, as the items placed so far: the first failure ends it. */
  function PlaceItems(p: Placed, orderId: int, items: seq<ItemIds>): (r: Response<Placed>)
    ensures r.Ok? || r.Error?
    decreases |items|
  {
    if items == [] then Ok(p)
    else
      match PlaceItems(p, orderId, items[..|items| - 1])
      case Ok(q) => PlaceItem(q, orderId, items[|items| - 1])
      case Error(m) => Error(m)
      case NotFound(m) => Error(m)
      case BadRequest(m) => Error(m)
  }

  /** A loop that placed every item placed all but the last, then the last. */
  lemma PlaceItemsLast(p: Placed, orderId: int, items: seq<ItemIds>, q: Placed)
    requires items != [] && PlaceItems(p, orderId, items) == Ok(q)
    ensures PlaceItems(p, orderId, items[..|items| - 1]).Ok?
    ensures PlaceItem(PlaceItems(p, orderId, items[..|items| - 1]).value, orderId, items[|items| - 1]) == Ok(q)
  {
  }

  lemma PlaceItemFrame(q: Placed, orderId: int, item: ItemIds, q': Placed)
    requires PlaceItem(q, orderId, item) == Ok(q')
    ensures ItemsFrame(q, q', 1) && q'.lines == q.lines + [q'.lines[|q.lines|]]
    ensures LinesFromItems([q'.lines[|q.lines|]], [item], orderId, q.s.orderedBook)
  {
    assert q'.lines[..|q.lines|] == q.lines;
    assert q'.lines[|q.lines|..] == [q'.lines[|q.lines|]];
  }

  lemma ItemsFrameStep(p: Placed, q0: Placed, q: Placed, n: nat)
    requires ItemsFrame(p, q0, n) && ItemsFrame(q0, q, 1)
    ensures ItemsFrame(p, q, n + 1)
    ensures q.lines[|p.lines|..] == q0.lines[|p.lines|..] + [q.lines[|q0.lines|]]
  {
    assert q.lines[..|p.lines|] == q0.lines[..|q0.lines|][..|p.lines|];
    assert q.lines[|p.lines|..] == q0.lines[|p.lines|..] + q.lines[|q0.lines|..];
  }

  lemma LinesFromItemsStep(lines: seq<OrderedBook>, l: OrderedBook, items: seq<ItemIds>, orderId: int, firstId: int)
    requires items != []
    requires LinesFromItems(lines, items[..|items| - 1], orderId, firstId)
    requires LinesFromItems([l], [items[|items| - 1]], orderId, firstId + |items| - 1)
    ensures LinesFromItems(lines + [l], items, orderId, firstId)
  {
  }

  /** Placing the items leaves readers, history, orders and logs alone, keeps
      every book's id and code, and appends one line per item. */
  lemma {:induction false} PlaceItemsFrame(p: Placed, orderId: int, items: seq<ItemIds>, q: Placed)
    requires PlaceItems(p, orderId, items) == Ok(q)
    ensures ItemsFrame(p, q, |items|)
    ensures LinesFromItems(q.lines[|p.lines|..], items, orderId, p.s.orderedBook)
    decreases |items|
  {
    if items == [] {
      assert p.lines[..|p.lines|] == p.lines;
      assert p.lines[|p.lines|..] == [];
    } else {
      var init := items[..|items| - 1];
      PlaceItemsLast(p, orderId, items, q);
      var q0 := PlaceItems(p, orderId, init).value;
      PlaceItemsFrame(p, orderId, init, q0);
      PlaceItemFrame(q0, orderId, items[|items| - 1], q);
      ItemsFrameStep(p, q0, q, |init|);
      LinesFromItemsStep(q0.lines[|p.lines|..], q.lines[|q0.lines|], items, orderId, p.s.orderedBook);
    }
  }

  /** The order as the response returns it, with its lines. */
  datatype PlacedOrder = PlacedOrder(order: Order, lines: seq<OrderedBook>)

  /** A committed transaction: the tables and sequences after COMMIT, and the reply. */
  datatype Committed = Committed(t: Tables, s: Serials, placed: PlacedOrder)

  /** The PENDING order createOrder inserts for the resolved reader. */
  function PendingOrder(res: Resolved, req: OrderRequest, now: int): Order {
    Order(res.s.order, res.reader.id, ColumnText(req.shippingDetails), Some("PENDING"), now, now, now)
  }

  /** The transaction once the reader is resolved and the order inserted. */
  function Opened(res: Resolved, order: Order): Placed {
    Placed(res.t.(orders := res.t.orders + [order]), res.s.(order := res.s.order + 1), [])
  }

  /** The NOTE log that closes a successful transaction, and the reply. */
  function Commit(q: Placed, order: Order, now: int): Committed {
    var log := ActivityLog(q.s.log, Some("NOTE"), Some("Order placed"), Some(order.id), Some(order.readerId), now);
    Committed(q.t.(logs := q.t.logs + [log]), q.s.(log := q.s.log + 1), PlacedOrder(order, q.lines))
  }

  /** `books` as the loop sees it: each item's ids through `parseInt`, None when
      `books` is not iterable. */
  function ParsedBooks(books: Option<seq<OrderItem>>): Option<seq<ItemIds>> {
    match books
    case None => None
    case Some(items) => Some(ParseItems(items))
  }

  /** createOrder as a function of the tables before BEGIN, the items already
      parsed. */
  function PlaceParsed(t: Tables, s: Serials, req: OrderRequest, books: Option<seq<ItemIds>>, now: int): (r: Response<Committed>)
    ensures r.Ok? || r.Error?
  {
    var res := ResolveReader(t, s, req, now);
    var order := PendingOrder(res, req, now);
    match books
    case None => Error(NotIterable)
    case Some(items) =>
      match PlaceItems(Opened(res, order), order.id, items)
      case Ok(q) => Ok(Commit(q, order, now))
      case Error(m) => Error(m)
      case NotFound(m) => Error(m)
      case BadRequest(m) => Error(m)
  }

  /** createOrder as a function of the tables before BEGIN and the request. */
  function PlaceOrder(t: Tables, s: Serials, req: OrderRequest, now: int): (r: Response<Committed>)
    ensures r.Ok? || r.Error?
  {
    PlaceParsed(t, s, req, ParsedBooks(req.books), now)
  }

  // ---------------------------------------------------------------- stock

  /** The total quantity the lines ask of book `id`. */
  function QuantityOf(lines: seq<OrderedBook>, id: int): int {
    if lines == [] then 0
    else QuantityOf(lines[..|lines| - 1], id)
         + (if lines[|lines| - 1].bookId == id then lines[|lines| - 1].quantity else 0)
  }

  predicate Mentions(lines: seq<OrderedBook>, id: int) {
    exists j :: 0 <= j < |lines| && lines[j].bookId == id
  }

  /** A book as a run of lines leaves it: stock lowered by everything they ask of
      it, availability recomputed from what is left; a book no line asks for is
      untouched. */
  function BookAfter(b: Book, lines: seq<OrderedBook>): Book {
    if Mentions(lines, b.id) then
      var left := StockOf(b) - QuantityOf(lines, b.id);
      b.(data := b.data.(stockQty := Some(left), isAvailable := left > 0))
    else b
  }

  /** The stock of book `id` before the order, null read as 0. */
  function InitialStock(books: seq<Book>, id: int): int {
    match FindBook(books, id)
    case None => 0
    case Some(k) => StockOf(books[k])
  }

  ghost predicate DistinctBookIds(books: seq<Book>) {
    forall i, j :: 0 <= i < j < |books| ==> books[i].id != books[j].id
  }

  /** Every book is where the lines so far leave it, and every line's status was
      decided by the stock the earlier lines of the order had left. */
  ghost predicate StockFollowsLines(b0: seq<Book>, books: seq<Book>, lines: seq<OrderedBook>) {
    |books| == |b0|
    && BooksFollow(b0, books, lines)
    && StatusesFollow(b0, lines)
  }

  /** Every book is where the lines so far leave it. */
  ghost predicate BooksFollow(b0: seq<Book>, books: seq<Book>, lines: seq<OrderedBook>)
    requires |books| == |b0|
  {
    forall m :: 0 <= m < |b0| ==> books[m] == BookAfter(b0[m], lines)
  }

  /** Line `j`'s status was decided by the stock the earlier lines had left. */
  ghost predicate StatusFollows(b0: seq<Book>, lines: seq<OrderedBook>, j: nat)
    requires j < |lines|
  {
    lines[j].status == Some(LineStatus(InitialStock(b0, lines[j].bookId) - QuantityOf(lines[..j], lines[j].bookId), lines[j].quantity))
  }

  ghost predicate StatusesFollow(b0: seq<Book>, lines: seq<OrderedBook>) {
    forall j :: 0 <= j < |lines| ==> StatusFollows(b0, lines, j)
  }

  /** A line whose status the earlier lines decided extends a run of such lines. */
  lemma StatusesFollowAppend(b0: seq<Book>, lines: seq<OrderedBook>, l: OrderedBook)
    requires StatusesFollow(b0, lines)
    requires l.status == Some(LineStatus(InitialStock(b0, l.bookId) - QuantityOf(lines, l.bookId), l.quantity))
    ensures StatusesFollow(b0, lines + [l])
  {
    var all := lines + [l];
    forall j | 0 <= j < |all| ensures StatusFollows(b0, all, j) {
      if j < |lines| {
        assert all[..j] == lines[..j];
        assert StatusFollows(b0, lines, j);
      } else {
        assert all[..j] == lines;
      }
    }
  }

  /** The line for book `k` gets the status its stock before the order, less what
      the earlier lines asked of it, decides. */
  lemma NewLineStatus(b0: seq<Book>, q: Placed, orderId: int, k: nat, n: int)
    requires DistinctBookIds(b0) && k < |b0| && k < |q.t.books|
    requires q.t.books[k] == BookAfter(b0[k], q.lines)
    ensures var l := LineFor(q, orderId, k, n);
      l.status == Some(LineStatus(InitialStock(b0, l.bookId) - QuantityOf(q.lines, l.bookId), l.quantity))
  {
    FindBookUnique(b0, k, b0[k].id);
    StockAfter(b0[k], q.lines);
  }

  lemma QuantityOfAppend(lines: seq<OrderedBook>, l: OrderedBook, id: int)
    ensures QuantityOf(lines + [l], id) == QuantityOf(lines, id) + (if l.bookId == id then l.quantity else 0)
  {
    assert (lines + [l])[..|lines|] == lines;
  }

  lemma {:induction false} NotMentionedNoQuantity(lines: seq<OrderedBook>, id: int)
    requires !Mentions(lines, id)
    ensures QuantityOf(lines, id) == 0
  {
    if lines != [] {
      var init := lines[..|lines| - 1];
      assert !Mentions(init, id) by {
        forall j | 0 <= j < |init| ensures init[j].bookId != id {
          assert init[j] == lines[j];
        }
      }
      NotMentionedNoQuantity(init, id);
    }
  }

  lemma MentionsAppend(lines: seq<OrderedBook>, l: OrderedBook, id: int)
    ensures Mentions(lines + [l], id) <==> Mentions(lines, id) || l.bookId == id
  {
    var all := lines + [l];
    if Mentions(all, id) && l.bookId != id {
      var j :| 0 <= j < |all| && all[j].bookId == id;
      assert j < |lines| && lines[j] == all[j];
    }
    if Mentions(lines, id) {
      var j :| 0 <= j < |lines| && lines[j].bookId == id;
      assert all[j] == lines[j];
    }
    assert all[|lines|] == l;
  }

  /** A book's stock as the lines leave it is its stock before the order less
      all they asked of it. */
  lemma StockAfter(b: Book, lines: seq<OrderedBook>)
    ensures StockOf(BookAfter(b, lines)) == StockOf(b) - QuantityOf(lines, b.id)
  {
    if !Mentions(lines, b.id) {
      NotMentionedNoQuantity(lines, b.id);
    }
  }

  lemma FindBookUnique(books: seq<Book>, k: nat, id: int)
    requires DistinctBookIds(books) && k < |books| && books[k].id == id
    ensures FindBook(books, id) == Some(k)
  {
  }


  lemma StockFollowsNoLines(b0: seq<Book>)
    ensures StockFollowsLines(b0, b0, [])
  {
    forall m | 0 <= m < |b0| ensures b0[m] == BookAfter(b0[m], []) {
      assert !Mentions([], b0[m].id);
    }
  }

  /** A line for book `x` leaves every other book where it was. */
  lemma BookAfterOther(b: Book, lines: seq<OrderedBook>, l: OrderedBook)
    requires l.bookId != b.id
    ensures BookAfter(b, lines + [l]) == BookAfter(b, lines)
  {
    MentionsAppend(lines, l, b.id);
    QuantityOfAppend(lines, l, b.id);
  }

  /** A line for book `b` draws what the earlier lines left of it. */
  lemma BookAfterSame(b: Book, lines: seq<OrderedBook>, l: OrderedBook)
    requires l.bookId == b.id
    ensures BookAfter(b, lines + [l]) == Drawn(BookAfter(b, lines), l.quantity)
  {
    MentionsAppend(lines, l, b.id);
    QuantityOfAppend(lines, l, b.id);
    StockAfter(b, lines);
  }

  /** A placed item: both ids parsed, the book found, the line added. */
  lemma PlaceItemOk(q: Placed, orderId: int, item: ItemIds, q': Placed)
    requires PlaceItem(q, orderId, item) == Ok(q')
    ensures item.bookId.Some? && item.quantity.Some?
    ensures FindBook(q.t.books, item.bookId.value).Some?
    ensures q' == AddLine(q, orderId, FindBook(q.t.books, item.bookId.value).value, item.quantity.value)
  {
  }

  /** Drawing book `k` down for a new line keeps every book where the lines leave it. */
  lemma BooksFollowAddLine(b0: seq<Book>, q: Placed, orderId: int, k: nat, n: int)
    requires DistinctBookIds(b0) && |q.t.books| == |b0| && k < |b0|
    requires BooksFollow(b0, q.t.books, q.lines)
    ensures BooksFollow(b0, AddLine(q, orderId, k, n).t.books, AddLine(q, orderId, k, n).lines)
  {
    var l := LineFor(q, orderId, k, n);
    var q' := AddLine(q, orderId, k, n);
    assert q.t.books[k] == BookAfter(b0[k], q.lines);
    forall m | 0 <= m < |b0| ensures q'.t.books[m] == BookAfter(b0[m], q'.lines) {
      assert q.t.books[m] == BookAfter(b0[m], q.lines);
      if m == k {
        BookAfterSame(b0[m], q.lines, l);
      } else {
        assert b0[m].id != b0[k].id;
        BookAfterOther(b0[m], q.lines, l);
      }
    }
  }

  /** One placed item keeps the stock where the lines put it. */
  lemma PlaceItemKeepsStock(b0: seq<Book>, q: Placed, orderId: int, item: ItemIds, q': Placed)
    requires DistinctBookIds(b0) && StockFollowsLines(b0, q.t.books, q.lines)
    requires PlaceItem(q, orderId, item) == Ok(q')
    ensures StockFollowsLines(b0, q'.t.books, q'.lines)
  {
    PlaceItemOk(q, orderId, item, q');
    var k := FindBook(q.t.books, item.bookId.value).value;
    var n := item.quantity.value;
    BooksFollowAddLine(b0, q, orderId, k, n);
    assert q.t.books[k] == BookAfter(b0[k], q.lines);
    NewLineStatus(b0, q, orderId, k, n);
    StatusesFollowAppend(b0, q.lines, LineFor(q, orderId, k, n));
  }

  /** Over the whole item loop: every book ends at its stock before the order
      less what the lines asked of it, and each line's status was decided by
      the stock the earlier lines had left. */
  lemma {:induction false} PlaceItemsKeepsStock(p: Placed, orderId: int, items: seq<ItemIds>, q: Placed)
    requires DistinctBookIds(p.t.books) && p.lines == []
    requires PlaceItems(p, orderId, items) == Ok(q)
    ensures StockFollowsLines(p.t.books, q.t.books, q.lines)
    decreases |items|
  {
    if items == [] {
      StockFollowsNoLines(p.t.books);
    } else {
      var init := items[..|items| - 1];
      PlaceItemsLast(p, orderId, items, q);
      var q0 := PlaceItems(p, orderId, init).value;
      PlaceItemsKeepsStock(p, orderId, init, q0);
      PlaceItemKeepsStock(p.t.books, q0, orderId, items[|items| - 1], q);
    }
  }

  // ---------------------------------------------------------------- success and failure

  /** An item the loop can place: both ids parse and the book exists. */
  predicate Placeable(books: seq<Book>, item: ItemIds) {
    item.bookId.Some? && item.quantity.Some?
    && exists k :: 0 <= k < |books| && books[k].id == item.bookId.value
  }

  /** The message the loop throws for an item it cannot place. */
  function ItemError(books: seq<Book>, item: ItemIds): string {
    if item.bookId.None? then NaNParameter
    else if FindBook(books, item.bookId.value).None? then "Book with ID " + IntToString(item.bookId.value) + " not found"
    else NaNParameter
  }

  /** Whether an item can be placed depends only on the book ids. */
  ghost predicate SameIds(b: seq<Book>, b': seq<Book>) {
    |b| == |b'| && forall m :: 0 <= m < |b| ==> b[m].id == b'[m].id
  }

  lemma PlaceableSameIds(b: seq<Book>, b': seq<Book>, item: ItemIds)
    requires SameIds(b, b')
    ensures Placeable(b, item) <==> Placeable(b', item)
    ensures ItemError(b, item) == ItemError(b', item)
  {
    if item.bookId.Some? {
      var x := item.bookId.value;
      if exists k :: 0 <= k < |b| && b[k].id == x {
        var k :| 0 <= k < |b| && b[k].id == x;
        assert b'[k].id == x;
      }
      if exists k :: 0 <= k < |b'| && b'[k].id == x {
        var k :| 0 <= k < |b'| && b'[k].id == x;
        assert b[k].id == x;
      }
    }
  }

  /** One item: placed exactly when it is placeable, otherwise its error. */
  lemma PlaceItemOutcome(q: Placed, orderId: int, item: ItemIds)
    ensures PlaceItem(q, orderId, item).Ok? <==> Placeable(q.t.books, item)
    ensures !Placeable(q.t.books, item) ==> PlaceItem(q, orderId, item) == Error(ItemError(q.t.books, item))
  {
  }

  predicate AllPlaceable(books: seq<Book>, items: seq<ItemIds>) {
    forall j :: 0 <= j < |items| ==> Placeable(books, items[j])
  }

  lemma AllPlaceableSnoc(books: seq<Book>, items: seq<ItemIds>)
    requires items != []
    ensures AllPlaceable(books, items)
            <==> AllPlaceable(books, items[..|items| - 1]) && Placeable(books, items[|items| - 1])
  {
    var init := items[..|items| - 1];
    if AllPlaceable(books, init) && Placeable(books, items[|items| - 1]) {
      forall j | 0 <= j < |items| ensures Placeable(books, items[j]) {
        if j < |init| { assert items[j] == init[j]; }
      }
    }
  }

  /** The loop succeeds exactly when every item is placeable against the books
      as they were before it (placing keeps every book's id). */
  lemma {:induction false} PlaceItemsSucceedsIff(p: Placed, orderId: int, items: seq<ItemIds>)
    ensures PlaceItems(p, orderId, items).Ok? <==> AllPlaceable(p.t.books, items)
    decreases |items|
  {
    if items != [] {
      var init := items[..|items| - 1];
      var last := items[|items| - 1];
      PlaceItemsSucceedsIff(p, orderId, init);
      AllPlaceableSnoc(p.t.books, items);
      if PlaceItems(p, orderId, init).Ok? {
        var q0 := PlaceItems(p, orderId, init).value;
        PlaceItemsFrame(p, orderId, init, q0);
        assert SameIds(p.t.books, q0.t.books);
        PlaceableSameIds(p.t.books, q0.t.books, last);
        PlaceItemOutcome(q0, orderId, last);
      }
    }
  }

  /** A failed loop stopped at its first unplaceable item, with that item's
      message. */
  lemma {:induction false} PlaceItemsFailsAtFirst(p: Placed, orderId: int, items: seq<ItemIds>, m: string)
    requires PlaceItems(p, orderId, items) == Error(m)
    ensures exists j :: 0 <= j < |items| && AllPlaceable(p.t.books, items[..j])
              && !Placeable(p.t.books, items[j]) && m == ItemError(p.t.books, items[j])
    decreases |items|
  {
    var init := items[..|items| - 1];
    var last := items[|items| - 1];
    if PlaceItems(p, orderId, init).Ok? {
      var q0 := PlaceItems(p, orderId, init).value;
      assert PlaceItems(p, orderId, items) == PlaceItem(q0, orderId, last);
      PlaceItemsFrame(p, orderId, init, q0);
      PlaceItemsSucceedsIff(p, orderId, init);
      assert SameIds(p.t.books, q0.t.books);
      PlaceableSameIds(p.t.books, q0.t.books, last);
      PlaceItemOutcome(q0, orderId, last);
      assert items[..|items| - 1] == init;
    } else {
      PlaceItemsFailsAtFirst(p, orderId, init, m);
      var j :| 0 <= j < |init| && AllPlaceable(p.t.books, init[..j])
               && !Placeable(p.t.books, init[j]) && m == ItemError(p.t.books, init[j]);
      assert items[j] == init[j];
      assert items[..j] == init[..j];
    }
  }

  /** Once an item fails, the rest of the loop never runs: the whole loop fails
      with the same message. */
  lemma {:induction false} PlaceItemsFailureSticks(p: Placed, orderId: int, items: seq<ItemIds>, n: nat, m: string)
    requires n <= |items| && PlaceItems(p, orderId, items[..n]) == Error(m)
    ensures PlaceItems(p, orderId, items) == Error(m)
    decreases |items| - n
  {
    if n < |items| {
      assert items[..n + 1][..n] == items[..n];
      PlaceItemsFailureSticks(p, orderId, items, n + 1, m);
    } else {
      assert items[..n] == items;
    }
  }

  // ---------------------------------------------------------------- the reader, proved

  /** Finding or creating the reader touches only Reader and ReaderHistory. */
  lemma ResolveReaderFrame(t: Tables, s: Serials, req: OrderRequest, now: int)
    ensures var res := ResolveReader(t, s, req, now);
      res.t.books == t.books && res.t.orders == t.orders
      && res.t.orderedBooks == t.orderedBooks && res.t.logs == t.logs
      && res.s == s.(reader := res.s.reader, history := res.s.history)
      && Advanced(s, res.s)
  {
  }

  /** Whichever branch runs, the reader the order goes to carries exactly the
      request's seven tracked fields: a field left alone was already `===`
      to the request's value, which for a column means the same text. */
  lemma ResolvedContactIsRequest(t: Tables, s: Serials, req: OrderRequest, now: int)
    ensures ResolveReader(t, s, req, now).reader.contact == RequestContact(req)
  {
    var mobile := ColumnText(req.mobile);
    match FindReaderByMobile(t.readers, mobile)
    case None =>
    case Some(k) =>
      var c := t.readers[k].contact;
      if !HasChanges(c, req) {
        assert c.firstname == ColumnText(req.firstname);
        assert c.lastname == ColumnText(req.lastname);
        assert c.email == ColumnText(req.email);
        assert c.address == ColumnText(req.address);
        assert c.city == ColumnText(req.city);
        assert c.state == ColumnText(req.state);
        assert c.pincode == ColumnText(req.pincode);
      }
  }

  /** A reader that existed keeps its id (and its mobile); a new one gets the
      next id. Either way a later lookup by the same non-null mobile finds it. */
  lemma ResolvedReaderFoundAgain(t: Tables, s: Serials, req: OrderRequest, now: int)
    requires ColumnText(req.mobile).Some?
    ensures var res := ResolveReader(t, s, req, now);
      var found := FindReaderByMobile(res.t.readers, ColumnText(req.mobile));
      found.Some? && res.t.readers[found.value] == res.reader
      && res.reader.mobile == ColumnText(req.mobile)
      && match FindReaderByMobile(t.readers, ColumnText(req.mobile))
         case None => res.reader.id == s.reader && found.value == |t.readers|
         case Some(k) => res.reader.id == t.readers[k].id && found.value == k
  {
    var mobile := ColumnText(req.mobile);
    var res := ResolveReader(t, s, req, now);
    var p := (r: Reader) => HasMobile(r, mobile);
    match FindReaderByMobile(t.readers, mobile)
    case None =>
      var n := |t.readers|;
      assert res.t.readers[n] == res.reader && p(res.reader);
      forall j | 0 <= j < n ensures !p(res.t.readers[j]) {
        assert res.t.readers[j] == t.readers[j];
      }
    case Some(k) =>
      assert p(res.t.readers[k]);
      forall j | 0 <= j < k ensures !p(res.t.readers[j]) {
        assert res.t.readers[j] == t.readers[j];
      }
  }

  /** When an existing reader's tracked fields change, the fields it had are
      kept as one ReaderHistory row before they are overwritten; otherwise
      no history is written. */
  lemma ResolveReaderHistory(t: Tables, s: Serials, req: OrderRequest, now: int)
    ensures var res := ResolveReader(t, s, req, now);
      match FindReaderByMobile(t.readers, ColumnText(req.mobile))
      case None => res.t.history == t.history
      case Some(k) =>
        if HasChanges(t.readers[k].contact, req) then
          res.t.history == t.history + [ReaderHistory(s.history, t.readers[k].id, t.readers[k].contact, now)]
          && res.t.readers == t.readers[k := res.reader]
        else res.t.history == t.history && res.t.readers == t.readers
  {
  }

  /** The request's own fields, once stored, differ from the request exactly
      when one of them is neither a string nor null. */
  lemma OwnContactChanges(req: OrderRequest)
    ensures HasChanges(RequestContact(req), req) <==> !TrackedFieldsReadBack(req)
  {
    var fields := [req.firstname, req.lastname, req.email, req.address, req.city, req.state, req.pincode];
    forall i | 0 <= i < |fields| ensures StrictEquals(ColumnText(fields[i]), fields[i]) <==> fields[i].Str? || fields[i].Null? {
      StoredValueEquals(fields[i]);
    }
    assert fields[0] == req.firstname && fields[1] == req.lastname && fields[2] == req.email;
    assert fields[3] == req.address && fields[4] == req.city && fields[5] == req.state && fields[6] == req.pincode;
  }

  /** The same request placed twice by a reader with a mobile: both orders go to
      the same reader, and the second writes a history row exactly when some
      tracked field is neither a string nor null (an omitted field is
      `undefined`, which is never `===` to the NULL it stored). */
  lemma RepeatOrderHistory(t: Tables, s: Serials, req: OrderRequest, now: int, now': int)
    requires ColumnText(req.mobile).Some?
    ensures var r1 := ResolveReader(t, s, req, now);
      var r2 := ResolveReader(r1.t, r1.s, req, now');
      r2.reader.id == r1.reader.id
      && (r2.t.history == r1.t.history <==> TrackedFieldsReadBack(req))
  {
    var r1 := ResolveReader(t, s, req, now);
    ResolvedReaderFoundAgain(t, s, req, now);
    ResolvedContactIsRequest(t, s, req, now);
    ResolvedReaderFoundAgain(r1.t, r1.s, req, now');
    OwnContactChanges(req);
  }

  lemma ResolveReaderWellFormed(t: Tables, s: Serials, req: OrderRequest, now: int)
    requires WellFormed(t, s)
    ensures WellFormed(ResolveReader(t, s, req, now).t, ResolveReader(t, s, req, now).s)
  {
    var mobile := ColumnText(req.mobile);
    var res := ResolveReader(t, s, req, now);
    match FindReaderByMobile(t.readers, mobile)
    case None =>
      KeyedAppend(t.readers, ReaderKey, s.reader, res.reader);
      forall i, j | 0 <= i < j < |res.t.readers| && res.t.readers[i].mobile.Some?
        ensures res.t.readers[i].mobile != res.t.readers[j].mobile
      {
        if j == |t.readers| {
          assert !HasMobile(t.readers[i], mobile);
        }
      }
    case Some(k) =>
      if HasChanges(t.readers[k].contact, req) {
        KeyedReplace(t.readers, ReaderKey, s.reader, k, res.reader);
        KeyedAppend(t.history, HistoryKey, s.history, res.t.history[|t.history|]);
      }
  }

  // ---------------------------------------------------------------- the order, proved

  /** The order commits exactly when `books` is iterable and every item names,
      by a parseable id, a book that existed before the order, with a parseable
      quantity. Stock never blocks an order: a short line is waitlisted. */
  lemma PlaceOrderSucceedsIff(t: Tables, s: Serials, req: OrderRequest, books: Option<seq<ItemIds>>, now: int)
    ensures PlaceParsed(t, s, req, books, now).Ok?
            <==> books.Some? && AllPlaceable(t.books, books.value)
  {
    if books.Some? {
      var res := ResolveReader(t, s, req, now);
      var order := PendingOrder(res, req, now);
      PlaceItemsSucceedsIff(Opened(res, order), order.id, books.value);
    }
  }

  /** A rolled-back order reports why: `books` not iterable, or the first item
      that could not be placed (an id that is not a number, or a book that does
      not exist), every earlier item having been placeable. */
  lemma PlaceOrderFailsAtFirst(t: Tables, s: Serials, req: OrderRequest, books: Option<seq<ItemIds>>, now: int, m: string)
    requires PlaceParsed(t, s, req, books, now) == Error(m)
    ensures books.None? ==> m == NotIterable
    ensures books.Some? ==>
      var items := books.value;
      exists j :: 0 <= j < |items| && AllPlaceable(t.books, items[..j])
        && !Placeable(t.books, items[j]) && m == ItemError(t.books, items[j])
  {
    if books.Some? {
      var res := ResolveReader(t, s, req, now);
      var order := PendingOrder(res, req, now);
      PlaceItemsFailsAtFirst(Opened(res, order), order.id, books.value, m);
    }
  }

  /** The PENDING order a committed order wrote, for the reader step 1 resolved,
      and the reader tables as step 1 left them. */
  lemma OrderRecorded(t: Tables, s: Serials, req: OrderRequest, books: Option<seq<ItemIds>>, now: int, c: Committed)
    requires PlaceParsed(t, s, req, books, now) == Ok(c)
    ensures var res := ResolveReader(t, s, req, now);
      c.placed.order == Order(s.order, res.reader.id, ColumnText(req.shippingDetails), Some("PENDING"), now, now, now)
      && c.t.readers == res.t.readers && c.t.history == res.t.history
      && c.t.orders == t.orders + [c.placed.order]
  {
    var res := ResolveReader(t, s, req, now);
    var order := PendingOrder(res, req, now);
    var parsed := books.value;
    var q := PlaceItems(Opened(res, order), order.id, parsed).value;
    assert c == Commit(q, order, now);
    PlaceItemsFrame(Opened(res, order), order.id, parsed, q);
    ResolveReaderFrame(t, s, req, now);
  }

  /** A committed order ends with exactly one NOTE log "Order placed" naming the
      order and its reader. */
  lemma OrderLogged(t: Tables, s: Serials, req: OrderRequest, books: Option<seq<ItemIds>>, now: int, c: Committed)
    requires PlaceParsed(t, s, req, books, now) == Ok(c)
    ensures c.t.logs == t.logs + [ActivityLog(s.log, Some("NOTE"), Some("Order placed"), Some(c.placed.order.id),
                                              Some(ResolveReader(t, s, req, now).reader.id), now)]
  {
    var res := ResolveReader(t, s, req, now);
    var order := PendingOrder(res, req, now);
    var parsed := books.value;
    var q := PlaceItems(Opened(res, order), order.id, parsed).value;
    assert c == Commit(q, order, now);
    PlaceItemsFrame(Opened(res, order), order.id, parsed, q);
    ResolveReaderFrame(t, s, req, now);
    assert q.t.logs == t.logs && q.s.log == s.log;
  }

  /** A committed order takes one value of the order and log sequences and one
      OrderedBook value per item, besides what step 1 took. */
  lemma OrderSerials(t: Tables, s: Serials, req: OrderRequest, books: Option<seq<ItemIds>>, now: int, c: Committed)
    requires PlaceParsed(t, s, req, books, now) == Ok(c)
    ensures books.Some?
    ensures c.s == ResolveReader(t, s, req, now).s.(order := s.order + 1, orderedBook := s.orderedBook + |books.value|,
                                                    log := s.log + 1)
  {
    var res := ResolveReader(t, s, req, now);
    var order := PendingOrder(res, req, now);
    var parsed := books.value;
    var q := PlaceItems(Opened(res, order), order.id, parsed).value;
    assert c == Commit(q, order, now);
    PlaceItemsFrame(Opened(res, order), order.id, parsed, q);
    assert res.s.order == s.order && res.s.orderedBook == s.orderedBook && res.s.log == s.log;
    assert q.s == res.s.(order := s.order + 1, orderedBook := s.orderedBook + |parsed|);
  }

  /** The lines of a committed order: one per item, in item order, carrying the
      item's parsed book id and quantity, numbered from the OrderedBook sequence,
      and appended to OrderedBook. */
  lemma OrderLinesFromItems(t: Tables, s: Serials, req: OrderRequest, books: Option<seq<ItemIds>>, now: int, c: Committed)
    requires PlaceParsed(t, s, req, books, now) == Ok(c)
    ensures books.Some?
    ensures LinesFromItems(c.placed.lines, books.value, c.placed.order.id, s.orderedBook)
    ensures c.t.orderedBooks == t.orderedBooks + c.placed.lines
  {
    var res := ResolveReader(t, s, req, now);
    var order := PendingOrder(res, req, now);
    var parsed := books.value;
    var q := PlaceItems(Opened(res, order), order.id, parsed).value;
    assert c == Commit(q, order, now);
    PlaceItemsFrame(Opened(res, order), order.id, parsed, q);
    assert q.lines[0..] == q.lines;
  }

  /** A committed order leaves every book at its stock before the order less
      everything its lines asked of that book, `isAvailable` true exactly when
      stock is left, and each line NEW_ORDER or WAITLISTED by the stock the
      earlier lines of the order had left. */
  lemma OrderDrawsStock(t: Tables, s: Serials, req: OrderRequest, books: Option<seq<ItemIds>>, now: int, c: Committed)
    requires WellFormed(t, s) && PlaceParsed(t, s, req, books, now) == Ok(c)
    ensures StockFollowsLines(t.books, c.t.books, c.placed.lines)
    ensures forall m :: 0 <= m < |t.books| ==>
      StockOf(c.t.books[m]) == StockOf(t.books[m]) - QuantityOf(c.placed.lines, t.books[m].id)
  {
    var res := ResolveReader(t, s, req, now);
    var order := PendingOrder(res, req, now);
    var parsed := books.value;
    var q := PlaceItems(Opened(res, order), order.id, parsed).value;
    assert c == Commit(q, order, now);
    ResolveReaderFrame(t, s, req, now);
    assert DistinctBookIds(t.books);
    PlaceItemsKeepsStock(Opened(res, order), order.id, parsed, q);
    forall m | 0 <= m < |t.books|
      ensures StockOf(c.t.books[m]) == StockOf(t.books[m]) - QuantityOf(c.placed.lines, t.books[m].id)
    {
      StockAfter(t.books[m], c.placed.lines);
    }
  }

  /** A committed order keeps every key unique and below its sequence, both
      uniqueness constraints, and only moves sequences forward. */
  lemma PlaceOrderWellFormed(t: Tables, s: Serials, req: OrderRequest, books: Option<seq<ItemIds>>, now: int, c: Committed)
    requires WellFormed(t, s) && PlaceParsed(t, s, req, books, now) == Ok(c)
    ensures WellFormed(c.t, c.s) && Advanced(s, c.s)
  {
    var res := ResolveReader(t, s, req, now);
    var order := PendingOrder(res, req, now);
    var parsed := books.value;
    var p := Opened(res, order);
    var q := PlaceItems(p, order.id, parsed).value;
    assert c == Commit(q, order, now);
    ResolveReaderFrame(t, s, req, now);
    ResolveReaderWellFormed(t, s, req, now);
    KeyedAppend(res.t.orders, OrderKey, res.s.order, order);
    PlaceItemsFrame(p, order.id, parsed, q);
    KeyedSameKeys(p.t.books, q.t.books, BookKey, s.book);
    KeyedAppendRun(p.t.orderedBooks, OrderedBookKey, s.orderedBook, q.lines);
    assert q.lines[0..] == q.lines;
    KeyedAppend(q.t.logs, LogKey, s.log, c.t.logs[|q.t.logs|]);
  }

  // ---------------------------------------------------------------- the handler

  /** One pass of the item loop on the store: SELECT the book, UPDATE its stock
      and availability, INSERT the line. A failed query leaves the store as it was
      (the transaction is about to be rolled back anyway). */
  method PlaceLine(db: Store, orderId: int, item: ItemIds, ghost lines: seq<OrderedBook>) returns (r: Response<OrderedBook>)
    modifies db
    ensures r.Ok? || r.Error?
    ensures PlaceItem(Placed(old(db.Snapshot()), old(db.serials), lines), orderId, item)
            == if r.Ok? then Ok(Placed(db.Snapshot(), db.serials, lines + [r.value])) else Error(r.message)
    ensures r.Error? ==> db.Snapshot() == old(db.Snapshot()) && db.serials == old(db.serials)
  {
    ghost var q := Placed(db.Snapshot(), db.serials, lines);
    if item.bookId.None? {
      return Error(NaNParameter);
    }
    var bookId := item.bookId.value;
    var k := FindBook(db.books, bookId);
    if k.None? {
      return Error("Book with ID " + IntToString(bookId) + " not found");
    }
    if item.quantity.None? {
      return Error(NaNParameter);
    }
    var quantity := item.quantity.value;
    var book := db.books[k.value];
    var current := StockOf(book);
    var status := if current < quantity then "WAITLISTED" else "NEW_ORDER";
    var newStock := current - quantity;
    db.books := db.books[k.value := book.(data := book.data.(stockQty := Some(newStock), isAvailable := newStock > 0))];
    var line := OrderedBook(db.serials.orderedBook, orderId, book.id, quantity, Some(status));
    db.orderedBooks := db.orderedBooks + [line];
    db.serials := db.serials.(orderedBook := db.serials.orderedBook + 1);
    r := Ok(line);
    assert Placed(db.Snapshot(), db.serials, lines + [line]) == AddLine(q, orderId, k.value, quantity);
  }

  /** The item loop on the store. On success the store holds what PlaceItems
      computes from the items' parsed ids; on failure it reports the same message
      (CreateOrder then rolls back) and the sequences have only moved forward. */
  method PlaceAll(db: Store, orderId: int, items: seq<ItemIds>) returns (r: Response<seq<OrderedBook>>)
    modifies db
    ensures var spec := PlaceItems(Placed(old(db.Snapshot()), old(db.serials), []), orderId, items);
      if spec.Ok? then r == Ok(spec.value.lines) && db.Snapshot() == spec.value.t && db.serials == spec.value.s
      else r == Error(spec.message) && Advanced(old(db.serials), db.serials)
  {
    ghost var p0 := Placed(db.Snapshot(), db.serials, []);
    var lines: seq<OrderedBook> := [];
    assert items[..0] == [];
    for i := 0 to |items|
      invariant PlaceItems(p0, orderId, items[..i]) == Ok(Placed(db.Snapshot(), db.serials, lines))
      invariant Advanced(p0.s, db.serials)
    {
      assert items[..i + 1][..i] == items[..i];
      var placed := PlaceLine(db, orderId, items[i], lines);
      if placed.Error? {
        PlaceItemsFailureSticks(p0, orderId, items, i + 1, placed.message);
        return Error(placed.message);
      }
      lines := lines + [placed.value];
    }
    assert items[..|items|] == items;
    r := Ok(lines);
  }

  /** Step 1 on the store: look the reader up by mobile, insert it, or keep its
      old fields in ReaderHistory and overwrite them. */
  method FindOrCreateReader(db: Store, req: OrderRequest, now: int) returns (reader: Reader)
    modifies db
    ensures var res := ResolveReader(old(db.Snapshot()), old(db.serials), req, now);
      db.Snapshot() == res.t && db.serials == res.s && reader == res.reader
  {
    var mobile := ColumnText(req.mobile);
    var found := FindReaderByMobile(db.readers, mobile);
    if found.None? {
      reader := Reader(db.serials.reader, mobile, RequestContact(req), true, now);
      db.readers := db.readers + [reader];
      db.serials := db.serials.(reader := db.serials.reader + 1);
    } else {
      reader := db.readers[found.value];
      if HasChanges(reader.contact, req) {
        db.history := db.history + [ReaderHistory(db.serials.history, reader.id, reader.contact, now)];
        db.serials := db.serials.(history := db.serials.history + 1);
        reader := reader.(contact := RequestContact(req));
        db.readers := db.readers[found.value := reader];
      }
    }
  }

  /** POST /orders, step by step on the store, proved to do what PlaceOrder
      says: on COMMIT the store holds PlaceOrder's tables and sequences and the
      reply is the order with its lines; on ROLLBACK every table is as it was,
      the sequences have moved on and the reply is a 500 with the message. */
  method CreateOrder(db: Store, req: OrderRequest, now: int) returns (r: Response<PlacedOrder>)
    requires db.Valid()
    modifies db
    ensures db.Valid()
    ensures var spec := PlaceOrder(old(db.Snapshot()), old(db.serials), req, now);
      if spec.Ok? then
        r == Ok(spec.value.placed) && db.Snapshot() == spec.value.t && db.serials == spec.value.s
      else
        r == Error(spec.message) && db.Snapshot() == old(db.Snapshot()) && Advanced(old(db.serials), db.serials)
  {
    // BEGIN: what ROLLBACK returns to
    var t0 := db.Snapshot();
    ghost var s0 := db.serials;
    ResolveReaderWellFormed(t0, s0, req, now);
    ResolveReaderFrame(t0, s0, req, now);

    // 1. find or create the reader
    var reader := FindOrCreateReader(db, req, now);
    ghost var res := ResolveReader(t0, s0, req, now);

    // 2. the PENDING order
    var order := Order(db.serials.order, reader.id, ColumnText(req.shippingDetails), Some("PENDING"), now, now, now);
    db.orders := db.orders + [order];
    db.serials := db.serials.(order := db.serials.order + 1);
    ghost var p0 := Opened(res, order);
    assert order == PendingOrder(res, req, now);

    if req.books.None? {
      db.Restore(t0);
      WellFormedRaise(t0, s0, db.serials);
      return Error(NotIterable);
    }
    ghost var parsed := ParseItems(req.books.value);
    ghost var books := ParsedBooks(req.books);
    assert PlaceOrder(t0, s0, req, now) == PlaceParsed(t0, s0, req, books, now);
    assert Placed(db.Snapshot(), db.serials, []) == p0;
    var placed := PlaceAll(db, order.id, ParseItems(req.books.value));
    if placed.Error? {
      assert PlaceItems(p0, order.id, parsed) == Error(placed.message);
      assert PlaceParsed(t0, s0, req, books, now) == Error(placed.message);
      db.Restore(t0);
      WellFormedRaise(t0, s0, db.serials);
      return Error(placed.message);
    }
    var lines := placed.value;
    ghost var q := Placed(db.Snapshot(), db.serials, lines);
    assert PlaceItems(p0, order.id, parsed) == Ok(q);
    assert PlaceParsed(t0, s0, req, books, now) == Ok(Commit(q, order, now));

    // 3. the NOTE log, then COMMIT
    var log := ActivityLog(db.serials.log, Some("NOTE"), Some("Order placed"), Some(order.id), Some(reader.id), now);
    db.logs := db.logs + [log];
    db.serials := db.serials.(log := db.serials.log + 1);
    PlaceOrderWellFormed(t0, s0, req, books, now, Commit(q, order, now));
    r := Ok(PlacedOrder(order, lines));
  }

  // ---------------------------------------------------------------- order status

  /** The STATUS_CHANGE description: the request's own when truthy, otherwise
      the transition written out, a null status printing as "null". */
  function StatusLogText(previous: Option<string>, status: Value, description: Value): Option<string> {
    if Truthy(description) then ColumnText(description)
    else Some("Order status updated from " + previous.GetOr("null") + " -> " + ToString(status))
  }

  datatype StatusChanged = StatusChanged(t: Tables, s: Serials, order: Order)

  /** updateOrderStatus as a function of the tables: `id` is the parsed route
      parameter (None for NaN). */
  function ChangeStatus(t: Tables, s: Serials, id: Option<int>, status: Value, description: Value, now: int): Response<StatusChanged> {
    match id
    case None => Error(NaNParameter)
    case Some(n) =>
      match FindOrder(t.orders, n)
      case None => NotFound("Order not found")
      case Some(k) =>
        var o := t.orders[k];
        var updated := o.(status := ColumnText(status), updatedAt := now);
        var log := ActivityLog(s.log, Some("STATUS_CHANGE"), StatusLogText(o.status, status, description), Some(n), Some(o.readerId), now);
        Ok(StatusChanged(t.(orders := t.orders[k := updated], logs := t.logs + [log]), s.(log := s.log + 1), updated))
  }

  /** A NaN id is a 500, an id no order has is a 404, any other id succeeds. */
  lemma ChangeStatusOutcome(t: Tables, s: Serials, id: Option<int>, status: Value, description: Value, now: int)
    ensures ChangeStatus(t, s, id, status, description, now).Error? <==> id.None?
    ensures ChangeStatus(t, s, id, status, description, now).NotFound?
            <==> id.Some? && forall k :: 0 <= k < |t.orders| ==> t.orders[k].id != id.value
  {
  }

  /** A successful status change rewrites the order's status and updatedAt and
      nothing else of it, appends exactly one STATUS_CHANGE log naming the order
      and its reader, and leaves every other table alone. */
  lemma ChangeStatusWrites(t: Tables, s: Serials, id: Option<int>, status: Value, description: Value, now: int, c: StatusChanged)
    requires ChangeStatus(t, s, id, status, description, now) == Ok(c)
    ensures id.Some?
    ensures exists k ::
        0 <= k < |t.orders| && t.orders[k].id == id.value
        && c.order == t.orders[k].(status := ColumnText(status), updatedAt := now)
        && c.t.orders == t.orders[k := c.order]
        && c.t.logs == t.logs + [ActivityLog(s.log, Some("STATUS_CHANGE"),
                                             StatusLogText(t.orders[k].status, status, description),
                                             id, Some(t.orders[k].readerId), now)]
    ensures c.t.books == t.books && c.t.readers == t.readers && c.t.history == t.history
            && c.t.orderedBooks == t.orderedBooks
    ensures c.s == s.(log := s.log + 1)
  {
    var k := FindOrder(t.orders, id.value).value;
    assert t.orders[k].id == id.value;
  }

  /** Without a description of its own, the log says where the status came from
      and where it went: the previous status ("null" when there was none), then
      " -> ", then the new one. */
  lemma DefaultStatusText(previous: Option<string>, status: Value, description: Value)
    requires !Truthy(description)
    ensures StatusLogText(previous, status, description)
            == Some("Order status updated from " + previous.GetOr("null") + " -> " + ToString(status))
    ensures var text := StatusLogText(previous, status, description).value;
      var from := |"Order status updated from "|;
      var prev := previous.GetOr("null");
      "Order status updated from " <= text
      && text[from..from + |prev|] == prev
      && text[from + |prev|..from + |prev| + 4] == " -> "
      && text[from + |prev| + 4..] == ToString(status)
  {
    var prev := previous.GetOr("null");
    var text := "Order status updated from " + prev + " -> " + ToString(status);
    var from := |"Order status updated from "|;
    assert text[from..from + |prev|] == prev;
    assert text[from + |prev|..from + |prev| + 4] == " -> ";
    assert text[from + |prev| + 4..] == ToString(status);
  }

  /** With a truthy description, the log carries that description as stored. */
  lemma OwnStatusText(previous: Option<string>, status: Value, description: Value)
    requires Truthy(description)
    ensures StatusLogText(previous, status, description) == ColumnText(description)
  {
  }

  lemma ChangeStatusWellFormed(t: Tables, s: Serials, id: Option<int>, status: Value, description: Value, now: int, c: StatusChanged)
    requires WellFormed(t, s) && ChangeStatus(t, s, id, status, description, now) == Ok(c)
    ensures WellFormed(c.t, c.s)
  {
    var k := FindOrder(t.orders, id.value).value;
    KeyedReplace(t.orders, OrderKey, s.order, k, c.order);
    KeyedAppend(t.logs, LogKey, s.log, c.t.logs[|t.logs|]);
  }

  /** PATCH /orders/:id/status on the store, `id` already through `parseInt`.
      The two writes are not in a transaction; nothing in the model makes the
      second one fail. */
  method UpdateOrderStatus(db: Store, id: Option<int>, status: Value, description: Value, now: int) returns (r: Response<Order>)
    requires db.Valid()
    modifies db
    ensures db.Valid()
    ensures var spec := ChangeStatus(old(db.Snapshot()), old(db.serials), id, status, description, now);
      if spec.Ok? then r == Ok(spec.value.order) && db.Snapshot() == spec.value.t && db.serials == spec.value.s
      else r == Failed(spec) && db.Snapshot() == old(db.Snapshot()) && db.serials == old(db.serials)
  {
    ghost var t0, s0 := db.Snapshot(), db.serials;
    if id.None? {
      return Error(NaNParameter);
    }
    var k := FindOrder(db.orders, id.value);
    if k.None? {
      return NotFound("Order not found");
    }
    var previous := db.orders[k.value];
    var updated := previous.(status := ColumnText(status), updatedAt := now);
    db.orders := db.orders[k.value := updated];
    var text := StatusLogText(previous.status, status, description);
    db.logs := db.logs + [ActivityLog(db.serials.log, Some("STATUS_CHANGE"), text, id, Some(previous.readerId), now)];
    db.serials := db.serials.(log := db.serials.log + 1);
    assert ChangeStatus(t0, s0, id, status, description, now) == Ok(StatusChanged(db.Snapshot(), db.serials, updated));
    ChangeStatusWellFormed(t0, s0, id, status, description, now, StatusChanged(db.Snapshot(), db.serials, updated));
    r := Ok(updated);
  }

  // ---------------------------------------------------------------- line status

  /** The line `updateOrderedBookStatus` picks: the first line of the order for
      book `target`; failing that, the order's line whose own id is `target`. */
  function FindLine(lines: seq<OrderedBook>, orderId: int, target: int): (r: Option<nat>)
    ensures r.Some? ==> r.value < |lines| && lines[r.value].orderId == orderId
                        && (lines[r.value].bookId == target || lines[r.value].id == target)
    ensures (exists j :: 0 <= j < |lines| && lines[j].orderId == orderId && lines[j].bookId == target)
            ==> r.Some? && lines[r.value].bookId == target
                && forall j :: 0 <= j < r.value ==> !(lines[j].orderId == orderId && lines[j].bookId == target)
    ensures r.None? <==> forall j :: 0 <= j < |lines| && lines[j].orderId == orderId
                                     ==> lines[j].bookId != target && lines[j].id != target
  {
    match FirstWhere(lines, (l: OrderedBook) => l.orderId == orderId && l.bookId == target)
    case Some(k) => Some(k)
    case None => FirstWhere(lines, (l: OrderedBook) => l.orderId == orderId && l.id == target)
  }

  datatype LineChanged = LineChanged(t: Tables, line: OrderedBook)

  /** updateOrderedBookStatus as a function of the tables, both route parameters
      already through `parseInt`. */
  function ChangeLineStatus(t: Tables, orderId: Option<int>, target: Option<int>, status: Value): Response<LineChanged> {
    if orderId.None? || target.None? then Error(NaNParameter)
    else
      match FindLine(t.orderedBooks, orderId.value, target.value)
      case None => NotFound("Ordered book not found in this order")
      case Some(k) =>
        var updated := t.orderedBooks[k].(status := ColumnText(status));
        Ok(LineChanged(t.(orderedBooks := t.orderedBooks[k := updated]), updated))
  }

  /** A successful change rewrites the status of the one line FindLine picks and
      nothing else, in that line or anywhere else. */
  lemma ChangeLineStatusWrites(t: Tables, orderId: Option<int>, target: Option<int>, status: Value, c: LineChanged)
    requires ChangeLineStatus(t, orderId, target, status) == Ok(c)
    ensures orderId.Some? && target.Some?
    ensures var k := FindLine(t.orderedBooks, orderId.value, target.value);
      k.Some? && c.line == t.orderedBooks[k.value].(status := ColumnText(status))
      && c.t == t.(orderedBooks := t.orderedBooks[k.value := c.line])
    ensures |c.t.orderedBooks| == |t.orderedBooks|
    ensures forall j :: 0 <= j < |t.orderedBooks| && c.t.orderedBooks[j] != t.orderedBooks[j] ==>
      c.t.orderedBooks[j] == c.line && t.orderedBooks[j].orderId == orderId.value
      && c.line.status == ColumnText(status)
  {
  }

  /** A NaN parameter is a 500, an order without such a line a 404. */
  lemma ChangeLineStatusOutcome(t: Tables, orderId: Option<int>, target: Option<int>, status: Value)
    ensures ChangeLineStatus(t, orderId, target, status).Error? <==> orderId.None? || target.None?
    ensures ChangeLineStatus(t, orderId, target, status).NotFound? <==>
      orderId.Some? && target.Some?
      && forall j :: 0 <= j < |t.orderedBooks| && t.orderedBooks[j].orderId == orderId.value
                     ==> t.orderedBooks[j].bookId != target.value && t.orderedBooks[j].id != target.value
  {
  }

  /** PATCH /orders/:orderId/books/:bookId/status on the store. */
  method UpdateOrderedBookStatus(db: Store, orderId: Option<int>, target: Option<int>, status: Value) returns (r: Response<OrderedBook>)
    requires db.Valid()
    modifies db
    ensures db.Valid() && db.serials == old(db.serials)
    ensures var spec := ChangeLineStatus(old(db.Snapshot()), orderId, target, status);
      if spec.Ok? then r == Ok(spec.value.line) && db.Snapshot() == spec.value.t
      else r == Failed(spec) && db.Snapshot() == old(db.Snapshot())
  {
    ghost var t0 := db.Snapshot();
    if orderId.None? || target.None? {
      return Error(NaNParameter);
    }
    var k := FindLine(db.orderedBooks, orderId.value, target.value);
    if k.None? {
      return NotFound("Ordered book not found in this order");
    }
    var updated := db.orderedBooks[k.value].(status := ColumnText(status));
    KeyedReplace(db.orderedBooks, OrderedBookKey, db.serials.orderedBook, k.value, updated);
    db.orderedBooks := db.orderedBooks[k.value := updated];
    r := Ok(updated);
  }

  // ---------------------------------------------------------------- book order stats

  /** A line with its order and the order's reader, as the inner join returns it. */
  datatype StatsRow = StatsRow(line: OrderedBook, order: Order, reader: Reader)

  /** `JOIN "Order" o ON ob."orderId" = o.id JOIN "Reader" r ON o."readerId" = r.id`
      for one line: nothing when either row is missing. */
  function JoinLine(t: Tables, l: OrderedBook): Option<StatsRow> {
    match FindOrder(t.orders, l.orderId)
    case None => None
    case Some(k) =>
      match FindReader(t.readers, t.orders[k].readerId)
      case None => None
      case Some(m) => Some(StatsRow(l, t.orders[k], t.readers[m]))
  }

  /** The joined rows of the lines for book `id`, in table order. */
  function StatsRows(t: Tables, lines: seq<OrderedBook>, id: int): (rows: seq<StatsRow>)
    ensures forall i :: 0 <= i < |rows| ==> rows[i].line.bookId == id && rows[i].line in lines
    decreases |lines|
  {
    if lines == [] then []
    else
      var init := lines[..|lines| - 1];
      var l := lines[|lines| - 1];
      var rest := StatsRows(t, init, id);
      assert forall i :: 0 <= i < |rest| ==> rest[i].line in lines by {
        forall i | 0 <= i < |rest| ensures rest[i].line in lines {
          var j :| 0 <= j < |init| && init[j] == rest[i].line;
          assert lines[j] == init[j];
        }
      }
      if l.bookId == id && JoinLine(t, l).Some? then rest + [JoinLine(t, l).value] else rest
  }

  /** `reduce((sum, item) => sum + item.quantity, 0)` */
  function TotalQuantity(rows: seq<StatsRow>): int {
    if rows == [] then 0 else TotalQuantity(rows[..|rows| - 1]) + rows[|rows| - 1].line.quantity
  }

  ghost function ReaderIds(rs: seq<Reader>): set<int> {
    set i | 0 <= i < |rs| :: rs[i].id
  }

  /** `readersMap.set(reader.id, reader)`: a known id keeps its place and takes
      the new value, a new id goes last. */
  function SetReader(acc: seq<Reader>, r: Reader): seq<Reader> {
    match FindReader(acc, r.id)
    case Some(j) => acc[j := r]
    case None => acc + [r]
  }

  /** `Array.from(readersMap.values())` after setting every row's reader. */
  function DistinctReaders(rs: seq<Reader>): seq<Reader>
    decreases |rs|
  {
    if rs == [] then [] else SetReader(DistinctReaders(rs[..|rs| - 1]), rs[|rs| - 1])
  }

  ghost predicate DistinctIds(rs: seq<Reader>) {
    forall i, j :: 0 <= i < j < |rs| ==> rs[i].id != rs[j].id
  }

  lemma SetReaderKeeps(acc: seq<Reader>, r: Reader)
    requires DistinctIds(acc)
    ensures DistinctIds(SetReader(acc, r))
    ensures ReaderIds(SetReader(acc, r)) == ReaderIds(acc) + {r.id}
  {
    var out := SetReader(acc, r);
    match FindReader(acc, r.id)
    case Some(j) =>
      forall x | x in ReaderIds(acc) ensures x in ReaderIds(out) {
        var i :| 0 <= i < |acc| && acc[i].id == x;
        assert out[i].id == x;
      }
      forall x | x in ReaderIds(out) ensures x in ReaderIds(acc) {
        var i :| 0 <= i < |out| && out[i].id == x;
        assert acc[i].id == x;
      }
    case None =>
      forall x | x in ReaderIds(out) ensures x in ReaderIds(acc) + {r.id} {
        var i :| 0 <= i < |out| && out[i].id == x;
        if i < |acc| { assert acc[i].id == x; }
      }
      forall x | x in ReaderIds(acc) + {r.id} ensures x in ReaderIds(out) {
        if x == r.id { assert out[|acc|].id == x; }
        else {
          var i :| 0 <= i < |acc| && acc[i].id == x;
          assert out[i].id == x;
        }
      }
  }

  /** The map holds one reader per id, and exactly the ids of the rows. */
  lemma {:induction false} DistinctReadersIds(rs: seq<Reader>)
    ensures DistinctIds(DistinctReaders(rs))
    ensures ReaderIds(DistinctReaders(rs)) == ReaderIds(rs)
    decreases |rs|
  {
    if rs != [] {
      var init := rs[..|rs| - 1];
      DistinctReadersIds(init);
      SetReaderKeeps(DistinctReaders(init), rs[|rs| - 1]);
      forall x | x in ReaderIds(rs) ensures x in ReaderIds(init) + {rs[|rs| - 1].id} {
        var i :| 0 <= i < |rs| && rs[i].id == x;
        if i < |init| { assert init[i].id == x; }
      }
      forall x | x in ReaderIds(init) ensures x in ReaderIds(rs) {
        var i :| 0 <= i < |init| && init[i].id == x;
        assert rs[i].id == x;
      }
    }
  }

  /** A list with distinct ids is as long as its set of ids. */
  lemma {:induction false} DistinctIdsCount(rs: seq<Reader>)
    requires DistinctIds(rs)
    ensures |ReaderIds(rs)| == |rs|
    decreases |rs|
  {
    if rs != [] {
      var init := rs[..|rs| - 1];
      var last := rs[|rs| - 1];
      DistinctIdsCount(init);
      assert ReaderIds(rs) == ReaderIds(init) + {last.id} by {
        forall x | x in ReaderIds(rs) ensures x in ReaderIds(init) + {last.id} {
          var i :| 0 <= i < |rs| && rs[i].id == x;
          if i < |init| { assert init[i].id == x; }
        }
        forall x | x in ReaderIds(init) ensures x in ReaderIds(rs) {
          var i :| 0 <= i < |init| && init[i].id == x;
          assert rs[i].id == x;
        }
      }
      assert last.id !in ReaderIds(init) by {
        forall i | 0 <= i < |init| ensures init[i].id != last.id {
          assert init[i] == rs[i];
        }
      }
    }
  }

  function RowReaders(rows: seq<StatsRow>): (rs: seq<Reader>)
    ensures |rs| == |rows| && forall i :: 0 <= i < |rows| ==> rs[i] == rows[i].reader
  {
    seq(|rows|, i requires 0 <= i < |rows| => rows[i].reader)
  }

  datatype BookStats = BookStats(bookId: int, totalOrderedQuantity: int, readersCount: nat, readers: seq<Reader>)

  /** GET /orders/stats/book/:bookId, the parameter already through `parseInt`. */
  function GetBookOrderStats(t: Tables, bookId: Option<int>): Response<BookStats> {
    match bookId
    case None => Error(NaNParameter)
    case Some(id) =>
      var rows := StatsRows(t, t.orderedBooks, id);
      var readers := DistinctReaders(RowReaders(rows));
      Ok(BookStats(id, TotalQuantity(rows), |readers|, readers))
  }

  /** `readersCount` is the number of distinct reader ids among the book's joined
      lines, and `readers` holds each of them once. */
  lemma ReadersCountIsDistinct(t: Tables, id: int)
    ensures var st := GetBookOrderStats(t, Some(id)).value;
      var rows := StatsRows(t, t.orderedBooks, id);
      st.readersCount == |ReaderIds(RowReaders(rows))|
      && DistinctIds(st.readers) && ReaderIds(st.readers) == ReaderIds(RowReaders(rows))
  {
    var rs := RowReaders(StatsRows(t, t.orderedBooks, id));
    DistinctReadersIds(rs);
    DistinctIdsCount(DistinctReaders(rs));
  }

  /** Every line can be joined to its order and that order's reader. */
  ghost predicate LinesJoin(t: Tables, lines: seq<OrderedBook>) {
    forall j :: 0 <= j < |lines| ==> JoinLine(t, lines[j]).Some?
  }

  /** When every line joins, `totalOrderedQuantity` is the sum of the quantities
      of every line of the book, the same sum createOrder draws stock by. */
  lemma {:induction false} TotalIsQuantityOf(t: Tables, lines: seq<OrderedBook>, id: int)
    requires LinesJoin(t, lines)
    ensures TotalQuantity(StatsRows(t, lines, id)) == QuantityOf(lines, id)
    decreases |lines|
  {
    if lines != [] {
      var init := lines[..|lines| - 1];
      var l := lines[|lines| - 1];
      assert LinesJoin(t, init) by {
        forall j | 0 <= j < |init| ensures JoinLine(t, init[j]).Some? {
          assert init[j] == lines[j];
        }
      }
      TotalIsQuantityOf(t, init, id);
      assert JoinLine(t, l).Some?;
      var rest := StatsRows(t, init, id);
      if l.bookId == id {
        var all := rest + [JoinLine(t, l).value];
        assert all[..|all| - 1] == rest;
      }
    }
  }

  // ---------------------------------------------------------------- listings

  /** A line as the listings return it, with its book. */
  datatype LineView = LineView(line: OrderedBook, book: Book)

  /** `JOIN "Book" b ON ob."bookId" = b.id WHERE ob."orderId" = $1`, in table
      order: a line whose book is gone drops out. */
  function JoinBooks(books: seq<Book>, lines: seq<OrderedBook>, orderId: int): (r: seq<LineView>)
    ensures forall i :: 0 <= i < |r| ==>
      r[i].line in lines && r[i].line.orderId == orderId && r[i].book in books && r[i].book.id == r[i].line.bookId
    ensures forall j :: 0 <= j < |lines| && lines[j].orderId == orderId && FindBook(books, lines[j].bookId).Some? ==>
      LineView(lines[j], books[FindBook(books, lines[j].bookId).value]) in r
  {
    if lines == [] then []
    else
      var l := lines[0];
      var here := if l.orderId == orderId && FindBook(books, l.bookId).Some?
                  then [LineView(l, books[FindBook(books, l.bookId).value])] else [];
      var rest := JoinBooks(books, lines[1..], orderId);
      assert forall j :: 1 <= j < |lines| ==> lines[j] == lines[1..][j - 1];
      here + rest
  }

  function LinesOf(t: Tables, orderId: int): seq<LineView> {
    JoinBooks(t.books, t.orderedBooks, orderId)
  }

  /** An order with its reader, as `JOIN "Reader" r ON o."readerId" = r.id` pairs them. */
  datatype OrderRow = OrderRow(order: Order, reader: Reader)

  function JoinReaders(readers: seq<Reader>, orders: seq<Order>): (rows: seq<OrderRow>)
    ensures forall i :: 0 <= i < |rows| ==>
      rows[i].order in orders && rows[i].reader in readers && rows[i].reader.id == rows[i].order.readerId
    ensures forall j :: 0 <= j < |orders| && FindReader(readers, orders[j].readerId).Some? ==>
      OrderRow(orders[j], readers[FindReader(readers, orders[j].readerId).value]) in rows
  {
    if orders == [] then []
    else
      var o := orders[0];
      var here := match FindReader(readers, o.readerId)
                  case None => []
                  case Some(m) => [OrderRow(o, readers[m])];
      var rest := JoinReaders(readers, orders[1..]);
      assert forall j :: 1 <= j < |orders| ==> orders[j] == orders[1..][j - 1];
      here + rest
  }

  /** An order as getAllOrders returns it: with its reader and its lines. */
  datatype OrderView = OrderView(order: Order, reader: Reader, lines: seq<LineView>)

  function Views(t: Tables, rows: seq<OrderRow>): (r: seq<OrderView>)
    ensures |r| == |rows|
    ensures forall i :: 0 <= i < |r| ==> r[i] == OrderView(rows[i].order, rows[i].reader, LinesOf(t, rows[i].order.id))
  {
    seq(|rows|, i requires 0 <= i < |rows| => OrderView(rows[i].order, rows[i].reader, LinesOf(t, rows[i].order.id)))
  }

  /** The query string of GET /orders. */
  datatype OrderQuery = OrderQuery(status: Value, city: Value, state: Value, search: Value)

  /** `Array.isArray(p) ? p : [p]` */
  function AsList(p: Value): seq<Value> {
    if p.List? then p.items else [p]
  }

  /** `column IN ($1, ...)`: equal to the text of one of the values; NULL is in nothing. */
  predicate InList(column: Option<string>, values: seq<Value>) {
    column.Some? && exists i :: 0 <= i < |values| && ColumnText(values[i]) == column
  }

  /** A filter given as an empty array produces `IN ()`. */
  predicate EmptyInList(q: OrderQuery) {
    q.status == List([]) || q.city == List([]) || q.state == List([])
  }


  /** The `search` condition: first name, last name, email or shipping details. */
  predicate SearchMatches(text: string, row: OrderRow) {
    ILike(row.reader.contact.firstname, text) || ILike(row.reader.contact.lastname, text)
    || ILike(row.reader.contact.email, text) || ILike(row.order.shippingDetails, text)
  }

  /** The conjunction of the conditions the truthy parameters add. */
  predicate OrderMatches(q: OrderQuery, row: OrderRow) {
    (Truthy(q.status) ==> InList(row.order.status, AsList(q.status)))
    && (Truthy(q.city) ==> InList(row.reader.contact.city, AsList(q.city)))
    && (Truthy(q.state) ==> InList(row.reader.contact.state, AsList(q.state)))
    && (Truthy(q.search) ==> SearchMatches(ToString(q.search), row))
  }

  function OrderDateOf(row: OrderRow): int { row.order.orderDate }

  /** GET /orders. */
  function GetAllOrders(t: Tables, q: OrderQuery): Response<seq<OrderView>> {
    if EmptyInList(q) then Error(InSyntaxError)
    else
      var rows := Where(JoinReaders(t.readers, t.orders), (row: OrderRow) => OrderMatches(q, row));
      Ok(Views(t, OrderByDesc(rows, OrderDateOf)))
  }

  /** Every order getAllOrders lists exists, is paired with its own reader and
      its lines, and passes every supplied filter; the latest orderDate comes first. */
  lemma GetAllOrdersSound(t: Tables, q: OrderQuery, r: seq<OrderView>)
    requires GetAllOrders(t, q) == Ok(r)
    ensures !EmptyInList(q)
    ensures forall i :: 0 <= i < |r| ==>
      r[i].order in t.orders && r[i].reader in t.readers && r[i].reader.id == r[i].order.readerId
      && OrderMatches(q, OrderRow(r[i].order, r[i].reader)) && r[i].lines == LinesOf(t, r[i].order.id)
    ensures forall i, j :: 0 <= i < j < |r| ==> r[i].order.orderDate >= r[j].order.orderDate
  {
    var joined := JoinReaders(t.readers, t.orders);
    var rows := Where(joined, (row: OrderRow) => OrderMatches(q, row));
    var sorted := OrderByDesc(rows, OrderDateOf);
    assert r == Views(t, sorted);
    forall i | 0 <= i < |r| ensures r[i].order in t.orders && r[i].reader in t.readers && r[i].reader.id == r[i].order.readerId
                                    && OrderMatches(q, OrderRow(r[i].order, r[i].reader))
    {
      assert sorted[i] in multiset(rows);
      assert sorted[i] in joined;
    }
    forall i, j | 0 <= i < j < |r| ensures r[i].order.orderDate >= r[j].order.orderDate {
      assert OrderDateOf(sorted[i]) >= OrderDateOf(sorted[j]);
    }
  }

  /** getAllOrders leaves out no order that has a reader and passes every
      supplied filter; with no filter at all, that is every order with a reader. */
  lemma GetAllOrdersComplete(t: Tables, q: OrderQuery, r: seq<OrderView>, k: nat)
    requires GetAllOrders(t, q) == Ok(r)
    requires k < |t.orders| && FindReader(t.readers, t.orders[k].readerId).Some?
    requires OrderMatches(q, OrderRow(t.orders[k], t.readers[FindReader(t.readers, t.orders[k].readerId).value]))
    ensures exists i :: 0 <= i < |r| && r[i].order == t.orders[k]
  {
    var joined := JoinReaders(t.readers, t.orders);
    var rows := Where(joined, (row: OrderRow) => OrderMatches(q, row));
    var sorted := OrderByDesc(rows, OrderDateOf);
    assert r == Views(t, sorted);
    var row := OrderRow(t.orders[k], t.readers[FindReader(t.readers, t.orders[k].readerId).value]);
    assert row in joined;
    var j :| 0 <= j < |joined| && joined[j] == row;
    assert row in rows;
    assert row in multiset(sorted);
    var i :| 0 <= i < |sorted| && sorted[i] == row;
    assert r[i].order == t.orders[k];
  }

  /** The query fails exactly when a filter is an empty array. */
  lemma GetAllOrdersFails(t: Tables, q: OrderQuery)
    ensures GetAllOrders(t, q).Error? <==> EmptyInList(q)
  {
  }

  /** One order with its reader, lines and activity log. */
  datatype OrderDetail = OrderDetail(order: Order, reader: Reader, lines: seq<LineView>, logs: seq<ActivityLog>)

  function LogCreatedAt(l: ActivityLog): int { l.createdAt }

  /** The order's activity, latest first. */
  function LogsOfOrder(logs: seq<ActivityLog>, orderId: int): seq<ActivityLog> {
    OrderByDesc(Where(logs, (l: ActivityLog) => l.orderId == Some(orderId)), LogCreatedAt)
  }

  /** GET /orders/:id, the parameter already through `parseInt`. */
  function GetOrderById(t: Tables, id: Option<int>): Response<OrderDetail> {
    match id
    case None => Error(NaNParameter)
    case Some(n) =>
      match FindOrder(t.orders, n)
      case None => NotFound("Order not found")
      case Some(k) =>
        match FindReader(t.readers, t.orders[k].readerId)
        case None => NotFound("Order not found")
        case Some(m) => Ok(OrderDetail(t.orders[k], t.readers[m], LinesOf(t, n), LogsOfOrder(t.logs, n)))
  }

  /** The order's activity is exactly its matching logs, latest first. */
  lemma LogsOfOrderSound(logs: seq<ActivityLog>, n: int)
    ensures multiset(LogsOfOrder(logs, n)) == multiset(Where(logs, (l: ActivityLog) => l.orderId == Some(n)))
    ensures forall i :: 0 <= i < |LogsOfOrder(logs, n)| ==> LogsOfOrder(logs, n)[i].orderId == Some(n)
    ensures forall i, j :: 0 <= i < j < |LogsOfOrder(logs, n)| ==> LogsOfOrder(logs, n)[i].createdAt >= LogsOfOrder(logs, n)[j].createdAt
  {
    var matching := Where(logs, (l: ActivityLog) => l.orderId == Some(n));
    var sorted := LogsOfOrder(logs, n);
    forall i | 0 <= i < |sorted| ensures sorted[i].orderId == Some(n) {
      assert sorted[i] in multiset(matching);
    }
    forall i, j | 0 <= i < j < |sorted| ensures sorted[i].createdAt >= sorted[j].createdAt {
      assert LogCreatedAt(sorted[i]) >= LogCreatedAt(sorted[j]);
    }
  }

  /** getOrderById returns the order with that id, its own reader and exactly
      the activity of that order, latest first. */
  lemma GetOrderByIdFinds(t: Tables, id: Option<int>, d: OrderDetail)
    requires GetOrderById(t, id) == Ok(d)
    ensures id == Some(d.order.id) && d.order in t.orders && d.reader in t.readers && d.reader.id == d.order.readerId
    ensures multiset(d.logs) == multiset(Where(t.logs, (l: ActivityLog) => l.orderId == id))
    ensures forall i :: 0 <= i < |d.logs| ==> d.logs[i].orderId == id
    ensures forall i, j :: 0 <= i < j < |d.logs| ==> d.logs[i].createdAt >= d.logs[j].createdAt
  {
    var n := id.value;
    assert d.logs == LogsOfOrder(t.logs, n);
    LogsOfOrderSound(t.logs, n);
  }

  /** An id no order has is a 404. */
  lemma GetOrderByIdMissing(t: Tables, n: int)
    requires forall k :: 0 <= k < |t.orders| ==> t.orders[k].id != n
    ensures GetOrderById(t, Some(n)) == NotFound("Order not found")
  {
  }

  /** An order with its lines, as getOrdersByReader returns it. */
  datatype ReaderOrder = ReaderOrder(order: Order, lines: seq<LineView>)

  function OrderDate(o: Order): int { o.orderDate }

  function OrdersOf(r: seq<ReaderOrder>): seq<Order> {
    seq(|r|, i requires 0 <= i < |r| => r[i].order)
  }

  /** The reader's orders, latest orderDate first. */
  function OrdersOfReader(orders: seq<Order>, n: int): seq<Order> {
    OrderByDesc(Where(orders, (o: Order) => o.readerId == n), OrderDate)
  }

  /** The reader's orders are exactly those with that readerId, latest first. */
  lemma OrdersOfReaderSound(orders: seq<Order>, n: int)
    ensures multiset(OrdersOfReader(orders, n)) == multiset(Where(orders, (o: Order) => o.readerId == n))
    ensures forall i :: 0 <= i < |OrdersOfReader(orders, n)| ==> OrdersOfReader(orders, n)[i].readerId == n
    ensures forall i, j :: 0 <= i < j < |OrdersOfReader(orders, n)| ==>
      OrdersOfReader(orders, n)[i].orderDate >= OrdersOfReader(orders, n)[j].orderDate
  {
    var matching := Where(orders, (o: Order) => o.readerId == n);
    var sorted := OrdersOfReader(orders, n);
    forall i | 0 <= i < |sorted| ensures sorted[i].readerId == n {
      assert sorted[i] in multiset(matching);
    }
    forall i, j | 0 <= i < j < |sorted| ensures sorted[i].orderDate >= sorted[j].orderDate {
      assert OrderDate(sorted[i]) >= OrderDate(sorted[j]);
    }
  }

  /** GET /orders/reader/:readerId: that reader's orders, latest orderDate first. */
  function GetOrdersByReader(t: Tables, readerId: Option<int>): Response<seq<ReaderOrder>> {
    match readerId
    case None => Error(NaNParameter)
    case Some(n) =>
      var orders := OrdersOfReader(t.orders, n);
      Ok(seq(|orders|, i requires 0 <= i < |orders| => ReaderOrder(orders[i], LinesOf(t, orders[i].id))))
  }

  /** The rows of getOrdersByReader: the sorted orders, each with its lines. */
  lemma GetOrdersByReaderRows(t: Tables, n: int, r: seq<ReaderOrder>)
    requires GetOrdersByReader(t, Some(n)) == Ok(r)
    ensures OrdersOf(r) == OrdersOfReader(t.orders, n)
    ensures forall i :: 0 <= i < |r| ==> r[i].lines == LinesOf(t, r[i].order.id)
  {
    var orders := OrdersOfReader(t.orders, n);
    assert r == seq(|orders|, i requires 0 <= i < |orders| => ReaderOrder(orders[i], LinesOf(t, orders[i].id)));
  }

  /** Exactly the reader's orders, each once, latest first, each with its lines. */
  lemma GetOrdersByReaderLists(t: Tables, n: int, r: seq<ReaderOrder>)
    requires GetOrdersByReader(t, Some(n)) == Ok(r)
    ensures multiset(OrdersOf(r)) == multiset(Where(t.orders, (o: Order) => o.readerId == n))
    ensures forall i :: 0 <= i < |r| ==> r[i].order.readerId == n && r[i].lines == LinesOf(t, r[i].order.id)
    ensures forall i, j :: 0 <= i < j < |r| ==> r[i].order.orderDate >= r[j].order.orderDate
  {
    var orders := OrdersOfReader(t.orders, n);
    GetOrdersByReaderRows(t, n, r);
    OrdersOfReaderSound(t.orders, n);
    forall i | 0 <= i < |r| ensures r[i].order == orders[i] {
      assert OrdersOf(r)[i] == r[i].order;
    }
  }

  /** A line of a book with its order and, when the order's readerId is truthy,
      the reader found by it (undefined when none is). */
  datatype BookOrderRow = BookOrderRow(line: OrderedBook, order: Order, reader: Option<Reader>)

  /** `if (row.Order.readerId)`: a reader is looked up only for a truthy id. */
  function ReaderOfOrder(t: Tables, o: Order): Option<Reader> {
    if o.readerId == 0 then None
    else match FindReader(t.readers, o.readerId)
      case None => None
      case Some(m) => Some(t.readers[m])
  }

  function BookOrderRowFor(t: Tables, l: OrderedBook, k: nat): BookOrderRow
    requires k < |t.orders|
  {
    BookOrderRow(l, t.orders[k], ReaderOfOrder(t, t.orders[k]))
  }

  /** The inner join of the book's lines with their orders, in line order. */
  function JoinOrders(t: Tables, lines: seq<OrderedBook>, bookId: int): (rows: seq<BookOrderRow>)
    ensures forall i :: 0 <= i < |rows| ==>
      rows[i].line in lines && rows[i].line.bookId == bookId && rows[i].order in t.orders
      && rows[i].order.id == rows[i].line.orderId && rows[i].reader == ReaderOfOrder(t, rows[i].order)
  {
    if lines == [] then []
    else
      var l := lines[0];
      var k := FindOrder(t.orders, l.orderId);
      var here := if l.bookId == bookId && k.Some? then [BookOrderRowFor(t, l, k.value)] else [];
      here + JoinOrders(t, lines[1..], bookId)
  }

  /** Every line of the book whose order exists makes it into the join. */
  lemma {:induction false} JoinOrdersComplete(t: Tables, lines: seq<OrderedBook>, bookId: int, j: nat)
    requires j < |lines| && lines[j].bookId == bookId && FindOrder(t.orders, lines[j].orderId).Some?
    ensures BookOrderRowFor(t, lines[j], FindOrder(t.orders, lines[j].orderId).value) in JoinOrders(t, lines, bookId)
  {
    if j > 0 {
      assert lines[j] == lines[1..][j - 1];
      JoinOrdersComplete(t, lines[1..], bookId, j - 1);
    }
  }

  function OrderCreatedAt(row: BookOrderRow): int { row.order.createdAt }

  /** GET /orders/book/:bookId: the book's lines with their orders, earliest
      order first. */
  function GetOrdersByBook(t: Tables, bookId: Option<int>): Response<seq<BookOrderRow>> {
    match bookId
    case None => Error(NaNParameter)
    case Some(n) => Ok(OrderByAsc(JoinOrders(t, t.orderedBooks, n), OrderCreatedAt))
  }

  /** Only lines of the book appear, each with its own order, earliest order first. */
  lemma GetOrdersByBookSound(t: Tables, n: int, r: seq<BookOrderRow>)
    requires GetOrdersByBook(t, Some(n)) == Ok(r)
    ensures forall i :: 0 <= i < |r| ==>
      r[i].line.bookId == n && r[i].line in t.orderedBooks && r[i].order in t.orders && r[i].order.id == r[i].line.orderId
    ensures forall i, j :: 0 <= i < j < |r| ==> r[i].order.createdAt <= r[j].order.createdAt
  {
    var rows := JoinOrders(t, t.orderedBooks, n);
    assert r == OrderByAsc(rows, OrderCreatedAt);
    forall i | 0 <= i < |r|
      ensures r[i].line.bookId == n && r[i].line in t.orderedBooks && r[i].order in t.orders && r[i].order.id == r[i].line.orderId
    {
      assert r[i] in multiset(rows);
    }
    forall i, j | 0 <= i < j < |r| ensures r[i].order.createdAt <= r[j].order.createdAt {
      assert OrderCreatedAt(r[i]) <= OrderCreatedAt(r[j]);
    }
  }

  /** Every line of the book whose order exists is listed. */
  lemma GetOrdersByBookComplete(t: Tables, n: int, r: seq<BookOrderRow>, j: nat)
    requires GetOrdersByBook(t, Some(n)) == Ok(r)
    requires j < |t.orderedBooks| && t.orderedBooks[j].bookId == n && FindOrder(t.orders, t.orderedBooks[j].orderId).Some?
    ensures exists i :: 0 <= i < |r| && r[i].line == t.orderedBooks[j]
  {
    var rows := JoinOrders(t, t.orderedBooks, n);
    assert r == OrderByAsc(rows, OrderCreatedAt);
    JoinOrdersComplete(t, t.orderedBooks, n, j);
    var row := BookOrderRowFor(t, t.orderedBooks[j], FindOrder(t.orders, t.orderedBooks[j].orderId).value);
    assert row in multiset(r);
    var i :| 0 <= i < |r| && r[i] == row;
  }
}
