/** The PostgreSQL tables the controllers read and write, held as sequences of
    rows in insertion order, the id sequences that number new rows, and the few
    SQL shapes the queries use: a lookup by key, a filter, ORDER BY, LIMIT/OFFSET. */
module Db {
  import opened Js

  /** How a handler answers: 200/201 with a body, 404, 400 or 500 with a message. */
  datatype Response<T> =
    | Ok(value: T)
    | NotFound(message: string)
    | BadRequest(message: string)
    | Error(message: string)

  /** The same failure, for a handler whose success carries another type. */
  function Failed<T, U>(r: Response<T>): (f: Response<U>)
    requires !r.Ok?
    ensures !f.Ok? && f.message == r.message
    ensures f.NotFound? == r.NotFound? && f.BadRequest? == r.BadRequest? && f.Error? == r.Error?
  {
    match r
    case NotFound(m) => NotFound(m)
    case BadRequest(m) => BadRequest(m)
    case Error(m) => Error(m)
  }

  /** PostgreSQL's complaint when JavaScript NaN is bound to an integer parameter
      (node-postgres sends it as the text "NaN"). */
  const NaNParameter := "invalid input syntax for type integer: \"NaN\""

  // ---------------------------------------------------------------- rows

  /** The seven reader fields that createOrder compares, snapshots and overwrites. */
  datatype Contact = Contact(
    firstname: Option<string>,
    lastname: Option<string>,
    email: Option<string>,
    address: Option<string>,
    city: Option<string>,
    state: Option<string>,
    pincode: Option<string>)

  datatype Reader = Reader(
    id: int,
    mobile: Option<string>,
    contact: Contact,
    isactive: bool,
    createdat: int)

  /** A snapshot of a reader's contact fields taken just before they changed. */
  datatype ReaderHistory = ReaderHistory(
    id: int,
    readerId: int,
    contact: Contact,
    changedAt: int)

  /** The columns of a book that a form or JSON body sets. */
  datatype BookData = BookData(
    title: Option<string>,
    description: Option<string>,
    frontImage: Option<string>,
    backImage: Option<string>,
    stockQty: Option<int>,
    isAvailable: bool,
    featured: bool,
    languageId: Option<int>,
    categoryId: Option<int>,
    bookCode: Option<int>,
    kabatNumber: Option<int>,
    bookSize: Option<string>,
    author: Option<string>,
    tikakar: Option<string>,
    prakashak: Option<string>,
    sampadak: Option<string>,
    anuvadak: Option<string>,
    vishay: Option<string>,
    shreni1: Option<string>,
    shreni2: Option<string>,
    shreni3: Option<string>,
    pages: Option<int>,
    yearAD: Option<int>,
    vikramSamvat: Option<int>,
    veerSamvat: Option<int>,
    prakar: Option<string>,
    edition: Option<int>)

  datatype Book = Book(id: int, data: BookData, createdAt: int, updatedAt: int)

  datatype Order = Order(
    id: int,
    readerId: int,
    shippingDetails: Option<string>,
    status: Option<string>,
    orderDate: int,
    createdAt: int,
    updatedAt: int)

  /** One line of an order: a book, the quantity asked for and the line's status. */
  datatype OrderedBook = OrderedBook(
    id: int,
    orderId: int,
    bookId: int,
    quantity: int,
    status: Option<string>)

  datatype ActivityLog = ActivityLog(
    id: int,
    action: Option<string>,
    description: Option<string>,
    orderId: Option<int>,
    readerId: Option<int>,
    createdAt: int)

  /** Every table, rows in insertion order. */
  datatype Tables = Tables(
    books: seq<Book>,
    readers: seq<Reader>,
    history: seq<ReaderHistory>,
    orders: seq<Order>,
    orderedBooks: seq<OrderedBook>,
    logs: seq<ActivityLog>)

  /** The next value of each table's id sequence. A sequence is never rolled back. */
  datatype Serials = Serials(
    book: int,
    reader: int,
    history: int,
    order: int,
    orderedBook: int,
    log: int)

  function BookKey(b: Book): int { b.id }
  function ReaderKey(r: Reader): int { r.id }
  function HistoryKey(h: ReaderHistory): int { h.id }
  function OrderKey(o: Order): int { o.id }
  function OrderedBookKey(l: OrderedBook): int { l.id }
  function LogKey(l: ActivityLog): int { l.id }

  // ---------------------------------------------------------------- integrity

  /** Primary keys: distinct, and below the next value of the table's sequence. */
  ghost predicate Keyed<T>(rows: seq<T>, key: T -> int, next: int) {
    (forall i :: 0 <= i < |rows| ==> key(rows[i]) < next)
    && (forall i, j :: 0 <= i < j < |rows| ==> key(rows[i]) != key(rows[j]))
  }

  /** UNIQUE ("mobile") on Reader; NULLs do not collide. */
  ghost predicate UniqueMobiles(readers: seq<Reader>) {
    forall i, j :: 0 <= i < j < |readers| && readers[i].mobile.Some? ==> readers[i].mobile != readers[j].mobile
  }

  /** UNIQUE ("bookCode") on Book; NULLs do not collide. */
  ghost predicate UniqueBookCodes(books: seq<Book>) {
    forall i, j :: 0 <= i < j < |books| && books[i].data.bookCode.Some? ==> books[i].data.bookCode != books[j].data.bookCode
  }

  ghost predicate WellFormed(t: Tables, s: Serials) {
    Keyed(t.books, BookKey, s.book)
    && Keyed(t.readers, ReaderKey, s.reader)
    && Keyed(t.history, HistoryKey, s.history)
    && Keyed(t.orders, OrderKey, s.order)
    && Keyed(t.orderedBooks, OrderedBookKey, s.orderedBook)
    && Keyed(t.logs, LogKey, s.log)
    && UniqueMobiles(t.readers)
    && UniqueBookCodes(t.books)
  }

  /** Every sequence is at least where it was. */
  predicate Advanced(s0: Serials, s1: Serials) {
    s0.book <= s1.book && s0.reader <= s1.reader && s0.history <= s1.history
    && s0.order <= s1.order && s0.orderedBook <= s1.orderedBook && s0.log <= s1.log
  }

  lemma KeyedAppend<T>(rows: seq<T>, key: T -> int, next: int, x: T)
    requires Keyed(rows, key, next) && key(x) == next
    ensures Keyed(rows + [x], key, next + 1)
  {
  }

  lemma KeyedReplace<T>(rows: seq<T>, key: T -> int, next: int, k: nat, x: T)
    requires Keyed(rows, key, next) && k < |rows| && key(x) == key(rows[k])
    ensures Keyed(rows[k := x], key, next)
  {
  }

  lemma KeyedRaise<T>(rows: seq<T>, key: T -> int, next: int, next': int)
    requires Keyed(rows, key, next) && next <= next'
    ensures Keyed(rows, key, next')
  {
  }

  /** Rows appended with consecutive keys from `next` keep the table keyed. */
  lemma KeyedAppendRun<T>(rows: seq<T>, key: T -> int, next: int, extra: seq<T>)
    requires Keyed(rows, key, next)
    requires forall j :: 0 <= j < |extra| ==> key(extra[j]) == next + j
    ensures Keyed(rows + extra, key, next + |extra|)
  {
  }

  /** Rows rewritten in place without touching their keys keep the table keyed. */
  lemma KeyedSameKeys<T>(rows: seq<T>, rows': seq<T>, key: T -> int, next: int)
    requires Keyed(rows, key, next) && |rows'| == |rows|
    requires forall m :: 0 <= m < |rows| ==> key(rows'[m]) == key(rows[m])
    ensures Keyed(rows', key, next)
  {
  }

  /** Rolling back the tables while the sequences moved on keeps every key valid. */
  lemma WellFormedRaise(t: Tables, s0: Serials, s1: Serials)
    requires WellFormed(t, s0) && Advanced(s0, s1)
    ensures WellFormed(t, s1)
  {
    KeyedRaise(t.books, BookKey, s0.book, s1.book);
    KeyedRaise(t.readers, ReaderKey, s0.reader, s1.reader);
    KeyedRaise(t.history, HistoryKey, s0.history, s1.history);
    KeyedRaise(t.orders, OrderKey, s0.order, s1.order);
    KeyedRaise(t.orderedBooks, OrderedBookKey, s0.orderedBook, s1.orderedBook);
    KeyedRaise(t.logs, LogKey, s0.log, s1.log);
  }

  // ---------------------------------------------------------------- the store

  /** The database as the controllers see it: six tables and their sequences. */
  class Store {
    var books: seq<Book>
    var readers: seq<Reader>
    var history: seq<ReaderHistory>
    var orders: seq<Order>
    var orderedBooks: seq<OrderedBook>
    var logs: seq<ActivityLog>
    var serials: Serials

    /** An empty database whose sequences start at 1. */
    constructor ()
      ensures Snapshot() == Tables([], [], [], [], [], [])
      ensures serials == Serials(1, 1, 1, 1, 1, 1)
      ensures Valid()
    {
      books, readers, history := [], [], [];
      orders, orderedBooks, logs := [], [], [];
      serials := Serials(1, 1, 1, 1, 1, 1);
    }

    function Snapshot(): Tables
      reads this
    {
      Tables(books, readers, history, orders, orderedBooks, logs)
    }

    ghost predicate Valid()
      reads this
    {
      WellFormed(Snapshot(), serials)
    }

    /** ROLLBACK: every table goes back to `saved`; the sequences keep their values. */
    method Restore(saved: Tables)
      modifies this
      ensures Snapshot() == saved && serials == old(serials)
    {
      books, readers, history := saved.books, saved.readers, saved.history;
      orders, orderedBooks, logs := saved.orders, saved.orderedBooks, saved.logs;
    }
  }

  // ---------------------------------------------------------------- queries

  /** The position of the first row satisfying `p` (`rows[0]` of a query). */
  function FirstWhere<T>(rows: seq<T>, p: T -> bool): (r: Option<nat>)
    ensures r.Some? ==> r.value < |rows| && p(rows[r.value])
    ensures r.Some? ==> forall j :: 0 <= j < r.value ==> !p(rows[j])
    ensures r.None? <==> forall j :: 0 <= j < |rows| ==> !p(rows[j])
  {
    if rows == [] then None
    else if p(rows[0]) then Some(0)
    else match FirstWhere(rows[1..], p)
      case None => None
      case Some(k) => Some(k + 1)
  }

  /** `WHERE id = $1` on each table: the row with that key. */
  function FindBook(books: seq<Book>, id: int): Option<nat> {
    FirstWhere(books, (b: Book) => b.id == id)
  }

  function FindReader(readers: seq<Reader>, id: int): Option<nat> {
    FirstWhere(readers, (r: Reader) => r.id == id)
  }

  function FindOrder(orders: seq<Order>, id: int): Option<nat> {
    FirstWhere(orders, (o: Order) => o.id == id)
  }

  /** `WHERE mobile = $1`: NULL equals nothing. */
  predicate HasMobile(r: Reader, mobile: Option<string>) {
    mobile.Some? && r.mobile == mobile
  }

  function FindReaderByMobile(readers: seq<Reader>, mobile: Option<string>): Option<nat> {
    FirstWhere(readers, (r: Reader) => HasMobile(r, mobile))
  }

  /** What PostgreSQL says about `IN ()`, the text an empty JavaScript array
      leaves between the parentheses. */
  const InSyntaxError := "syntax error at or near \")\""

  /** What PostgreSQL says when an INSERT or UPDATE would repeat a book code. */
  const DuplicateBookCode := "duplicate key value violates unique constraint \"Book_bookCode_key\""

  /** ... and a reader's mobile. */
  const DuplicateMobile := "duplicate key value violates unique constraint \"Reader_mobile_key\""

  /** `WHERE p`, keeping the table's order. */
  function Where<T>(rows: seq<T>, p: T -> bool): (r: seq<T>)
    ensures |r| <= |rows|
    ensures forall i :: 0 <= i < |r| ==> r[i] in rows && p(r[i])
    ensures forall j :: 0 <= j < |rows| && p(rows[j]) ==> rows[j] in r
  {
    if rows == [] then []
    else (if p(rows[0]) then [rows[0]] else []) + Where(rows[1..], p)
  }

  /** A condition every row meets keeps the whole table. */
  lemma {:induction false} WhereAll<T>(rows: seq<T>, p: T -> bool)
    requires forall j :: 0 <= j < |rows| ==> p(rows[j])
    ensures Where(rows, p) == rows
  {
    if rows != [] {
      WhereAll(rows[1..], p);
      assert rows == [rows[0]] + rows[1..];
    }
  }

  /** A condition that fails on exactly one row, at `k`, drops exactly that row. */
  lemma {:induction false} WhereDropsOne<T>(rows: seq<T>, p: T -> bool, k: nat)
    requires k < |rows| && !p(rows[k])
    requires forall j :: 0 <= j < |rows| && j != k ==> p(rows[j])
    ensures |Where(rows, p)| == |rows| - 1
  {
    var rest := rows[1..];
    if k == 0 {
      forall j | 0 <= j < |rest| ensures p(rest[j]) {
        assert rest[j] == rows[j + 1];
      }
      WhereAll(rest, p);
    } else {
      assert p(rows[0]);
      forall j | 0 <= j < |rest| && j != k - 1 ensures p(rest[j]) {
        assert rest[j] == rows[j + 1];
      }
      WhereDropsOne(rest, p, k - 1);
    }
  }

  /** A filter and its complement split the table between them. */
  lemma {:induction false} WhereSplits<T>(rows: seq<T>, p: T -> bool)
    ensures |Where(rows, p)| + |Where(rows, x => !p(x))| == |rows|
  {
    if rows != [] {
      WhereSplits(rows[1..], p);
    }
  }

  /** The rows after the first of a keyed table are keyed, and none shares the first row's key. */
  lemma KeyedTail<T>(rows: seq<T>, key: T -> int, next: int)
    requires rows != [] && Keyed(rows, key, next)
    ensures Keyed(rows[1..], key, next)
    ensures forall j :: 0 <= j < |rows[1..]| ==> key(rows[0]) != key(rows[1..][j])
  {
    var tail := rows[1..];
    forall i | 0 <= i < |tail| ensures key(tail[i]) < next && key(rows[0]) != key(tail[i]) {
      assert tail[i] == rows[i + 1];
    }
    forall i, j | 0 <= i < j < |tail| ensures key(tail[i]) != key(tail[j]) {
      assert tail[i] == rows[i + 1] && tail[j] == rows[j + 1];
    }
  }

  /** A row with a fresh key in range extends a keyed table at the front. */
  lemma KeyedCons<T>(x: T, rest: seq<T>, key: T -> int, next: int)
    requires Keyed(rest, key, next) && key(x) < next
    requires forall j :: 0 <= j < |rest| ==> key(x) != key(rest[j])
    ensures Keyed([x] + rest, key, next)
  {
    var all := [x] + rest;
    forall i | 0 <= i < |all| ensures key(all[i]) < next {
      if i > 0 { assert all[i] == rest[i - 1]; }
    }
    forall i, j | 0 <= i < j < |all| ensures key(all[i]) != key(all[j]) {
      assert all[j] == rest[j - 1];
      if i > 0 { assert all[i] == rest[i - 1]; }
    }
  }

  /** Filtering never breaks a key constraint. */
  lemma {:induction false} KeyedWhere<T>(rows: seq<T>, key: T -> int, next: int, p: T -> bool)
    requires Keyed(rows, key, next)
    ensures Keyed(Where(rows, p), key, next)
  {
    if rows != [] {
      var tail := rows[1..];
      KeyedTail(rows, key, next);
      KeyedWhere(tail, key, next, p);
      var rest := Where(tail, p);
      forall j | 0 <= j < |rest| ensures key(rows[0]) != key(rest[j]) {
        var m :| 0 <= m < |tail| && tail[m] == rest[j];
      }
      if p(rows[0]) {
        assert Where(rows, p) == [rows[0]] + rest;
        KeyedCons(rows[0], rest, key, next);
      } else {
        assert Where(rows, p) == rest;
      }
    }
  }

  /** Filtering never breaks a unique book code. */
  lemma {:induction false} UniqueCodesWhere(books: seq<Book>, p: Book -> bool)
    requires UniqueBookCodes(books)
    ensures UniqueBookCodes(Where(books, p))
  {
    if books != [] {
      UniqueCodesWhere(books[1..], p);
      var rest := Where(books[1..], p);
      forall j | 0 <= j < |rest| && books[0].data.bookCode.Some? ensures books[0].data.bookCode != rest[j].data.bookCode {
        assert rest[j] in books[1..];
      }
    }
  }

  lemma {:induction false} UniqueMobilesWhere(readers: seq<Reader>, p: Reader -> bool)
    requires UniqueMobiles(readers)
    ensures UniqueMobiles(Where(readers, p))
  {
    if readers != [] {
      UniqueMobilesWhere(readers[1..], p);
      var rest := Where(readers[1..], p);
      forall j | 0 <= j < |rest| && readers[0].mobile.Some? ensures readers[0].mobile != rest[j].mobile {
        assert rest[j] in readers[1..];
      }
    }
  }

  ghost predicate SortedDesc<T>(rows: seq<T>, key: T -> int) {
    forall i, j :: 0 <= i < j < |rows| ==> key(rows[i]) >= key(rows[j])
  }

  function InsertDesc<T>(x: T, rows: seq<T>, key: T -> int): (r: seq<T>)
    requires SortedDesc(rows, key)
    ensures SortedDesc(r, key)
    ensures multiset(r) == multiset(rows) + multiset{x}
    ensures r[0] == x || (rows != [] && r[0] == rows[0])
  {
    if rows == [] || key(x) >= key(rows[0]) then
      SortedDescCons(x, rows, key);
      [x] + rows
    else
      SortedDescTail(rows, key);
      var rest := InsertDesc(x, rows[1..], key);
      SortedDescCons(rows[0], rest, key);
      assert rows == [rows[0]] + rows[1..];
      [rows[0]] + rest
  }

  lemma SortedDescTail<T>(rows: seq<T>, key: T -> int)
    requires rows != [] && SortedDesc(rows, key)
    ensures SortedDesc(rows[1..], key)
    ensures forall j :: 0 <= j < |rows[1..]| ==> key(rows[0]) >= key(rows[1..][j])
  {
    var tail := rows[1..];
    forall i, j | 0 <= i < j < |tail| ensures key(tail[i]) >= key(tail[j]) {
      assert tail[i] == rows[i + 1] && tail[j] == rows[j + 1];
    }
    forall j | 0 <= j < |tail| ensures key(rows[0]) >= key(tail[j]) {
      assert tail[j] == rows[j + 1];
    }
  }

  /** A row whose key is at least the first one's heads a descending run. */
  lemma SortedDescCons<T>(x: T, rest: seq<T>, key: T -> int)
    requires SortedDesc(rest, key) && (rest == [] || key(x) >= key(rest[0]))
    ensures SortedDesc([x] + rest, key)
  {
    var all := [x] + rest;
    forall i, j | 0 <= i < j < |all| ensures key(all[i]) >= key(all[j]) {
      assert all[j] == rest[j - 1];
      if i > 0 { assert all[i] == rest[i - 1]; }
    }
  }

  /** `ORDER BY key DESC`: a reordering of the rows, largest key first. */
  function OrderByDesc<T>(rows: seq<T>, key: T -> int): (r: seq<T>)
    ensures SortedDesc(r, key)
    ensures multiset(r) == multiset(rows)
  {
    if rows == [] then []
    else
      assert rows == [rows[0]] + rows[1..];
      InsertDesc(rows[0], OrderByDesc(rows[1..], key), key)
  }

  ghost predicate SortedAsc<T>(rows: seq<T>, key: T -> int) {
    forall i, j :: 0 <= i < j < |rows| ==> key(rows[i]) <= key(rows[j])
  }

  /** `ORDER BY key ASC`. */
  function OrderByAsc<T>(rows: seq<T>, key: T -> int): (r: seq<T>)
    ensures SortedAsc(r, key)
    ensures multiset(r) == multiset(rows)
  {
    OrderByDesc(rows, x => 0 - key(x))
  }

  function Min(a: int, b: int): int { if a <= b then a else b }

  /** `LIMIT limit OFFSET offset`. */
  function Page<T>(rows: seq<T>, offset: nat, limit: nat): (r: seq<T>)
    ensures |r| == if offset >= |rows| then 0 else Min(limit, |rows| - offset)
    ensures forall i :: 0 <= i < |r| ==> r[i] == rows[offset + i]
  {
    if offset >= |rows| then [] else rows[offset..offset + Min(limit, |rows| - offset)]
  }

  /** `Math.ceil(total / limit)`: the fewest pages of `limit` rows that hold `total` rows. */
  function TotalPages(total: nat, limit: int): (pages: nat)
    requires limit > 0
    ensures pages * limit >= total
    ensures pages == 0 || (pages - 1) * limit < total
  {
    var q := (total + limit - 1) / limit;
    var r := (total + limit - 1) % limit;
    assert q * limit + r == total + limit - 1 && 0 <= r < limit;
    assert (q - 1) * limit == q * limit - limit;
    q
  }
}
