/** src/controllers/reader.controller.js: creating, overwriting and deleting
    readers, the reader list with each reader's order count, and one reader with
    their orders and their contact history. */
module ReaderController {
  import opened Js
  import opened Db
  import OrderController

  /** The body fields createReader and updateReader read. */
  datatype ReaderBody = ReaderBody(
    firstname: Value,
    lastname: Value,
    mobile: Value,
    email: Value,
    address: Value,
    isactive: Value,
    city: Value,
    state: Value,
    pincode: Value)

  /** `isactive === undefined ? true : (isactive === "true" || isactive === true)` */
  function IsActive(v: Value): (b: bool)
    ensures b <==> v == Undefined || v == Str("true") || v == Bool(true)
  {
    if v == Undefined then true else IsTrue(v)
  }

  /** `v || ''` for a text column. */
  function OrEmpty(v: Value): (r: Option<string>)
    ensures r.Some?
    ensures !Truthy(v) ==> r == Some("")
    ensures Truthy(v) ==> r == ColumnText(v)
  {
    if Truthy(v) then ColumnText(v) else Some("")
  }

  /** The columns a reader request writes. */
  datatype ReaderColumns = ReaderColumns(mobile: Option<string>, contact: Contact, isactive: bool)

  /** createReader's values: city, state and pincode default to the empty string. */
  function CreateColumns(body: ReaderBody): (c: ReaderColumns)
    ensures c.contact.city.Some? && c.contact.state.Some? && c.contact.pincode.Some?
    ensures c.isactive == IsActive(body.isactive)
  {
    ReaderColumns(ColumnText(body.mobile),
      Contact(ColumnText(body.firstname), ColumnText(body.lastname), ColumnText(body.email),
              ColumnText(body.address), OrEmpty(body.city), OrEmpty(body.state), OrEmpty(body.pincode)),
      IsActive(body.isactive))
  }

  /** updateReader's values: every field as sent, isactive as in createReader. */
  function UpdateColumns(body: ReaderBody): (c: ReaderColumns)
    ensures c.isactive == IsActive(body.isactive)
  {
    ReaderColumns(ColumnText(body.mobile),
      Contact(ColumnText(body.firstname), ColumnText(body.lastname), ColumnText(body.email),
              ColumnText(body.address), ColumnText(body.city), ColumnText(body.state), ColumnText(body.pincode)),
      IsActive(body.isactive))
  }

  // ---------------------------------------------------------------- createReader

  /** The INSERT: it fails on UNIQUE ("mobile") when another reader has the same
      non-null mobile; `createdat` takes its column default, the clock. */
  function InsertReader(readers: seq<Reader>, id: int, c: ReaderColumns, now: int): (r: Response<Reader>)
    ensures r.Ok? <==> FindReaderByMobile(readers, c.mobile).None?
    ensures !r.Ok? ==> r == Error(DuplicateMobile)
  {
    if FindReaderByMobile(readers, c.mobile).Some? then Error(DuplicateMobile)
    else Ok(Reader(id, c.mobile, c.contact, c.isactive, now))
  }

  lemma InsertReaderWellFormed(t: Tables, s: Serials, c: ReaderColumns, now: int)
    requires WellFormed(t, s)
    ensures var ins := InsertReader(t.readers, s.reader, c, now);
      ins.Ok? ==> WellFormed(t.(readers := t.readers + [ins.value]), s.(reader := s.reader + 1))
  {
    var ins := InsertReader(t.readers, s.reader, c, now);
    if ins.Ok? {
      KeyedAppend(t.readers, ReaderKey, s.reader, ins.value);
      var readers := t.readers + [ins.value];
      forall i, j | 0 <= i < j < |readers| && readers[i].mobile.Some?
        ensures readers[i].mobile != readers[j].mobile
      {
        if j == |t.readers| {
          assert !HasMobile(t.readers[i], c.mobile);
        }
      }
    }
  }

  /** The INSERT on the store; the id sequence advances whether or not it succeeds. */
  method InsertReaderRow(db: Store, c: ReaderColumns, now: int) returns (r: Response<Reader>)
    requires db.Valid()
    modifies db
    ensures db.Valid()
    ensures db.serials == old(db.serials).(reader := old(db.serials.reader) + 1)
    ensures r == InsertReader(old(db.readers), old(db.serials.reader), c, now)
    ensures if r.Ok? then db.Snapshot() == old(db.Snapshot()).(readers := old(db.readers) + [r.value])
            else db.Snapshot() == old(db.Snapshot())
  {
    InsertReaderWellFormed(db.Snapshot(), db.serials, c, now);
    r := InsertReader(db.readers, db.serials.reader, c, now);
    db.serials := db.serials.(reader := db.serials.reader + 1);
    if r.Ok? {
      db.readers := db.readers + [r.value];
    }
  }

  /** POST /readers. */
  method CreateReader(db: Store, body: ReaderBody, now: int) returns (r: Response<Reader>)
    requires db.Valid()
    modifies db
    ensures db.Valid()
    ensures db.serials == old(db.serials).(reader := old(db.serials.reader) + 1)
    ensures r == InsertReader(old(db.readers), old(db.serials.reader), CreateColumns(body), now)
    ensures if r.Ok? then db.Snapshot() == old(db.Snapshot()).(readers := old(db.readers) + [r.value])
            else db.Snapshot() == old(db.Snapshot())
  {
    r := InsertReaderRow(db, CreateColumns(body), now);
  }

  /** A created reader is the new last row, with the next id, the mobile and
      contact sent, city/state/pincode never null, and the isactive default. */
  lemma CreateReaderRow(readers: seq<Reader>, id: int, body: ReaderBody, now: int, row: Reader)
    requires InsertReader(readers, id, CreateColumns(body), now) == Ok(row)
    ensures row.id == id && row.createdat == now && row.mobile == ColumnText(body.mobile)
    ensures row.contact.firstname == ColumnText(body.firstname) && row.contact.lastname == ColumnText(body.lastname)
    ensures row.contact.city.Some? && row.contact.state.Some? && row.contact.pincode.Some?
    ensures row.isactive <==> body.isactive == Undefined || IsTrue(body.isactive)
    ensures row.mobile.Some? ==> forall j :: 0 <= j < |readers| ==> readers[j].mobile != row.mobile
  {
  }

  // ---------------------------------------------------------------- updateReader

  datatype ReaderEdit = ReaderEdit(readers: seq<Reader>, reader: Reader)

  /** Some reader other than the k-th already has this non-null mobile. */
  predicate MobileTakenByOther(readers: seq<Reader>, k: nat, mobile: Option<string>) {
    exists j :: 0 <= j < |readers| && j != k && HasMobile(readers[j], mobile)
  }

  /** The UPDATE ... WHERE id = $10 RETURNING *: a NaN id fails, no row is a 404,
      and a mobile another reader holds breaks UNIQUE ("mobile"). */
  function EditReader(readers: seq<Reader>, id: Option<int>, c: ReaderColumns): Response<ReaderEdit> {
    match id
    case None => Error(NaNParameter)
    case Some(n) =>
      match FindReader(readers, n)
      case None => NotFound("Reader not found")
      case Some(k) =>
        if MobileTakenByOther(readers, k, c.mobile) then Error(DuplicateMobile)
        else
          var row := readers[k].(mobile := c.mobile, contact := c.contact, isactive := c.isactive);
          Ok(ReaderEdit(readers[k := row], row))
  }

  /** The outcome of an update: which requests fail and how. */
  lemma EditReaderOutcome(readers: seq<Reader>, id: Option<int>, c: ReaderColumns)
    ensures EditReader(readers, id, c).NotFound? <==>
      id.Some? && forall j :: 0 <= j < |readers| ==> readers[j].id != id.value
    ensures id.None? ==> EditReader(readers, id, c) == Error(NaNParameter)
    ensures EditReader(readers, id, c).Ok? <==>
      id.Some? && FindReader(readers, id.value).Some?
      && !MobileTakenByOther(readers, FindReader(readers, id.value).value, c.mobile)
  {
  }

  /** A successful update overwrites the nine fields of the row with that id and
      nothing else: its id and createdat, and every other row, stay. */
  lemma EditReaderWrites(readers: seq<Reader>, id: Option<int>, c: ReaderColumns, e: ReaderEdit)
    requires EditReader(readers, id, c) == Ok(e)
    ensures |e.readers| == |readers|
    ensures exists k :: (0 <= k < |readers| && readers[k].id == id.value && e.readers[k] == e.reader
      && (forall j :: 0 <= j < |readers| && j != k ==> e.readers[j] == readers[j])
      && e.reader == Reader(readers[k].id, c.mobile, c.contact, c.isactive, readers[k].createdat))
  {
    var k := FindReader(readers, id.value).value;
    assert readers[k].id == id.value && e.readers[k] == e.reader;
  }

  lemma EditReaderWellFormed(t: Tables, s: Serials, id: Option<int>, c: ReaderColumns, e: ReaderEdit)
    requires WellFormed(t, s) && EditReader(t.readers, id, c) == Ok(e)
    ensures WellFormed(t.(readers := e.readers), s)
  {
    var k := FindReader(t.readers, id.value).value;
    KeyedReplace(t.readers, ReaderKey, s.reader, k, e.reader);
    forall i, j | 0 <= i < j < |e.readers| && e.readers[i].mobile.Some?
      ensures e.readers[i].mobile != e.readers[j].mobile
    {
      if i == k {
        assert !HasMobile(t.readers[j], c.mobile);
      } else if j == k {
        assert !HasMobile(t.readers[i], c.mobile);
      }
    }
  }

  method EditReaderRow(db: Store, id: Option<int>, c: ReaderColumns) returns (r: Response<Reader>)
    requires db.Valid()
    modifies db
    ensures db.Valid() && db.serials == old(db.serials)
    ensures var e := EditReader(old(db.readers), id, c);
      if e.Ok? then db.Snapshot() == old(db.Snapshot()).(readers := e.value.readers) && r == Ok(e.value.reader)
      else db.Snapshot() == old(db.Snapshot()) && r == Failed(e)
  {
    var e := EditReader(db.readers, id, c);
    if e.Ok? {
      EditReaderWellFormed(db.Snapshot(), db.serials, id, c, e.value);
      db.readers := e.value.readers;
      r := Ok(e.value.reader);
    } else {
      r := Failed(e);
    }
  }

  /** PUT /readers/:id. No ReaderHistory row is written. */
  method UpdateReader(db: Store, id: Option<int>, body: ReaderBody) returns (r: Response<Reader>)
    requires db.Valid()
    modifies db
    ensures db.Valid() && db.serials == old(db.serials)
    ensures db.history == old(db.history)
    ensures var e := EditReader(old(db.readers), id, UpdateColumns(body));
      if e.Ok? then db.Snapshot() == old(db.Snapshot()).(readers := e.value.readers) && r == Ok(e.value.reader)
      else db.Snapshot() == old(db.Snapshot()) && r == Failed(e)
  {
    r := EditReaderRow(db, id, UpdateColumns(body));
  }

  // ---------------------------------------------------------------- deleteReader

  const ReaderDeleted := "Reader deleted successfully"

  /** DELETE ... WHERE id = $1: only a NaN id fails; no match deletes nothing. */
  function RemoveReader(readers: seq<Reader>, id: Option<int>): Response<seq<Reader>> {
    match id
    case None => Error(NaNParameter)
    case Some(n) => Ok(Where(readers, (r: Reader) => r.id != n))
  }

  /** The rows with that id go, the others stay; an unknown id changes nothing. */
  lemma RemoveReaderExact(t: Tables, s: Serials, n: int)
    requires WellFormed(t, s)
    ensures RemoveReader(t.readers, Some(n)).Ok?
    ensures var rest := RemoveReader(t.readers, Some(n)).value;
      (forall r :: r in rest <==> r in t.readers && r.id != n)
      && WellFormed(t.(readers := rest), s)
      && ((forall j :: 0 <= j < |t.readers| ==> t.readers[j].id != n) ==> rest == t.readers)
  {
    var p := (r: Reader) => r.id != n;
    KeyedWhere(t.readers, ReaderKey, s.reader, p);
    UniqueMobilesWhere(t.readers, p);
    if forall j :: 0 <= j < |t.readers| ==> t.readers[j].id != n {
      WhereAll(t.readers, p);
    }
  }

  /** DELETE /readers/:id: success whether or not the id existed. */
  method DeleteReader(db: Store, id: Option<int>) returns (r: Response<string>)
    requires db.Valid()
    modifies db
    ensures db.Valid() && db.serials == old(db.serials)
    ensures id.Some? <==> r == Ok(ReaderDeleted)
    ensures id.None? ==> r == Error(NaNParameter) && db.Snapshot() == old(db.Snapshot())
    ensures id.Some? ==> db.Snapshot() == old(db.Snapshot()).(readers := RemoveReader(old(db.readers), id).value)
  {
    if id.None? {
      return Error(NaNParameter);
    }
    RemoveReaderExact(db.Snapshot(), db.serials, id.value);
    db.readers := RemoveReader(db.readers, id).value;
    r := Ok(ReaderDeleted);
  }

  // ---------------------------------------------------------------- getAllReaders

  /** A reader with `orderCount` (and `_count.Order`, the same number). */
  datatype ReaderCount = ReaderCount(reader: Reader, orderCount: nat)

  /** `(SELECT COUNT(*) FROM "Order" WHERE "readerId" = r.id)` */
  function OrderCount(orders: seq<Order>, readerId: int): nat {
    |Where(orders, (o: Order) => o.readerId == readerId)|
  }

  function ReaderCreatedAt(r: Reader): int { r.createdat }

  function Readers(rows: seq<ReaderCount>): seq<Reader> {
    seq(|rows|, i requires 0 <= i < |rows| => rows[i].reader)
  }

  /** GET /readers: every reader with its order count, latest createdat first. */
  function GetAllReaders(t: Tables): seq<ReaderCount> {
    var readers := OrderByDesc(t.readers, ReaderCreatedAt);
    seq(|readers|, i requires 0 <= i < |readers| => ReaderCount(readers[i], OrderCount(t.orders, readers[i].id)))
  }

  /** Every reader once, each with the number of its orders, latest createdat first. */
  lemma GetAllReadersLists(t: Tables)
    ensures multiset(Readers(GetAllReaders(t))) == multiset(t.readers)
    ensures forall i :: 0 <= i < |GetAllReaders(t)| ==>
      GetAllReaders(t)[i].orderCount == |Where(t.orders, (o: Order) => o.readerId == GetAllReaders(t)[i].reader.id)|
    ensures forall i, j :: 0 <= i < j < |GetAllReaders(t)| ==>
      GetAllReaders(t)[i].reader.createdat >= GetAllReaders(t)[j].reader.createdat
  {
    var readers := OrderByDesc(t.readers, ReaderCreatedAt);
    assert Readers(GetAllReaders(t)) == readers;
    forall i, j | 0 <= i < j < |readers| ensures readers[i].createdat >= readers[j].createdat {
      assert ReaderCreatedAt(readers[i]) >= ReaderCreatedAt(readers[j]);
    }
  }

  // ---------------------------------------------------------------- getReaderById

  /** A reader with their orders (each with its lines and books) and their
      contact history. */
  datatype ReaderDetail = ReaderDetail(
    reader: Reader,
    orders: seq<OrderController.ReaderOrder>,
    history: seq<ReaderHistory>)

  function ChangedAt(h: ReaderHistory): int { h.changedAt }

  /** GET /readers/:id: the orders are those of getOrdersByReader, the history
      latest changedAt first. */
  function GetReaderById(t: Tables, id: Option<int>): Response<ReaderDetail> {
    match id
    case None => Error(NaNParameter)
    case Some(n) =>
      match FindReader(t.readers, n)
      case None => NotFound("Reader not found")
      case Some(k) =>
        var reader := t.readers[k];
        Ok(ReaderDetail(reader, OrderController.GetOrdersByReader(t, Some(reader.id)).value,
           OrderByDesc(Where(t.history, (h: ReaderHistory) => h.readerId == reader.id), ChangedAt)))
  }

  /** An unknown id is a 404. */
  lemma GetReaderByIdMissing(t: Tables, n: int)
    requires forall j :: 0 <= j < |t.readers| ==> t.readers[j].id != n
    ensures GetReaderById(t, Some(n)) == NotFound("Reader not found")
  {
  }

  /** A known id gives that reader and exactly their history rows, latest first. */
  lemma GetReaderByIdHistory(t: Tables, n: int, d: ReaderDetail)
    requires GetReaderById(t, Some(n)) == Ok(d)
    ensures d.reader in t.readers && d.reader.id == n
    ensures multiset(d.history) == multiset(Where(t.history, (h: ReaderHistory) => h.readerId == n))
    ensures forall i, j :: 0 <= i < j < |d.history| ==> d.history[i].changedAt >= d.history[j].changedAt
  {
    var k := FindReader(t.readers, n).value;
    assert d.reader == t.readers[k] && t.readers[k].id == n;
    var history := OrderByDesc(Where(t.history, (h: ReaderHistory) => h.readerId == n), ChangedAt);
    assert d.history == history;
    HistoryLatestFirst(history);
  }

  lemma HistoryLatestFirst(history: seq<ReaderHistory>)
    requires SortedDesc(history, ChangedAt)
    ensures forall i, j :: 0 <= i < j < |history| ==> history[i].changedAt >= history[j].changedAt
  {
    forall i, j | 0 <= i < j < |history| ensures history[i].changedAt >= history[j].changedAt {
      assert ChangedAt(history[i]) >= ChangedAt(history[j]);
    }
  }

  /** ... and exactly their orders, latest orderDate first, each with its lines. */
  lemma GetReaderByIdOrders(t: Tables, n: int, d: ReaderDetail)
    requires GetReaderById(t, Some(n)) == Ok(d)
    ensures multiset(OrderController.OrdersOf(d.orders)) == multiset(Where(t.orders, (o: Order) => o.readerId == n))
    ensures forall i :: 0 <= i < |d.orders| ==>
      d.orders[i].order.readerId == n && d.orders[i].lines == OrderController.LinesOf(t, d.orders[i].order.id)
    ensures forall i, j :: 0 <= i < j < |d.orders| ==> d.orders[i].order.orderDate >= d.orders[j].order.orderDate
  {
    assert OrderController.GetOrdersByReader(t, Some(n)) == Ok(d.orders);
    OrderController.GetOrdersByReaderLists(t, n, d.orders);
  }
}
