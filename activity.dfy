/** src/controllers/activity.controller.js: the ActivityLog table, with its
    listings (all, by id, by order, by reader) and the handlers that insert,
    overwrite and delete a log row. */
module ActivityController {
  import opened Js
  import opened Db

  /** The body fields create and update read. */
  datatype LogBody = LogBody(action: Value, description: Value, orderId: Value, readerId: Value)

  /** An integer parameter bound as `v ? parseInt(v) : null`: NULL for a falsy
      value, NaN when a truthy value does not parse. */
  datatype IdParam = NullId | NaNId | IdOf(value: int)

  function IdParamOf(v: Value): (p: IdParam)
    ensures p == NullId <==> !Truthy(v)
    ensures p == NaNId <==> Truthy(v) && JsParseInt(v).None?
    ensures p.IdOf? ==> JsParseInt(v) == Some(p.value)
  {
    if !Truthy(v) then NullId
    else match JsParseInt(v)
      case None => NaNId
      case Some(n) => IdOf(n)
  }

  /** What a bound parameter leaves in the column. */
  function Stored(p: IdParam): (r: Option<int>)
    requires p != NaNId
    ensures r.None? <==> p == NullId
  {
    if p.IdOf? then Some(p.value) else None
  }

  /** The values a create or update binds. */
  datatype LogColumns = LogColumns(action: Option<string>, description: Option<string>, orderId: IdParam, readerId: IdParam)

  /** node-postgres can bind the values: neither id is NaN. */
  predicate Binds(c: LogColumns) {
    c.orderId != NaNId && c.readerId != NaNId
  }

  /** createActivityLog's values: `action || "NOTE"`. */
  function CreateColumns(body: LogBody): (c: LogColumns)
    ensures !Truthy(body.action) ==> c.action == Some("NOTE")
    ensures Truthy(body.action) ==> c.action == ColumnText(body.action)
    ensures c.description == ColumnText(body.description)
    ensures c.orderId == IdParamOf(body.orderId) && c.readerId == IdParamOf(body.readerId)
  {
    LogColumns(if Truthy(body.action) then ColumnText(body.action) else Some("NOTE"),
               ColumnText(body.description), IdParamOf(body.orderId), IdParamOf(body.readerId))
  }

  /** updateActivityLog's values: the action as sent, no default. */
  function UpdateColumns(body: LogBody): (c: LogColumns)
    ensures c.action == ColumnText(body.action) && c.description == ColumnText(body.description)
    ensures c.orderId == IdParamOf(body.orderId) && c.readerId == IdParamOf(body.readerId)
  {
    LogColumns(ColumnText(body.action), ColumnText(body.description), IdParamOf(body.orderId), IdParamOf(body.readerId))
  }

  function FindLog(logs: seq<ActivityLog>, id: int): Option<nat> {
    FirstWhere(logs, (l: ActivityLog) => l.id == id)
  }

  const LogNotFound := "Activity log not found"

  // ---------------------------------------------------------------- reads

  /** A log row with the order and the reader it names. */
  datatype LogView = LogView(log: ActivityLog, order: Option<Order>, reader: Option<Reader>)

  function OrderById(t: Tables, id: Option<int>): Option<Order> {
    if id.None? then None
    else match FindOrder(t.orders, id.value)
      case None => None
      case Some(k) => Some(t.orders[k])
  }

  function ReaderById(t: Tables, id: Option<int>): Option<Reader> {
    if id.None? then None
    else match FindReader(t.readers, id.value)
      case None => None
      case Some(k) => Some(t.readers[k])
  }

  /** LEFT JOIN "Order" and LEFT JOIN "Reader": NULL joins nothing. */
  function Joined(t: Tables, l: ActivityLog): LogView {
    LogView(l, OrderById(t, l.orderId), ReaderById(t, l.readerId))
  }

  /** `if (activityLog.orderId)` / `if (activityLog.readerId)`: only a truthy id
      is looked up. */
  function Fetched(t: Tables, l: ActivityLog): (v: LogView)
    ensures l.orderId == Some(0) ==> v.order.None?
    ensures l.readerId == Some(0) ==> v.reader.None?
  {
    LogView(l, if l.orderId == Some(0) then None else OrderById(t, l.orderId),
               if l.readerId == Some(0) then None else ReaderById(t, l.readerId))
  }

  function LogCreatedAt(l: ActivityLog): int { l.createdAt }

  function Logs(rows: seq<LogView>): seq<ActivityLog> {
    seq(|rows|, i requires 0 <= i < |rows| => rows[i].log)
  }

  /** GET /activity-logs: every row, latest createdAt first. */
  function GetAllActivityLogs(t: Tables): seq<LogView> {
    var logs := OrderByDesc(t.logs, LogCreatedAt);
    seq(|logs|, i requires 0 <= i < |logs| => Joined(t, logs[i]))
  }

  lemma GetAllActivityLogsLists(t: Tables)
    ensures multiset(Logs(GetAllActivityLogs(t))) == multiset(t.logs)
    ensures forall i :: 0 <= i < |GetAllActivityLogs(t)| ==>
      GetAllActivityLogs(t)[i] == Joined(t, GetAllActivityLogs(t)[i].log)
    ensures forall i, j :: 0 <= i < j < |GetAllActivityLogs(t)| ==>
      GetAllActivityLogs(t)[i].log.createdAt >= GetAllActivityLogs(t)[j].log.createdAt
  {
    var logs := OrderByDesc(t.logs, LogCreatedAt);
    assert Logs(GetAllActivityLogs(t)) == logs;
    LatestFirst(logs);
  }

  lemma LatestFirst(logs: seq<ActivityLog>)
    requires SortedDesc(logs, LogCreatedAt)
    ensures forall i, j :: 0 <= i < j < |logs| ==> logs[i].createdAt >= logs[j].createdAt
  {
    forall i, j | 0 <= i < j < |logs| ensures logs[i].createdAt >= logs[j].createdAt {
      assert LogCreatedAt(logs[i]) >= LogCreatedAt(logs[j]);
    }
  }

  /** GET /activity-logs/:id */
  function GetActivityLogById(t: Tables, id: Option<int>): (r: Response<LogView>)
    ensures id.None? ==> r == Error(NaNParameter)
    ensures r.NotFound? <==> id.Some? && forall j :: 0 <= j < |t.logs| ==> t.logs[j].id != id.value
    ensures r.NotFound? ==> r.message == LogNotFound
    ensures r.Ok? ==> r.value.log in t.logs && Some(r.value.log.id) == id && r.value == Joined(t, r.value.log)
  {
    match id
    case None => Error(NaNParameter)
    case Some(n) =>
      match FindLog(t.logs, n)
      case None => NotFound(LogNotFound)
      case Some(k) => Ok(Joined(t, t.logs[k]))
  }

  /** A row of getActivityLogsByOrder: the log and its reader. */
  datatype LogWithReader = LogWithReader(log: ActivityLog, reader: Option<Reader>)

  /** A row of getActivityLogsByReader: the log and its order. */
  datatype LogWithOrder = LogWithOrder(log: ActivityLog, order: Option<Order>)

  /** The logs of order `n`, latest first. */
  function OrderLogs(logs: seq<ActivityLog>, n: int): seq<ActivityLog> {
    OrderByDesc(Where(logs, (l: ActivityLog) => l.orderId == Some(n)), LogCreatedAt)
  }

  /** The logs of order `n` are exactly its matching logs, latest first. */
  lemma OrderLogsSound(logs: seq<ActivityLog>, n: int)
    ensures multiset(OrderLogs(logs, n)) == multiset(Where(logs, (l: ActivityLog) => l.orderId == Some(n)))
    ensures forall i :: 0 <= i < |OrderLogs(logs, n)| ==> OrderLogs(logs, n)[i].orderId == Some(n)
    ensures forall i, j :: 0 <= i < j < |OrderLogs(logs, n)| ==> OrderLogs(logs, n)[i].createdAt >= OrderLogs(logs, n)[j].createdAt
  {
    var matching := Where(logs, (l: ActivityLog) => l.orderId == Some(n));
    var sorted := OrderLogs(logs, n);
    forall i | 0 <= i < |sorted| ensures sorted[i].orderId == Some(n) {
      assert sorted[i] in multiset(matching);
    }
    LatestFirst(sorted);
  }

  /** GET /activity-logs/order/:orderId: that order's rows, latest first. */
  function GetActivityLogsByOrder(t: Tables, orderId: Option<int>): Response<seq<LogWithReader>> {
    match orderId
    case None => Error(NaNParameter)
    case Some(n) =>
      var logs := OrderLogs(t.logs, n);
      Ok(seq(|logs|, i requires 0 <= i < |logs| => LogWithReader(logs[i], ReaderById(t, logs[i].readerId))))
  }

  function ReaderRowLogs(rows: seq<LogWithReader>): seq<ActivityLog> {
    seq(|rows|, i requires 0 <= i < |rows| => rows[i].log)
  }

  /** The rows of getActivityLogsByOrder: the sorted logs, each with its reader. */
  lemma GetActivityLogsByOrderRows(t: Tables, n: int, r: seq<LogWithReader>)
    requires GetActivityLogsByOrder(t, Some(n)) == Ok(r)
    ensures ReaderRowLogs(r) == OrderLogs(t.logs, n)
    ensures forall i :: 0 <= i < |r| ==> r[i].reader == ReaderById(t, r[i].log.readerId)
  {
    var logs := OrderLogs(t.logs, n);
    assert r == seq(|logs|, i requires 0 <= i < |logs| => LogWithReader(logs[i], ReaderById(t, logs[i].readerId)));
  }

  /** Exactly the rows of that order, each once, latest first, with their reader. */
  lemma GetActivityLogsByOrderLists(t: Tables, n: int, r: seq<LogWithReader>)
    requires GetActivityLogsByOrder(t, Some(n)) == Ok(r)
    ensures multiset(ReaderRowLogs(r)) == multiset(Where(t.logs, (l: ActivityLog) => l.orderId == Some(n)))
    ensures forall i :: 0 <= i < |r| ==> r[i].log.orderId == Some(n) && r[i].reader == ReaderById(t, r[i].log.readerId)
    ensures forall i, j :: 0 <= i < j < |r| ==> r[i].log.createdAt >= r[j].log.createdAt
  {
    var logs := OrderLogs(t.logs, n);
    GetActivityLogsByOrderRows(t, n, r);
    OrderLogsSound(t.logs, n);
    forall i | 0 <= i < |r| ensures r[i].log == logs[i] {
      assert ReaderRowLogs(r)[i] == r[i].log;
    }
  }

  /** The logs of reader `n`, latest first. */
  function ReaderLogs(logs: seq<ActivityLog>, n: int): seq<ActivityLog> {
    OrderByDesc(Where(logs, (l: ActivityLog) => l.readerId == Some(n)), LogCreatedAt)
  }

  /** The logs of reader `n` are exactly its matching logs, latest first. */
  lemma ReaderLogsSound(logs: seq<ActivityLog>, n: int)
    ensures multiset(ReaderLogs(logs, n)) == multiset(Where(logs, (l: ActivityLog) => l.readerId == Some(n)))
    ensures forall i :: 0 <= i < |ReaderLogs(logs, n)| ==> ReaderLogs(logs, n)[i].readerId == Some(n)
    ensures forall i, j :: 0 <= i < j < |ReaderLogs(logs, n)| ==> ReaderLogs(logs, n)[i].createdAt >= ReaderLogs(logs, n)[j].createdAt
  {
    var matching := Where(logs, (l: ActivityLog) => l.readerId == Some(n));
    var sorted := ReaderLogs(logs, n);
    forall i | 0 <= i < |sorted| ensures sorted[i].readerId == Some(n) {
      assert sorted[i] in multiset(matching);
    }
    LatestFirst(sorted);
  }

  /** GET /activity-logs/reader/:readerId: that reader's rows, latest first. */
  function GetActivityLogsByReader(t: Tables, readerId: Option<int>): Response<seq<LogWithOrder>> {
    match readerId
    case None => Error(NaNParameter)
    case Some(n) =>
      var logs := ReaderLogs(t.logs, n);
      Ok(seq(|logs|, i requires 0 <= i < |logs| => LogWithOrder(logs[i], OrderById(t, logs[i].orderId))))
  }

  function OrderRowLogs(rows: seq<LogWithOrder>): seq<ActivityLog> {
    seq(|rows|, i requires 0 <= i < |rows| => rows[i].log)
  }

  /** The rows of getActivityLogsByReader: the sorted logs, each with its order. */
  lemma GetActivityLogsByReaderRows(t: Tables, n: int, r: seq<LogWithOrder>)
    requires GetActivityLogsByReader(t, Some(n)) == Ok(r)
    ensures OrderRowLogs(r) == ReaderLogs(t.logs, n)
    ensures forall i :: 0 <= i < |r| ==> r[i].order == OrderById(t, r[i].log.orderId)
  {
    var logs := ReaderLogs(t.logs, n);
    assert r == seq(|logs|, i requires 0 <= i < |logs| => LogWithOrder(logs[i], OrderById(t, logs[i].orderId)));
  }

  /** Exactly the rows of that reader, each once, latest first, with their order. */
  lemma GetActivityLogsByReaderLists(t: Tables, n: int, r: seq<LogWithOrder>)
    requires GetActivityLogsByReader(t, Some(n)) == Ok(r)
    ensures multiset(OrderRowLogs(r)) == multiset(Where(t.logs, (l: ActivityLog) => l.readerId == Some(n)))
    ensures forall i :: 0 <= i < |r| ==> r[i].log.readerId == Some(n) && r[i].order == OrderById(t, r[i].log.orderId)
    ensures forall i, j :: 0 <= i < j < |r| ==> r[i].log.createdAt >= r[j].log.createdAt
  {
    var logs := ReaderLogs(t.logs, n);
    GetActivityLogsByReaderRows(t, n, r);
    ReaderLogsSound(t.logs, n);
    forall i | 0 <= i < |r| ensures r[i].log == logs[i] {
      assert OrderRowLogs(r)[i] == r[i].log;
    }
  }

  // ---------------------------------------------------------------- createActivityLog

  const DescriptionRequired := "Description is required"

  /** The INSERT: a NaN id fails when the values are bound, before a row id is
      drawn; otherwise the row gets the next id and the clock. */
  function NewLog(id: int, c: LogColumns, now: int): ActivityLog
    requires Binds(c)
  {
    ActivityLog(id, c.action, c.description, Stored(c.orderId), Stored(c.readerId), now)
  }

  method InsertLogRow(db: Store, c: LogColumns, now: int) returns (r: Response<LogView>)
    requires db.Valid()
    modifies db
    ensures db.Valid()
    ensures !Binds(c) ==> r == Error(NaNParameter) && db.Snapshot() == old(db.Snapshot()) && db.serials == old(db.serials)
    ensures Binds(c) ==>
      db.Snapshot() == old(db.Snapshot()).(logs := old(db.logs) + [NewLog(old(db.serials.log), c, now)])
      && db.serials == old(db.serials).(log := old(db.serials.log) + 1)
      && r == Ok(Fetched(db.Snapshot(), NewLog(old(db.serials.log), c, now)))
  {
    if !Binds(c) {
      return Error(NaNParameter);
    }
    var row := NewLog(db.serials.log, c, now);
    KeyedAppend(db.logs, LogKey, db.serials.log, row);
    db.logs := db.logs + [row];
    db.serials := db.serials.(log := db.serials.log + 1);
    r := Ok(Fetched(db.Snapshot(), row));
  }

  /** POST /activity-logs: a falsy description is a 400 and writes nothing. */
  method CreateActivityLog(db: Store, body: LogBody, now: int) returns (r: Response<LogView>)
    requires db.Valid()
    modifies db
    ensures db.Valid()
    ensures !Truthy(body.description) ==>
      r == BadRequest(DescriptionRequired) && db.Snapshot() == old(db.Snapshot()) && db.serials == old(db.serials)
    ensures Truthy(body.description) && !Binds(CreateColumns(body)) ==>
      r == Error(NaNParameter) && db.Snapshot() == old(db.Snapshot()) && db.serials == old(db.serials)
    ensures Truthy(body.description) && Binds(CreateColumns(body)) ==>
      db.Snapshot() == old(db.Snapshot()).(logs := old(db.logs) + [NewLog(old(db.serials.log), CreateColumns(body), now)])
      && db.serials == old(db.serials).(log := old(db.serials.log) + 1)
      && r == Ok(Fetched(db.Snapshot(), NewLog(old(db.serials.log), CreateColumns(body), now)))
  {
    if !Truthy(body.description) {
      return BadRequest(DescriptionRequired);
    }
    r := InsertLogRow(db, CreateColumns(body), now);
  }

  /** A created row holds a non-null description, the action or "NOTE", and
      NULL for each falsy id. */
  lemma CreatedLogColumns(body: LogBody, id: int, now: int)
    requires Truthy(body.description) && Binds(CreateColumns(body))
    ensures var l := NewLog(id, CreateColumns(body), now);
      l.description.Some? && l.action.Some?
      && (body.action == Undefined ==> l.action == Some("NOTE"))
      && (!Truthy(body.orderId) ==> l.orderId.None?)
      && (!Truthy(body.readerId) ==> l.readerId.None?)
      && l.id == id && l.createdAt == now
  {
  }

  /** The row just created is what a read by its id returns. */
  lemma CreatedLogReadBack(t: Tables, s: Serials, c: LogColumns, now: int)
    requires WellFormed(t, s) && Binds(c)
    ensures var t' := t.(logs := t.logs + [NewLog(s.log, c, now)]);
      GetActivityLogById(t', Some(s.log)) == Ok(Joined(t', NewLog(s.log, c, now)))
  {
    var row := NewLog(s.log, c, now);
    var logs := t.logs + [row];
    assert logs[|t.logs|] == row;
    forall j | 0 <= j < |t.logs| ensures logs[j].id != s.log {
      assert logs[j] == t.logs[j];
    }
  }

  // ---------------------------------------------------------------- updateActivityLog

  datatype LogEdit = LogEdit(logs: seq<ActivityLog>, log: ActivityLog)

  /** UPDATE ... WHERE id = $5 RETURNING *: NaN anywhere fails, no row is a 404,
      otherwise the four columns of that row are overwritten. */
  function EditLog(logs: seq<ActivityLog>, id: Option<int>, c: LogColumns): Response<LogEdit> {
    if id.None? || !Binds(c) then Error(NaNParameter)
    else match FindLog(logs, id.value)
      case None => NotFound(LogNotFound)
      case Some(k) =>
        var row := logs[k].(action := c.action, description := c.description,
                            orderId := Stored(c.orderId), readerId := Stored(c.readerId));
        Ok(LogEdit(logs[k := row], row))
  }

  /** A successful update changes that row's four columns only; its id and
      createdAt and every other row stay. */
  lemma EditLogWrites(logs: seq<ActivityLog>, id: Option<int>, c: LogColumns, e: LogEdit)
    requires EditLog(logs, id, c) == Ok(e)
    ensures Binds(c) && |e.logs| == |logs|
    ensures exists k :: (0 <= k < |logs| && logs[k].id == id.value && e.logs[k] == e.log
      && (forall j :: 0 <= j < |logs| && j != k ==> e.logs[j] == logs[j])
      && e.log == ActivityLog(logs[k].id, c.action, c.description, Stored(c.orderId), Stored(c.readerId), logs[k].createdAt))
  {
    var k := FindLog(logs, id.value).value;
    assert logs[k].id == id.value && e.logs[k] == e.log;
  }

  /** An unknown id is a 404 once the values bind. */
  lemma EditLogMissing(logs: seq<ActivityLog>, n: int, c: LogColumns)
    requires Binds(c) && forall j :: 0 <= j < |logs| ==> logs[j].id != n
    ensures EditLog(logs, Some(n), c) == NotFound(LogNotFound)
  {
  }

  method EditLogRow(db: Store, id: Option<int>, c: LogColumns) returns (r: Response<LogView>)
    requires db.Valid()
    modifies db
    ensures db.Valid() && db.serials == old(db.serials)
    ensures var e := EditLog(old(db.logs), id, c);
      if e.Ok? then db.Snapshot() == old(db.Snapshot()).(logs := e.value.logs) && r == Ok(Fetched(db.Snapshot(), e.value.log))
      else db.Snapshot() == old(db.Snapshot()) && r == Failed(e)
  {
    var e := EditLog(db.logs, id, c);
    if e.Ok? {
      var k := FindLog(db.logs, id.value).value;
      KeyedReplace(db.logs, LogKey, db.serials.log, k, e.value.log);
      db.logs := e.value.logs;
      r := Ok(Fetched(db.Snapshot(), e.value.log));
    } else {
      r := Failed(e);
    }
  }

  /** PUT /activity-logs/:id */
  method UpdateActivityLog(db: Store, id: Option<int>, body: LogBody) returns (r: Response<LogView>)
    requires db.Valid()
    modifies db
    ensures db.Valid() && db.serials == old(db.serials)
    ensures var e := EditLog(old(db.logs), id, UpdateColumns(body));
      if e.Ok? then db.Snapshot() == old(db.Snapshot()).(logs := e.value.logs) && r == Ok(Fetched(db.Snapshot(), e.value.log))
      else db.Snapshot() == old(db.Snapshot()) && r == Failed(e)
  {
    r := EditLogRow(db, id, UpdateColumns(body));
  }

  // ---------------------------------------------------------------- deleteActivityLog

  const LogDeleted := "Activity log deleted successfully"

  /** DELETE ... WHERE id = $1 RETURNING id: no row returned is a 404. */
  function RemoveLog(logs: seq<ActivityLog>, id: Option<int>): Response<seq<ActivityLog>> {
    match id
    case None => Error(NaNParameter)
    case Some(n) =>
      if FindLog(logs, n).None? then NotFound(LogNotFound)
      else Ok(Where(logs, (l: ActivityLog) => l.id != n))
  }

  /** The row with that id goes and every other row stays; afterwards a read by
      that id is a 404. */
  lemma RemoveLogExact(t: Tables, s: Serials, n: int, rest: seq<ActivityLog>)
    requires WellFormed(t, s) && RemoveLog(t.logs, Some(n)) == Ok(rest)
    ensures forall l :: l in rest <==> l in t.logs && l.id != n
    ensures |rest| == |t.logs| - 1
    ensures WellFormed(t.(logs := rest), s)
    ensures GetActivityLogById(t.(logs := rest), Some(n)) == NotFound(LogNotFound)
  {
    var p := (l: ActivityLog) => l.id != n;
    var k := FindLog(t.logs, n).value;
    forall j | 0 <= j < |t.logs| && j != k ensures t.logs[j].id != n {
      assert LogKey(t.logs[j]) != LogKey(t.logs[k]);
    }
    WhereDropsOne(t.logs, p, k);
    KeyedWhere(t.logs, LogKey, s.log, p);
    forall j | 0 <= j < |rest| ensures rest[j].id != n {
      assert rest[j] in rest;
    }
  }

  /** DELETE /activity-logs/:id */
  method DeleteActivityLog(db: Store, id: Option<int>) returns (r: Response<string>)
    requires db.Valid()
    modifies db
    ensures db.Valid() && db.serials == old(db.serials)
    ensures var d := RemoveLog(old(db.logs), id);
      if d.Ok? then db.Snapshot() == old(db.Snapshot()).(logs := d.value) && r == Ok(LogDeleted)
      else db.Snapshot() == old(db.Snapshot()) && r == Failed(d)
  {
    var d := RemoveLog(db.logs, id);
    if d.Ok? {
      RemoveLogExact(db.Snapshot(), db.serials, id.value, d.value);
      db.logs := d.value;
      r := Ok(LogDeleted);
    } else {
      r := Failed(d);
    }
  }
}
