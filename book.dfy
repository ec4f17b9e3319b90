/** The live book catalogue handlers of src/controllers/book.controller.js: the
    filtered, paginated listing, single and bulk creation, update with cover
    retention, and single and bulk deletion. Cover files on disk are outside the
    model; a cover is the filename the Book row stores. */
module BookController {
  import opened Js
  import opened Db

  /** A request body or form object: a field absent from it reads as `undefined`. */
  type Body = map<string, Value>

  function Field(body: Body, name: string): Value {
    if name in body then body[name] else Undefined
  }

  // ---------------------------------------------------------------- transformBook

  /** `${req.protocol}://${req.get("host")}/uploads/${file}`, `origin` being the
      part before `/uploads/`. */
  function UploadUrl(origin: string, file: string): string {
    origin + "/uploads/" + file
  }

  /** A stored cover becomes its public URL; a null or empty one stays null. */
  function CoverUrl(origin: string, image: Option<string>): (r: Option<string>)
    ensures r.Some? <==> image.Some? && image.value != ""
  {
    if image.Some? && image.value != "" then Some(UploadUrl(origin, image.value)) else None
  }

  /** The URL names the stored file: it is the origin, `/uploads/`, then the filename. */
  lemma CoverUrlNamesFile(origin: string, image: Option<string>)
    requires CoverUrl(origin, image).Some?
    ensures var url := CoverUrl(origin, image).value;
      |url| == |origin| + 9 + |image.value| && url[..|origin| + 9] == origin + "/uploads/"
      && url[|origin| + 9..] == image.value
  {
  }

  /** transformBook: the row with both covers turned into URLs. */
  function TransformBook(origin: string, b: Book): Book {
    b.(data := b.data.(frontImage := CoverUrl(origin, b.data.frontImage), backImage := CoverUrl(origin, b.data.backImage)))
  }

  /** transformBook touches the two covers and nothing else of the row. */
  lemma TransformBookKeeps(origin: string, b: Book)
    ensures var r := TransformBook(origin, b);
      r.id == b.id && r.createdAt == b.createdAt && r.updatedAt == b.updatedAt
      && r.data.(frontImage := b.data.frontImage, backImage := b.data.backImage) == b.data
      && r.data.frontImage == CoverUrl(origin, b.data.frontImage)
      && r.data.backImage == CoverUrl(origin, b.data.backImage)
  {
  }

  function Transformed(origin: string, rows: seq<Book>): (r: seq<Book>)
    ensures |r| == |rows| && forall i :: 0 <= i < |r| ==> r[i] == TransformBook(origin, rows[i])
  {
    seq(|rows|, i requires 0 <= i < |rows| => TransformBook(origin, rows[i]))
  }

  // ---------------------------------------------------------------- columns

  /** The columns createBook and updateBook write from a body: `x || null` for
      text, `parseIntSafe` for integers, `stockQty` defaulting to 0, the two
      flags true only for `"true"` or `true`. */
  function BookColumns(body: Body, front: Option<string>, back: Option<string>): (d: BookData)
    ensures d.frontImage == front && d.backImage == back
    ensures d.stockQty.Some?
    ensures d.isAvailable <==> IsTrue(Field(body, "isAvailable"))
    ensures d.featured <==> IsTrue(Field(body, "featured"))
  {
    BookData(
      title := ColumnText(Field(body, "title")),
      description := OrNull(Field(body, "description")),
      frontImage := front,
      backImage := back,
      stockQty := Some(ParseIntSafe(Field(body, "stockQty")).GetOr(0)),
      isAvailable := IsTrue(Field(body, "isAvailable")),
      featured := IsTrue(Field(body, "featured")),
      languageId := ParseIntSafe(Field(body, "languageId")),
      categoryId := ParseIntSafe(Field(body, "categoryId")),
      bookCode := ParseIntSafe(Field(body, "bookCode")),
      kabatNumber := ParseIntSafe(Field(body, "kabatNumber")),
      bookSize := OrNull(Field(body, "bookSize")),
      author := OrNull(Field(body, "author")),
      tikakar := OrNull(Field(body, "tikakar")),
      prakashak := OrNull(Field(body, "prakashak")),
      sampadak := OrNull(Field(body, "sampadak")),
      anuvadak := OrNull(Field(body, "anuvadak")),
      vishay := OrNull(Field(body, "vishay")),
      shreni1 := OrNull(Field(body, "shreni1")),
      shreni2 := OrNull(Field(body, "shreni2")),
      shreni3 := OrNull(Field(body, "shreni3")),
      pages := ParseIntSafe(Field(body, "pages")),
      yearAD := ParseIntSafe(Field(body, "yearAD")),
      vikramSamvat := ParseIntSafe(Field(body, "vikramSamvat")),
      veerSamvat := ParseIntSafe(Field(body, "veerSamvat")),
      prakar := OrNull(Field(body, "prakar")),
      edition := ParseIntSafe(Field(body, "edition")))
  }

  /** `req.files?.[name]?.[0]?.filename || null` */
  function Uploaded(file: Option<string>): (r: Option<string>)
    ensures r.Some? <==> file.Some? && file.value != ""
    ensures r.Some? ==> r == file
  {
    if file.Some? && file.value != "" then file else None
  }

  /** Some other book than the one at `except` already holds the code. */
  predicate CodeTaken(books: seq<Book>, code: Option<int>, except: int) {
    code.Some? && exists j :: 0 <= j < |books| && j != except && books[j].data.bookCode == code
  }

  // ---------------------------------------------------------------- getAllBooks filters

  /** The query string of GET /books; every parameter may be absent, a string or
      (repeated) an array of strings. */
  datatype BookQuery = BookQuery(
    page: Value, limit: Value, search: Value,
    languageId: Value, categoryId: Value, isAvailable: Value,
    kabatNumber: Value, minPages: Value, maxPages: Value, bookSize: Value,
    yearAD: Value, vikramSamvat: Value, veerSamvat: Value)

  /** An id filter: an array means `IN (...)`, a single value `=`. None is NaN. */
  datatype IdFilter = OneId(id: Option<int>) | AnyId(ids: seq<Option<int>>)

  /** The filters a query supplies, parsed. For the integer filters the outer
      Option says whether it was supplied, the inner one whether it parsed. */
  datatype BookFilters = BookFilters(
    search: Option<string>,
    searchCode: Option<int>,
    language: Option<IdFilter>,
    category: Option<IdFilter>,
    available: Option<bool>,
    kabat: Option<string>,
    size: Option<string>,
    minPages: Option<Option<int>>,
    maxPages: Option<Option<int>>,
    yearAD: Option<Option<int>>,
    vikramSamvat: Option<Option<int>>,
    veerSamvat: Option<Option<int>>)

  function TextFilter(v: Value): Option<string> {
    if Truthy(v) then Some(ToString(v)) else None
  }

  function IntFilter(v: Value): Option<Option<int>> {
    if Truthy(v) then Some(JsParseInt(v)) else None
  }

  /** `ids.map(id => parseInt(id))` */
  function ParseEach(items: seq<Value>): (r: seq<Option<int>>)
    ensures |r| == |items|
    ensures forall i :: 0 <= i < |items| ==> r[i] == JsParseInt(items[i])
  {
    seq(|items|, i requires 0 <= i < |items| => JsParseInt(items[i]))
  }

  function IdFilterOf(v: Value): Option<IdFilter> {
    if !Truthy(v) then None
    else if v.List? then Some(AnyId(ParseEach(v.items)))
    else Some(OneId(JsParseInt(v)))
  }

  /** Which `if` of getAllBooks fires and with what parameter: a truthy value for
      all but `isAvailable`, which only needs to be present. */
  function Filters(q: BookQuery): BookFilters {
    BookFilters(
      search := TextFilter(q.search),
      searchCode := if Truthy(q.search) then JsParseInt(q.search) else None,
      language := IdFilterOf(q.languageId),
      category := IdFilterOf(q.categoryId),
      available := if q.isAvailable.Undefined? then None else Some(IsTrue(q.isAvailable)),
      kabat := TextFilter(q.kabatNumber),
      size := TextFilter(q.bookSize),
      minPages := IntFilter(q.minPages),
      maxPages := IntFilter(q.maxPages),
      yearAD := IntFilter(q.yearAD),
      vikramSamvat := IntFilter(q.vikramSamvat),
      veerSamvat := IntFilter(q.veerSamvat))
  }

  /** The bookCode alternative of `search` exists exactly when the search text
      starts with a number. */
  lemma SearchCodeOnlyForNumbers(q: BookQuery)
    ensures Filters(q).searchCode.Some? <==> Truthy(q.search) && JsParseInt(q.search).Some?
    ensures Filters(q).searchCode.Some? ==> Filters(q).search.Some?
  {
  }

  predicate NoFilters(f: BookFilters) {
    f.search.None? && f.language.None? && f.category.None? && f.available.None?
    && f.kabat.None? && f.size.None? && f.minPages.None? && f.maxPages.None?
    && f.yearAD.None? && f.vikramSamvat.None? && f.veerSamvat.None?
  }

  /** `search`: title or author contains the text, ignoring case, or the text is
      a number equal to the book code. */
  predicate SearchOk(b: Book, f: BookFilters) {
    f.search.Some? ==>
      ILike(b.data.title, f.search.value) || ILike(b.data.author, f.search.value)
      || (f.searchCode.Some? && b.data.bookCode == f.searchCode)
  }

  /** A list filter is membership, a single one equality; NULL matches nothing. */
  predicate IdOk(column: Option<int>, f: Option<IdFilter>) {
    match f
    case None => true
    case Some(OneId(n)) => n.Some? && column == n
    case Some(AnyId(ids)) => column.Some? && column in ids
  }

  predicate AtLeastOk(column: Option<int>, bound: Option<Option<int>>) {
    bound.Some? ==> bound.value.Some? && column.Some? && column.value >= bound.value.value
  }

  predicate AtMostOk(column: Option<int>, bound: Option<Option<int>>) {
    bound.Some? ==> bound.value.Some? && column.Some? && column.value <= bound.value.value
  }

  predicate EqualsOk(column: Option<int>, n: Option<Option<int>>) {
    n.Some? ==> n.value.Some? && column == n.value
  }

  function KabatText(b: Book): Option<string> {
    if b.data.kabatNumber.Some? then Some(IntToString(b.data.kabatNumber.value)) else None
  }

  predicate IdsOk(b: Book, f: BookFilters) {
    IdOk(b.data.languageId, f.language) && IdOk(b.data.categoryId, f.category)
  }

  /** `isAvailable` is equality; `kabatNumber` (as text) and `bookSize` are substrings. */
  predicate FlagAndTextOk(b: Book, f: BookFilters) {
    (f.available.Some? ==> b.data.isAvailable == f.available.value)
    && (f.kabat.Some? ==> ILike(KabatText(b), f.kabat.value))
    && (f.size.Some? ==> ILike(b.data.bookSize, f.size.value))
  }

  /** `minPages` and `maxPages` are inclusive bounds. */
  predicate PagesOk(b: Book, f: BookFilters) {
    AtLeastOk(b.data.pages, f.minPages) && AtMostOk(b.data.pages, f.maxPages)
  }

  predicate YearsOk(b: Book, f: BookFilters) {
    EqualsOk(b.data.yearAD, f.yearAD) && EqualsOk(b.data.vikramSamvat, f.vikramSamvat)
    && EqualsOk(b.data.veerSamvat, f.veerSamvat)
  }

  /** A book is listed when it passes every supplied filter. */
  predicate Qualifies(b: Book, f: BookFilters) {
    SearchOk(b, f) && IdsOk(b, f) && FlagAndTextOk(b, f) && PagesOk(b, f) && YearsOk(b, f)
  }

  /** With nothing supplied every book qualifies. */
  lemma NoFiltersQualifiesAll(b: Book, f: BookFilters)
    requires NoFilters(f)
    ensures Qualifies(b, f)
  {
  }

  // ---------------------------------------------------------------- the WHERE clause

  datatype IntColumn = LanguageCol | CategoryCol | BookCodeCol | PagesCol | YearAdCol | VikramCol | VeerCol
  datatype TextColumn = TitleCol | AuthorCol | KabatCol | SizeCol
  datatype Comparison = Eq | AtLeast | AtMost

  /** One entry of `conditions`; a None parameter is a NaN sent to PostgreSQL. */
  datatype Condition =
    | Like(text: TextColumn, pattern: string)
    | Compare(column: IntColumn, op: Comparison, n: Option<int>)
    | InIds(column: IntColumn, ids: seq<Option<int>>)
    | AvailableIs(flag: bool)
    | AnyHolds(alternatives: seq<Condition>)

  function IntValue(b: Book, c: IntColumn): Option<int> {
    match c
    case LanguageCol => b.data.languageId
    case CategoryCol => b.data.categoryId
    case BookCodeCol => b.data.bookCode
    case PagesCol => b.data.pages
    case YearAdCol => b.data.yearAD
    case VikramCol => b.data.vikramSamvat
    case VeerCol => b.data.veerSamvat
  }

  function TextValue(b: Book, c: TextColumn): Option<string> {
    match c
    case TitleCol => b.data.title
    case AuthorCol => b.data.author
    case KabatCol => KabatText(b)
    case SizeCol => b.data.bookSize
  }

  /** What PostgreSQL makes of one condition for one row: a comparison with NULL
      is not true. */
  predicate Satisfies(b: Book, c: Condition)
    decreases c
  {
    match c
    case Like(col, p) => ILike(TextValue(b, col), p)
    case Compare(col, op, n) =>
      n.Some? && IntValue(b, col).Some? &&
      (match op
       case Eq => IntValue(b, col).value == n.value
       case AtLeast => IntValue(b, col).value >= n.value
       case AtMost => IntValue(b, col).value <= n.value)
    case InIds(col, ids) => IntValue(b, col).Some? && IntValue(b, col) in ids
    case AvailableIs(flag) => b.data.isAvailable == flag
    case AnyHolds(alts) => exists i :: 0 <= i < |alts| && Satisfies(b, alts[i])
  }

  /** `WHERE c1 AND c2 AND ...`; no condition, no WHERE. */
  predicate Holds(b: Book, conds: seq<Condition>) {
    forall i :: 0 <= i < |conds| ==> Satisfies(b, conds[i])
  }

  lemma HoldsAppend(b: Book, conds: seq<Condition>, c: Condition)
    ensures Holds(b, conds + [c]) <==> Holds(b, conds) && Satisfies(b, c)
  {
    assert forall i :: 0 <= i < |conds| ==> (conds + [c])[i] == conds[i];
    assert (conds + [c])[|conds|] == c;
  }

  lemma HoldsConcat(b: Book, c: seq<Condition>, d: seq<Condition>)
    ensures Holds(b, c + d) <==> Holds(b, c) && Holds(b, d)
  {
    assert forall i :: 0 <= i < |c| ==> (c + d)[i] == c[i];
    assert forall i :: 0 <= i < |d| ==> (c + d)[|c| + i] == d[i];
  }

  /** `[c]` when the filter is supplied, `[]` otherwise. */
  function When(supplied: bool, c: Condition): seq<Condition> {
    if supplied then [c] else []
  }

  lemma HoldsWhen(b: Book, supplied: bool, c: Condition)
    ensures Holds(b, When(supplied, c)) <==> (supplied ==> Satisfies(b, c))
  {
    if supplied {
      assert When(supplied, c)[0] == c;
    }
  }

  /** The OR-group `search` adds: title, author and, for a numeric text, the code. */
  function SearchAlternatives(f: BookFilters): seq<Condition>
    requires f.search.Some?
  {
    [Like(TitleCol, f.search.value), Like(AuthorCol, f.search.value)]
    + When(f.searchCode.Some?, Compare(BookCodeCol, Eq, f.searchCode))
  }

  function SearchConditions(f: BookFilters): seq<Condition> {
    When(f.search.Some?, AnyHolds(if f.search.Some? then SearchAlternatives(f) else []))
  }

  lemma SearchConditionsMean(b: Book, f: BookFilters)
    ensures Holds(b, SearchConditions(f)) <==> SearchOk(b, f)
  {
    if f.search.Some? {
      var alts := SearchAlternatives(f);
      HoldsWhen(b, true, AnyHolds(alts));
      assert Satisfies(b, alts[0]) <==> ILike(b.data.title, f.search.value);
      assert Satisfies(b, alts[1]) <==> ILike(b.data.author, f.search.value);
      if f.searchCode.Some? {
        assert Satisfies(b, alts[2]) <==> b.data.bookCode == f.searchCode;
      }
    }
  }

  function IdCondition(col: IntColumn, f: Option<IdFilter>): Condition {
    match f
    case None => AnyHolds([])
    case Some(OneId(n)) => Compare(col, Eq, n)
    case Some(AnyId(ids)) => InIds(col, ids)
  }

  /** `pre` followed by the language and category conditions. */
  function WithIds(pre: seq<Condition>, f: BookFilters): seq<Condition> {
    pre + When(f.language.Some?, IdCondition(LanguageCol, f.language))
    + When(f.category.Some?, IdCondition(CategoryCol, f.category))
  }

  lemma WithIdsMeans(b: Book, pre: seq<Condition>, f: BookFilters)
    ensures Holds(b, WithIds(pre, f)) <==> Holds(b, pre) && IdsOk(b, f)
  {
    var l := When(f.language.Some?, IdCondition(LanguageCol, f.language));
    var c := When(f.category.Some?, IdCondition(CategoryCol, f.category));
    HoldsWhen(b, f.language.Some?, IdCondition(LanguageCol, f.language));
    HoldsWhen(b, f.category.Some?, IdCondition(CategoryCol, f.category));
    HoldsConcat(b, pre, l);
    HoldsConcat(b, pre + l, c);
  }

  function WithFlagAndText(pre: seq<Condition>, f: BookFilters): seq<Condition> {
    pre + When(f.available.Some?, AvailableIs(f.available.GetOr(false)))
    + When(f.kabat.Some?, Like(KabatCol, f.kabat.GetOr("")))
    + When(f.size.Some?, Like(SizeCol, f.size.GetOr("")))
  }

  lemma WithFlagAndTextMeans(b: Book, pre: seq<Condition>, f: BookFilters)
    ensures Holds(b, WithFlagAndText(pre, f)) <==> Holds(b, pre) && FlagAndTextOk(b, f)
  {
    var a := When(f.available.Some?, AvailableIs(f.available.GetOr(false)));
    var k := When(f.kabat.Some?, Like(KabatCol, f.kabat.GetOr("")));
    var z := When(f.size.Some?, Like(SizeCol, f.size.GetOr("")));
    HoldsWhen(b, f.available.Some?, AvailableIs(f.available.GetOr(false)));
    HoldsWhen(b, f.kabat.Some?, Like(KabatCol, f.kabat.GetOr("")));
    HoldsWhen(b, f.size.Some?, Like(SizeCol, f.size.GetOr("")));
    HoldsConcat(b, pre, a);
    HoldsConcat(b, pre + a, k);
    HoldsConcat(b, pre + a + k, z);
  }

  function WithPages(pre: seq<Condition>, f: BookFilters): seq<Condition> {
    pre + When(f.minPages.Some?, Compare(PagesCol, AtLeast, f.minPages.GetOr(None)))
    + When(f.maxPages.Some?, Compare(PagesCol, AtMost, f.maxPages.GetOr(None)))
  }

  lemma WithPagesMeans(b: Book, pre: seq<Condition>, f: BookFilters)
    ensures Holds(b, WithPages(pre, f)) <==> Holds(b, pre) && PagesOk(b, f)
  {
    var lo := When(f.minPages.Some?, Compare(PagesCol, AtLeast, f.minPages.GetOr(None)));
    var hi := When(f.maxPages.Some?, Compare(PagesCol, AtMost, f.maxPages.GetOr(None)));
    HoldsWhen(b, f.minPages.Some?, Compare(PagesCol, AtLeast, f.minPages.GetOr(None)));
    HoldsWhen(b, f.maxPages.Some?, Compare(PagesCol, AtMost, f.maxPages.GetOr(None)));
    HoldsConcat(b, pre, lo);
    HoldsConcat(b, pre + lo, hi);
  }

  function WithYears(pre: seq<Condition>, f: BookFilters): seq<Condition> {
    pre + When(f.yearAD.Some?, Compare(YearAdCol, Eq, f.yearAD.GetOr(None)))
    + When(f.vikramSamvat.Some?, Compare(VikramCol, Eq, f.vikramSamvat.GetOr(None)))
    + When(f.veerSamvat.Some?, Compare(VeerCol, Eq, f.veerSamvat.GetOr(None)))
  }

  lemma WithYearsMeans(b: Book, pre: seq<Condition>, f: BookFilters)
    ensures Holds(b, WithYears(pre, f)) <==> Holds(b, pre) && YearsOk(b, f)
  {
    var y := When(f.yearAD.Some?, Compare(YearAdCol, Eq, f.yearAD.GetOr(None)));
    var v := When(f.vikramSamvat.Some?, Compare(VikramCol, Eq, f.vikramSamvat.GetOr(None)));
    var w := When(f.veerSamvat.Some?, Compare(VeerCol, Eq, f.veerSamvat.GetOr(None)));
    HoldsWhen(b, f.yearAD.Some?, Compare(YearAdCol, Eq, f.yearAD.GetOr(None)));
    HoldsWhen(b, f.vikramSamvat.Some?, Compare(VikramCol, Eq, f.vikramSamvat.GetOr(None)));
    HoldsWhen(b, f.veerSamvat.Some?, Compare(VeerCol, Eq, f.veerSamvat.GetOr(None)));
    HoldsConcat(b, pre, y);
    HoldsConcat(b, pre + y, v);
    HoldsConcat(b, pre + y + v, w);
  }

  /** The five groups in order mean the conjunction of the five filters. */
  lemma GroupsMean(f: BookFilters, c1: seq<Condition>, c2: seq<Condition>, c3: seq<Condition>,
                   c4: seq<Condition>, conds: seq<Condition>)
    requires c1 == SearchConditions(f) && c2 == WithIds(c1, f) && c3 == WithFlagAndText(c2, f)
    requires c4 == WithPages(c3, f) && conds == WithYears(c4, f)
    ensures forall b :: Holds(b, conds) <==> Qualifies(b, f)
    ensures conds == [] <==> NoFilters(f)
  {
    forall b ensures Holds(b, conds) <==> Qualifies(b, f) {
      SearchConditionsMean(b, f);
      WithIdsMeans(b, c1, f);
      WithFlagAndTextMeans(b, c2, f);
      WithPagesMeans(b, c3, f);
      WithYearsMeans(b, c4, f);
    }
  }

  /** The `search` step: one OR-group of two or three alternatives. */
  method PushSearch(f: BookFilters) returns (conds: seq<Condition>)
    ensures conds == SearchConditions(f)
  {
    conds := [];
    if f.search.Some? {
      var alts := [Like(TitleCol, f.search.value), Like(AuthorCol, f.search.value)];
      if f.searchCode.Some? {
        alts := alts + [Compare(BookCodeCol, Eq, f.searchCode)];
      }
      assert alts == SearchAlternatives(f);
      conds := conds + [AnyHolds(alts)];
    }
  }

  /** The `languageId` and `categoryId` steps. */
  method PushIds(pre: seq<Condition>, f: BookFilters) returns (conds: seq<Condition>)
    ensures conds == WithIds(pre, f)
  {
    conds := pre;
    if f.language.Some? {
      conds := conds + [IdCondition(LanguageCol, f.language)];
    }
    assert conds == pre + When(f.language.Some?, IdCondition(LanguageCol, f.language));
    if f.category.Some? {
      conds := conds + [IdCondition(CategoryCol, f.category)];
    }
  }

  /** The `isAvailable`, `kabatNumber` and `bookSize` steps. */
  method PushFlagAndText(pre: seq<Condition>, f: BookFilters) returns (conds: seq<Condition>)
    ensures conds == WithFlagAndText(pre, f)
  {
    conds := pre;
    if f.available.Some? {
      conds := conds + [AvailableIs(f.available.value)];
    }
    assert conds == pre + When(f.available.Some?, AvailableIs(f.available.GetOr(false)));
    if f.kabat.Some? {
      conds := conds + [Like(KabatCol, f.kabat.value)];
    }
    assert conds == pre + When(f.available.Some?, AvailableIs(f.available.GetOr(false)))
                        + When(f.kabat.Some?, Like(KabatCol, f.kabat.GetOr("")));
    if f.size.Some? {
      conds := conds + [Like(SizeCol, f.size.value)];
    }
  }

  /** The `minPages` and `maxPages` steps. */
  method PushPages(pre: seq<Condition>, f: BookFilters) returns (conds: seq<Condition>)
    ensures conds == WithPages(pre, f)
  {
    conds := pre;
    if f.minPages.Some? {
      conds := conds + [Compare(PagesCol, AtLeast, f.minPages.value)];
    }
    assert conds == pre + When(f.minPages.Some?, Compare(PagesCol, AtLeast, f.minPages.GetOr(None)));
    if f.maxPages.Some? {
      conds := conds + [Compare(PagesCol, AtMost, f.maxPages.value)];
    }
  }

  /** The `yearAD`, `vikramSamvat` and `veerSamvat` steps. */
  method PushYears(pre: seq<Condition>, f: BookFilters) returns (conds: seq<Condition>)
    ensures conds == WithYears(pre, f)
  {
    conds := pre;
    if f.yearAD.Some? {
      conds := conds + [Compare(YearAdCol, Eq, f.yearAD.value)];
    }
    assert conds == pre + When(f.yearAD.Some?, Compare(YearAdCol, Eq, f.yearAD.GetOr(None)));
    if f.vikramSamvat.Some? {
      conds := conds + [Compare(VikramCol, Eq, f.vikramSamvat.value)];
    }
    assert conds == pre + When(f.yearAD.Some?, Compare(YearAdCol, Eq, f.yearAD.GetOr(None)))
                        + When(f.vikramSamvat.Some?, Compare(VikramCol, Eq, f.vikramSamvat.GetOr(None)));
    if f.veerSamvat.Some? {
      conds := conds + [Compare(VeerCol, Eq, f.veerSamvat.value)];
    }
  }

  /** getAllBooks' chain of `if`s pushing onto `conditions`: the clause it builds
      selects exactly the books that pass every supplied filter, and is empty
      exactly when no filter is supplied. */
  method BuildConditions(f: BookFilters) returns (conds: seq<Condition>)
    ensures forall b :: Holds(b, conds) <==> Qualifies(b, f)
    ensures conds == [] <==> NoFilters(f)
  {
    var c1 := PushSearch(f);
    var c2 := PushIds(c1, f);
    var c3 := PushFlagAndText(c2, f);
    var c4 := PushPages(c3, f);
    conds := PushYears(c4, f);
    GroupsMean(f, c1, c2, c3, c4, conds);
  }

  // ---------------------------------------------------------------- getAllBooks

  /** `parseInt(v) || d`: NaN and 0 fall back to the default, so the result is never 0. */
  function IntOr(v: Value, d: int): (r: int)
    requires d != 0
    ensures r != 0
    ensures r == d || JsParseInt(v) == Some(r)
    ensures JsParseInt(v).None? || JsParseInt(v) == Some(0) ==> r == d
  {
    match JsParseInt(v)
    case None => d
    case Some(n) => if n == 0 then d else n
  }

  datatype BookPage = BookPage(books: seq<Book>, total: nat, page: int, limit: int, totalPages: nat)

  /** Some list filter is an empty array, which leaves `IN ()` in the SQL. */
  predicate EmptyIdList(f: BookFilters) {
    f.language == Some(AnyId([])) || f.category == Some(AnyId([]))
  }

  predicate IdNaN(f: Option<IdFilter>) {
    match f
    case None => false
    case Some(OneId(n)) => n.None?
    case Some(AnyId(ids)) => None in ids
  }

  /** A supplied integer filter did not parse, so NaN is bound to an integer parameter. */
  predicate BindsNaN(f: BookFilters) {
    IdNaN(f.language) || IdNaN(f.category)
    || f.minPages == Some(None) || f.maxPages == Some(None)
    || f.yearAD == Some(None) || f.vikramSamvat == Some(None) || f.veerSamvat == Some(None)
  }

  const NegativeOffset := "OFFSET must not be negative"
  const NegativeLimit := "LIMIT must not be negative"

  function CreatedAt(b: Book): int { b.createdAt }

  /** `(page - 1) * limit` */
  function Offset(page: int, limit: int): int {
    (page - 1) * limit
  }

  /** The rows the WHERE clause keeps, in table order. */
  function Matching(books: seq<Book>, f: BookFilters): (r: seq<Book>)
    ensures forall i :: 0 <= i < |r| ==> r[i] in books && Qualifies(r[i], f)
    ensures forall j :: 0 <= j < |books| && Qualifies(books[j], f) ==> books[j] in r
  {
    Where(books, (b: Book) => Qualifies(b, f))
  }

  /** The listing with its parameters already read: the count query, then the page
      query with `LIMIT limit OFFSET (page - 1) * limit`. */
  function ListBooks(books: seq<Book>, f: BookFilters, page: int, limit: int, origin: string): Response<BookPage>
    requires limit != 0
  {
    if EmptyIdList(f) then Error(InSyntaxError)
    else if BindsNaN(f) then Error(NaNParameter)
    else
      var matching := Matching(books, f);
      var offset := Offset(page, limit);
      if offset < 0 then Error(NegativeOffset)
      else if limit < 0 then Error(NegativeLimit)
      else Ok(BookPage(Transformed(origin, Page(OrderByDesc(matching, CreatedAt), offset, limit)),
                       |matching|, page, limit, TotalPages(|matching|, limit)))
  }

  /** GET /books: `page` defaults to 1 and `limit` to 10. */
  function GetAllBooks(books: seq<Book>, q: BookQuery, origin: string): Response<BookPage> {
    ListBooks(books, Filters(q), IntOr(q.page, 1), IntOr(q.limit, 10), origin)
  }

  /** Only an empty id array, a NaN filter or a negative offset or limit fail. */
  lemma ListBooksFails(books: seq<Book>, f: BookFilters, page: int, limit: int, origin: string)
    requires limit != 0
    ensures ListBooks(books, f, page, limit, origin).Ok? || ListBooks(books, f, page, limit, origin).Error?
    ensures ListBooks(books, f, page, limit, origin).Error? <==>
      EmptyIdList(f) || BindsNaN(f) || Offset(page, limit) < 0 || limit < 0
  {
  }

  /** `total` counts every match and `totalPages` is the fewest pages of `limit`
      books that hold them. */
  lemma ListBooksCounts(books: seq<Book>, f: BookFilters, page: int, limit: int, origin: string, p: BookPage)
    requires limit != 0 && ListBooks(books, f, page, limit, origin) == Ok(p)
    ensures limit > 0 && p.page == page && p.limit == limit && Offset(page, limit) >= 0
    ensures p.total == |Matching(books, f)|
    ensures |p.books| <= limit
    ensures p.totalPages * limit >= p.total && (p.totalPages == 0 || (p.totalPages - 1) * limit < p.total)
  {
  }

  /** A page is a slice of the matches, latest first: position i of page n is
      match number (n - 1) * limit + i. */
  lemma ListBooksSlices(books: seq<Book>, f: BookFilters, page: int, limit: int, origin: string, p: BookPage)
    requires limit != 0 && ListBooks(books, f, page, limit, origin) == Ok(p)
    ensures forall i :: 0 <= i < |p.books| ==>
      Offset(page, limit) + i < |Matching(books, f)|
      && p.books[i] == TransformBook(origin, OrderByDesc(Matching(books, f), CreatedAt)[Offset(page, limit) + i])
  {
    var sorted := OrderByDesc(Matching(books, f), CreatedAt);
    var offset := Offset(page, limit);
    var rows := Page(sorted, offset, limit);
    assert p.books == Transformed(origin, rows);
    assert |sorted| == |Matching(books, f)| by {
      assert |multiset(sorted)| == |multiset(Matching(books, f))|;
    }
    forall i | 0 <= i < |p.books|
      ensures offset + i < |Matching(books, f)| && p.books[i] == TransformBook(origin, sorted[offset + i])
    {
      assert p.books[i] == TransformBook(origin, rows[i]);
      assert rows[i] == sorted[offset + i];
    }
  }

  /** `x` is the transformed row of a stored book that passes every filter. */
  ghost predicate ListedFrom(books: seq<Book>, f: BookFilters, origin: string, x: Book) {
    exists b :: b in books && Qualifies(b, f) && x == TransformBook(origin, b)
  }

  /** Every listed book is a stored book that passes every filter. */
  lemma ListBooksSound(books: seq<Book>, f: BookFilters, page: int, limit: int, origin: string, p: BookPage)
    requires limit != 0 && ListBooks(books, f, page, limit, origin) == Ok(p)
    ensures forall i :: 0 <= i < |p.books| ==> ListedFrom(books, f, origin, p.books[i])
  {
    var offset := Offset(page, limit);
    assert offset >= 0 && limit > 0;
    assert p.books == Transformed(origin, Page(OrderByDesc(Matching(books, f), CreatedAt), offset, limit));
    PageRowsListed(books, f, origin, offset, limit, p.books);
  }

  lemma PageRowsListed(books: seq<Book>, f: BookFilters, origin: string, offset: nat, limit: nat, rows: seq<Book>)
    requires rows == Transformed(origin, Page(OrderByDesc(Matching(books, f), CreatedAt), offset, limit))
    ensures forall i :: 0 <= i < |rows| ==> ListedFrom(books, f, origin, rows[i])
  {
    var sorted := OrderByDesc(Matching(books, f), CreatedAt);
    forall i | 0 <= i < |rows| ensures ListedFrom(books, f, origin, rows[i]) {
      SortedMatchQualifies(books, f, offset + i);
      assert rows[i] == TransformBook(origin, sorted[offset + i]);
    }
  }

  /** Each row of the sorted matches is a stored book that qualifies. */
  lemma SortedMatchQualifies(books: seq<Book>, f: BookFilters, k: nat)
    requires k < |OrderByDesc(Matching(books, f), CreatedAt)|
    ensures OrderByDesc(Matching(books, f), CreatedAt)[k] in books
    ensures Qualifies(OrderByDesc(Matching(books, f), CreatedAt)[k], f)
  {
    var matching := Matching(books, f);
    var b := OrderByDesc(matching, CreatedAt)[k];
    assert b in multiset(matching);
    var j :| 0 <= j < |matching| && matching[j] == b;
  }

  /** The page lists the latest book first. */
  lemma ListBooksLatestFirst(books: seq<Book>, f: BookFilters, page: int, limit: int, origin: string, p: BookPage)
    requires limit != 0 && ListBooks(books, f, page, limit, origin) == Ok(p)
    ensures forall i, j :: 0 <= i < j < |p.books| ==> p.books[i].createdAt >= p.books[j].createdAt
  {
    var sorted := OrderByDesc(Matching(books, f), CreatedAt);
    var offset := Offset(page, limit);
    ListBooksSlices(books, f, page, limit, origin, p);
    forall i, j | 0 <= i < j < |p.books| ensures p.books[i].createdAt >= p.books[j].createdAt {
      assert CreatedAt(sorted[offset + i]) >= CreatedAt(sorted[offset + j]);
    }
  }

  /** With no filter supplied every book matches, so `total` is the catalogue's size. */
  lemma ListBooksUnfiltered(books: seq<Book>, f: BookFilters, page: int, limit: int, origin: string, p: BookPage)
    requires limit != 0 && NoFilters(f) && ListBooks(books, f, page, limit, origin) == Ok(p)
    ensures p.total == |books|
  {
    forall j | 0 <= j < |books| ensures Qualifies(books[j], f) {
      NoFiltersQualifiesAll(books[j], f);
    }
    WhereAll(books, (b: Book) => Qualifies(b, f));
  }

  // ---------------------------------------------------------------- getBookById

  /** GET /books/:id: the row with that id, its covers as URLs. */
  function GetBookById(books: seq<Book>, id: Option<int>, origin: string): (r: Response<Book>)
    ensures id.None? ==> r == Error(NaNParameter)
    ensures r.NotFound? <==> id.Some? && forall j :: 0 <= j < |books| ==> books[j].id != id.value
    ensures r.NotFound? ==> r.message == "Book not found"
    ensures r.Ok? ==> exists j :: 0 <= j < |books| && Some(books[j].id) == id && r.value == TransformBook(origin, books[j])
  {
    match id
    case None => Error(NaNParameter)
    case Some(n) =>
      match FindBook(books, n)
      case None => NotFound("Book not found")
      case Some(j) => Ok(TransformBook(origin, books[j]))
  }

  // ---------------------------------------------------------------- createBook

  /** The INSERT of a book row numbered `id`; the unique index on bookCode refuses
      a code another row holds. */
  function InsertBook(books: seq<Book>, id: int, data: BookData, now: int): (r: Response<Book>)
    ensures r.Ok? || r.Error?
  {
    if CodeTaken(books, data.bookCode, -1) then Error(DuplicateBookCode)
    else Ok(Book(id, data, now, now))
  }

  /** An insert keeps every key and the codes unique; the id is spent either way. */
  lemma InsertBookWellFormed(t: Tables, s: Serials, data: BookData, now: int)
    requires WellFormed(t, s)
    ensures WellFormed(t, s.(book := s.book + 1))
    ensures InsertBook(t.books, s.book, data, now).Ok? ==>
      WellFormed(t.(books := t.books + [InsertBook(t.books, s.book, data, now).value]), s.(book := s.book + 1))
    ensures InsertBook(t.books, s.book, data, now).Ok? <==> !CodeTaken(t.books, data.bookCode, -1)
  {
    WellFormedRaise(t, s, s.(book := s.book + 1));
    if !CodeTaken(t.books, data.bookCode, -1) {
      KeyedAppend(t.books, BookKey, s.book, Book(s.book, data, now, now));
    }
  }

  /** The INSERT itself, for columns already read from the request. */
  method InsertBookRow(db: Store, data: BookData, origin: string, now: int) returns (r: Response<Book>)
    requires db.Valid()
    modifies db
    ensures db.Valid()
    ensures db.serials == old(db.serials).(book := old(db.serials.book) + 1)
    ensures var ins := InsertBook(old(db.books), old(db.serials.book), data, now);
      if ins.Ok? then db.Snapshot() == old(db.Snapshot()).(books := old(db.books) + [ins.value])
                      && r == Ok(TransformBook(origin, ins.value))
      else db.Snapshot() == old(db.Snapshot()) && r == ins
  {
    InsertBookWellFormed(db.Snapshot(), db.serials, data, now);
    var ins := InsertBook(db.books, db.serials.book, data, now);
    db.serials := db.serials.(book := db.serials.book + 1);
    if ins.Ok? {
      db.books := db.books + [ins.value];
      r := Ok(TransformBook(origin, ins.value));
    } else {
      r := ins;
    }
  }

  /** POST /books: one row from the body and the uploaded covers, answered with
      covers as URLs. A refused insert changes no table but spends the id. */
  method CreateBook(db: Store, body: Body, front: Option<string>, back: Option<string>, origin: string, now: int)
    returns (r: Response<Book>)
    requires db.Valid()
    modifies db
    ensures db.Valid()
    ensures db.serials == old(db.serials).(book := old(db.serials.book) + 1)
    ensures var ins := InsertBook(old(db.books), old(db.serials.book), BookColumns(body, Uploaded(front), Uploaded(back)), now);
      if ins.Ok? then db.Snapshot() == old(db.Snapshot()).(books := old(db.books) + [ins.value])
                      && r == Ok(TransformBook(origin, ins.value))
      else db.Snapshot() == old(db.Snapshot()) && r == ins
  {
    var data := BookColumns(body, Uploaded(front), Uploaded(back));
    r := InsertBookRow(db, data, origin, now);
  }

  // ---------------------------------------------------------------- updateBook

  datatype BookEdit = BookEdit(books: seq<Book>, book: Book)

  /** updateBook with the body already read into `edit` (covers aside) and the
      route id parsed (None for NaN): an uploaded cover replaces the stored
      filename, a side without an upload keeps it. */
  function EditBook(books: seq<Book>, id: Option<int>, edit: BookData, front: Option<string>, back: Option<string>, now: int)
    : Response<BookEdit>
  {
    match id
    case None => Error(NaNParameter)
    case Some(n) =>
      match FindBook(books, n)
      case None => NotFound("Book not found")
      case Some(k) =>
        var stored := books[k];
        var data := edit.(frontImage := if front.Some? then front else stored.data.frontImage,
                          backImage := if back.Some? then back else stored.data.backImage);
        if CodeTaken(books, data.bookCode, k) then Error(DuplicateBookCode)
        else
          var b := Book(n, data, stored.createdAt, now);
          Ok(BookEdit(books[k := b], b))
  }

  /** PUT /books/:id */
  function UpdateBook(books: seq<Book>, id: Option<int>, body: Body, front: Option<string>, back: Option<string>, now: int)
    : Response<BookEdit>
  {
    EditBook(books, id, BookColumns(body, None, None), front, back, now)
  }

  /** A NaN id or a code another book holds is a 500, an id no book has a 404. */
  lemma EditBookOutcome(books: seq<Book>, id: Option<int>, edit: BookData, front: Option<string>, back: Option<string>, now: int)
    ensures !EditBook(books, id, edit, front, back, now).BadRequest?
    ensures EditBook(books, id, edit, front, back, now).NotFound?
            <==> id.Some? && forall k :: 0 <= k < |books| ==> books[k].id != id.value
    ensures EditBook(books, id, edit, front, back, now).Error?
            <==> id.None? || (FindBook(books, id.value).Some? && CodeTaken(books, edit.bookCode, FindBook(books, id.value).value))
  {
  }

  /** A successful edit rewrites the one row with that id: every column from the
      body, each cover from its upload or else as stored, createdAt kept. */
  lemma EditBookWrites(books: seq<Book>, id: Option<int>, edit: BookData, front: Option<string>, back: Option<string>, now: int, c: BookEdit)
    requires EditBook(books, id, edit, front, back, now) == Ok(c)
    ensures id == Some(c.book.id) && c.book.updatedAt == now
    ensures exists k :: 0 <= k < |books| && books[k].id == c.book.id && c.books == books[k := c.book]
              && c.book.createdAt == books[k].createdAt
              && c.book.data.frontImage == (if front.Some? then front else books[k].data.frontImage)
              && c.book.data.backImage == (if back.Some? then back else books[k].data.backImage)
    ensures c.book.data.(frontImage := edit.frontImage, backImage := edit.backImage) == edit
  {
    var k := FindBook(books, id.value).value;
    assert c.books == books[k := c.book];
  }

  lemma EditBookWellFormed(t: Tables, s: Serials, id: Option<int>, edit: BookData, front: Option<string>, back: Option<string>, now: int, c: BookEdit)
    requires WellFormed(t, s) && EditBook(t.books, id, edit, front, back, now) == Ok(c)
    ensures WellFormed(t.(books := c.books), s)
  {
    var k := FindBook(t.books, id.value).value;
    KeyedReplace(t.books, BookKey, s.book, k, c.book);
    assert c.books == t.books[k := c.book];
  }

  /** The lookup and UPDATE, for columns already read from the body. */
  method EditBookRow(db: Store, id: Option<int>, edit: BookData, front: Option<string>, back: Option<string>, origin: string, now: int)
    returns (r: Response<Book>)
    requires db.Valid()
    modifies db
    ensures db.Valid() && db.serials == old(db.serials)
    ensures var e := EditBook(old(db.books), id, edit, front, back, now);
      if e.Ok? then db.Snapshot() == old(db.Snapshot()).(books := e.value.books) && r == Ok(TransformBook(origin, e.value.book))
      else db.Snapshot() == old(db.Snapshot()) && r == Failed(e)
  {
    var e := EditBook(db.books, id, edit, front, back, now);
    if e.Ok? {
      EditBookWellFormed(db.Snapshot(), db.serials, id, edit, front, back, now, e.value);
      db.books := e.value.books;
      r := Ok(TransformBook(origin, e.value.book));
    } else {
      r := Failed(e);
    }
  }

  /** PUT /books/:id on the store. */
  method UpdateBookRow(db: Store, id: Option<int>, body: Body, front: Option<string>, back: Option<string>, origin: string, now: int)
    returns (r: Response<Book>)
    requires db.Valid()
    modifies db
    ensures db.Valid() && db.serials == old(db.serials)
    ensures var e := UpdateBook(old(db.books), id, body, front, back, now);
      if e.Ok? then db.Snapshot() == old(db.Snapshot()).(books := e.value.books) && r == Ok(TransformBook(origin, e.value.book))
      else db.Snapshot() == old(db.Snapshot()) && r == Failed(e)
  {
    var edit := BookColumns(body, None, None);
    r := EditBookRow(db, id, edit, front, back, origin, now);
  }

  // ---------------------------------------------------------------- deleteBook

  /** deleteBook: the row with that id goes; a NaN id is a 500, an unknown one a 404. */
  function RemoveBook(books: seq<Book>, id: Option<int>): Response<seq<Book>> {
    match id
    case None => Error(NaNParameter)
    case Some(n) =>
      if FindBook(books, n).None? then NotFound("Book not found")
      else Ok(Where(books, (b: Book) => b.id != n))
  }

  /** Exactly the row with that id is removed, one row fewer. */
  lemma RemoveBookExact(t: Tables, s: Serials, id: Option<int>, rest: seq<Book>)
    requires WellFormed(t, s) && RemoveBook(t.books, id) == Ok(rest)
    ensures forall b :: b in rest <==> b in t.books && Some(b.id) != id
    ensures |rest| == |t.books| - 1
    ensures WellFormed(t.(books := rest), s)
  {
    var n := id.value;
    var k := FindBook(t.books, n).value;
    forall j | 0 <= j < |t.books| && j != k ensures t.books[j].id != n {
      assert BookKey(t.books[j]) != BookKey(t.books[k]);
    }
    WhereDropsOne(t.books, (b: Book) => b.id != n, k);
    KeyedWhere(t.books, BookKey, s.book, (b: Book) => b.id != n);
    UniqueCodesWhere(t.books, (b: Book) => b.id != n);
  }

  method DeleteBook(db: Store, id: Option<int>) returns (r: Response<string>)
    requires db.Valid()
    modifies db
    ensures db.Valid() && db.serials == old(db.serials)
    ensures var e := RemoveBook(old(db.books), id);
      if e.Ok? then db.Snapshot() == old(db.Snapshot()).(books := e.value) && r == Ok("Book deleted successfully")
      else db.Snapshot() == old(db.Snapshot()) && r == Failed(e)
  {
    var e := RemoveBook(db.books, id);
    if e.Ok? {
      RemoveBookExact(db.Snapshot(), db.serials, id, e.value);
      db.books := e.value;
      r := Ok("Book deleted successfully");
    } else {
      r := Failed(e);
    }
  }

  // ---------------------------------------------------------------- deleteBooks

  /** `.filter(id => !isNaN(id))` */
  function Present(parsed: seq<Option<int>>): (r: seq<int>)
    ensures |r| <= |parsed|
    ensures forall n :: n in r <==> Some(n) in parsed
    ensures r == [] <==> forall i :: 0 <= i < |parsed| ==> parsed[i].None?
  {
    if parsed == [] then []
    else (if parsed[0].Some? then [parsed[0].value] else []) + Present(parsed[1..])
  }

  datatype BooksDeleted = BooksDeleted(books: seq<Book>, message: string, deletedCount: nat)

  /** The SELECT and DELETE `WHERE id = ANY(ids)`: a 404 when nothing matches. */
  function DeleteListed(books: seq<Book>, ids: seq<int>): Response<BooksDeleted> {
    var found := Where(books, (b: Book) => b.id in ids);
    if found == [] then NotFound("No books found for the given IDs")
    else Ok(BooksDeleted(Where(books, (b: Book) => b.id !in ids),
                         NatToString(|found|) + " book(s) deleted successfully", |found|))
  }

  /** DELETE /books/bulk-delete with body field `ids`. */
  function DeleteBooksOf(books: seq<Book>, ids: Value): Response<BooksDeleted> {
    if !ids.List? || |ids.items| == 0 then BadRequest("Please provide an array of book IDs")
    else
      var parsed := Present(ParseEach(ids.items));
      if parsed == [] then BadRequest("No valid integer IDs provided")
      else DeleteListed(books, parsed)
  }

  /** A 400 exactly when `ids` is not a non-empty array or none of its entries
      parses; the parsed entries are what gets deleted otherwise. */
  lemma DeleteBooksRejects(books: seq<Book>, ids: Value)
    ensures DeleteBooksOf(books, ids).BadRequest? <==>
      !ids.List? || |ids.items| == 0 || forall i :: 0 <= i < |ids.items| ==> JsParseInt(ids.items[i]).None?
    ensures !DeleteBooksOf(books, ids).BadRequest? ==>
      DeleteBooksOf(books, ids) == DeleteListed(books, Present(ParseEach(ids.items)))
  {
    if ids.List? && |ids.items| > 0 {
      var present := Present(ParseEach(ids.items));
      NoneParsedIffAllNaN(ids.items);
      assert DeleteBooksOf(books, ids)
             == if present == [] then BadRequest("No valid integer IDs provided") else DeleteListed(books, present);
      assert !DeleteListed(books, present).BadRequest?;
    }
  }

  /** The NaN filter leaves nothing exactly when no entry parses. */
  lemma NoneParsedIffAllNaN(items: seq<Value>)
    ensures Present(ParseEach(items)) == [] <==> forall i :: 0 <= i < |items| ==> JsParseInt(items[i]).None?
  {
    var parsed := ParseEach(items);
    assert (forall i :: 0 <= i < |parsed| ==> parsed[i].None?)
           <==> (forall i :: 0 <= i < |items| ==> JsParseInt(items[i]).None?);
  }

  /** The matched and the unmatched rows make up the table. */
  lemma {:induction false} SplitListed(books: seq<Book>, ids: seq<int>)
    ensures |Where(books, (b: Book) => b.id in ids)| + |Where(books, (b: Book) => b.id !in ids)| == |books|
  {
    if books != [] {
      SplitListed(books[1..], ids);
    }
  }

  /** The rows whose id is listed go and the others stay; deletedCount is how
      many went, at least one. */
  lemma DeleteListedExact(t: Tables, s: Serials, ids: seq<int>, c: BooksDeleted)
    requires WellFormed(t, s) && DeleteListed(t.books, ids) == Ok(c)
    ensures forall b :: b in c.books <==> b in t.books && b.id !in ids
    ensures c.deletedCount == |Where(t.books, (b: Book) => b.id in ids)| == |t.books| - |c.books| > 0
    ensures WellFormed(t.(books := c.books), s)
  {
    SplitListed(t.books, ids);
    KeyedWhere(t.books, BookKey, s.book, (b: Book) => b.id !in ids);
    UniqueCodesWhere(t.books, (b: Book) => b.id !in ids);
  }

  /** The SELECT and the DELETE for ids that parsed. */
  method DeleteListedRows(db: Store, ids: seq<int>) returns (r: Response<BooksDeleted>)
    requires db.Valid()
    modifies db
    ensures db.Valid() && db.serials == old(db.serials)
    ensures r == DeleteListed(old(db.books), ids)
    ensures if r.Ok? then db.Snapshot() == old(db.Snapshot()).(books := r.value.books)
            else db.Snapshot() == old(db.Snapshot())
  {
    r := DeleteListed(db.books, ids);
    if r.Ok? {
      DeleteListedExact(db.Snapshot(), db.serials, ids, r.value);
      db.books := r.value.books;
    }
  }

  method DeleteBooks(db: Store, ids: Value) returns (r: Response<BooksDeleted>)
    requires db.Valid()
    modifies db
    ensures db.Valid() && db.serials == old(db.serials)
    ensures r == DeleteBooksOf(old(db.books), ids)
    ensures if r.Ok? then db.Snapshot() == old(db.Snapshot()).(books := r.value.books)
            else db.Snapshot() == old(db.Snapshot())
  {
    if !ids.List? || |ids.items| == 0 {
      return BadRequest("Please provide an array of book IDs");
    }
    var parsed := Present(ParseEach(ids.items));
    if parsed == [] {
      return BadRequest("No valid integer IDs provided");
    }
    r := DeleteListedRows(db, parsed);
  }

  // ---------------------------------------------------------------- createMultipleBooks: form keys

  /** The multipart field name of entry `field` of the `index`-th book. */
  function FormKey(index: nat, field: string): string {
    "books[" + NatToString(index) + "][" + field + "]"
  }

  predicate NoLineTerminator(s: string) {
    forall i :: 0 <= i < |s| ==> !IsLineTerminator(s[i])
  }

  /** `key.match(/^books\[(\d+)\]\[(.+)\]$/)`, giving `parseInt` of the digits and the
      field; `.` does not match a line terminator and `(.+)` is greedy, so the field
      runs to the final `]`. */
  function MatchBookKey(key: string): Option<(nat, string)> {
    if |key| < 6 || key[..6] != "books[" then None
    else
      var d := DigitRun(key[6..], false);
      var rest := key[6 + |d|..];
      if d == [] || |rest| < 4 || rest[..2] != "][" || rest[|rest| - 1] != ']' then None
      else
        var field := rest[2..|rest| - 1];
        if NoLineTerminator(field) then Some((DigitsValue(d, false), field)) else None
  }

  /** Every key built by FormKey matches, giving back its index and field. */
  lemma MatchFormKey(index: nat, field: string)
    requires field != [] && NoLineTerminator(field)
    ensures MatchBookKey(FormKey(index, field)) == Some((index, field))
  {
    var d := NatToString(index);
    var rest := "][" + field + "]";
    var key := FormKey(index, field);
    assert key[..6] == "books[" && key[6..] == d + rest && key[6 + |d|..] == rest by {
      assert key == "books[" + (d + rest);
    }
    assert DigitRun(key[6..], false) == d by {
      DigitRunOfDigits(d, rest, false);
    }
    assert |rest| >= 4 && rest[..2] == "][" && rest[|rest| - 1] == ']' && rest[2..|rest| - 1] == field;
    MatchBookKeyOf(key, d, rest);
  }

  lemma MatchBookKeyOf(key: string, d: string, rest: string)
    requires |key| >= 6 && key[..6] == "books[" && DigitRun(key[6..], false) == d && d != []
    requires key[6 + |d|..] == rest && |rest| >= 4 && rest[..2] == "][" && rest[|rest| - 1] == ']'
    requires NoLineTerminator(rest[2..|rest| - 1])
    ensures MatchBookKey(key) == Some((DigitsValue(d, false), rest[2..|rest| - 1]))
  {
  }

  /** A key matches only when it is `books[<digits>][<field>]` with a non-empty field
      free of line terminators, and the index is the digits' value. */
  lemma MatchBookKeySound(key: string, index: nat, field: string)
    requires MatchBookKey(key) == Some((index, field))
    ensures field != [] && NoLineTerminator(field)
    ensures exists d: string :: (|d| > 0 && (forall i :: 0 <= i < |d| ==> IsDecimalDigit(d[i]))
      && DigitsValue(d, false) == index && key == "books[" + d + "][" + field + "]")
  {
    var d := DigitRun(key[6..], false);
    var rest := key[6 + |d|..];
    assert key == key[..6] + d + rest;
    assert rest == rest[..2] + rest[2..|rest| - 1] + [rest[|rest| - 1]];
  }

  /** The `booksMap` that the loop over the body's keys builds: a later field with
      the same index and name overwrites an earlier one. */
  function Grouped(fields: seq<(string, Value)>): map<nat, Body> {
    if fields == [] then map[]
    else
      var m := Grouped(fields[..|fields| - 1]);
      var last := fields[|fields| - 1];
      match MatchBookKey(last.0)
      case None => m
      case Some((n, f)) => m[n := (if n in m then m[n] else map[])[f := last.1]]
  }

  /** A book index and field appear in the map exactly when some key names them,
      with the value of the last such key. */
  lemma {:induction false} GroupedIndexes(fields: seq<(string, Value)>, n: nat)
    ensures n in Grouped(fields) <==>
      exists i, g :: 0 <= i < |fields| && MatchBookKey(fields[i].0) == Some((n, g))
  {
    if fields != [] {
      var init := fields[..|fields| - 1];
      GroupedIndexes(init, n);
      assert forall i :: 0 <= i < |init| ==> init[i] == fields[i];
    }
  }

  lemma {:induction false} GroupedFields(fields: seq<(string, Value)>, n: nat, f: string)
    ensures (n in Grouped(fields) && f in Grouped(fields)[n]) <==>
      exists i :: 0 <= i < |fields| && MatchBookKey(fields[i].0) == Some((n, f))
  {
    if fields != [] {
      var init := fields[..|fields| - 1];
      GroupedFields(init, n, f);
      assert forall i :: 0 <= i < |init| ==> init[i] == fields[i];
    }
  }

  lemma {:induction false} GroupedLastWins(fields: seq<(string, Value)>, n: nat, f: string, i: nat)
    requires i < |fields| && MatchBookKey(fields[i].0) == Some((n, f))
    requires forall j :: i < j < |fields| ==> MatchBookKey(fields[j].0) != Some((n, f))
    ensures n in Grouped(fields) && f in Grouped(fields)[n] && Grouped(fields)[n][f] == fields[i].1
  {
    var init := fields[..|fields| - 1];
    if i < |init| {
      assert forall j :: i < j < |init| ==> init[j] == fields[j];
      GroupedLastWins(init, n, f, i);
    }
  }

  predicate StrictlyAscending(s: seq<nat>) {
    forall i, j :: 0 <= i < j < |s| ==> s[i] < s[j]
  }

  /** Inserting a new index into an ascending list keeps it ascending. */
  function InsertIndex(keys: seq<nat>, n: nat): (r: seq<nat>)
    requires StrictlyAscending(keys) && n !in keys
    ensures StrictlyAscending(r) && |r| == |keys| + 1
    ensures forall k :: k in r <==> k in keys || k == n
  {
    if keys == [] || n < keys[0] then [n] + keys
    else
      var rest := InsertIndex(keys[1..], n);
      assert forall k :: k in rest ==> keys[0] < k;
      var r := [keys[0]] + rest;
      assert StrictlyAscending(r) by {
        forall i, j | 0 <= i < j < |r| ensures r[i] < r[j] {
          assert r[j] == rest[j - 1];
          if i > 0 {
            assert r[i] == rest[i - 1];
          } else {
            assert r[j] in rest;
          }
        }
      }
      assert forall k :: k in r <==> k in keys || k == n by {
        assert keys == [keys[0]] + keys[1..];
      }
      r
  }

  /** `Object.keys(booksMap).sort((a, b) => parseInt(a) - parseInt(b))`: the book
      indexes in ascending order, each once. */
  function Indexes(fields: seq<(string, Value)>): (r: seq<nat>)
    ensures StrictlyAscending(r)
    ensures forall n :: n in r <==> n in Grouped(fields)
  {
    if fields == [] then []
    else
      var r := Indexes(fields[..|fields| - 1]);
      match MatchBookKey(fields[|fields| - 1].0)
      case None => r
      case Some((n, _)) => if n in r then r else InsertIndex(r, n)
  }

  /** The books of a form body, in the order of their indexes. */
  function FormBooks(fields: seq<(string, Value)>): (r: seq<Body>)
    ensures |r| == |Indexes(fields)|
  {
    var keys := Indexes(fields);
    seq(|keys|, j requires 0 <= j < |keys| => Grouped(fields)[keys[j]])
  }

  /** Book j of a form body is the group of the j-th smallest index that some key names. */
  lemma FormBooksOrdered(fields: seq<(string, Value)>, j: nat, f: string)
    requires j < |FormBooks(fields)|
    ensures forall k :: 0 <= k < j ==> Indexes(fields)[k] < Indexes(fields)[j]
    ensures f in FormBooks(fields)[j] <==>
      exists i :: 0 <= i < |fields| && MatchBookKey(fields[i].0) == Some((Indexes(fields)[j], f))
  {
    GroupedFields(fields, Indexes(fields)[j], f);
  }

  /** A body whose keys never match gives no books. */
  lemma FormBooksEmpty(fields: seq<(string, Value)>)
    ensures FormBooks(fields) == [] <==>
      forall i :: 0 <= i < |fields| ==> MatchBookKey(fields[i].0).None?
  {
    if FormBooks(fields) != [] {
      var n := Indexes(fields)[0];
      GroupedIndexes(fields, n);
    } else {
      forall i | 0 <= i < |fields| ensures MatchBookKey(fields[i].0).None? {
        if MatchBookKey(fields[i].0).Some? {
          var (n, g) := MatchBookKey(fields[i].0).value;
          GroupedIndexes(fields, n);
        }
      }
    }
  }

  /** The loop over the body's keys, then the numeric sort of the indexes. */
  method CollectFormBooks(fields: seq<(string, Value)>) returns (books: seq<Body>)
    ensures books == FormBooks(fields)
  {
    var groups: map<nat, Body> := map[];
    var keys: seq<nat> := [];
    var i := 0;
    while i < |fields|
      invariant 0 <= i <= |fields|
      invariant groups == Grouped(fields[..i]) && keys == Indexes(fields[..i])
    {
      assert fields[..i + 1][..i] == fields[..i];
      var hit := MatchBookKey(fields[i].0);
      if hit.Some? {
        var (n, f) := hit.value;
        if n !in groups {
          keys := InsertIndex(keys, n);
          groups := groups[n := map[]];
        }
        groups := groups[n := groups[n][f := fields[i].1]];
      }
      i := i + 1;
    }
    assert fields[..i] == fields;
    books := seq(|keys|, j requires 0 <= j < |keys| => groups[keys[j]]);
  }

  // ---------------------------------------------------------------- createMultipleBooks: inserting

  /** An entry of `req.files` as `upload.any()` leaves it. */
  datatype Upload = Upload(fieldname: string, originalname: string)

  /** `getFilename(index, key)`: the original name of the first file uploaded
      under FormKey(index, key), or null. */
  function FileFor(files: seq<Upload>, index: nat, key: string): (r: Option<string>)
    ensures r.None? <==> forall k :: 0 <= k < |files| ==> files[k].fieldname != FormKey(index, key)
    ensures r.Some? ==> exists k :: (0 <= k < |files| && files[k].fieldname == FormKey(index, key)
      && files[k].originalname == r.value
      && forall j :: 0 <= j < k ==> files[j].fieldname != FormKey(index, key))
  {
    if files == [] then None
    else if files[0].fieldname == FormKey(index, key) then Some(files[0].originalname)
    else
      var r := FileFor(files[1..], index, key);
      assert forall k :: 1 <= k < |files| ==> files[k] == files[1..][k - 1];
      r
  }

  const MissingTitleOrCode := "Missing title or bookCode"

  /** `if (!title || !bookCode)` skips the item. */
  predicate Complete(item: Body) {
    Truthy(Field(item, "title")) && Truthy(Field(item, "bookCode"))
  }

  /** The columns of the i-th item: those of createBook, except that a book code
      that does not parse is stored as 0 (`parseIntSafe(bookCode) || 0`) and the
      covers are the files uploaded for position i. */
  function ItemData(item: Body, files: seq<Upload>, i: nat): (d: BookData)
    ensures d.bookCode.Some?
    ensures d.frontImage == FileFor(files, i, "frontImage") && d.backImage == FileFor(files, i, "backImage")
  {
    BookColumns(item, FileFor(files, i, "frontImage"), FileFor(files, i, "backImage"))
      .(bookCode := Some(ParseIntSafe(Field(item, "bookCode")).GetOr(0)))
  }

  datatype ItemError = ItemError(index: nat, error: string)

  /** What the loop over the items has done so far: the Book table, its id
      sequence, the rows it inserted and the errors it collected. */
  datatype BulkRun = BulkRun(books: seq<Book>, serial: int, created: seq<Book>, errors: seq<ItemError>)

  /** An item as the loop sees it: whether it has a title and a book code, and
      the columns it would be inserted with. */
  datatype Item = Item(complete: bool, data: BookData)

  function Prepared(items: seq<Body>, files: seq<Upload>): (r: seq<Item>)
    ensures |r| == |items|
    ensures forall i :: 0 <= i < |items| ==> r[i] == Item(Complete(items[i]), ItemData(items[i], files, i))
  {
    seq(|items|, i requires 0 <= i < |items| => Item(Complete(items[i]), ItemData(items[i], files, i)))
  }

  /** One iteration: an incomplete item is reported; otherwise an INSERT is tried,
      which spends an id whether or not it succeeds. */
  function BulkStep(run: BulkRun, item: Item, i: nat, now: int): BulkRun {
    if !item.complete then run.(errors := run.errors + [ItemError(i, MissingTitleOrCode)])
    else
      var ins := InsertBook(run.books, run.serial, item.data, now);
      if ins.Ok? then BulkRun(run.books + [ins.value], run.serial + 1, run.created + [ins.value], run.errors)
      else run.(serial := run.serial + 1, errors := run.errors + [ItemError(i, ins.message)])
  }

  /** The first n iterations, starting from the table `books` and the id `serial`. */
  function BulkRunOf(books: seq<Book>, serial: int, items: seq<Item>, now: int, n: nat): BulkRun
    requires n <= |items|
  {
    if n == 0 then BulkRun(books, serial, [], [])
    else BulkStep(BulkRunOf(books, serial, items, now, n - 1), items[n - 1], n - 1, now)
  }

  /** How many of the first n items get as far as the INSERT. */
  function Attempted(items: seq<Item>, n: nat): (c: nat)
    requires n <= |items|
    ensures c <= n
  {
    if n == 0 then 0 else Attempted(items, n - 1) + (if items[n - 1].complete then 1 else 0)
  }

  /** Every item ends up either created or in the error list, the new rows go to
      the end of the table, and one id is spent per attempted insert. */
  lemma {:induction false} BulkAccounting(books: seq<Book>, serial: int, items: seq<Item>, now: int, n: nat)
    requires n <= |items|
    ensures var run := BulkRunOf(books, serial, items, now, n);
      |run.created| + |run.errors| == n
      && run.books == books + run.created
      && run.serial == serial + Attempted(items, n)
  {
    if n > 0 {
      BulkAccounting(books, serial, items, now, n - 1);
    }
  }

  predicate AscendingIndexes(errors: seq<ItemError>) {
    forall k, l :: 0 <= k < l < |errors| ==> errors[k].index < errors[l].index
  }

  /** The errors are listed once per failing item, in item order. */
  lemma {:induction false} BulkErrorsOrdered(books: seq<Book>, serial: int, items: seq<Item>, now: int, n: nat)
    requires n <= |items|
    ensures var run := BulkRunOf(books, serial, items, now, n);
      AscendingIndexes(run.errors) && forall k :: 0 <= k < |run.errors| ==> run.errors[k].index < n
  {
    if n > 0 {
      BulkErrorsOrdered(books, serial, items, now, n - 1);
    }
  }

  /** Every item lacking a title or a book code is reported as such. */
  lemma {:induction false} BulkReportsIncomplete(books: seq<Book>, serial: int, items: seq<Item>, now: int, n: nat)
    requires n <= |items|
    ensures forall i :: 0 <= i < n && !items[i].complete ==>
      ItemError(i, MissingTitleOrCode) in BulkRunOf(books, serial, items, now, n).errors
  {
    if n > 0 {
      BulkReportsIncomplete(books, serial, items, now, n - 1);
    }
  }

  /** Every row of `created` holds the columns of one of the first n items that are complete. */
  ghost predicate FromCompleteItems(created: seq<Book>, items: seq<Item>, n: nat)
    requires n <= |items|
  {
    forall k :: 0 <= k < |created| ==>
      exists i :: 0 <= i < n && items[i].complete && created[k].data == items[i].data
  }

  /** Every inserted row holds the columns of a complete item. */
  lemma {:induction false} BulkCreatedFromItems(books: seq<Book>, serial: int, items: seq<Item>, now: int, n: nat)
    requires n <= |items|
    ensures FromCompleteItems(BulkRunOf(books, serial, items, now, n).created, items, n)
  {
    if n > 0 {
      BulkCreatedFromItems(books, serial, items, now, n - 1);
      var prev := BulkRunOf(books, serial, items, now, n - 1).created;
      var created := BulkRunOf(books, serial, items, now, n).created;
      assert created == prev || (items[n - 1].complete && |created| == |prev| + 1
        && created[..|prev|] == prev && created[|prev|].data == items[n - 1].data);
      forall k | 0 <= k < |created|
        ensures exists i :: 0 <= i < n && items[i].complete && created[k].data == items[i].data
      {
        if k < |prev| {
          assert created[k] == prev[k];
        }
      }
    }
  }

  /** The 201 body. */
  datatype BulkReply = BulkReply(message: string, count: nat, totalProcessed: nat, failed: nat,
                                 createdBooks: seq<Book>, errors: Option<seq<ItemError>>)

  function BulkReplyOf(run: BulkRun, total: nat, origin: string): (r: BulkReply)
    ensures r.errors.None? <==> run.errors == []
  {
    BulkReply(NatToString(|run.created|) + " books created successfully", |run.created|, total,
              |run.errors|, Transformed(origin, run.created), if |run.errors| > 0 then Some(run.errors) else None)
  }

  /** The loop of createMultipleBooks over its items. */
  method InsertItems(db: Store, items: seq<Item>, origin: string, now: int) returns (reply: BulkReply)
    requires db.Valid()
    modifies db
    ensures db.Valid()
    ensures var run := BulkRunOf(old(db.books), old(db.serials.book), items, now, |items|);
      db.Snapshot() == old(db.Snapshot()).(books := run.books)
      && db.serials == old(db.serials).(book := run.serial)
      && reply == BulkReplyOf(run, |items|, origin)
  {
    var createdBooks: seq<Book> := [];
    var errors: seq<ItemError> := [];
    var i := 0;
    while i < |items|
      invariant 0 <= i <= |items| && db.Valid()
      invariant var run := BulkRunOf(old(db.books), old(db.serials.book), items, now, i);
        db.Snapshot() == old(db.Snapshot()).(books := run.books)
        && db.serials == old(db.serials).(book := run.serial)
        && createdBooks == Transformed(origin, run.created) && errors == run.errors
    {
      ghost var run := BulkRunOf(old(db.books), old(db.serials.book), items, now, i);
      if !items[i].complete {
        errors := errors + [ItemError(i, MissingTitleOrCode)];
      } else {
        var r := InsertBookRow(db, items[i].data, origin, now);
        if r.Ok? {
          ghost var row := InsertBook(run.books, run.serial, items[i].data, now).value;
          assert Transformed(origin, run.created + [row]) == createdBooks + [r.value];
          createdBooks := createdBooks + [r.value];
        } else {
          errors := errors + [ItemError(i, r.message)];
        }
      }
      i := i + 1;
    }
    reply := BulkReply(NatToString(|createdBooks|) + " books created successfully", |createdBooks|, |items|,
                       |errors|, createdBooks, if |errors| > 0 then Some(errors) else None);
  }

  /** The request: `req.body.books` when it is an array, and the body's fields in order. */
  datatype BulkBody = BulkBody(books: Option<seq<Body>>, fields: seq<(string, Value)>)

  function BulkItems(req: BulkBody): seq<Body> {
    if req.books.Some? then req.books.value else FormBooks(req.fields)
  }

  const NoBooksGiven := "Data must be an array of books"

  /** POST /books/bulk: a 400 when there are no items; otherwise a 201 listing
      what was created and what failed. */
  method CreateMultipleBooks(db: Store, req: BulkBody, files: seq<Upload>, origin: string, now: int)
    returns (r: Response<BulkReply>)
    requires db.Valid()
    modifies db
    ensures db.Valid()
    ensures BulkItems(req) == [] ==>
      r == BadRequest(NoBooksGiven) && db.Snapshot() == old(db.Snapshot()) && db.serials == old(db.serials)
    ensures BulkItems(req) != [] ==>
      var run := BulkRunOf(old(db.books), old(db.serials.book), Prepared(BulkItems(req), files), now, |BulkItems(req)|);
      db.Snapshot() == old(db.Snapshot()).(books := run.books)
      && db.serials == old(db.serials).(book := run.serial)
      && r == Ok(BulkReplyOf(run, |BulkItems(req)|, origin))
  {
    var items: seq<Body>;
    if req.books.Some? {
      items := req.books.value;
    } else {
      items := CollectFormBooks(req.fields);
    }
    if items == [] {
      return BadRequest(NoBooksGiven);
    }
    var reply := InsertItems(db, Prepared(items, files), origin, now);
    r := Ok(reply);
  }
}
