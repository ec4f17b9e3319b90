/** src/controllers/interest.controller.js: registering interest in a book finds
    the reader by mobile or creates one from the submitted name; the Interest
    table itself does not exist, so the reply is a placeholder. */
module InterestController {
  import opened Js
  import opened Db
  import ReaderController

  datatype Name = Name(firstname: string, lastname: string)

  /** The TypeError `name.trim()` throws for a truthy name that is not a string. */
  const TrimNotAFunction := "name.trim is not a function"

  /** `name ? name.trim().split(' ') : ['Unknown']`, then the first part and the
      rest joined by single spaces. */
  function SplitName(name: Value): Response<Name> {
    if !Truthy(name) then Ok(Name("Unknown", ""))
    else if !name.Str? then Error(TrimNotAFunction)
    else
      var parts := Split(Trim(name.s), ' ');
      Ok(Name(parts[0], if |parts| > 1 then Join(parts[1..], " ") else ""))
  }

  /** A missing, null or empty name is "Unknown" with an empty last name. */
  lemma SplitNameMissing(name: Value)
    requires name == Undefined || name == Null || name == Str("")
    ensures SplitName(name) == Ok(Name("Unknown", ""))
  {
  }

  /** For a present name the first name is its first space-free token, and the
      first name, then a space and the last name when there is one, give back the
      trimmed name exactly. */
  lemma SplitNameRoundTrip(s: string)
    requires s != ""
    ensures SplitName(Str(s)).Ok?
    ensures var n := SplitName(Str(s)).value;
      ' ' !in n.firstname
      && n.firstname + (if n.lastname != "" then " " + n.lastname else "") == Trim(s)
  {
    var t := Trim(s);
    var parts := Split(t, ' ');
    var last := if |parts| > 1 then Join(parts[1..], " ") else "";
    assert Truthy(Str(s));
    assert SplitName(Str(s)) == Ok(Name(parts[0], last));
    FirstAndRest(t, parts);
  }

  /** The first token, then a space and the tokens after it joined when there
      are any, give back a text that does not end in white space. */
  lemma FirstAndRest(t: string, parts: seq<string>)
    requires |parts| >= 1 && Join(parts, " ") == t && (t == [] || !IsWhite(t[|t| - 1]))
    ensures var last := if |parts| > 1 then Join(parts[1..], " ") else "";
      parts[0] + (if last != "" then " " + last else "") == t
  {
    if |parts| > 1 {
      JoinAfterFirst(t, parts);
    }
  }

  /** Joining the tokens after the first gives what follows the first space of a
      text that does not end in white space, and that is never empty. */
  lemma JoinAfterFirst(t: string, parts: seq<string>)
    requires |parts| > 1 && Join(parts, " ") == t && (t == [] || !IsWhite(t[|t| - 1]))
    ensures t == parts[0] + " " + Join(parts[1..], " ") && Join(parts[1..], " ") != ""
  {
    var last := Join(parts[1..], " ");
    assert t[|t| - 1] != ' ';
  }

  /** The body fields createInterest reads. */
  datatype InterestBody = InterestBody(bookId: Value, name: Value, mobile: Value, email: Value, notes: Value)

  datatype InterestReply = InterestReply(message: string, bookId: Option<int>, readerId: int, notes: Value)

  const Placeholder := "Interest table not found in schema. This endpoint may need updating."

  /** The reader the INSERT creates: the split name, the mobile and email sent,
      active, no address, and empty city, state and pincode. */
  function NewReader(name: Name, body: InterestBody): (c: ReaderController.ReaderColumns)
    ensures c.isactive && c.contact.address.None?
    ensures c.contact.city == Some("") && c.contact.state == Some("") && c.contact.pincode == Some("")
    ensures c.mobile == ColumnText(body.mobile)
  {
    ReaderController.ReaderColumns(ColumnText(body.mobile),
      Contact(Some(name.firstname), Some(name.lastname), ColumnText(body.email), None, Some(""), Some(""), Some("")),
      true)
  }

  /** POST /interests: reuse the reader with that mobile untouched, or insert one;
      the reply names that reader and echoes `notes`, with `body.bookId` through
      `parseInt` (NaN reaches the client as null). */
  method CreateInterest(db: Store, body: InterestBody, now: int)
    returns (r: Response<InterestReply>)
    requires db.Valid()
    modifies db
    ensures db.Valid()
    ensures var found := FindReaderByMobile(old(db.readers), ColumnText(body.mobile));
      found.Some? ==>
        db.Snapshot() == old(db.Snapshot()) && db.serials == old(db.serials)
        && r == Ok(InterestReply(Placeholder, JsParseInt(body.bookId), old(db.readers)[found.value].id, body.notes))
    ensures var found := FindReaderByMobile(old(db.readers), ColumnText(body.mobile));
      found.None? && !SplitName(body.name).Ok? ==>
        db.Snapshot() == old(db.Snapshot()) && db.serials == old(db.serials) && r == Failed(SplitName(body.name))
    ensures var found := FindReaderByMobile(old(db.readers), ColumnText(body.mobile));
      found.None? && SplitName(body.name).Ok? ==>
        var c := NewReader(SplitName(body.name).value, body);
        db.Snapshot() == old(db.Snapshot()).(readers := old(db.readers) + [Reader(old(db.serials.reader), c.mobile, c.contact, true, now)])
        && db.serials == old(db.serials).(reader := old(db.serials.reader) + 1)
        && r == Ok(InterestReply(Placeholder, JsParseInt(body.bookId), old(db.serials.reader), body.notes))
  {
    var found := FindReaderByMobile(db.readers, ColumnText(body.mobile));
    var readerId: int;
    if found.None? {
      var name := SplitName(body.name);
      if !name.Ok? {
        return Failed(name);
      }
      var ins := ReaderController.InsertReaderRow(db, NewReader(name.value, body), now);
      readerId := ins.value.id;
    } else {
      readerId := db.readers[found.value].id;
    }
    r := Ok(InterestReply(Placeholder, JsParseInt(body.bookId), readerId, body.notes));
  }

  /** After a reader is created for a non-null mobile, a lookup by that mobile
      finds it, so a second request from the same mobile reuses it. */
  lemma CreatedReaderFoundAgain(readers: seq<Reader>, row: Reader)
    requires FindReaderByMobile(readers, row.mobile).None? && row.mobile.Some?
    ensures FindReaderByMobile(readers + [row], row.mobile) == Some(|readers|)
  {
    var all := readers + [row];
    assert HasMobile(all[|readers|], row.mobile);
    forall j | 0 <= j < |readers| ensures !HasMobile(all[j], row.mobile) {
      assert all[j] == readers[j];
    }
  }
}
