/** The Todo data layer: record validation and the store over the `todo`
    table. The table is a map from id to row, and every SQL statement is one
    atomic step on it. */
module Todos {
  import opened Records
  import opened Validation
  import Filters

  // ---------------------------------------------------------------------
  // ValidateList

  /** A text field that must be present and at most `max` bytes long. */
  function PresentAndBounded(value: Text, key: string, max: nat, tooLong: string): seq<Rule> {
    [Rule(value != [], key, "must be provided"), Rule(|value| <= max, key, tooLong)]
  }

  /** A text field that must be present and well formed. */
  function PresentAndFormatted(value: Text, key: string, wellFormed: bool, malformed: string): seq<Rule> {
    [Rule(value != [], key, "must be provided"), Rule(wellFormed, key, malformed)]
  }

  /** The checks on the seven text fields, in order. */
  function TextRules(f: Fields, fm: Formats): seq<Rule> {
    NameRules(f) + LevelRules(f) + ContactRules(f)
    + PhoneRules(f, fm) + EmailRules(f, fm) + WebsiteRules(f, fm)
    + AddressRules(f)
  }

  function ModeRules(mode: Slice): seq<Rule> {
    [Rule(mode.Of?, "mode", "must be provided"),
     Rule(|mode.Elems()| >= 1, "mode", "must contain at least one todos"),
     Rule(|mode.Elems()| <= 5, "mode", "must contain at most 5 todos"),
     Rule(Unique(mode.Elems()), "mode", "must not contain duplicate todos")]
  }

  /** The checks `ValidateList` makes, in order. They read only the eight
      caller fields, never the id, creation time or version. */
  function ListRules(f: Fields, fm: Formats): seq<Rule> {
    TextRules(f, fm) + ModeRules(f.mode)
  }

  /** A record that passes validation, stated field by field. */
  predicate ListValid(f: Fields, fm: Formats) {
    && 1 <= |f.name| <= 200
    && 1 <= |f.level| <= 200
    && 1 <= |f.contact| <= 200
    && f.phone != [] && fm.phone(f.phone)
    && f.email != [] && fm.email(f.email)
    && f.website != [] && fm.website(f.website)
    && 1 <= |f.address| <= 500
    && ModeValid(f.mode)
  }

  /** `Mode` is non-nil with one to five distinct elements. */
  predicate ModeValid(mode: Slice) {
    mode.Of? && 1 <= |mode.elems| <= 5 && Unique(mode.elems)
  }

  const ListKeys: set<string> := {"name", "level", "contact", "phone", "email", "website", "address", "mode"}

  /** The keys `ListRules` puts an error under when the checks fail. */
  lemma {:induction false} ModeFailures(mode: Slice)
    ensures FailedKeys(ModeRules(mode)) == if ModeValid(mode) then {} else {"mode"}
  {
    var rs := ModeRules(mode);
    if !ModeValid(mode) {
      if mode.Nil? { assert !rs[0].ok; }
      else if |mode.elems| < 1 { assert !rs[1].ok; }
      else if |mode.elems| > 5 { assert !rs[2].ok; }
      else { assert !rs[3].ok; }
    }
  }

  lemma {:induction false} PairFailures(r0: Rule, r1: Rule)
    requires r0.key == r1.key
    ensures FailedKeys([r0, r1]) == if r0.ok && r1.ok then {} else {r0.key}
  {
    if !r0.ok { assert [r0, r1][0] == r0; }
    if !r1.ok { assert [r0, r1][1] == r1; }
  }

  /** The set of keys that get an error, one field at a time. */
  lemma ListFailedKeys(f: Fields, fm: Formats)
    ensures FailedKeys(ListRules(f, fm)) ==
      (if 1 <= |f.name| <= 200 then {} else {"name"})
      + (if 1 <= |f.level| <= 200 then {} else {"level"})
      + (if 1 <= |f.contact| <= 200 then {} else {"contact"})
      + (if f.phone != [] && fm.phone(f.phone) then {} else {"phone"})
      + (if f.email != [] && fm.email(f.email) then {} else {"email"})
      + (if f.website != [] && fm.website(f.website) then {} else {"website"})
      + (if 1 <= |f.address| <= 500 then {} else {"address"})
      + (if ModeValid(f.mode) then {} else {"mode"})
  {
    var g1, g2, g3, g4 := NameRules(f), LevelRules(f), ContactRules(f), PhoneRules(f, fm);
    var g5, g6, g7, g8 := EmailRules(f, fm), WebsiteRules(f, fm), AddressRules(f), ModeRules(f.mode);
    PairFailures(g1[0], g1[1]);
    PairFailures(g2[0], g2[1]);
    PairFailures(g3[0], g3[1]);
    PairFailures(g4[0], g4[1]);
    PairFailures(g5[0], g5[1]);
    PairFailures(g6[0], g6[1]);
    PairFailures(g7[0], g7[1]);
    ModeFailures(f.mode);
    FailedKeysConcat(g1, g2);
    FailedKeysConcat(g1 + g2, g3);
    FailedKeysConcat(g1 + g2 + g3, g4);
    FailedKeysConcat(g1 + g2 + g3 + g4, g5);
    FailedKeysConcat(g1 + g2 + g3 + g4 + g5, g6);
    FailedKeysConcat(g1 + g2 + g3 + g4 + g5 + g6, g7);
    FailedKeysConcat(g1 + g2 + g3 + g4 + g5 + g6 + g7, g8);
    assert ListRules(f, fm) == g1 + g2 + g3 + g4 + g5 + g6 + g7 + g8;
  }

  /** Each key gets an error exactly when its own conditions fail. */
  lemma ListFailures(f: Fields, fm: Formats)
    ensures "name" in FailedKeys(ListRules(f, fm)) <==> !(1 <= |f.name| <= 200)
    ensures "level" in FailedKeys(ListRules(f, fm)) <==> !(1 <= |f.level| <= 200)
    ensures "contact" in FailedKeys(ListRules(f, fm)) <==> !(1 <= |f.contact| <= 200)
    ensures "phone" in FailedKeys(ListRules(f, fm)) <==> f.phone == [] || !fm.phone(f.phone)
    ensures "email" in FailedKeys(ListRules(f, fm)) <==> f.email == [] || !fm.email(f.email)
    ensures "website" in FailedKeys(ListRules(f, fm)) <==> f.website == [] || !fm.website(f.website)
    ensures "address" in FailedKeys(ListRules(f, fm)) <==> !(1 <= |f.address| <= 500)
    ensures "mode" in FailedKeys(ListRules(f, fm)) <==> !ModeValid(f.mode)
  {
    ListFailedKeys(f, fm);
    KeyMembership(FailedKeys(ListRules(f, fm)),
      1 <= |f.name| <= 200, 1 <= |f.level| <= 200, 1 <= |f.contact| <= 200,
      f.phone != [] && fm.phone(f.phone), f.email != [] && fm.email(f.email),
      f.website != [] && fm.website(f.website), 1 <= |f.address| <= 500, ModeValid(f.mode));
  }

  /** Only the eight field keys get errors, and none does exactly when the
      record is valid. */
  lemma ListAccepted(f: Fields, fm: Formats)
    ensures FailedKeys(ListRules(f, fm)) <= ListKeys
    ensures FailedKeys(ListRules(f, fm)) == {} <==> ListValid(f, fm)
  {
    ListFailedKeys(f, fm);
    KeyMembership(FailedKeys(ListRules(f, fm)),
      1 <= |f.name| <= 200, 1 <= |f.level| <= 200, 1 <= |f.contact| <= 200,
      f.phone != [] && fm.phone(f.phone), f.email != [] && fm.email(f.email),
      f.website != [] && fm.website(f.website), 1 <= |f.address| <= 500, ModeValid(f.mode));
  }

  /** Reading the error keys off the per-field outcomes. */
  lemma KeyMembership(s: set<string>, name: bool, level: bool, contact: bool, phone: bool,
                      email: bool, website: bool, address: bool, mode: bool)
    requires s ==
      (if name then {} else {"name"}) + (if level then {} else {"level"})
      + (if contact then {} else {"contact"}) + (if phone then {} else {"phone"})
      + (if email then {} else {"email"}) + (if website then {} else {"website"})
      + (if address then {} else {"address"}) + (if mode then {} else {"mode"})
    ensures "name" in s <==> !name
    ensures "level" in s <==> !level
    ensures "contact" in s <==> !contact
    ensures "phone" in s <==> !phone
    ensures "email" in s <==> !email
    ensures "website" in s <==> !website
    ensures "address" in s <==> !address
    ensures "mode" in s <==> !mode
    ensures s <= ListKeys
    ensures s == {} <==> name && level && contact && phone && email && website && address && mode
  {
    var keys := ["name", "level", "contact", "phone", "email", "website", "address", "mode"];
    assert forall i, j :: 0 <= i < j < |keys| ==> keys[i][0] != keys[j][0];
    if !name { assert "name" in s; }
    if !level { assert "level" in s; }
    if !contact { assert "contact" in s; }
    if !phone { assert "phone" in s; }
    if !email { assert "email" in s; }
    if !website { assert "website" in s; }
    if !address { assert "address" in s; }
    if !mode { assert "mode" in s; }
  }

  function NameRules(f: Fields): seq<Rule> {
    PresentAndBounded(f.name, "name", 200, "must not be more than 200 bytes long")
  }

  function LevelRules(f: Fields): seq<Rule> {
    PresentAndBounded(f.level, "level", 200, "must not be more than 200 bytes long")
  }

  function ContactRules(f: Fields): seq<Rule> {
    PresentAndBounded(f.contact, "contact", 200, "must not be more than 200 bytes long")
  }

  function PhoneRules(f: Fields, fm: Formats): seq<Rule> {
    PresentAndFormatted(f.phone, "phone", fm.phone(f.phone), "must be a valid phone number")
  }

  function EmailRules(f: Fields, fm: Formats): seq<Rule> {
    PresentAndFormatted(f.email, "email", fm.email(f.email), "must be a valid email")
  }

  function WebsiteRules(f: Fields, fm: Formats): seq<Rule> {
    PresentAndFormatted(f.website, "website", fm.website(f.website), "must be a valid url")
  }

  function AddressRules(f: Fields): seq<Rule> {
    PresentAndBounded(f.address, "address", 500, "must not be more than 500 bytes long")
  }

  /** Checking the text fields is checking them one field at a time. */
  lemma TextRulesInGroups(e: map<string, string>, f: Fields, fm: Formats)
    ensures Apply(e, TextRules(f, fm)) ==
      Apply(Apply(Apply(Apply(Apply(Apply(Apply(e,
        NameRules(f)), LevelRules(f)), ContactRules(f)),
        PhoneRules(f, fm)), EmailRules(f, fm)), WebsiteRules(f, fm)), AddressRules(f))
  {
    var g1, g2, g3, g4 := NameRules(f), LevelRules(f), ContactRules(f), PhoneRules(f, fm);
    var g5, g6, g7 := EmailRules(f, fm), WebsiteRules(f, fm), AddressRules(f);
    assert TextRules(f, fm) == g1 + g2 + g3 + g4 + g5 + g6 + g7;
    ApplyConcat(e, g1 + g2 + g3 + g4 + g5 + g6, g7);
    ApplyConcat(e, g1 + g2 + g3 + g4 + g5, g6);
    ApplyConcat(e, g1 + g2 + g3 + g4, g5);
    ApplyConcat(e, g1 + g2 + g3, g4);
    ApplyConcat(e, g1 + g2, g3);
    ApplyConcat(e, g1, g2);
  }

  /** `ValidateList`: records under each key the first failing check's
      message, and keeps the errors already recorded. */
  method ValidateList(v: Validator, todo: Todo, formats: Formats)
    modifies v
    ensures v.errors == Apply(old(v.errors), ListRules(todo.CallerFields(), formats))
  {
    ghost var f := todo.CallerFields();
    ghost var e0 := v.errors;
    ghost var e := v.errors;

    v.Check(todo.name != [], "name", "must be provided");
    v.Check(|todo.name| <= 200, "name", "must not be more than 200 bytes long");
    ApplyPair(e, NameRules(f)[0], NameRules(f)[1]);
    e := v.errors;

    v.Check(todo.level != [], "level", "must be provided");
    v.Check(|todo.level| <= 200, "level", "must not be more than 200 bytes long");
    ApplyPair(e, LevelRules(f)[0], LevelRules(f)[1]);
    e := v.errors;

    v.Check(todo.contact != [], "contact", "must be provided");
    v.Check(|todo.contact| <= 200, "contact", "must not be more than 200 bytes long");
    ApplyPair(e, ContactRules(f)[0], ContactRules(f)[1]);
    e := v.errors;

    v.Check(todo.phone != [], "phone", "must be provided");
    v.Check(formats.phone(todo.phone), "phone", "must be a valid phone number");
    ApplyPair(e, PhoneRules(f, formats)[0], PhoneRules(f, formats)[1]);
    e := v.errors;

    v.Check(todo.email != [], "email", "must be provided");
    v.Check(formats.email(todo.email), "email", "must be a valid email");
    ApplyPair(e, EmailRules(f, formats)[0], EmailRules(f, formats)[1]);
    e := v.errors;

    v.Check(todo.website != [], "website", "must be provided");
    v.Check(formats.website(todo.website), "website", "must be a valid url");
    ApplyPair(e, WebsiteRules(f, formats)[0], WebsiteRules(f, formats)[1]);
    e := v.errors;

    v.Check(todo.address != [], "address", "must be provided");
    v.Check(|todo.address| <= 500, "address", "must not be more than 500 bytes long");
    ApplyPair(e, AddressRules(f)[0], AddressRules(f)[1]);
    TextRulesInGroups(e0, f, formats);
    e := v.errors;

    v.Check(todo.mode.Of?, "mode", "must be provided");
    v.Check(|todo.mode.Elems()| >= 1, "mode", "must contain at least one todos");
    v.Check(|todo.mode.Elems()| <= 5, "mode", "must contain at most 5 todos");
    v.Check(Unique(todo.mode.Elems()), "mode", "must not contain duplicate todos");
    ApplyFour(e, ModeRules(f.mode));
    ApplyConcat(e0, TextRules(f, formats), ModeRules(f.mode));
  }

  /** Validating a record on a fresh validator, as the create handler does,
      leaves the validator valid exactly when the record is valid field by
      field. */
  method ValidateNew(todo: Todo, formats: Formats) returns (ok: bool)
    ensures ok <==> ListValid(todo.CallerFields(), formats)
  {
    var v := new Validator();
    ValidateList(v, todo, formats);
    ok := v.Valid();
    ApplyKeys(map[], ListRules(todo.CallerFields(), formats));
    ListAccepted(todo.CallerFields(), formats);
  }

  // ---------------------------------------------------------------------
  // The statements on the table

  /** The `UPDATE ... WHERE id = $9 AND version = $10 RETURNING version`
      statement: a compare-and-swap on the version. It yields the new table
      and the returned version, or no row. */
  function UpdateRow(table: map<int, Row>, id: int, version: int, f: Fields): (r: Option<(map<int, Row>, int)>)
    ensures r.Some? <==> id in table && table[id].version == version
    ensures r.Some? ==> r.value.1 == version + 1 && r.value.0.Keys == table.Keys
    ensures r.Some? ==> r.value.0[id] == table[id].(fields := f, version := version + 1)
    ensures r.Some? ==> forall k :: k in table && k != id ==> r.value.0[k] == table[k]
  {
    if id in table && table[id].version == version then
      var updated := table[id].(fields := f, version := table[id].version + 1);
      Some((table[id := updated], updated.version))
    else
      None
  }

  /** The `DELETE FROM todo WHERE id = $1` statement: the new table and the
      number of rows affected. */
  function DeleteRow(table: map<int, Row>, id: int): (r: (map<int, Row>, nat))
    ensures r.1 == if id in table then 1 else 0
    ensures r.0.Keys == table.Keys - {id}
    ensures forall k :: k in r.0 ==> r.0[k] == table[k]
  {
    (table - {id}, if id in table then 1 else 0)
  }

  /** Of two updates presenting the same version, the second finds no row;
      the new version is the one to present next. */
  lemma RacingUpdatesOneWins(table: map<int, Row>, id: int, version: int, f1: Fields, f2: Fields)
    requires UpdateRow(table, id, version, f1).Some?
    ensures UpdateRow(UpdateRow(table, id, version, f1).value.0, id, version, f2).None?
    ensures UpdateRow(UpdateRow(table, id, version, f1).value.0, id, version + 1, f2).Some?
  {
  }

  /** Deleting the same id twice affects no row the second time. */
  lemma SecondDeleteAffectsNothing(table: map<int, Row>, id: int)
    ensures DeleteRow(DeleteRow(table, id).0, id).1 == 0
  {
  }

  // ---------------------------------------------------------------------
  // The listing query

  /** The search terms of `GetAll`. */
  datatype Search = Search(name: Text, level: Text, mode: Slice)

  /** The WHERE clause. `textMatch(field, term)` stands for the full-text
      match `to_tsvector('simple', field) @@ plainto_tsquery('simple', term)`;
      `@>` is array containment. A nil mode filter is bound as SQL NULL, so
      both `mode @> NULL` and `NULL = '{}'` are NULL and no row matches. */
  predicate RowMatches(r: Row, s: Search, textMatch: (Text, Text) -> bool) {
    && (textMatch(r.fields.name, s.name) || s.name == [])
    && (textMatch(r.fields.level, s.level) || s.level == [])
    && s.mode.Of?
    && ((forall m :: m in s.mode.elems ==> m in r.fields.mode.Elems()) || s.mode.elems == [])
  }

  /** The matching rows with ids in `lo..hi`, in id order. */
  function Scan(table: map<int, Row>, lo: int, hi: int, s: Search, textMatch: (Text, Text) -> bool): seq<Row>
    decreases hi - lo
  {
    if lo >= hi then []
    else
      (if lo in table && RowMatches(table[lo], s, textMatch) then [table[lo]] else [])
      + Scan(table, lo + 1, hi, s, textMatch)
  }

  /** `ORDER BY <column> <direction>, id ASC`. */
  predicate Before(a: Row, b: Row, rank: Row -> int) {
    rank(a) < rank(b) || (rank(a) == rank(b) && a.id < b.id)
  }

  predicate Ordered(rows: seq<Row>, rank: Row -> int) {
    forall i, j :: 0 <= i < j < |rows| ==> Before(rows[i], rows[j], rank)
  }

  predicate DistinctIds(rows: seq<Row>) {
    forall i, j :: 0 <= i < j < |rows| ==> rows[i].id != rows[j].id
  }

  function InsertSorted(r: Row, rows: seq<Row>, rank: Row -> int): seq<Row> {
    if rows == [] then [r]
    else if Before(rows[0], r, rank) then [rows[0]] + InsertSorted(r, rows[1..], rank)
    else [r] + rows
  }

  function SortRows(rows: seq<Row>, rank: Row -> int): seq<Row> {
    if rows == [] then [] else InsertSorted(rows[0], SortRows(rows[1..], rank), rank)
  }

  /** All matching rows of a table whose ids lie in `1..bound`, in query order. */
  function Results(table: map<int, Row>, bound: int, s: Search, textMatch: (Text, Text) -> bool, rank: Row -> int): seq<Row> {
    SortRows(Scan(table, 1, bound, s, textMatch), rank)
  }

  /** `LIMIT limit OFFSET offset`. */
  function Page(rows: seq<Row>, limit: nat, offset: nat): (p: seq<Row>)
    ensures |p| <= limit
    ensures |p| == if offset >= |rows| then 0 else if limit < |rows| - offset then limit else |rows| - offset
    ensures forall i :: 0 <= i < |p| ==> p[i] == rows[offset + i]
  {
    if offset >= |rows| then []
    else rows[offset..if offset + limit <= |rows| then offset + limit else |rows|]
  }

  /** The result set: each row of the page with the window count
      `COUNT(*) OVER()`, taken over all matching rows before paging. */
  function ResultSet(matches: seq<Row>, limit: nat, offset: nat): seq<(int, Row)> {
    var p := Page(matches, limit, offset);
    seq(|p|, i requires 0 <= i < |p| => (|matches|, p[i]))
  }

  lemma {:induction false} ScanSpec(table: map<int, Row>, lo: int, hi: int, s: Search, textMatch: (Text, Text) -> bool)
    requires forall k :: k in table ==> table[k].id == k
    ensures forall r :: r in Scan(table, lo, hi, s, textMatch) <==>
      lo <= r.id < hi && r.id in table && table[r.id] == r && RowMatches(r, s, textMatch)
    ensures forall i, j :: 0 <= i < j < |Scan(table, lo, hi, s, textMatch)| ==>
      Scan(table, lo, hi, s, textMatch)[i].id < Scan(table, lo, hi, s, textMatch)[j].id
    decreases hi - lo
  {
    if lo < hi {
      ScanSpec(table, lo + 1, hi, s, textMatch);
      var head: seq<Row> := if lo in table && RowMatches(table[lo], s, textMatch) then [table[lo]] else [];
      var rest := Scan(table, lo + 1, hi, s, textMatch);
      assert Scan(table, lo, hi, s, textMatch) == head + rest;
      forall i, j | 0 <= i < j < |head + rest| ensures (head + rest)[i].id < (head + rest)[j].id {
        if i < |head| {
          assert (head + rest)[j] == rest[j - |head|];
          assert rest[j - |head|] in rest;
        } else {
          assert (head + rest)[i] == rest[i - |head|];
          assert (head + rest)[j] == rest[j - |head|];
        }
      }
    }
  }

  lemma {:induction false} InsertSortedKeepsRows(r: Row, rows: seq<Row>, rank: Row -> int)
    ensures multiset(InsertSorted(r, rows, rank)) == multiset(rows) + multiset{r}
  {
    if rows != [] && Before(rows[0], r, rank) {
      InsertSortedKeepsRows(r, rows[1..], rank);
      assert rows == [rows[0]] + rows[1..];
    }
  }

  /** Every row of `rows` comes after `x`. */
  predicate AllAfter(x: Row, rows: seq<Row>, rank: Row -> int) {
    forall j :: 0 <= j < |rows| ==> Before(x, rows[j], rank)
  }

  lemma ConsOrdered(x: Row, rows: seq<Row>, rank: Row -> int)
    requires Ordered(rows, rank) && AllAfter(x, rows, rank)
    ensures Ordered([x] + rows, rank)
  {
    var result := [x] + rows;
    forall i, j | 0 <= i < j < |result| ensures Before(result[i], result[j], rank) {
      assert result[j] == rows[j - 1];
      if i > 0 { assert result[i] == rows[i - 1]; }
    }
  }

  lemma {:induction false} InsertSortedOrdered(r: Row, rows: seq<Row>, rank: Row -> int)
    requires Ordered(rows, rank)
    requires forall x :: x in rows ==> x.id != r.id
    ensures Ordered(InsertSorted(r, rows, rank), rank)
  {
    if rows == [] {
    } else if Before(rows[0], r, rank) {
      var tail := InsertSorted(r, rows[1..], rank);
      assert Ordered(rows[1..], rank) by {
        forall i, j | 0 <= i < j < |rows[1..]| ensures Before(rows[1..][i], rows[1..][j], rank) {
          assert rows[1..][i] == rows[i + 1] && rows[1..][j] == rows[j + 1];
        }
      }
      assert forall x :: x in rows[1..] ==> x in rows;
      InsertSortedOrdered(r, rows[1..], rank);
      InsertSortedKeepsRows(r, rows[1..], rank);
      forall j | 0 <= j < |tail| ensures Before(rows[0], tail[j], rank) {
        assert tail[j] in multiset(tail);
        if tail[j] != r {
          assert tail[j] in multiset(rows[1..]);
          var k :| 0 <= k < |rows[1..]| && rows[1..][k] == tail[j];
          assert rows[k + 1] == tail[j];
        }
      }
      ConsOrdered(rows[0], tail, rank);
    } else {
      assert rows[0] in rows;
      forall j | 0 <= j < |rows| ensures Before(r, rows[j], rank) {
        if j > 0 { assert Before(rows[0], rows[j], rank); }
      }
      ConsOrdered(r, rows, rank);
    }
  }

  /** Sorting rows with distinct ids orders them and keeps every row. */
  lemma {:induction false} SortRowsSpec(rows: seq<Row>, rank: Row -> int)
    requires DistinctIds(rows)
    ensures multiset(SortRows(rows, rank)) == multiset(rows)
    ensures Ordered(SortRows(rows, rank), rank)
  {
    if rows != [] {
      var tail := rows[1..];
      assert DistinctIds(tail) by {
        forall i, j | 0 <= i < j < |tail| ensures tail[i].id != tail[j].id {
          assert tail[i] == rows[i + 1] && tail[j] == rows[j + 1];
        }
      }
      SortRowsSpec(tail, rank);
      var sorted := SortRows(tail, rank);
      forall x | x in sorted ensures x.id != rows[0].id {
        assert x in multiset(tail);
        var k :| 0 <= k < |tail| && tail[k] == x;
        assert rows[k + 1] == x;
      }
      InsertSortedKeepsRows(rows[0], sorted, rank);
      InsertSortedOrdered(rows[0], sorted, rank);
      assert rows == [rows[0]] + tail;
    }
  }

  /** The query result holds exactly the matching rows of the table, each
      once, ordered by the sort rank and then by id. */
  lemma ResultsSpec(table: map<int, Row>, bound: int, s: Search, textMatch: (Text, Text) -> bool, rank: Row -> int)
    requires forall k :: k in table ==> 1 <= k < bound && table[k].id == k
    ensures Ordered(Results(table, bound, s, textMatch, rank), rank)
    ensures DistinctIds(Results(table, bound, s, textMatch, rank))
    ensures forall r :: r in Results(table, bound, s, textMatch, rank) <==>
      r.id in table && table[r.id] == r && RowMatches(r, s, textMatch)
  {
    var scanned := Scan(table, 1, bound, s, textMatch);
    ScanSpec(table, 1, bound, s, textMatch);
    SortRowsSpec(scanned, rank);
    var res := Results(table, bound, s, textMatch, rank);
    forall r ensures r in res <==> r in scanned {
      assert r in res <==> r in multiset(res);
      assert r in scanned <==> r in multiset(scanned);
    }
    forall i, j | 0 <= i < j < |res| ensures res[i].id != res[j].id {
      assert res[i] in res && res[j] in res;
      assert Before(res[i], res[j], rank);
    }
  }

  /** A page of the result holds only matching rows, in query order, no more
      than `limit` of them, starting `offset` rows into the result. */
  lemma PageSpec(table: map<int, Row>, bound: int, s: Search, textMatch: (Text, Text) -> bool, rank: Row -> int, limit: nat, offset: nat)
    requires forall k :: k in table ==> 1 <= k < bound && table[k].id == k
    ensures var p := Page(Results(table, bound, s, textMatch, rank), limit, offset);
      && |p| <= limit
      && Ordered(p, rank)
      && forall r :: r in p ==> r.id in table && table[r.id] == r && RowMatches(r, s, textMatch)
  {
    var res := Results(table, bound, s, textMatch, rank);
    ResultsSpec(table, bound, s, textMatch, rank);
    var p := Page(res, limit, offset);
    forall i, j | 0 <= i < j < |p| ensures Before(p[i], p[j], rank) {
      assert p[i] == res[offset + i] && p[j] == res[offset + j];
    }
    forall r | r in p ensures r in res {
      var i :| 0 <= i < |p| && p[i] == r;
      assert res[offset + i] == r;
    }
  }

  /** Rows with distinct ids have as many ids as rows. */
  lemma {:induction false} DistinctIdsCount(rows: seq<Row>)
    requires DistinctIds(rows)
    ensures |set r | r in rows :: r.id| == |rows|
  {
    if rows != [] {
      var tail := rows[1..];
      assert DistinctIds(tail) by {
        forall i, j | 0 <= i < j < |tail| ensures tail[i].id != tail[j].id {
          assert tail[i] == rows[i + 1] && tail[j] == rows[j + 1];
        }
      }
      DistinctIdsCount(tail);
      var tailIds := set r | r in tail :: r.id;
      assert rows[0].id !in tailIds by {
        forall k | 0 <= k < |tail| ensures tail[k].id != rows[0].id {
          assert tail[k] == rows[k + 1];
        }
      }
      assert rows == [rows[0]] + tail;
      assert (set r | r in rows :: r.id) == {rows[0].id} + tailIds;
    }
  }

  /** The number of rows the query finds, which `COUNT(*) OVER()` reports,
      is the number of stored rows that satisfy the WHERE clause. */
  lemma CountIsMatchingRows(table: map<int, Row>, bound: int, s: Search, textMatch: (Text, Text) -> bool, rank: Row -> int)
    requires forall k :: k in table ==> 1 <= k < bound && table[k].id == k
    ensures |Results(table, bound, s, textMatch, rank)| == |set k | k in table && RowMatches(table[k], s, textMatch)|
  {
    var res := Results(table, bound, s, textMatch, rank);
    ResultsSpec(table, bound, s, textMatch, rank);
    DistinctIdsCount(res);
    var ids := set r | r in res :: r.id;
    var matching := set k | k in table && RowMatches(table[k], s, textMatch);
    forall k | k in matching ensures k in ids {
      assert table[k] in res;
    }
    assert ids == matching;
  }

  /** Every row of the result set carries the number of stored rows that
      satisfy the WHERE clause, and is one of them. */
  lemma WindowCount(
    table: map<int, Row>, bound: int, s: Search, textMatch: (Text, Text) -> bool, rank: Row -> int,
    limit: nat, offset: nat)
    requires forall k :: k in table ==> 1 <= k < bound && table[k].id == k
    ensures var rs := ResultSet(Results(table, bound, s, textMatch, rank), limit, offset);
      forall i :: 0 <= i < |rs| ==>
        && rs[i].0 == |set k | k in table && RowMatches(table[k], s, textMatch)|
        && rs[i].1.id in table && table[rs[i].1.id] == rs[i].1 && RowMatches(rs[i].1, s, textMatch)
  {
    CountIsMatchingRows(table, bound, s, textMatch, rank);
    PageSpec(table, bound, s, textMatch, rank, limit, offset);
    var p := Page(Results(table, bound, s, textMatch, rank), limit, offset);
    forall i | 0 <= i < |p| ensures p[i] in p { }
  }

  /** A nil mode filter finds nothing. */
  lemma NilModeFindsNothing(table: map<int, Row>, bound: int, name: Text, level: Text, textMatch: (Text, Text) -> bool, rank: Row -> int)
    requires forall k :: k in table ==> 1 <= k < bound && table[k].id == k
    ensures Results(table, bound, Search(name, level, Nil), textMatch, rank) == []
  {
    CountIsMatchingRows(table, bound, Search(name, level, Nil), textMatch, rank);
    assert (set k | k in table && RowMatches(table[k], Search(name, level, Nil), textMatch)) == {};
  }

  /** Empty search terms and an empty, non-nil mode filter find every
      stored row. */
  lemma EmptyTermsFindAll(table: map<int, Row>, bound: int, textMatch: (Text, Text) -> bool, rank: Row -> int)
    requires forall k :: k in table ==> 1 <= k < bound && table[k].id == k
    ensures forall r :: r in Results(table, bound, Search([], [], Of([])), textMatch, rank) <==>
      r.id in table && table[r.id] == r
    ensures |Results(table, bound, Search([], [], Of([])), textMatch, rank)| == |table|
  {
    var s := Search([], [], Of([]));
    ResultsSpec(table, bound, s, textMatch, rank);
    CountIsMatchingRows(table, bound, s, textMatch, rank);
    assert (set k | k in table && RowMatches(table[k], s, textMatch)) == table.Keys;
  }

  /** A cause the database reports when LIMIT or OFFSET is negative. */
  const NegativePaging := "LIMIT and OFFSET must not be negative"

  /** Where a `DELETE` fails: running the statement, or counting its rows. */
  datatype DeleteFault = DeleteRuns | ExecFails(cause: string) | RowsAffectedFails(cause: string)

  /** Where the listing query fails: running it, scanning row `row` of the
      result set, or iterating over it. */
  datatype ListFault = ListRuns | QueryFails(cause: string) | ScanFails(row: nat, cause: string) | IterationFails(cause: string)

  // ---------------------------------------------------------------------
  // The store

  /** `TodoModel` over the `todo` table; `nextId` is the next value of the
      id sequence. */
  class TodoModel {
    var table: map<int, Row>
    var nextId: int

    /** Every stored row sits under its own id, and ids come from the
        sequence, which starts at 1. */
    ghost predicate Valid()
      reads this
    {
      1 <= nextId && forall id :: id in table ==> 1 <= id < nextId && table[id].id == id
    }

    constructor ()
      ensures Valid() && table == map[] && nextId == 1
    {
      table, nextId := map[], 1;
    }

    /** `Insert`: stores the eight caller fields as a new row and writes the
        new id, creation time and version 0 back into `todo`. */
    method Insert(todo: Todo, now: Time, fault: Option<string>) returns (err: Option<Error>)
      requires Valid()
      modifies this, todo`id, todo`createdAt, todo`version
      ensures Valid()
      ensures todo.CallerFields() == old(todo.CallerFields())
      ensures fault.Some? ==>
        && err == Some(Other(fault.value))
        && table == old(table) && nextId == old(nextId)
        && todo.id == old(todo.id) && todo.createdAt == old(todo.createdAt) && todo.version == old(todo.version)
      ensures fault.None? ==>
        && err == None
        && todo.id == old(nextId) && todo.id >= 1 && todo.id !in old(table)
        && todo.createdAt == now && todo.version == 0
        && table == old(table)[todo.id := todo.AsRow()]
        && nextId == old(nextId) + 1
    {
      if fault.Some? {
        return Some(Other(fault.value));
      }
      var row := Row(nextId, now, todo.CallerFields(), 0);
      table := table[row.id := row];
      nextId := nextId + 1;
      todo.id, todo.createdAt, todo.version := row.id, row.createdAt, row.version;
      err := None;
    }

    /** `Get`: an id below 1 is not found without querying; otherwise the
        stored row, field for field, or not found. */
    method Get(id: int, fault: Option<string>) returns (todo: Todo?, err: Option<Error>)
      requires Valid()
      ensures id < 1 ==> todo == null && err == Some(NotFound)
      ensures id >= 1 && fault.Some? ==> todo == null && err == Some(Other(fault.value))
      ensures id >= 1 && fault.None? && id !in table ==> todo == null && err == Some(NotFound)
      ensures id >= 1 && fault.None? && id in table ==> err == None && todo != null && todo.AsRow() == table[id]
    {
      if id < 1 {
        return null, Some(NotFound);
      }
      if fault.Some? {
        return null, Some(Other(fault.value));
      }
      if id !in table {
        return null, Some(NotFound);
      }
      todo := new Todo.FromRow(table[id]);
      err := None;
    }

    /** `Update`: replaces the eight caller fields and bumps the version by
        one, provided the stored version is the one `todo` carries; the new
        version is written back into `todo`. A wrong version or a missing
        row is an edit conflict and changes nothing. */
    method Update(todo: Todo, fault: Option<string>) returns (err: Option<Error>)
      requires Valid()
      modifies this, todo`version
      ensures Valid() && nextId == old(nextId)
      ensures fault.Some? ==> err == Some(Other(fault.value)) && table == old(table) && todo.version == old(todo.version)
      ensures fault.None? && todo.id in old(table) && old(table)[todo.id].version == old(todo.version) ==>
        && err == None
        && todo.version == old(todo.version) + 1
        && table == old(table)[todo.id := old(table)[todo.id].(fields := todo.CallerFields(), version := todo.version)]
      ensures fault.None? && !(todo.id in old(table) && old(table)[todo.id].version == old(todo.version)) ==>
        err == Some(EditConflict) && table == old(table) && todo.version == old(todo.version)
    {
      if fault.Some? {
        return Some(Other(fault.value));
      }
      var r := UpdateRow(table, todo.id, todo.version, todo.CallerFields());
      match r
      case None =>
        err := Some(EditConflict);
      case Some((t, v)) =>
        table := t;
        todo.version := v;
        err := None;
    }

    /** `Delete`: an id below 1 is not found without touching the table;
        otherwise the row goes, and deleting nothing is not found. */
    method Delete(id: int, fault: DeleteFault) returns (err: Option<Error>)
      requires Valid()
      modifies this
      ensures Valid() && nextId == old(nextId)
      ensures id < 1 ==> err == Some(NotFound) && table == old(table)
      ensures id >= 1 && fault.ExecFails? ==> err == Some(Other(fault.cause)) && table == old(table)
      ensures id >= 1 && fault.RowsAffectedFails? ==> err == Some(Other(fault.cause)) && table == old(table) - {id}
      ensures id >= 1 && fault.DeleteRuns? ==>
        && table == old(table) - {id}
        && err == (if id in old(table) then None else Some(NotFound))
    {
      if id < 1 {
        return Some(NotFound);
      }
      if fault.ExecFails? {
        return Some(Other(fault.cause));
      }
      var (t, rowsAffected) := DeleteRow(table, id);
      table := t;
      if fault.RowsAffectedFails? {
        return Some(Other(fault.cause));
      }
      if rowsAffected == 0 {
        return Some(NotFound);
      }
      err := None;
    }

    /** `GetAll`: the page of matching rows in query order, and the metadata
        for the window count, which is 0 when the page is empty. Any failure
        returns no list and zero metadata. */
    method GetAll(
      name: Text, level: Text, mode: Slice, filters: Filters.Filters, h: Filters.Helpers,
      textMatch: (Text, Text) -> bool, fault: ListFault)
      returns (todos: Option<seq<Todo>>, metadata: Filters.Metadata, err: Option<Error>)
      requires Valid()
      ensures todos.Some? <==> err.None?
      ensures err.Some? ==> metadata == Filters.ZeroMetadata
      ensures fault.QueryFails? ==> err == Some(Other(fault.cause))
      ensures !fault.QueryFails? && (h.limit(filters) < 0 || h.offset(filters) < 0) ==>
        err == Some(Other(NegativePaging))
      ensures err.None? ==> h.limit(filters) >= 0 && h.offset(filters) >= 0
      ensures !fault.QueryFails? && h.limit(filters) >= 0 && h.offset(filters) >= 0 ==>
        var matches := Results(table, nextId, Search(name, level, mode), textMatch, h.sortRank(filters));
        var page := Page(matches, h.limit(filters), h.offset(filters));
        && (fault.ScanFails? && fault.row < |page| ==> err == Some(Other(fault.cause)))
        && (fault.IterationFails? ==> err == Some(Other(fault.cause)))
        && (fault.ListRuns? || (fault.ScanFails? && fault.row >= |page|) ==>
              && err == None
              && |todos.value| == |page|
              && (forall i :: 0 <= i < |page| ==> todos.value[i].AsRow() == page[i])
              && metadata == h.calculateMetadata(
                   if page == [] then 0 else |set k | k in table && RowMatches(table[k], Search(name, level, mode), textMatch)|,
                   filters.page, filters.pageSize))
    {
      var limit, offset := h.limit(filters), h.offset(filters);
      if fault.QueryFails? {
        return None, Filters.ZeroMetadata, Some(Other(fault.cause));
      }
      if limit < 0 || offset < 0 {
        return None, Filters.ZeroMetadata, Some(Other(NegativePaging));
      }
      var matches := Results(table, nextId, Search(name, level, mode), textMatch, h.sortRank(filters));
      var rows := ResultSet(matches, limit, offset);
      ghost var page := Page(matches, limit, offset);
      var totalRecords := 0;
      var list: seq<Todo> := [];
      var i := 0;
      while i < |rows|
        invariant 0 <= i <= |rows|
        invariant |list| == i
        invariant forall k :: 0 <= k < i ==> list[k].AsRow() == page[k]
        invariant totalRecords == if i == 0 then 0 else |matches|
        invariant fault.ScanFails? ==> fault.row >= i
      {
        if fault.ScanFails? && fault.row == i {
          return None, Filters.ZeroMetadata, Some(Other(fault.cause));
        }
        var todo := new Todo.FromRow(rows[i].1);
        totalRecords := rows[i].0;
        list := list + [todo];
        i := i + 1;
      }
      if fault.IterationFails? {
        return None, Filters.ZeroMetadata, Some(Other(fault.cause));
      }
      CountIsMatchingRows(table, nextId, Search(name, level, mode), textMatch, h.sortRank(filters));
      metadata := h.calculateMetadata(totalRecords, filters.page, filters.pageSize);
      todos, err := Some(list), None;
    }
  }

  // ---------------------------------------------------------------------
  // Properties across calls

  /** A record read back after it is inserted equals it field for field. */
  method InsertThenGet(m: TodoModel, todo: Todo, now: Time) returns (got: Todo?)
    requires m.Valid()
    modifies m, todo`id, todo`createdAt, todo`version
    ensures got != null && got.AsRow() == todo.AsRow()
    ensures todo.id >= 1 && todo.version == 0 && todo.CallerFields() == old(todo.CallerFields())
  {
    var err := m.Insert(todo, now, None);
    var e;
    got, e := m.Get(todo.id, None);
  }

  /** Two writers that read the same version race: the first update wins,
      the second is an edit conflict and leaves the table as the first left it. */
  method RacingWriters(m: TodoModel, first: Todo, second: Todo) returns (e1: Option<Error>, e2: Option<Error>)
    requires m.Valid() && first != second
    requires first.id == second.id && first.version == second.version
    requires first.id in m.table && m.table[first.id].version == first.version
    modifies m, first`version, second`version
    ensures e1 == None && e2 == Some(EditConflict)
    ensures first.version == old(first.version) + 1 && second.version == old(second.version)
    ensures first.id in m.table && m.table[first.id].version == first.version
    ensures m.table[first.id].fields == first.CallerFields()
    ensures m.table == old(m.table)[first.id := old(m.table)[first.id].(fields := first.CallerFields(), version := first.version)]
    ensures m.nextId == old(m.nextId)
  {
    e1 := m.Update(first, None);
    assert first.id in m.table && m.table[first.id].version == first.version;
    e2 := m.Update(second, None);
  }

  /** Deleting an id a second time reports not found. */
  method DeleteTwice(m: TodoModel, id: int) returns (e1: Option<Error>, e2: Option<Error>)
    requires m.Valid()
    modifies m
    ensures id !in m.table
    ensures e2 == Some(NotFound)
    ensures e1 == if id >= 1 && id in old(m.table) then None else Some(NotFound)
  {
    e1 := m.Delete(id, DeleteRuns);
    e2 := m.Delete(id, DeleteRuns);
  }
}
