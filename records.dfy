/** The saved-range records of the server (server/server.js): the records
    table with its AUTOINCREMENT id, the create, list, get, update and delete
    handlers, and the CSV export. */
module Records {
  import opened Wrappers
  import opened Text
  import opened Dates
  import opened Json
  import opened Services

  const Source := "open-meteo"

  /** One row of the records table; temps is what temps_json holds. */
  datatype Record = Record(id: int, query: string, name: string, lat: real, lon: real,
                           startDate: string, endDate: string, units: string,
                           temps: seq<DailyTemperature>, source: string,
                           createdAt: string, updatedAt: string)

  /** The JSON body of a create or update request; an absent field is None. */
  datatype Body = Body(query: Option<string>, startDate: Option<string>, endDate: Option<string>,
                       units: Option<string>)

  /** The request fields once validated. */
  datatype Request = Request(query: string, startDate: string, endDate: string, units: string)

  /** What a validated request resolves to upstream. */
  datatype Draft = Draft(request: Request, place: Place, temps: seq<DailyTemperature>)

  /** String(x) for a field that may be absent, as RegExp.prototype.test sees it. */
  function FieldText(o: Option<string>): string {
    match o
    case Some(s) => s
    case None => "undefined"
  }

  lemma UndefinedIsNoDate()
    ensures !IsISODate(FieldText(None))
  {
    IsISODateShape("undefined");
  }

  /** The checks of the create handler, in its order: a missing or empty
      query, then the date checks; units default to 'metric' and are not
      checked. */
  function ValidateCreate(b: Body): (r: Result<Request, Error>)
    ensures r == Failure(QueryRequired) <==> b.query.None? || b.query.value == ""
    ensures r.Failure? && r.error != QueryRequired ==>
              r.error.BadRange? && CheckRange(FieldText(b.startDate), FieldText(b.endDate)) == Some(r.error.reason)
    ensures r.Success? ==>
              && b.startDate.Some? && b.endDate.Some?
              && r.value == Request(b.query.value, b.startDate.value, b.endDate.value, b.units.GetOr("metric"))
              && IsISODate(r.value.startDate) && IsISODate(r.value.endDate)
              && CheckRange(r.value.startDate, r.value.endDate) == None
  {
    UndefinedIsNoDate();
    if b.query.None? || b.query.value == "" then Failure(QueryRequired)
    else
      var start, end := FieldText(b.startDate), FieldText(b.endDate);
      match CheckRange(start, end)
      case Some(e) => Failure(BadRange(e))
      case None => Success(Request(b.query.value, start, end, b.units.GetOr("metric")))
  }

  /** The checks of the update handler: every absent field falls back to the
      stored value, and only the date checks follow (no query check). */
  function ValidateUpdate(existing: Record, b: Body): (r: Result<Request, Error>)
    ensures r.Failure? ==>
              r.error.BadRange? && CheckRange(b.startDate.GetOr(existing.startDate), b.endDate.GetOr(existing.endDate)) == Some(r.error.reason)
    ensures r.Success? ==>
              && r.value == Request(b.query.GetOr(existing.query), b.startDate.GetOr(existing.startDate),
                                    b.endDate.GetOr(existing.endDate), b.units.GetOr(existing.units))
              && CheckRange(r.value.startDate, r.value.endDate) == None
  {
    var start, end := b.startDate.GetOr(existing.startDate), b.endDate.GetOr(existing.endDate);
    match CheckRange(start, end)
    case Some(e) => Failure(BadRange(e))
    case None => Success(Request(b.query.GetOr(existing.query), start, end, b.units.GetOr(existing.units)))
  }

  /** geocode, then getTempsForRange at the place found: the archive is asked
      only once geocoding succeeded. */
  function Resolve(req: Request, host: Host): (o: Outcome<Draft>)
    ensures Geocode(req.query, host).result.Failure? ==>
              o == Outcome(Failure(Geocode(req.query, host).result.error), Geocode(req.query, host).calls)
    ensures Geocode(req.query, host).result.Success? ==>
              var p := Geocode(req.query, host).result.value;
              o.calls == Geocode(req.query, host).calls
                         + [ArchiveCall(ArchiveQuery(p.lat, p.lon, req.startDate, req.endDate, TemperatureUnit(req.units)))]
    ensures Geocode(req.query, host).result.Success? ==>
              var p := Geocode(req.query, host).result.value;
              var t := GetTempsForRange(p.lat, p.lon, req.startDate, req.endDate, req.units, host);
              && (t.result.Failure? ==> o.result == Failure(t.result.error))
              && (t.result.Success? ==> o.result == Success(Draft(req, p, t.result.value)))
    ensures o.result.Success? ==> o.result.value.request == req
                                  && o.result.value.place == Geocode(req.query, host).result.value
  {
    var g := Geocode(req.query, host);
    match g.result
    case Failure(e) => Outcome(Failure(e), g.calls)
    case Success(place) =>
      var t := GetTempsForRange(place.lat, place.lon, req.startDate, req.endDate, req.units, host);
      match t.result
      case Failure(e) => Outcome(Failure(e), g.calls + t.calls)
      case Success(temps) => Outcome(Success(Draft(req, place, temps)), g.calls + t.calls)
  }

  /** Everything the create handler does before the insert. */
  function PlanCreate(b: Body, host: Host): (o: Outcome<Draft>)
    ensures ValidateCreate(b).Failure? ==> o.result == Failure(ValidateCreate(b).error) && o.calls == []
    ensures ValidateCreate(b).Success? ==> o == Resolve(ValidateCreate(b).value, host)
  {
    match ValidateCreate(b)
    case Failure(e) => Outcome(Failure(e), [])
    case Success(req) => Resolve(req, host)
  }

  /** Everything the update handler does between finding the row and writing it. */
  function PlanUpdate(existing: Record, b: Body, host: Host): (o: Outcome<Draft>)
    ensures ValidateUpdate(existing, b).Failure? ==>
              o.result == Failure(ValidateUpdate(existing, b).error) && o.calls == []
    ensures ValidateUpdate(existing, b).Success? ==> o == Resolve(ValidateUpdate(existing, b).value, host)
  {
    match ValidateUpdate(existing, b)
    case Failure(e) => Outcome(Failure(e), [])
    case Success(req) => Resolve(req, host)
  }

  /** Create checks in a fixed order, each failure before any upstream
      request: a missing query wins over bad dates, a bad format over the
      order of the dates, and a reversed range over its length. */
  lemma CreateValidationOrder(b: Body, host: Host)
    ensures (b.query.None? || b.query.value == "") ==> PlanCreate(b, host) == Outcome(Failure(QueryRequired), [])
    ensures b.query.Some? && b.query.value != "" && !IsISODate(FieldText(b.startDate)) ==>
              PlanCreate(b, host) == Outcome(Failure(BadRange(BadDateFormat)), [])
    ensures b.query.Some? && b.query.value != "" && b.startDate.Some? && b.endDate.Some?
            && IsISODate(b.startDate.value) && IsISODate(b.endDate.value)
            && DayNumber(b.startDate.value).Some? && DayNumber(b.endDate.value).Some?
            && DayNumber(b.startDate.value).value > DayNumber(b.endDate.value).value ==>
              PlanCreate(b, host) == Outcome(Failure(BadRange(StartAfterEnd)), [])
    ensures PlanCreate(b, host).calls != [] ==> ValidateCreate(b).Success?
  {
    ValidateCreateOrder(b);
    if ValidateCreate(b).Failure? {
      CreateFailsEarly(b, host);
    }
  }

  /** The order of the create checks, on the validation alone. */
  lemma ValidateCreateOrder(b: Body)
    ensures (b.query.None? || b.query.value == "") ==> ValidateCreate(b) == Failure(QueryRequired)
    ensures b.query.Some? && b.query.value != "" && !IsISODate(FieldText(b.startDate)) ==>
              ValidateCreate(b) == Failure(BadRange(BadDateFormat))
    ensures b.query.Some? && b.query.value != "" && b.startDate.Some? && b.endDate.Some?
            && IsISODate(b.startDate.value) && IsISODate(b.endDate.value)
            && DayNumber(b.startDate.value).Some? && DayNumber(b.endDate.value).Some?
            && DayNumber(b.startDate.value).value > DayNumber(b.endDate.value).value ==>
              ValidateCreate(b) == Failure(BadRange(StartAfterEnd))
  {
    if b.query.Some? && b.query.value != "" {
      var start, end := FieldText(b.startDate), FieldText(b.endDate);
      assert ValidateCreate(b) == match CheckRange(start, end)
        case Some(e) => Failure(BadRange(e))
        case None => Success(Request(b.query.value, start, end, b.units.GetOr("metric")));
    }
  }

  /** A failed validation ends the create handler before any request. */
  lemma CreateFailsEarly(b: Body, host: Host)
    requires ValidateCreate(b).Failure?
    ensures PlanCreate(b, host) == Outcome(Failure(ValidateCreate(b).error), [])
  {
  }

  /** The row an insert stores. */
  function NewRecord(id: int, d: Draft, now: string): (r: Record)
    ensures r.id == id && r.source == Source && r.createdAt == now && r.updatedAt == now
  {
    Record(id, d.request.query, d.place.name, d.place.lat, d.place.lon, d.request.startDate,
           d.request.endDate, d.request.units, d.temps, Source, now, now)
  }

  /** The row after the UPDATE statement: id, source and created_at are
      those of the existing row. */
  function UpdatedRecord(existing: Record, d: Draft, now: string): (r: Record)
    ensures r.id == existing.id && r.source == existing.source && r.createdAt == existing.createdAt
    ensures r.updatedAt == now
  {
    existing.(query := d.request.query, name := d.place.name, lat := d.place.lat, lon := d.place.lon,
              startDate := d.request.startDate, endDate := d.request.endDate, units := d.request.units,
              temps := d.temps, updatedAt := now)
  }

  /** An update leaves a field the body omits as it was, apart from the place
      the stored query resolves to again. */
  lemma UpdateKeepsOmitted(existing: Record, b: Body, host: Host, now: string)
    requires PlanUpdate(existing, b, host).result.Success?
    ensures var r := UpdatedRecord(existing, PlanUpdate(existing, b, host).result.value, now);
      && (b.query.None? ==> r.query == existing.query)
      && (b.startDate.None? ==> r.startDate == existing.startDate)
      && (b.endDate.None? ==> r.endDate == existing.endDate)
      && (b.units.None? ==> r.units == existing.units)
  {
  }

  // ---------------------------------------------------------------------
  // SELECT * FROM records ORDER BY id DESC

  /** The rows with ids from k down to 1. */
  function ByIdDesc(rows: map<int, Record>, k: int): seq<Record>
    decreases k
  {
    if k <= 0 then [] else (if k in rows then [rows[k]] else []) + ByIdDesc(rows, k - 1)
  }

  /** rs lists the rows with ids 1..k, each once, by strictly descending id. */
  ghost predicate ListsRowsDesc(rows: map<int, Record>, k: int, rs: seq<Record>) {
    RowsUpTo(rows, k, rs) && IdsDescending(rs) && (forall id :: id in rows && 1 <= id <= k ==> rows[id] in rs)
  }

  /** Every entry of rs is the row stored under its id, an id in 1..k. */
  ghost predicate RowsUpTo(rows: map<int, Record>, k: int, rs: seq<Record>) {
    forall i :: 0 <= i < |rs| ==> 1 <= rs[i].id <= k && rs[i].id in rows && rows[rs[i].id] == rs[i]
  }

  ghost predicate IdsDescending(rs: seq<Record>) {
    forall i, j :: 0 <= i < j < |rs| ==> rs[i].id > rs[j].id
  }

  lemma ByIdDescListsRows(rows: map<int, Record>, k: int)
    requires forall id :: id in rows ==> rows[id].id == id
    ensures ListsRowsDesc(rows, k, ByIdDesc(rows, k))
  {
    ByIdDescRows(rows, k);
    ByIdDescDescending(rows, k);
    ByIdDescComplete(rows, k);
  }

  lemma {:induction false} ByIdDescRows(rows: map<int, Record>, k: int)
    requires forall id :: id in rows ==> rows[id].id == id
    ensures RowsUpTo(rows, k, ByIdDesc(rows, k))
    decreases k
  {
    if k > 0 {
      ByIdDescRows(rows, k - 1);
      var rest := ByIdDesc(rows, k - 1);
      var head := if k in rows then [rows[k]] else [];
      var rs := head + rest;
      assert ByIdDesc(rows, k) == rs;
      forall i | 0 <= i < |rs| ensures 1 <= rs[i].id <= k && rs[i].id in rows && rows[rs[i].id] == rs[i] {
        if i < |head| {
          assert rs[i] == rows[k];
        } else {
          assert rs[i] == rest[i - |head|];
        }
      }
    }
  }

  lemma {:induction false} ByIdDescDescending(rows: map<int, Record>, k: int)
    requires forall id :: id in rows ==> rows[id].id == id
    ensures IdsDescending(ByIdDesc(rows, k))
    decreases k
  {
    if k > 0 {
      ByIdDescDescending(rows, k - 1);
      ByIdDescRows(rows, k - 1);
      var rest := ByIdDesc(rows, k - 1);
      var head := if k in rows then [rows[k]] else [];
      var rs := head + rest;
      assert ByIdDesc(rows, k) == rs;
      forall i, j | 0 <= i < j < |rs| ensures rs[i].id > rs[j].id {
        assert rs[j] == rest[j - |head|];
        if i >= |head| {
          assert rs[i] == rest[i - |head|];
        }
      }
    }
  }

  lemma {:induction false} ByIdDescComplete(rows: map<int, Record>, k: int)
    ensures forall id :: id in rows && 1 <= id <= k ==> rows[id] in ByIdDesc(rows, k)
    decreases k
  {
    if k > 0 {
      ByIdDescComplete(rows, k - 1);
      var rest := ByIdDesc(rows, k - 1);
      var head := if k in rows then [rows[k]] else [];
      assert ByIdDesc(rows, k) == head + rest;
      forall id | id in rows && 1 <= id <= k ensures rows[id] in head + rest {
        if id < k {
          assert rows[id] in rest;
        } else {
          assert rows[id] == (head + rest)[0];
        }
      }
    }
  }

  // ---------------------------------------------------------------------
  // The CSV export

  /** The ten exported columns, in order; temps_json is not one of them. */
  const Columns: seq<string> :=
    ["id", "query", "name", "lat", "lon", "start_date", "end_date", "units", "created_at", "updated_at"]

  /** The first line of the export. */
  const Header := Join(Columns, ",")

  /** JSON.stringify of each column of the row, in header order. */
  function Cells(r: Record, num: real -> NumberText): seq<string> {
    [IntText(r.id), Quote(r.query), Quote(r.name), num(r.lat), num(r.lon), Quote(r.startDate),
     Quote(r.endDate), Quote(r.units), Quote(r.createdAt), Quote(r.updatedAt)]
  }

  function CsvLine(r: Record, num: real -> NumberText): string {
    Join(Cells(r, num), ",")
  }

  function CsvLines(rs: seq<Record>, num: real -> NumberText): (lines: seq<string>)
    ensures |lines| == |rs|
  {
    if rs == [] then [] else [CsvLine(rs[0], num)] + CsvLines(rs[1..], num)
  }

  /** Line i of the body is the line of record i. */
  lemma {:induction false} CsvLinesAt(rs: seq<Record>, num: real -> NumberText)
    ensures forall i :: 0 <= i < |rs| ==> CsvLines(rs, num)[i] == CsvLine(rs[i], num)
    decreases |rs|
  {
    if rs != [] {
      CsvLinesAt(rs[1..], num);
      var lines := CsvLines(rs, num);
      assert lines == [CsvLine(rs[0], num)] + CsvLines(rs[1..], num);
      forall i | 0 < i < |rs| ensures lines[i] == CsvLine(rs[i], num) {
        assert lines[i] == CsvLines(rs[1..], num)[i - 1];
        assert rs[1..][i - 1] == rs[i];
      }
    }
  }

  function Csv(rs: seq<Record>, num: real -> NumberText): string {
    Join([Header] + CsvLines(rs, num), "\n")
  }

  lemma QuoteHasNoBreak(t: string)
    ensures '\n' !in Quote(t)
  {
    var q := Quote(t);
    forall j | 0 <= j < |q| ensures q[j] != '\n' {
      assert q[j] >= ' ';
    }
  }

  lemma NumberHasNoBreak(t: NumberText)
    ensures '\n' !in t
  {
    forall j | 0 <= j < |t| ensures t[j] != '\n' {
      assert IsNumberChar(t[j]);
    }
  }

  lemma IntHasNoBreak(n: int)
    ensures '\n' !in IntText(n)
  {
  }

  lemma HeaderHasNoBreak()
    ensures '\n' !in Header
  {
    forall i | 0 <= i < |Columns| ensures '\n' !in Columns[i] {
      var c := Columns[i];
      forall j | 0 <= j < |c| ensures c[j] != '\n' {
        assert c[j] == '_' || 'a' <= c[j] <= 'z';
      }
    }
    JoinAvoids(Columns, ",", '\n');
  }

  lemma CellsHaveNoBreak(r: Record, num: real -> NumberText)
    ensures forall i :: 0 <= i < |Cells(r, num)| ==> '\n' !in Cells(r, num)[i]
  {
    IntHasNoBreak(r.id);
    QuoteHasNoBreak(r.query);
    QuoteHasNoBreak(r.name);
    NumberHasNoBreak(num(r.lat));
    NumberHasNoBreak(num(r.lon));
    QuoteHasNoBreak(r.startDate);
    QuoteHasNoBreak(r.endDate);
    QuoteHasNoBreak(r.units);
    QuoteHasNoBreak(r.createdAt);
    QuoteHasNoBreak(r.updatedAt);
    AvoidedByEach(IntText(r.id), Quote(r.query), Quote(r.name), num(r.lat), num(r.lon),
                  Quote(r.startDate), Quote(r.endDate), Quote(r.units), Quote(r.createdAt),
                  Quote(r.updatedAt), '\n');
  }

  /** Ten strings, none holding c: no element of their sequence holds c. */
  lemma AvoidedByEach(s0: string, s1: string, s2: string, s3: string, s4: string,
                      s5: string, s6: string, s7: string, s8: string, s9: string, c: char)
    requires c !in s0 && c !in s1 && c !in s2 && c !in s3 && c !in s4
    requires c !in s5 && c !in s6 && c !in s7 && c !in s8 && c !in s9
    ensures var cs := [s0, s1, s2, s3, s4, s5, s6, s7, s8, s9];
            forall i :: 0 <= i < |cs| ==> c !in cs[i]
  {
  }

  lemma LineHasNoBreak(r: Record, num: real -> NumberText)
    ensures '\n' !in CsvLine(r, num)
  {
    CellsHaveNoBreak(r, num);
    JoinAvoids(Cells(r, num), ",", '\n');
  }

  lemma LinesHaveNoBreak(rs: seq<Record>, num: real -> NumberText)
    ensures forall i :: 0 <= i < |rs| ==> '\n' !in CsvLines(rs, num)[i]
  {
    CsvLinesAt(rs, num);
    forall i | 0 <= i < |rs| ensures '\n' !in CsvLines(rs, num)[i] {
      LineHasNoBreak(rs[i], num);
    }
  }

  /** No line of the export, header included, holds a line break. */
  lemma PartsHaveNoBreak(rs: seq<Record>, num: real -> NumberText)
    ensures forall i :: 0 <= i <= |rs| ==> '\n' !in ([Header] + CsvLines(rs, num))[i]
  {
    var lines := CsvLines(rs, num);
    var parts := [Header] + lines;
    HeaderHasNoBreak();
    LinesHaveNoBreak(rs, num);
    forall i | 0 <= i < |parts| ensures '\n' !in parts[i] {
      if i > 0 {
        assert parts[i] == lines[i - 1];
      }
    }
  }

  /** Split on line breaks, the export gives its header and lines back. */
  lemma CsvSplitsIntoLines(rs: seq<Record>, num: real -> NumberText)
    ensures SplitOn(Csv(rs, num), '\n') == [Header] + CsvLines(rs, num)
  {
    var parts := [Header] + CsvLines(rs, num);
    PartsHaveNoBreak(rs, num);
    assert Csv(rs, num) == Join(parts, ['\n']);
    SplitJoin(parts, '\n');
  }

  /** The export is the header line followed by exactly one line per record:
      split on line breaks it gives the header and the records' lines back,
      and with no records it is the header alone. */
  lemma CsvOneLinePerRecord(rs: seq<Record>, num: real -> NumberText)
    ensures SplitOn(Csv(rs, num), '\n') == [Header] + CsvLines(rs, num)
    ensures |SplitOn(Csv(rs, num), '\n')| == |rs| + 1
    ensures rs == [] ==> Csv(rs, num) == Header
  {
    CsvSplitsIntoLines(rs, num);
    if rs == [] {
      assert [Header] + CsvLines(rs, num) == [Header];
    }
  }

  /** The temperatures never reach the export. */
  lemma CsvIgnoresTemps(r: Record, temps: seq<DailyTemperature>, num: real -> NumberText)
    ensures CsvLine(r.(temps := temps), num) == CsvLine(r, num)
  {
  }

  // ---------------------------------------------------------------------
  // The table

  class RecordStore {
    /** The rows by id. */
    var rows: map<int, Record>
    /** The table's sqlite_sequence entry: the largest id ever issued. */
    var lastId: nat
    /** Every id issued so far, including those of deleted rows. */
    ghost var issued: set<int>

    ghost predicate Valid()
      reads this
    {
      && (forall id :: id in rows ==> id in issued && rows[id].id == id)
      && (forall id :: id in issued ==> 1 <= id <= lastId)
    }

    constructor ()
      ensures Valid() && rows == map[] && lastId == 0 && issued == {}
    {
      rows := map[];
      lastId := 0;
      issued := {};
    }

    /** The INSERT of a resolved draft: the row gets the next id of the
        sequence, above every id ever issued. */
    method Insert(d: Draft, now: string) returns (rec: Record)
      requires Valid()
      modifies this
      ensures Valid()
      ensures rec == NewRecord(old(lastId) + 1, d, now)
      ensures forall id :: id in old(issued) ==> id < rec.id
      ensures rows == old(rows)[rec.id := rec] && lastId == rec.id && issued == old(issued) + {rec.id}
    {
      lastId := lastId + 1;
      rec := NewRecord(lastId, d, now);
      rows := rows[lastId := rec];
      issued := issued + {lastId};
    }

    /** POST /api/records: on success the row gets a fresh id above every id
        ever issued; on failure nothing changes. */
    method Create(b: Body, host: Host, now: string) returns (r: Result<Record, Error>, calls: seq<Call>)
      requires Valid()
      modifies this
      ensures Valid()
      ensures calls == PlanCreate(b, host).calls
      ensures PlanCreate(b, host).result.Failure? ==>
                r == Failure(PlanCreate(b, host).result.error)
                && rows == old(rows) && lastId == old(lastId) && issued == old(issued)
      ensures PlanCreate(b, host).result.Success? ==>
                && r == Success(NewRecord(old(lastId) + 1, PlanCreate(b, host).result.value, now))
                && (forall id :: id in old(issued) ==> id < r.value.id)
                && rows == old(rows)[r.value.id := r.value]
                && lastId == r.value.id && issued == old(issued) + {r.value.id}
    {
      var plan := PlanCreate(b, host);
      calls := plan.calls;
      if plan.result.Failure? {
        r := Failure(plan.result.error);
      } else {
        var rec := Insert(plan.result.value, now);
        r := Success(rec);
      }
    }

    /** GET /api/records: every row, by descending id. */
    method List() returns (rs: seq<Record>)
      requires Valid()
      ensures forall i, j :: 0 <= i < j < |rs| ==> rs[i].id > rs[j].id
      ensures forall i :: 0 <= i < |rs| ==> rs[i].id in rows && rows[rs[i].id] == rs[i]
      ensures forall id :: id in rows ==> rows[id] in rs
    {
      rs := ByIdDesc(rows, lastId);
      ByIdDescListsRows(rows, lastId);
    }

    /** GET /api/records/:id. */
    method Get(id: int) returns (r: Result<Record, Error>)
      requires Valid()
      ensures r.Success? <==> id in rows
      ensures r.Success? ==> r.value == rows[id] && r.value.id == id
      ensures r.Failure? ==> r.error == NotFound && HttpStatus(r.error) == 404
    {
      if id in rows {
        r := Success(rows[id]);
      } else {
        r := Failure(NotFound);
      }
    }

    /** PUT /api/records/:id: a missing row is reported before any check or
        upstream request; otherwise only that row changes, keeping its id,
        source and creation time. */
    method Update(id: int, b: Body, host: Host, now: string) returns (r: Result<Record, Error>, calls: seq<Call>)
      requires Valid()
      modifies this
      ensures Valid()
      ensures lastId == old(lastId) && issued == old(issued)
      ensures id !in old(rows) ==> r == Failure(NotFound) && calls == [] && rows == old(rows)
      ensures id in old(rows) ==>
                var plan := PlanUpdate(old(rows)[id], b, host);
                && calls == plan.calls
                && (plan.result.Failure? ==> r == Failure(plan.result.error) && rows == old(rows))
                && (plan.result.Success? ==>
                      r == Success(UpdatedRecord(old(rows)[id], plan.result.value, now))
                      && rows == old(rows)[id := r.value])
    {
      if id !in rows {
        r := Failure(NotFound);
        calls := [];
        return;
      }
      var plan := PlanUpdate(rows[id], b, host);
      calls := plan.calls;
      if plan.result.Failure? {
        r := Failure(plan.result.error);
      } else {
        var rec := Rewrite(id, plan.result.value, now);
        r := Success(rec);
      }
    }

    /** The UPDATE of an existing row with a resolved draft. */
    method Rewrite(id: int, d: Draft, now: string) returns (rec: Record)
      requires Valid() && id in rows
      modifies this
      ensures Valid()
      ensures rec == UpdatedRecord(old(rows)[id], d, now)
      ensures rows == old(rows)[id := rec] && lastId == old(lastId) && issued == old(issued)
    {
      rec := UpdatedRecord(rows[id], d, now);
      rows := rows[id := rec];
    }

    /** DELETE /api/records/:id: removes that row only, and reports whether
        there was one. */
    method Delete(id: int) returns (found: bool)
      requires Valid()
      modifies this
      ensures Valid()
      ensures found <==> id in old(rows)
      ensures rows == old(rows) - {id} && lastId == old(lastId) && issued == old(issued)
    {
      found := id in rows;
      rows := rows - {id};
    }

    /** GET /api/export.csv: the header, then one line per row by descending id. */
    method ExportCsv(num: real -> NumberText) returns (csv: string)
      requires Valid()
      ensures csv == Csv(ByIdDesc(rows, lastId), num)
      ensures SplitOn(csv, '\n') == [Header] + CsvLines(ByIdDesc(rows, lastId), num)
      ensures rows == map[] ==> csv == Header
    {
      var rs := ByIdDesc(rows, lastId);
      ByIdDescListsRows(rows, lastId);
      csv := Csv(rs, num);
      CsvOneLinePerRecord(rs, num);
      assert rs != [] ==> rs[0].id in rows;
    }
  }
}
