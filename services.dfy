/** The server's helpers around the two upstream services (server/server.js):
    geocode, getTempsForRange and unitToOpenMeteoTemperature. Upstream
    responses and the engine's number formatting come in through Host; every
    upstream request made is recorded as a Call, in order. */
module Services {
  import opened Wrappers
  import opened Text
  import opened Coords
  import opened Dates

  /** The errors a record handler answers with. */
  datatype Error =
    | QueryRequired
    | BadRange(reason: RangeError)
    | GeocodingFailed(status: int)
    | NoMatchingPlace
    | ArchiveFailed(status: int)
    | NoData
    | MalformedArchive
    | NotFound

  /** The status line of the error response: 404 for a missing record, 400
      for everything else. */
  function HttpStatus(e: Error): (code: int)
    ensures code == 404 <==> e == NotFound
    ensures code == 400 || code == 404
  {
    if e == NotFound then 404 else 400
  }

  /** Text that Number::toString can produce: digits, sign, point and exponent. */
  predicate IsNumberChar(c: char) {
    IsDigit(c) || c == '-' || c == '+' || c == '.' || c == 'e'
  }

  type NumberText = s: string | forall i :: 0 <= i < |s| ==> IsNumberChar(s[i]) witness "0"

  /** One result of the geocoding search; a missing or null field is None. */
  datatype GeoResult = GeoResult(name: Option<string>, admin1: Option<string>, countryCode: Option<string>,
                                 latitude: real, longitude: real)

  datatype GeoResponse = GeoResponse(status: int, results: Option<seq<GeoResult>>)

  /** The query sent to the archive API. */
  datatype ArchiveQuery = ArchiveQuery(lat: real, lon: real, start: string, end: string, temperatureUnit: string)

  /** The daily block of an archive response: each array may be missing, and
      each entry may be null. */
  datatype Daily = Daily(time: Option<seq<string>>, tmin: Option<seq<Option<real>>>,
                         tmax: Option<seq<Option<real>>>, tmean: Option<seq<Option<real>>>)

  datatype ArchiveResponse = ArchiveResponse(status: int, daily: Option<Daily>)

  /** The upstream services and the engine's number formatting. */
  datatype Host = Host(geocoding: string -> GeoResponse, archive: ArchiveQuery -> ArchiveResponse,
                       toFixed3: real -> NumberText, numberText: real -> NumberText)

  datatype Call = GeocodeCall(name: string) | ArchiveCall(query: ArchiveQuery)

  /** The result of a step together with the upstream requests it made. */
  datatype Outcome<T> = Outcome(result: Result<T, Error>, calls: seq<Call>)

  datatype Place = Place(name: string, lat: real, lon: real)

  /** fetch's res.ok. */
  predicate IsOk(status: int) {
    200 <= status <= 299
  }

  /** unitToOpenMeteoTemperature: Fahrenheit exactly for 'imperial'. */
  function TemperatureUnit(units: string): (u: string)
    ensures u == "fahrenheit" || u == "celsius"
    ensures u == "fahrenheit" <==> units == "imperial"
  {
    if units == "imperial" then "fahrenheit" else "celsius"
  }

  // ---------------------------------------------------------------------
  // The place name

  /** The parts that filter(Boolean) keeps: present and non-empty, in order. */
  function PresentParts(parts: seq<Option<string>>): (kept: seq<string>)
    ensures |kept| <= |parts|
  {
    if parts == [] then [] else Kept(parts[0]) + PresentParts(parts[1..])
  }

  /** Every kept part is non-empty and comes from the list. */
  lemma {:induction false} PresentPartsFromList(parts: seq<Option<string>>)
    ensures forall i :: 0 <= i < |PresentParts(parts)| ==>
              PresentParts(parts)[i] != "" && Some(PresentParts(parts)[i]) in parts
  {
    if parts != [] {
      PresentPartsFromList(parts[1..]);
      var rest := PresentParts(parts[1..]);
      var kept := PresentParts(parts);
      forall i | 0 <= i < |kept| ensures kept[i] != "" && Some(kept[i]) in parts {
        if i >= |Kept(parts[0])| {
          assert kept[i] == rest[i - |Kept(parts[0])|];
          assert Some(kept[i]) in parts[1..];
        }
      }
    }
  }

  function PlaceName(r: GeoResult): string {
    Join(PresentParts([r.name, r.admin1, r.countryCode]), ", ")
  }

  /** A part that filter(Boolean) keeps, as a sequence of at most one. */
  function Kept(p: Option<string>): seq<string> {
    if p.Some? && p.value != "" then [p.value] else []
  }

  lemma JoinEmpty(parts: seq<string>, sep: string)
    requires forall i :: 0 <= i < |parts| ==> parts[i] != ""
    ensures Join(parts, sep) == "" <==> parts == []
  {
    if |parts| >= 2 {
      assert |Join(parts, sep)| >= |parts[0]|;
    }
  }

  /** The place name is the present, non-empty parts joined by ", ": it is
      empty exactly when no part is kept, and with all three parts present it
      is "name, admin1, country_code". */
  lemma PlaceNameParts(r: GeoResult)
    ensures PlaceName(r) == Join(Kept(r.name) + Kept(r.admin1) + Kept(r.countryCode), ", ")
    ensures PlaceName(r) == "" <==> Kept(r.name) == [] && Kept(r.admin1) == [] && Kept(r.countryCode) == []
    ensures Kept(r.name) != [] && Kept(r.admin1) != [] && Kept(r.countryCode) != [] ==>
              PlaceName(r) == r.name.value + ", " + r.admin1.value + ", " + r.countryCode.value
  {
    var kept := Kept(r.name) + Kept(r.admin1) + Kept(r.countryCode);
    PresentPartsOfThree(r.name, r.admin1, r.countryCode);
    JoinEmpty(kept, ", ");
    if |kept| == 3 {
      assert kept == [r.name.value, r.admin1.value, r.countryCode.value];
      JoinThree(r.name.value, r.admin1.value, r.countryCode.value, ", ");
    }
  }

  lemma PresentPartsOfThree(a: Option<string>, b: Option<string>, c: Option<string>)
    ensures PresentParts([a, b, c]) == Kept(a) + Kept(b) + Kept(c)
  {
    var p3, p2, p1 := [a, b, c], [b, c], [c];
    assert p3[1..] == p2 && p2[1..] == p1 && p1[1..] == [];
    assert PresentParts(p1) == Kept(c);
  }

  lemma JoinThree(a: string, b: string, c: string, sep: string)
    ensures Join([a, b, c], sep) == a + sep + b + sep + c
  {
    assert [a, b, c][1..] == [b, c];
    assert [b, c][1..] == [c];
    assert Join([b, c], sep) == b + sep + c;
    assert a + sep + (b + sep + c) == a + sep + b + sep + c;
  }

  // ---------------------------------------------------------------------
  // geocode

  /** The name given to a coordinate query: both numbers with three decimals,
      separated by ", ". Number text holds no comma, so the name splits back
      into the two numbers. */
  function CoordinateName(c: LatLon, host: Host): (name: string)
    ensures SplitOn(name, ',') == [host.toFixed3(c.lat), " " + host.toFixed3(c.lon)]
  {
    var a, b := host.toFixed3(c.lat), host.toFixed3(c.lon);
    NumberHasNoComma(a);
    NumberHasNoComma(b);
    assert ',' !in " " + b by {
      assert forall i :: 1 <= i < |" " + b| ==> (" " + b)[i] == b[i - 1];
    }
    assert Join([a, " " + b], ",") == a + ", " + b by {
      assert [a, " " + b][1..] == [" " + b];
    }
    SplitJoin([a, " " + b], ',');
    a + ", " + b
  }

  lemma NumberHasNoComma(t: NumberText)
    ensures ',' !in t
  {
    forall j | 0 <= j < |t| ensures t[j] != ',' {
      assert IsNumberChar(t[j]);
    }
  }

  /** geocode: a coordinate query is answered locally; any other query is
      looked up, and the first result is taken. */
  function Geocode(query: string, host: Host): (o: Outcome<Place>)
    ensures o.calls == [] <==> ParseMaybeCoords(query).Some?
    ensures o.calls != [] ==> o.calls == [GeocodeCall(query)]
    ensures ParseMaybeCoords(query).Some? ==>
              var c := ParseMaybeCoords(query).value;
              o.result == Success(Place(CoordinateName(c, host), c.lat, c.lon))
    ensures ParseMaybeCoords(query).None? ==>
              var res := host.geocoding(query);
              && (o.result == Failure(GeocodingFailed(res.status)) <==> !IsOk(res.status))
              && (o.result == Failure(NoMatchingPlace) <==>
                    IsOk(res.status) && (res.results.None? || |res.results.value| == 0))
              && (o.result.Success? <==> IsOk(res.status) && res.results.Some? && |res.results.value| > 0)
              && (o.result.Success? ==>
                    var r := res.results.value[0];
                    o.result.value == Place(PlaceName(r), r.latitude, r.longitude))
    ensures o.result.Failure? ==>
              o.result.error == NoMatchingPlace || o.result.error == GeocodingFailed(host.geocoding(query).status)
  {
    match ParseMaybeCoords(query)
    case Some(c) => Outcome(Success(Place(CoordinateName(c, host), c.lat, c.lon)), [])
    case None =>
      var res := host.geocoding(query);
      var calls := [GeocodeCall(query)];
      if !IsOk(res.status) then Outcome(Failure(GeocodingFailed(res.status)), calls)
      else if res.results.None? || |res.results.value| == 0 then Outcome(Failure(NoMatchingPlace), calls)
      else
        var r := res.results.value[0];
        Outcome(Success(Place(PlaceName(r), r.latitude, r.longitude)), calls)
  }

  /** A coordinate query keeps its text-derived coordinates within bounds. */
  lemma GeocodeCoordinatesInBounds(query: string, host: Host)
    requires ParseMaybeCoords(query).Some?
    ensures var p := Geocode(query, host).result.value;
      -90.0 <= p.lat <= 90.0 && -180.0 <= p.lon <= 180.0
  {
  }

  // ---------------------------------------------------------------------
  // getTempsForRange

  datatype DailyTemperature = DailyTemperature(date: string, tmin: Option<real>, tmax: Option<real>,
                                               tmean: Option<real>)

  /** arr[i] in JavaScript: undefined past the end, which the model does not
      tell apart from null. */
  function At(arr: seq<Option<real>>, i: nat): Option<real> {
    if i < |arr| then arr[i] else None
  }

  /** The index-wise zip of the archive arrays over the time array. */
  function ZipDaily(time: seq<string>, tmin: seq<Option<real>>, tmax: seq<Option<real>>,
                    tmean: seq<Option<real>>): (out: seq<DailyTemperature>)
    ensures |out| == |time|
    decreases |time|
  {
    if time == [] then []
    else
      [DailyTemperature(time[0], At(tmin, 0), At(tmax, 0), At(tmean, 0))]
      + ZipDaily(time[1..], Rest(tmin), Rest(tmax), Rest(tmean))
  }

  function Rest(arr: seq<Option<real>>): seq<Option<real>> {
    if arr == [] then [] else arr[1..]
  }

  function DateColumn(out: seq<DailyTemperature>): seq<string> {
    if out == [] then [] else [out[0].date] + DateColumn(out[1..])
  }

  function MinColumn(out: seq<DailyTemperature>): seq<Option<real>> {
    if out == [] then [] else [out[0].tmin] + MinColumn(out[1..])
  }

  function MaxColumn(out: seq<DailyTemperature>): seq<Option<real>> {
    if out == [] then [] else [out[0].tmax] + MaxColumn(out[1..])
  }

  function MeanColumn(out: seq<DailyTemperature>): seq<Option<real>> {
    if out == [] then [] else [out[0].tmean] + MeanColumn(out[1..])
  }

  /** Entry i of the zip holds the i-th date and the i-th entry of each
      array, null where an array is shorter. */
  lemma {:induction false} ZipDailyAt(time: seq<string>, tmin: seq<Option<real>>, tmax: seq<Option<real>>,
                                      tmean: seq<Option<real>>, i: nat)
    requires i < |time|
    ensures ZipDaily(time, tmin, tmax, tmean)[i]
         == DailyTemperature(time[i], At(tmin, i), At(tmax, i), At(tmean, i))
    decreases i
  {
    if i > 0 {
      ZipDailyAt(time[1..], Rest(tmin), Rest(tmax), Rest(tmean), i - 1);
      assert At(Rest(tmin), i - 1) == At(tmin, i);
      assert At(Rest(tmax), i - 1) == At(tmax, i);
      assert At(Rest(tmean), i - 1) == At(tmean, i);
    }
  }

  /** The zip loses nothing when the arrays are as long as the time array:
      its columns are the arrays again. */
  lemma {:induction false} UnzipZip(time: seq<string>, tmin: seq<Option<real>>, tmax: seq<Option<real>>,
                                    tmean: seq<Option<real>>)
    requires |tmin| == |time| && |tmax| == |time| && |tmean| == |time|
    ensures var out := ZipDaily(time, tmin, tmax, tmean);
      DateColumn(out) == time && MinColumn(out) == tmin && MaxColumn(out) == tmax && MeanColumn(out) == tmean
    decreases |time|
  {
    if time != [] {
      UnzipZip(time[1..], tmin[1..], tmax[1..], tmean[1..]);
      var head := DailyTemperature(time[0], tmin[0], tmax[0], tmean[0]);
      var rest := ZipDaily(time[1..], tmin[1..], tmax[1..], tmean[1..]);
      assert ZipDaily(time, tmin, tmax, tmean) == [head] + rest;
      ColumnsCons(head, rest);
      assert [time[0]] + time[1..] == time;
      assert [tmin[0]] + tmin[1..] == tmin;
      assert [tmax[0]] + tmax[1..] == tmax;
      assert [tmean[0]] + tmean[1..] == tmean;
    }
  }

  lemma ColumnsCons(d: DailyTemperature, rest: seq<DailyTemperature>)
    ensures DateColumn([d] + rest) == [d.date] + DateColumn(rest)
    ensures MinColumn([d] + rest) == [d.tmin] + MinColumn(rest)
    ensures MaxColumn([d] + rest) == [d.tmax] + MaxColumn(rest)
    ensures MeanColumn([d] + rest) == [d.tmean] + MeanColumn(rest)
  {
    assert ([d] + rest)[1..] == rest;
  }

  /** getTempsForRange: one archive request; a failed status, a response
      without daily.time, and a missing temperature array under a non-empty
      time array are errors, in that order. */
  function GetTempsForRange(lat: real, lon: real, start: string, end: string, units: string,
                            host: Host): (o: Outcome<seq<DailyTemperature>>)
    ensures o.calls == [ArchiveCall(ArchiveQuery(lat, lon, start, end, TemperatureUnit(units)))]
    ensures var res := host.archive(o.calls[0].query);
      && (o.result == Failure(ArchiveFailed(res.status)) <==> !IsOk(res.status))
      && (o.result == Failure(NoData) <==> IsOk(res.status) && (res.daily.None? || res.daily.value.time.None?))
      && (o.result == Failure(MalformedArchive) <==>
            && IsOk(res.status) && res.daily.Some? && res.daily.value.time.Some?
            && |res.daily.value.time.value| > 0
            && (res.daily.value.tmin.None? || res.daily.value.tmax.None? || res.daily.value.tmean.None?))
      && (o.result.Success? <==>
            && IsOk(res.status) && res.daily.Some? && res.daily.value.time.Some?
            && (|res.daily.value.time.value| == 0
                || (res.daily.value.tmin.Some? && res.daily.value.tmax.Some? && res.daily.value.tmean.Some?)))
    ensures o.result.Success? ==> var res := host.archive(o.calls[0].query);
      && IsOk(res.status) && res.daily.Some? && res.daily.value.time.Some?
      && var d := res.daily.value;
         var time := d.time.value;
         && |o.result.value| == |time|
         && forall i :: 0 <= i < |time| ==>
              o.result.value[i] == DailyTemperature(time[i], At(d.tmin.GetOr([]), i), At(d.tmax.GetOr([]), i),
                                                    At(d.tmean.GetOr([]), i))
    ensures o.result.Failure? ==>
              || o.result.error in {NoData, MalformedArchive}
              || o.result.error == ArchiveFailed(host.archive(o.calls[0].query).status)
  {
    var q := ArchiveQuery(lat, lon, start, end, TemperatureUnit(units));
    var res := host.archive(q);
    var calls := [ArchiveCall(q)];
    if !IsOk(res.status) then Outcome(Failure(ArchiveFailed(res.status)), calls)
    else if res.daily.None? || res.daily.value.time.None? then Outcome(Failure(NoData), calls)
    else
      var d := res.daily.value;
      var time := d.time.value;
      if |time| > 0 && (d.tmin.None? || d.tmax.None? || d.tmean.None?) then Outcome(Failure(MalformedArchive), calls)
      else
        var out := ZipDaily(time, d.tmin.GetOr([]), d.tmax.GetOr([]), d.tmean.GetOr([]));
        forall i | 0 <= i < |out|
          ensures out[i] == DailyTemperature(time[i], At(d.tmin.GetOr([]), i), At(d.tmax.GetOr([]), i),
                                             At(d.tmean.GetOr([]), i))
        {
          ZipDailyAt(time, d.tmin.GetOr([]), d.tmax.GetOr([]), d.tmean.GetOr([]), i);
        }
        Outcome(Success(out), calls)
  }
}
