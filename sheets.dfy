/** The data rules both front ends share: which spreadsheet rows become markers and
    in which colour, how a snapshot of sheets is dispatched to the selection list
    or straight to the map, how a column name becomes a CSS class suffix, and the
    body's `minimal` flag for narrow windows. */
module Sheets {
  import opened Dicts

  /** One spreadsheet row: column name to cell text, in column order. */
  type Row = Dict<string, string>

  /** The cached document: sheet (city) name to its rows, in document order. */
  type Snapshot = Dict<string, seq<Row>>

  /** The marker filter `Latitude !== '' && Longitude !== '' && Status === ''`.
      A missing column reads as `undefined`, which is `!== ''`: a row without a
      Latitude column passes the first test, a row without a Status column fails
      the last. */
  predicate Mappable(row: Row)
  {
    Get(row, "Latitude") != Some("") && Get(row, "Longitude") != Some("") && Get(row, "Status") == Some("")
  }

  const VisitedColour := "#1392db"
  const NotVisitedColour := "#ee1c24"

  /** The pin colour: blue for a visited place (`Been?` is not the empty string,
      a missing column included), red otherwise. */
  function PinColour(row: Row): (colour: string)
    ensures colour == VisitedColour <==> Get(row, "Been?") != Some("")
    ensures colour == NotVisitedColour <==> Get(row, "Been?") == Some("")
  {
    if Get(row, "Been?") != Some("") then VisitedColour else NotVisitedColour
  }

  /** The part of a map marker the model keeps: its title (`Name`, which may be
      undefined), the index of its source row, its colour and the row itself. */
  datatype Marker = Marker(title: Option<string>, keyId: nat, colour: string, data: Row)

  /** The marker for row `i`. */
  function MarkerAt(rows: seq<Row>, i: nat): Marker
    requires i < |rows|
  {
    Marker(Get(rows[i], "Name"), i, PinColour(rows[i]), rows[i])
  }

  /** The markers one `initMarkers(rows)` call adds, in the order the loop pushes them. */
  function NewMarkers(rows: seq<Row>): (ms: seq<Marker>)
    decreases |rows|
  {
    if rows == [] then []
    else
      var n := |rows| - 1;
      NewMarkers(rows[..n]) + (if Mappable(rows[n]) then [MarkerAt(rows, n)] else [])
  }

  /** One more row adds its marker when it is mappable. */
  lemma NewMarkersStep(rows: seq<Row>, i: nat)
    requires i < |rows|
    ensures NewMarkers(rows[..i + 1]) == NewMarkers(rows[..i]) +
      if Mappable(rows[i]) then [Marker(Get(rows[i], "Name"), i, PinColour(rows[i]), rows[i])] else []
  {
    assert rows[..i + 1][..i] == rows[..i];
  }

  /** Every added marker comes from a mappable row, carries that row's index, name
      and colour, and the markers are in increasing row order. */
  lemma {:induction false} NewMarkersSound(rows: seq<Row>)
    ensures forall j :: 0 <= j < |NewMarkers(rows)| ==>
      NewMarkers(rows)[j].keyId < |rows| &&
      Mappable(rows[NewMarkers(rows)[j].keyId]) &&
      NewMarkers(rows)[j] == MarkerAt(rows, NewMarkers(rows)[j].keyId)
    ensures forall j, j' :: 0 <= j < j' < |NewMarkers(rows)| ==>
      NewMarkers(rows)[j].keyId < NewMarkers(rows)[j'].keyId
    decreases |rows|
  {
    if rows != [] {
      var n := |rows| - 1;
      var prefix := rows[..n];
      NewMarkersSound(prefix);
      var before := NewMarkers(prefix);
      assert forall j :: 0 <= j < |before| ==> MarkerAt(prefix, before[j].keyId) == MarkerAt(rows, before[j].keyId);
    }
  }

  /** Every mappable row yields a marker, and no other row does. */
  lemma {:induction false} NewMarkersComplete(rows: seq<Row>, i: nat)
    requires i < |rows|
    ensures MarkerAt(rows, i) in NewMarkers(rows) <==> Mappable(rows[i])
    decreases |rows|
  {
    var n := |rows| - 1;
    var prefix := rows[..n];
    var before := NewMarkers(prefix);
    var added := if Mappable(rows[n]) then [MarkerAt(rows, n)] else [];
    assert NewMarkers(rows) == before + added;
    NewMarkersSound(prefix);
    if i < n {
      NewMarkersComplete(prefix, i);
      assert MarkerAt(prefix, i) == MarkerAt(rows, i);
      assert MarkerAt(rows, i) !in added;
    } else {
      assert MarkerAt(rows, i) !in before by {
        forall j | 0 <= j < |before| ensures before[j] != MarkerAt(rows, i) {
          assert before[j].keyId < n;
        }
      }
    }
  }

  /** What `selectSheet(data)` does with a snapshot. */
  datatype Selection =
    | Overlay(cities: seq<string>)  // more than one sheet: build the selection list
    | Render(rows: seq<Row>)        // exactly one sheet: draw its markers at once
    | NoSheet                       // no sheet: `initMarkers(undefined)` throws a TypeError

  /** The selection dispatch of both front ends on `Object.keys(data)`. */
  function Dispatch(data: Snapshot): (s: Selection)
    ensures s.Overlay? <==> |data| > 1
    ensures s.Overlay? ==> s.cities == Keys(data)
    ensures s.Render? <==> |data| == 1
    ensures s.Render? ==> s.rows == data[0].1 && Get(data, data[0].0) == Some(s.rows)
    ensures s == NoSheet <==> data == []
  {
    var cities := Keys(data);
    if |cities| > 1 then Overlay(cities)
    else if cities == [] then NoSheet
    else
      GetAt(data, 0);
      Render(Get(data, cities[0]).value)
  }

  /** An `<option>` of the city selection list. */
  datatype CityOption = CityOption(value: string, text: string)

  function OptionsFor(cities: seq<string>): (os: seq<CityOption>)
    ensures |os| == |cities|
    ensures forall i :: 0 <= i < |cities| ==> os[i] == CityOption(cities[i], cities[i])
  {
    seq(|cities|, i requires 0 <= i < |cities| => CityOption(cities[i], cities[i]))
  }

  /** The markers and options one `selectSheet(data)` call adds (`sheetSelection(data)`
      in the older page). */
  function SelectedMarkers(data: Snapshot): seq<Marker>
  {
    match Dispatch(data)
    case Render(rows) => NewMarkers(rows)
    case _ => []
  }

  function SelectedOptions(data: Snapshot): seq<CityOption>
  {
    match Dispatch(data)
    case Overlay(cities) => OptionsFor(cities)
    case _ => []
  }

  /** The characters a cleaned key can contain. */
  predicate IsCssChar(c: char)
  {
    'a' <= c <= 'z' || '0' <= c <= '9'
  }

  /** `toLowerCase` on the ASCII letters. */
  function Lower(c: char): char
  {
    if 'A' <= c <= 'Z' then (c as int - 'A' as int + 'a' as int) as char else c
  }

  /** `key.toLowerCase().replace(/[^a-zA-Z0-9]+/g, '')`: lower-case the key, then
      drop every character that is not an ASCII letter or digit. */
  function CleanKey(key: string): (clean: string)
    ensures |clean| <= |key|
    ensures forall i :: 0 <= i < |clean| ==> IsCssChar(clean[i])
    decreases |key|
  {
    if key == [] then []
    else
      var c := Lower(key[0]);
      (if IsCssChar(c) then [c] else []) + CleanKey(key[1..])
  }

  /** A key is left alone by cleaning exactly when it is already made of `[a-z0-9]`. */
  lemma {:induction false} CleanKeyFixed(key: string)
    ensures CleanKey(key) == key <==> forall i :: 0 <= i < |key| ==> IsCssChar(key[i])
    decreases |key|
  {
    if key != [] {
      CleanKeyFixed(key[1..]);
      if forall i :: 0 <= i < |key| ==> IsCssChar(key[i]) {
        assert IsCssChar(key[0]) && Lower(key[0]) == key[0];
        assert forall i :: 0 <= i < |key[1..]| ==> IsCssChar(key[1..][i]);
      }
    }
  }

  /** Cleaning is idempotent. */
  lemma CleanKeyIdempotent(key: string)
    ensures CleanKey(CleanKey(key)) == CleanKey(key)
  {
    CleanKeyFixed(CleanKey(key));
  }

  /** A line of the details pane or its website button; each carries the CSS class
      `location__<cleaned key>`. */
  datatype Detail =
    | Line(cssClass: string, key: string, value: string)
    | Button(cssClass: string, text: string, url: string)

  /** `buildSingleDetail(key, value)`. */
  function DetailLine(key: string, value: string): (d: Detail)
    ensures d.Line? && d.key == key && d.value == value
    ensures d.cssClass == "location__" + CleanKey(key)
  {
    Line("location__" + CleanKey(key), key, value)
  }

  /** `buildSiteButton(key, url)`. */
  function SiteButton(key: string, url: string): Detail
  {
    Button("location__" + CleanKey(key), key, url)
  }

  /** The Yes/No text of the `Been?` line: `No` exactly for the empty string. */
  function BeenLabel(been: Option<string>): string
  {
    if been != Some("") then "Yes" else "No"
  }

  /** Every class in a pane is `location__` followed by `[a-z0-9]` only. */
  predicate WellClassed(pane: seq<Detail>)
  {
    forall j :: 0 <= j < |pane| ==>
      |pane[j].cssClass| >= 10 && pane[j].cssClass[..10] == "location__" &&
      forall i :: 10 <= i < |pane[j].cssClass| ==> IsCssChar(pane[j].cssClass[i])
  }

  /** How JavaScript turns a possibly missing string into text: `undefined` prints as "undefined". */
  function JsText(v: Option<string>): string
  {
    match v
    case Some(s) => s
    case None => "undefined"
  }

  /** The `.location__name` heading `addWebsiteLink` writes. */
  datatype Heading = NoHeading | Plain(title: string) | Linked(href: string, title: string)

  /** `addWebsiteLink(marker)` on the current page: the title becomes a link unless
      `Website` is the empty string, so a row with no Website column links to
      "undefined"; `innerText` prints a missing title as "undefined" too. */
  function NameHeading(marker: Marker): (h: Heading)
    ensures h.Linked? <==> Get(marker.data, "Website") != Some("")
    ensures h.Linked? ==> h.href == JsText(Get(marker.data, "Website"))
    ensures h != NoHeading && h.title == JsText(marker.title)
  {
    var website := Get(marker.data, "Website");
    if website != Some("") then Linked(JsText(website), JsText(marker.title))
    else Plain(JsText(marker.title))
  }

  const MinimalBreakpoint := 768

  /** `mobileBodyClass`: add `minimal` below the breakpoint when it is missing,
      remove it at or above the breakpoint when it is present. Whatever the flag
      was, afterwards it says whether the window is narrower than 768 pixels. */
  function NextMinimal(hasClass: bool, width: int): (minimal: bool)
    ensures minimal <==> width < MinimalBreakpoint
  {
    if width < MinimalBreakpoint && !hasClass then true
    else if width >= MinimalBreakpoint && hasClass then false
    else hasClass
  }
}
