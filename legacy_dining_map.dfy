/** The older jQuery front end: the local snapshot expires 60 ms after its
    modification time, fresh data comes from Tabletop and is posted back whole,
    the city list always draws from the data it was built with, and the details
    pane emits the `Been?` line where that column stands. */
module LegacyDiningMap {
  import opened Dicts
  import opened Sheets
  import opened Freshness

  /** The outcome of `$.ajax({url: 'inc/sheetdata.json'})`. */
  datatype AjaxResponse =
    | AjaxError   // the request failed or the body did not parse
    | AjaxSuccess(fileTime: Num, data: Snapshot)  // `Last-Modified` in milliseconds, and the parsed body

  /** A Tabletop sheet model; `all()` gives its rows. */
  datatype TabletopModel = TabletopModel(elements: seq<Row>)

  /** A request the page sends. */
  datatype Request =
    | FetchNewData               // `Tabletop.init` on the published spreadsheet
    | SaveData(data: Snapshot)   // form-encoded POST of `dataToSave: JSON.stringify(data)`

  /** The exception `openDetails` ends with. */
  datatype JsError = ReferenceError(name: string)

  /** The `callback(newData, tabletop)` loop: `dataToUse[key] = tabletop.sheets(key).all()`
      for every sheet name in turn. The result has exactly the sheet names of
      `newData`, in their order, each with all the rows of its sheet. */
  method CollectSheets(newData: Dict<string, TabletopModel>) returns (dataToUse: Snapshot)
    ensures Keys(dataToUse) == Keys(newData)
    ensures forall i :: 0 <= i < |newData| ==> dataToUse[i].1 == newData[i].1.elements
  {
    dataToUse := [];
    var i := 0;
    while i < |newData|
      invariant 0 <= i <= |newData|
      invariant dataToUse == Collected(newData[..i])
    {
      var key := newData[i].0;
      GetAt(newData, i);
      var sheet := Get(newData, key);
      PrefixUnique(newData, i);
      PutFresh(dataToUse, key, sheet.value.elements);
      CollectedStep(newData, i);
      dataToUse := Put(dataToUse, key, sheet.value.elements);
      i := i + 1;
    }
    assert newData[..|newData|] == newData;
  }

  /** Each sheet name with all the rows of its sheet, in order. */
  function Collected(models: seq<(string, TabletopModel)>): (r: seq<(string, seq<Row>)>)
    ensures Keys(r) == Keys(models)
    ensures forall i :: 0 <= i < |models| ==> r[i].1 == models[i].1.elements
  {
    seq(|models|, i requires 0 <= i < |models| => (models[i].0, models[i].1.elements))
  }

  lemma CollectedStep(models: seq<(string, TabletopModel)>, i: nat)
    requires i < |models|
    ensures Collected(models[..i + 1]) == Collected(models[..i]) + [(models[i].0, models[i].1.elements)]
  {
    assert forall j :: 0 <= j < i ==> models[..i + 1][j] == models[..i][j];
  }

  /** The lines `openDetails`' switch emits for one column: the Yes/No line for
      `Been?`, nothing for Instagram, Website, Latitude, Longitude and Name, and
      otherwise a line when the value is not empty. */
  function SwitchCase(key: string, value: string): seq<Detail>
  {
    if key == "Been?" then [DetailLine(key, if value != "" then "Yes" else "No")]
    else if key == "Instagram" then []
    else if key == "Website" || key == "Latitude" || key == "Longitude" || key == "Name" then []
    else if value != "" then [DetailLine(key, value)]
    else []
  }

  /** The lines of the whole loop, in column order. */
  function PaneLines(row: seq<(string, string)>): seq<Detail>
    decreases |row|
  {
    if row == [] then []
    else
      var n := |row| - 1;
      PaneLines(row[..n]) + SwitchCase(row[n].0, row[n].1)
  }

  lemma {:induction false} PaneLinesAppend(a: seq<(string, string)>, b: seq<(string, string)>)
    ensures PaneLines(a + b) == PaneLines(a) + PaneLines(b)
    decreases |b|
  {
    if b != [] {
      var n := |b| - 1;
      assert (a + b)[..|a + b| - 1] == a + b[..n];
      PaneLinesAppend(a, b[..n]);
    } else {
      assert a + b == a;
    }
  }

  lemma PaneLinesSingle(p: (string, string))
    ensures PaneLines([p]) == SwitchCase(p.0, p.1)
  {
    assert [p][..0] == [];
  }

  /** One more column adds its switch case to the lines. */
  lemma PaneLinesStep(row: seq<(string, string)>, i: nat)
    requires i < |row|
    ensures PaneLines(row[..i + 1]) == PaneLines(row[..i]) + SwitchCase(row[i].0, row[i].1)
  {
    assert row[..i + 1][..i] == row[..i];
  }

  /** `openDetails`' loop, building the lines it appends to `.location__details`. */
  method BuildDetails(row: seq<(string, string)>) returns (pane: seq<Detail>)
    ensures pane == PaneLines(row)
  {
    pane := [];
    var i := 0;
    while i < |row|
      invariant 0 <= i <= |row|
      invariant pane == PaneLines(row[..i])
    {
      var key, value := row[i].0, row[i].1;
      PaneLinesStep(row, i);
      if key == "Been?" {
        pane := pane + [DetailLine(key, if value != "" then "Yes" else "No")];
      } else if key == "Instagram" {
      } else if key == "Website" || key == "Latitude" || key == "Longitude" || key == "Name" {
      } else if value != "" {
        pane := pane + [DetailLine(key, value)];
      }
      i := i + 1;
    }
    assert row[..|row|] == row;
  }

  /** No line of the legacy pane is a button. */
  lemma {:induction false} NoButton(row: seq<(string, string)>)
    ensures forall j :: 0 <= j < |PaneLines(row)| ==> PaneLines(row)[j].Line?
    decreases |row|
  {
    if row != [] { NoButton(row[..|row| - 1]); }
  }

  /** `addWebsiteLink(marker)` on the older page, given the heading already shown.
      The link is built by string concatenation, so a missing title or URL prints
      "undefined" in it. The plain branch calls `.text(marker.title)`, and jQuery
      reads `.text(undefined)` as the getter: a marker without a `Name` column
      leaves the heading as it was. Otherwise the heading is the current page's. */
  function LegacyHeading(previous: Heading, marker: Marker): (h: Heading)
    ensures marker.title.Some? || Get(marker.data, "Website") != Some("") ==> h == NameHeading(marker)
    ensures marker.title.None? && Get(marker.data, "Website") == Some("") ==> h == previous
  {
    var website := Get(marker.data, "Website");
    if website != Some("") then Linked(JsText(website), JsText(marker.title))
    else
      match marker.title
      case Some(title) => Plain(title)
      case None => previous
  }

  /** The page: the state of `js/main.js` and the parts of the document the model keeps. */
  class LegacyApp {
    var markers: seq<Marker>
    var options: seq<CityOption>
    var overlayData: Option<Snapshot>
    var overlayVisible: bool
    var minimal: bool
    var sidebarOpen: bool
    var heading: Heading
    var details: seq<Detail>
    var requests: seq<Request>

    /** Document ready, with the first `mobileBodyClass()` on a body without the class. */
    constructor (width: int)
      ensures markers == [] && options == [] && overlayData == None && !overlayVisible
      ensures minimal == (width < MinimalBreakpoint) && !sidebarOpen
      ensures heading == NoHeading && details == [] && requests == []
    {
      markers, options, overlayData, overlayVisible := [], [], None, false;
      minimal := NextMinimal(false, width);
      sidebarOpen, heading, details, requests := false, NoHeading, [], [];
    }

    /** `getNewData()`, up to the Tabletop request. */
    method GetNewData()
      modifies this`requests
      ensures requests == old(requests) + [FetchNewData]
    {
      requests := requests + [FetchNewData];
    }

    method InitMarkers(rows: seq<Row>)
      modifies this`markers
      ensures markers == old(markers) + NewMarkers(rows)
    {
      var i := 0;
      while i < |rows|
        invariant 0 <= i <= |rows|
        invariant markers == old(markers) + NewMarkers(rows[..i])
      {
        NewMarkersStep(rows, i);
        var row := rows[i];
        if Mappable(row) {
          markers := markers + [Marker(Get(row, "Name"), i, PinColour(row), row)];
        }
        i := i + 1;
      }
      assert rows[..|rows|] == rows;
    }

    method InitOverlay(cities: seq<string>, data: Snapshot)
      modifies this`options, this`overlayData, this`overlayVisible
      ensures options == old(options) + OptionsFor(cities)
      ensures overlayData == Some(data) && overlayVisible
    {
      var i := 0;
      while i < |cities|
        invariant 0 <= i <= |cities|
        invariant options == old(options) + OptionsFor(cities[..i])
      {
        options := options + [CityOption(cities[i], cities[i])];
        i := i + 1;
        assert OptionsFor(cities[..i]) ==
          OptionsFor(cities[..i - 1]) + [CityOption(cities[i - 1], cities[i - 1])];
      }
      assert cities[..|cities|] == cities;
      overlayVisible := true;
      overlayData := Some(data);
    }

    /** `sheetSelection(data)`; `ok` is false when it throws (no sheet at all). */
    method SheetSelection(data: Snapshot) returns (ok: bool)
      modifies this`markers, this`options, this`overlayData, this`overlayVisible
      ensures ok <==> data != []
      ensures markers == old(markers) + SelectedMarkers(data)
      ensures options == old(options) + SelectedOptions(data)
      ensures overlayData == if |data| > 1 then Some(data) else old(overlayData)
      ensures overlayVisible == (|data| > 1 || old(overlayVisible))
    {
      match Dispatch(data)
      case Overlay(cities) =>
        InitOverlay(cities, data);
        ok := true;
      case Render(rows) =>
        InitMarkers(rows);
        ok := true;
      case NoSheet =>
        ok := false;
    }

    /** The `$.ajax` success and error handlers: data older than 60 ms, or no
        data at all, leads to exactly one Tabletop request and nothing else;
        fresh data is dispatched. */
    method Start(response: AjaxResponse, now: int)
      modifies this`requests, this`markers, this`options, this`overlayData, this`overlayVisible
      ensures var remote := response.AjaxError? || IsStale(now, response.fileTime, Int(LegacyCacheTime));
        && requests == old(requests) + (if remote then [FetchNewData] else [])
        && (remote ==> markers == old(markers) && options == old(options) &&
                       overlayData == old(overlayData) && overlayVisible == old(overlayVisible))
        && (!remote ==> markers == old(markers) + SelectedMarkers(response.data) &&
                        options == old(options) + SelectedOptions(response.data) &&
                        overlayData == (if |response.data| > 1 then Some(response.data) else old(overlayData)) &&
                        overlayVisible == (|response.data| > 1 || old(overlayVisible)))
    {
      match response
      case AjaxError =>
        GetNewData();
      case AjaxSuccess(fileTime, data) =>
        if IsStale(now, fileTime, Int(LegacyCacheTime)) {
          GetNewData();
        } else {
          var _ := SheetSelection(data);
        }
    }

    /** The Tabletop callback: collect every sheet's rows, post them, then select. */
    method ReceiveTabletop(newData: Dict<string, TabletopModel>)
      modifies this`requests, this`markers, this`options, this`overlayData, this`overlayVisible
      ensures |requests| == |old(requests)| + 1 && requests[..|old(requests)|] == old(requests)
      ensures var saved := requests[|old(requests)|];
        && saved.SaveData?
        && Keys(saved.data) == Keys(newData)
        && (forall i :: 0 <= i < |newData| ==> saved.data[i].1 == newData[i].1.elements)
        && markers == old(markers) + SelectedMarkers(saved.data)
        && options == old(options) + SelectedOptions(saved.data)
        && overlayData == (if |saved.data| > 1 then Some(saved.data) else old(overlayData))
        && overlayVisible == (|saved.data| > 1 || old(overlayVisible))
    {
      var dataToUse := CollectSheets(newData);
      requests := requests + [SaveData(dataToUse)];
      var _ := SheetSelection(dataToUse);
    }

    /** The change listener: always draws `data[city]` from the data the list was
        built with; a city missing from it throws at `data.length`. */
    method ChangeCity(city: string) returns (threw: bool)
      modifies this`markers, this`overlayVisible
      ensures overlayData.None? ==> !threw && markers == old(markers) && overlayVisible == old(overlayVisible)
      ensures overlayData.Some? ==>
        var rows := Get(overlayData.value, city);
        && threw == rows.None?
        && markers == old(markers) + (if rows.Some? then NewMarkers(rows.value) else [])
        && overlayVisible == (threw && old(overlayVisible))
    {
      threw := false;
      if overlayData.Some? {
        var rows := Get(overlayData.value, city);
        if rows.None? {
          return true;
        }
        InitMarkers(rows.value);
        overlayVisible := false;
      }
    }

    method MobileBodyClass(width: int)
      modifies this`minimal
      ensures minimal == (width < MinimalBreakpoint)
    {
      minimal := NextMinimal(minimal, width);
    }

    method OpenMenu()
      modifies this`sidebarOpen
      ensures sidebarOpen == (old(sidebarOpen) || minimal)
    {
      if minimal {
        sidebarOpen := true;
      }
    }

    method CloseDetails()
      modifies this`sidebarOpen
      ensures !sidebarOpen
    {
      if sidebarOpen {
        sidebarOpen := false;
      }
    }

    /** `openDetails(marker)`: after the loop the code reads `website`, which is
        not declared in its scope, so it always ends in a ReferenceError and the
        website button is never appended. */
    method OpenDetails(marker: Marker) returns (error: JsError)
      modifies this`sidebarOpen, this`heading, this`details
      ensures sidebarOpen == (old(sidebarOpen) || minimal)
      ensures heading == LegacyHeading(old(heading), marker)
      ensures details == PaneLines(marker.data)
      ensures error == ReferenceError("website")
    {
      details := [];
      OpenMenu();
      assert sidebarOpen == (old(sidebarOpen) || minimal);
      heading := LegacyHeading(heading, marker);
      details := BuildDetails(marker.data);
      error := ReferenceError("website");
    }
  }
}
