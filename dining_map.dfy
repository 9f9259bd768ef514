/** The current front end: it reads the local snapshot, decides from its age
    whether to use it or to ask the spreadsheet for its sheet titles, dispatches
    the sheets to a city list or straight to the map, and fills the details pane
    of a clicked marker. Network replies arrive as method arguments; what the page
    sends out is recorded in `requests`. */
module DiningMap {
  import opened Dicts
  import opened Sheets
  import opened Freshness

  /** What reading `./inc/sheetdata.json` gives. */
  datatype LocalResponse =
    | Failed    // the fetch rejected or the status was not ok
    | Received(fileTime: Num, document: Option<Snapshot>)
      // `Last-Modified` in milliseconds (NaN when it does not parse), and the body,
      // `None` when `response.json()` rejects

  /** A request the page sends. */
  datatype Request =
    | FetchTitles                   // the spreadsheet's metadata
    | SaveTitles(titles: Snapshot)  // POST of `{type: 'titles', dataToSave}` to the cache writer
    | FetchSheet(sheet: string)     // the CSV export of one sheet, by the name in the URL

  /** The first position of `t` in `ts`. */
  function FirstIndex(ts: seq<string>, t: string): (i: nat)
    requires t in ts
    ensures i < |ts| && ts[i] == t && t !in ts[..i]
  {
    if ts[0] == t then 0
    else
      var i := 1 + FirstIndex(ts[1..], t);
      assert ts[..i] == [ts[0]] + ts[1..][..i - 1];
      i
  }

  lemma FirstIndexOfPrefix(ts: seq<string>, n: nat, t: string)
    requires n <= |ts| && t in ts[..n]
    ensures FirstIndex(ts[..n], t) == FirstIndex(ts, t)
  {
  }

  /** The title map `getNewSheets` builds: `sheetsTitles[title] = []` for each
      sheet in turn. */
  function TitleMap(titles: seq<string>): Snapshot
    decreases |titles|
  {
    if titles == [] then []
    else Put(TitleMap(titles[..|titles| - 1]), titles[|titles| - 1], [])
  }

  /** The title map has exactly the sheet titles as keys, and every value is the
      empty list. */
  lemma {:induction false} TitleMapKeys(titles: seq<string>)
    ensures forall t :: t in Keys(TitleMap(titles)) <==> t in titles
    ensures forall t :: t in titles ==> Get(TitleMap(titles), t) == Some([])
    decreases |titles|
  {
    if titles != [] {
      var n := |titles| - 1;
      var prefix := titles[..n];
      TitleMapKeys(prefix);
      var before := TitleMap(prefix);
      assert titles == prefix + [titles[n]];
      forall t | t in titles ensures Get(TitleMap(titles), t) == Some([]) {
        PutGet(before, titles[n], [], t);
      }
    }
  }

  /** A title that occurs more than once is one key, and the keys come in the order
      in which each title first occurs. */
  lemma {:induction false} TitleMapOrder(titles: seq<string>)
    ensures forall i :: 0 <= i < |Keys(TitleMap(titles))| ==> Keys(TitleMap(titles))[i] in titles
    ensures forall i, j :: 0 <= i < j < |Keys(TitleMap(titles))| ==>
      FirstIndex(titles, Keys(TitleMap(titles))[i]) < FirstIndex(titles, Keys(TitleMap(titles))[j])
    decreases |titles|
  {
    if titles != [] {
      var n := |titles| - 1;
      var prefix := titles[..n];
      var last := titles[n];
      TitleMapOrder(prefix);
      assert titles == prefix + [last];
      TitleMapKeys(prefix);
      var kb := Keys(TitleMap(prefix));
      assert Keys(TitleMap(titles)) == if last in kb then kb else kb + [last];
      KeyOrderStep(prefix, last, kb);
    }
  }

  /** The order of first occurrences survives one more title: an old title keeps
      its first position, and a new one comes after all of them. */
  lemma KeyOrderStep(prefix: seq<string>, last: string, kb: seq<string>)
    requires forall t :: t in kb <==> t in prefix
    requires forall i, j :: 0 <= i < j < |kb| ==> FirstIndex(prefix, kb[i]) < FirstIndex(prefix, kb[j])
    ensures var titles := prefix + [last];
      var ka := if last in kb then kb else kb + [last];
      (forall i :: 0 <= i < |ka| ==> ka[i] in titles) &&
      (forall i, j :: 0 <= i < j < |ka| ==> FirstIndex(titles, ka[i]) < FirstIndex(titles, ka[j]))
  {
    var titles := prefix + [last];
    var n := |prefix|;
    assert titles[..n] == prefix;
    forall i | 0 <= i < |kb|
      ensures kb[i] in prefix && kb[i] in titles && FirstIndex(titles, kb[i]) == FirstIndex(prefix, kb[i])
    {
      assert kb[i] in kb;
      FirstIndexOfPrefix(titles, n, kb[i]);
    }
    if last !in kb {
      assert titles[n] == last;
      assert FirstIndex(titles, last) == n;
    }
  }

  /** `${ data[city] }` in the CSV URL: an array prints its elements, each a row
      object printing as "[object Object]", joined by commas; a missing entry
      prints as "undefined". */
  function SheetParam(value: Option<seq<Row>>): string
  {
    match value
    case None => "undefined"
    case Some(rows) => ArrayText(|rows|)
  }

  function ArrayText(n: nat): string
  {
    if n == 0 then "" else if n == 1 then "[object Object]" else ArrayText(n - 1) + ",[object Object]"
  }

  /** On the remote path the change handler asks for `data[city]`, which is the
      title map's empty list, so every city selects the sheet named "". */
  lemma RemoteChangeAsksForEmptyName(titles: seq<string>, city: string)
    requires city in titles
    ensures SheetParam(Get(TitleMap(titles), city)) == ""
  {
    TitleMapKeys(titles);
  }

  /** The local snapshot is not used when it cannot be read, is malformed, is
      stale, or holds no sheet at all (`selectSheet` then throws inside the
      promise chain, and the chain's `catch` asks for the titles). */
  predicate GoesRemote(response: LocalResponse, now: int, ttl: Num)
  {
    match response
    case Failed => true
    case Received(fileTime, document) =>
      document.None? || IsStale(now, fileTime, ttl) || document.value == []
  }

  /** Columns the details pane never lists. */
  const Excluded: seq<string> := ["Instagram", "Website", "Latitude", "Longitude", "Name", "Been?"]

  /** The lines the `for (key in marker.data)` loop appends: every column not
      excluded whose value is not empty, in column order. */
  function ListedLines(row: seq<(string, string)>): seq<Detail>
    decreases |row|
  {
    if row == [] then []
    else
      var n := |row| - 1;
      ListedLines(row[..n]) +
        (if row[n].0 !in Excluded && row[n].1 != "" then [DetailLine(row[n].0, row[n].1)] else [])
  }

  /** `marker.data.Website || ''`. */
  function WebsiteOf(row: seq<(string, string)>): string
  {
    match Get(row, "Website")
    case Some(w) => w
    case None => ""
  }

  /** The button appended after the loop when `Website || ''` is not empty. */
  function WebsiteButton(row: seq<(string, string)>): seq<Detail>
  {
    if WebsiteOf(row) != "" then [SiteButton("Website", WebsiteOf(row))] else []
  }

  /** The details pane `openDetails` fills: the Been? line, the listed lines, and
      the website button last when there is a website. */
  function DetailPane(row: seq<(string, string)>): seq<Detail>
  {
    [DetailLine("Been?", BeenLabel(Get(row, "Been?")))] + ListedLines(row) + WebsiteButton(row)
  }

  lemma {:induction false} ListedLinesAppend(a: seq<(string, string)>, b: seq<(string, string)>)
    ensures ListedLines(a + b) == ListedLines(a) + ListedLines(b)
    decreases |b|
  {
    if b != [] {
      var n := |b| - 1;
      assert (a + b)[..|a + b| - 1] == a + b[..n];
      ListedLinesAppend(a, b[..n]);
    } else {
      assert a + b == a;
    }
  }

  /** One more column adds its line when it is listed. */
  lemma ListedLinesStep(row: seq<(string, string)>, i: nat)
    requires i < |row|
    ensures ListedLines(row[..i + 1]) == ListedLines(row[..i]) +
      if row[i].0 !in Excluded && row[i].1 != "" then [DetailLine(row[i].0, row[i].1)] else []
  {
    assert row[..i + 1][..i] == row[..i];
  }

  /** Column `i` is listed, and `d` is its line. */
  predicate ListedAt(row: seq<(string, string)>, i: int, d: Detail)
  {
    0 <= i < |row| && row[i].0 !in Excluded && row[i].1 != "" && d == DetailLine(row[i].0, row[i].1)
  }

  /** A line is listed exactly when some column is not excluded, has a value that
      is not empty, and the line is built from it. */
  lemma {:induction false} ListedLinesMembers(row: seq<(string, string)>, d: Detail)
    ensures d in ListedLines(row) <==> exists i :: ListedAt(row, i, d)
    decreases |row|
  {
    if row != [] {
      var n := |row| - 1;
      var prefix := row[..n];
      var added := if row[n].0 !in Excluded && row[n].1 != "" then [DetailLine(row[n].0, row[n].1)] else [];
      assert ListedLines(row) == ListedLines(prefix) + added;
      ListedLinesMembers(prefix, d);
      if d in ListedLines(prefix) {
        var i :| ListedAt(prefix, i, d);
        assert row[i] == prefix[i];
        assert ListedAt(row, i, d);
      } else if d in added {
        assert ListedAt(row, n, d);
      }
      if exists i :: ListedAt(row, i, d) {
        var i :| ListedAt(row, i, d);
        if i < n {
          assert prefix[i] == row[i];
          assert ListedAt(prefix, i, d);
        } else {
          assert d in added;
        }
      }
    }
  }

  lemma {:induction false} ListedLinesAreLines(row: seq<(string, string)>)
    ensures forall j :: 0 <= j < |ListedLines(row)| ==>
      (ListedLines(row)[j].Line? && ListedLines(row)[j].key !in Excluded && ListedLines(row)[j].value != "" &&
       ListedLines(row)[j] == DetailLine(ListedLines(row)[j].key, ListedLines(row)[j].value))
    decreases |row|
  {
    if row != [] { ListedLinesAreLines(row[..|row| - 1]); }
  }

  /** The indices of the columns the loop lists, in the order it visits them. */
  function ListedColumns(row: seq<(string, string)>): seq<nat>
    decreases |row|
  {
    if row == [] then []
    else
      var n := |row| - 1;
      ListedColumns(row[..n]) + (if row[n].0 !in Excluded && row[n].1 != "" then [n] else [])
  }

  /** The listed lines are in column order: line `j` is built from column
      `ListedColumns(row)[j]`, and those columns strictly increase. */
  lemma {:induction false} ListedLinesOrder(row: seq<(string, string)>)
    ensures |ListedColumns(row)| == |ListedLines(row)|
    ensures forall j :: 0 <= j < |ListedLines(row)| ==> ListedAt(row, ListedColumns(row)[j], ListedLines(row)[j])
    ensures forall j, j' :: 0 <= j < j' < |ListedColumns(row)| ==> ListedColumns(row)[j] < ListedColumns(row)[j']
    decreases |row|
  {
    if row != [] {
      var n := |row| - 1;
      var prefix := row[..n];
      ListedLinesOrder(prefix);
      var cols, lines := ListedColumns(prefix), ListedLines(prefix);
      forall j | 0 <= j < |lines| ensures ListedAt(row, cols[j], lines[j]) {
        assert ListedAt(prefix, cols[j], lines[j]);
        assert prefix[cols[j]] == row[cols[j]];
      }
      forall j | 0 <= j < |cols| ensures cols[j] < n {
        assert ListedAt(prefix, cols[j], lines[j]);
      }
    }
  }

  lemma ClassOfKey(key: string, value: string)
    ensures WellClassed([DetailLine(key, value)]) && WellClassed([SiteButton(key, value)])
  {
    var c := "location__" + CleanKey(key);
    assert c[..10] == "location__";
    assert forall i :: 10 <= i < |c| ==> c[i] == CleanKey(key)[i - 10];
  }

  lemma WellClassedAppend(a: seq<Detail>, b: seq<Detail>)
    requires WellClassed(a) && WellClassed(b)
    ensures WellClassed(a + b)
  {
    assert forall j :: |a| <= j < |a + b| ==> (a + b)[j] == b[j - |a|];
  }

  lemma {:induction false} ListedLinesWellClassed(row: seq<(string, string)>)
    ensures WellClassed(ListedLines(row))
    decreases |row|
  {
    if row != [] {
      var n := |row| - 1;
      ListedLinesWellClassed(row[..n]);
      ClassOfKey(row[n].0, row[n].1);
      WellClassedAppend(ListedLines(row[..n]),
        if row[n].0 !in Excluded && row[n].1 != "" then [DetailLine(row[n].0, row[n].1)] else []);
    }
  }

  /** The shape of the pane: the Been? line first (Yes unless the cell is the empty
      string), then exactly the listed lines, all plain lines of listed columns, and
      the website button last exactly when `Website || ''` is not empty. */
  lemma DetailPaneShape(row: Row)
    ensures DetailPane(row)[0] == DetailLine("Been?", BeenLabel(Get(row, "Been?")))
    ensures var pane := DetailPane(row);
      (pane[|pane| - 1].Button? <==> WebsiteOf(row) != "") &&
      (pane[|pane| - 1].Button? ==> pane[|pane| - 1] == SiteButton("Website", WebsiteOf(row)))
    ensures var pane := DetailPane(row);
      |pane| == 1 + |ListedLines(row)| + |WebsiteButton(row)| &&
      pane[1..|pane| - |WebsiteButton(row)|] == ListedLines(row) &&
      forall j :: 0 < j < |pane| - |WebsiteButton(row)| ==>
        pane[j].Line? && pane[j].key !in Excluded && pane[j].value != ""
  {
    ListedLinesAreLines(row);
    PaneOf(DetailLine("Been?", BeenLabel(Get(row, "Been?"))), ListedLines(row), WebsiteButton(row));
  }

  /** The shape of a pane made of a first line, listed lines and at most one button. */
  lemma PaneOf(been: Detail, listed: seq<Detail>, button: seq<Detail>)
    requires been.Line?
    requires forall j :: 0 <= j < |listed| ==> listed[j].Line? && listed[j].key !in Excluded && listed[j].value != ""
    requires button == [] || (|button| == 1 && button[0].Button?)
    ensures var pane := [been] + listed + button;
      pane[0] == been &&
      (pane[|pane| - 1].Button? <==> button != []) &&
      (button != [] ==> pane[|pane| - 1] == button[0]) &&
      pane[1..|pane| - |button|] == listed &&
      forall j :: 0 < j < |pane| - |button| ==> pane[j].Line? && pane[j].key !in Excluded && pane[j].value != ""
  {
    var pane := [been] + listed + button;
    assert pane[1..|pane| - |button|] == listed;
    forall j | 0 < j < |pane| - |button|
      ensures pane[j].Line? && pane[j].key !in Excluded && pane[j].value != ""
    {
      assert pane[j] == listed[j - 1];
    }
    if button == [] && listed != [] {
      assert pane[|pane| - 1] == listed[|listed| - 1];
    }
  }

  /** Every class in the pane is `location__` followed by a cleaned key. */
  lemma DetailPaneWellClassed(row: Row)
    ensures WellClassed(DetailPane(row))
  {
    ClassOfKey("Been?", BeenLabel(Get(row, "Been?")));
    ClassOfKey("Website", WebsiteOf(row));
    ListedLinesWellClassed(row);
    var button := WebsiteButton(row);
    WellClassedAppend([DetailLine("Been?", BeenLabel(Get(row, "Been?")))], ListedLines(row));
    WellClassedAppend([DetailLine("Been?", BeenLabel(Get(row, "Been?")))] + ListedLines(row), button);
  }

  /** `openDetails`' loop over the row, building the pane it appends to
      `.location__details`. */
  method BuildDetails(row: seq<(string, string)>) returns (pane: seq<Detail>)
    ensures pane == DetailPane(row)
  {
    var website := WebsiteOf(row);
    var been := DetailLine("Been?", BeenLabel(Get(row, "Been?")));
    pane := [been];
    var i := 0;
    while i < |row|
      invariant 0 <= i <= |row|
      invariant pane == [been] + ListedLines(row[..i])
    {
      var key, value := row[i].0, row[i].1;
      ListedLinesStep(row, i);
      if key !in Excluded && value != "" {
        pane := pane + [DetailLine(key, value)];
      }
      i := i + 1;
    }
    assert row[..|row|] == row;
    if website != "" {
      pane := pane + [SiteButton("Website", website)];
    }
  }

  /** The page: the module-level state of `src/js/main.js` and the parts of the
      document the model keeps. */
  class App {
    const ttl: Num
    var useLocalData: bool
    var markers: seq<Marker>
    var options: seq<CityOption>
    var overlayData: Option<Snapshot>   // the snapshot the change listener closes over
    var overlayVisible: bool
    var minimal: bool
    var sidebarOpen: bool
    var heading: Heading
    var details: seq<Detail>
    var requests: seq<Request>

    /** Page load: the TTL from the `cache` parameter, the initial flags, and the
        first `mobileBodyClass()` call on a body without the class. */
    constructor (cacheParam: Option<string>, innerWidth: int)
      ensures ttl == CacheTtl(cacheParam)
      ensures useLocalData
      ensures markers == [] && options == [] && overlayData == None && !overlayVisible
      ensures minimal == (innerWidth < MinimalBreakpoint) && !sidebarOpen
      ensures heading == NoHeading && details == [] && requests == []
    {
      ttl := CacheTtl(cacheParam);
      useLocalData := true;
      markers, options, overlayData, overlayVisible := [], [], None, false;
      minimal := NextMinimal(false, innerWidth);
      sidebarOpen, heading, details, requests := false, NoHeading, [], [];
    }

    /** `getLocalFile`: a failed read throws before the flag is touched; otherwise
        `useLocalData` becomes "not stale" and the document is handed on. */
    method GetLocalFile(response: LocalResponse, now: int) returns (file: Option<Snapshot>)
      modifies this`useLocalData
      ensures response.Failed? ==> file == None && useLocalData == old(useLocalData)
      ensures response.Received? ==>
        file == response.document && useLocalData == !IsStale(now, response.fileTime, ttl)
    {
      match response
      case Failed =>
        file := None;
      case Received(fileTime, document) =>
        useLocalData := if IsStale(now, fileTime, ttl) then false else true;
        file := document;
    }

    /** `getNewSheets`, up to the request it sends. */
    method GetNewSheets()
      modifies this`requests
      ensures requests == old(requests) + [FetchTitles]
    {
      requests := requests + [FetchTitles];
    }

    /** `initMarkers(rows)`: push a marker for every mappable row, in row order,
        after the markers already on the map. */
    method InitMarkers(rows: seq<Row>)
      modifies this`markers
      ensures markers == old(markers) + NewMarkers(rows)
    {
      var i := 0;
      while i < |rows|
        invariant 0 <= i <= |rows|
        invariant markers == old(markers) + NewMarkers(rows[..i])
      {
        NewMarkersStep(rows, i);
        var row := rows[i];
        if Mappable(row) {
          markers := markers + [Marker(Get(row, "Name"), i, PinColour(row), row)];
        }
        i := i + 1;
      }
      assert rows[..|rows|] == rows;
    }

    /** `initOverlay(cities, data)`: one option per city, in order, then the overlay
        is shown and the change listener holds `data`. */
    method InitOverlay(cities: seq<string>, data: Snapshot)
      modifies this`options, this`overlayData, this`overlayVisible
      ensures options == old(options) + OptionsFor(cities)
      ensures overlayData == Some(data) && overlayVisible
    {
      var i := 0;
      while i < |cities|
        invariant 0 <= i <= |cities|
        invariant options == old(options) + OptionsFor(cities[..i])
      {
        options := options + [CityOption(cities[i], cities[i])];
        i := i + 1;
        assert OptionsFor(cities[..i]) == OptionsFor(cities[..i - 1]) + [CityOption(cities[i - 1], cities[i - 1])];
      }
      assert cities[..|cities|] == cities;
      overlayVisible := true;
      overlayData := Some(data);
    }

    /** `selectSheet(data)`; `ok` is false when it throws (no sheet at all). */
    method SelectSheet(data: Snapshot) returns (ok: bool)
      modifies this`markers, this`options, this`overlayData, this`overlayVisible
      ensures ok <==> data != []
      ensures markers == old(markers) + SelectedMarkers(data)
      ensures options == old(options) + SelectedOptions(data)
      ensures overlayData == if |data| > 1 then Some(data) else old(overlayData)
      ensures overlayVisible == (|data| > 1 || old(overlayVisible))
    {
      match Dispatch(data)
      case Overlay(cities) =>
        InitOverlay(cities, data);
        ok := true;
      case Render(rows) =>
        InitMarkers(rows);
        ok := true;
      case NoSheet =>
        ok := false;
    }

    /** Page start: read the local file; a fresh and readable snapshot with at
        least one sheet is dispatched, and every other outcome sends exactly one
        titles request and changes nothing else yet. */
    method Start(response: LocalResponse, now: int)
      modifies this`useLocalData, this`requests, this`markers, this`options, this`overlayData, this`overlayVisible
      ensures useLocalData == if response.Received? then !IsStale(now, response.fileTime, ttl) else old(useLocalData)
      ensures requests == old(requests) + if GoesRemote(response, now, ttl) then [FetchTitles] else []
      ensures GoesRemote(response, now, ttl) ==>
        markers == old(markers) && options == old(options) &&
        overlayData == old(overlayData) && overlayVisible == old(overlayVisible)
      ensures !GoesRemote(response, now, ttl) ==>
        var data := response.document.value;
        && markers == old(markers) + SelectedMarkers(data)
        && options == old(options) + SelectedOptions(data)
        && overlayData == (if |data| > 1 then Some(data) else old(overlayData))
        && overlayVisible == (|data| > 1 || old(overlayVisible))
    {
      var file := GetLocalFile(response, now);
      if file.Some? && useLocalData {
        var ok := SelectSheet(file.value);
        if !ok {
          GetNewSheets();
        }
      } else {
        GetNewSheets();
      }
    }

    /** The titles reply of `getNewSheets`: a failed reply throws into an unhandled
        rejection; otherwise the title map is posted to the cache writer and then
        dispatched. */
    method ReceiveTitles(titles: Option<seq<string>>)
      modifies this`requests, this`markers, this`options, this`overlayData, this`overlayVisible
      ensures titles.None? ==>
        requests == old(requests) && markers == old(markers) && options == old(options) &&
        overlayData == old(overlayData) && overlayVisible == old(overlayVisible)
      ensures titles.Some? ==>
        var data := TitleMap(titles.value);
        && requests == old(requests) + [SaveTitles(data)]
        && markers == old(markers) + SelectedMarkers(data)
        && options == old(options) + SelectedOptions(data)
        && overlayData == (if |data| > 1 then Some(data) else old(overlayData))
        && overlayVisible == (|data| > 1 || old(overlayVisible))
    {
      if titles.Some? {
        var data := TitleMap(titles.value);
        requests := requests + [SaveTitles(data)];
        var _ := SelectSheet(data);
      }
    }

    /** The selection list's change listener. With local data the city's rows are
        drawn (a city missing from the data throws at `data.length`); otherwise
        the CSV of the sheet named `${ data[city] }` is requested. The overlay
        fades out unless the handler threw. */
    method ChangeCity(city: string) returns (threw: bool)
      modifies this`markers, this`requests, this`overlayVisible
      ensures overlayData.None? ==>
        !threw && markers == old(markers) && requests == old(requests) && overlayVisible == old(overlayVisible)
      ensures overlayData.Some? && useLocalData ==>
        var rows := Get(overlayData.value, city);
        && threw == rows.None?
        && markers == old(markers) + (if rows.Some? then NewMarkers(rows.value) else [])
        && requests == old(requests)
        && overlayVisible == (threw && old(overlayVisible))
      ensures overlayData.Some? && !useLocalData ==>
        && !threw
        && markers == old(markers)
        && requests == old(requests) + [FetchSheet(SheetParam(Get(overlayData.value, city)))]
        && !overlayVisible
    {
      threw := false;
      if overlayData.Some? {
        var data := overlayData.value;
        if useLocalData {
          var rows := Get(data, city);
          if rows.None? {
            return true;
          }
          InitMarkers(rows.value);
        } else {
          requests := requests + [FetchSheet(SheetParam(Get(data, city)))];
        }
        overlayVisible := false;
      }
    }

    /** The CSV reply of `getNewSheetData`, already parsed into rows; a failed
        reply throws into an unhandled rejection. */
    method ReceiveSheet(rows: Option<seq<Row>>)
      modifies this`markers
      ensures markers == old(markers) + if rows.Some? then NewMarkers(rows.value) else []
    {
      if rows.Some? {
        InitMarkers(rows.value);
      }
    }

    /** `mobileBodyClass()` after a resize to `innerWidth`. */
    method MobileBodyClass(innerWidth: int)
      modifies this`minimal
      ensures minimal == (innerWidth < MinimalBreakpoint)
    {
      minimal := NextMinimal(minimal, innerWidth);
    }

    /** `openMenu()`: the sidebar opens on narrow screens. */
    method OpenMenu()
      modifies this`sidebarOpen
      ensures sidebarOpen == (old(sidebarOpen) || minimal)
    {
      if minimal {
        sidebarOpen := true;
      }
    }

    /** The `.location__close` click handler. */
    method CloseDetails()
      modifies this`sidebarOpen
      ensures !sidebarOpen
    {
      if sidebarOpen {
        sidebarOpen := false;
      }
    }

    /** `openDetails(marker)`: open the sidebar on narrow screens, set the heading
        and replace the pane's contents. */
    method OpenDetails(marker: Marker)
      modifies this`sidebarOpen, this`heading, this`details
      ensures sidebarOpen == (old(sidebarOpen) || minimal)
      ensures heading == NameHeading(marker)
      ensures details == DetailPane(marker.data)
    {
      OpenMenu();
      assert sidebarOpen == (old(sidebarOpen) || minimal);
      heading := NameHeading(marker);
      var pane := BuildDetails(marker.data);
      details := pane;
    }
  }
}
