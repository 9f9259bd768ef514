# google-sheets-map, modelled in Dafny

google-sheets-map draws restaurants from a Google spreadsheet as markers on a map.
There is one spreadsheet tab per city and one row per place.

There are two front ends:

- `src/js/main.js` is the current, fetch-based page.
- `js/main.js` is the older jQuery/Tabletop page.

Both keep a local snapshot of the spreadsheet in `inc/sheetdata.json`, which `inc/savedata.php` rewrites.

Underneath the map, network and DOM glue sit a few exact rules, and this project models them:

- **Freshness.** The local snapshot is stale once the current time is past its `Last-Modified` time plus a time-to-live.
  - The current page reads the TTL from a `cache` query parameter, through `parseInt`. The default is 30 days.
  - The older page uses 60 ms.
- **Selection dispatch.** A snapshot with more than one sheet fills a city selection list, in key order. A snapshot with exactly one sheet is drawn at once.
- **Marker pipeline.** A row becomes a marker when `Latitude` and `Longitude` are not `''` and `Status` is `''`. Its colour comes from `Been?`. Markers accumulate across calls.
- **Details pane.** The pane is an ordered list of lines built from a row. Each line has the CSS class `location__<key>`, where the key is lower-cased and stripped of anything that is not an ASCII letter or digit.
- **Responsive flag.** The body carries the `minimal` class exactly when the window is narrower than 768 px.
- **Cache writer.**
  - A request must carry a non-empty `type` and `dataToSave`, where "empty" follows PHP's `empty()`. Otherwise the answer is a 400 JSON error.
  - A valid request truncates the file.
  - A `titles` request writes back the posted sheet names. Each name keeps the rows the old file held for it.

Module layout:

- **`Dicts`** (`dicts.dfy`) holds ordered dictionaries. A JavaScript object and a PHP array are both a sequence of key/value pairs with unique keys. Assignment replaces a value in place or appends a new key.
- **`Numerals`** (`numerals.dfy`) holds digits and decimal numerals.
- **`Freshness`** (`freshness.dfy`) holds `parseInt`, the TTL and the staleness test. JavaScript's NaN is modelled explicitly.
- **`Sheets`** (`sheets.dfy`) holds the rules both front ends share: the marker filter and colour, the selection dispatch with the city options it builds, and key cleaning.
- **`DiningMap`** (`dining_map.dfy`) is the current page, as the class `App`.
  - Its fields are the module state: `useLocalData`, the marker list, the option list, the overlay, the body and sidebar classes, the heading and the pane. It also records the requests the page sends.
  - Network replies arrive as method arguments.
- **`LegacyDiningMap`** (`legacy_dining_map.dfy`) is the older page, as the class `LegacyApp`. It does not depend on the current page's module.
- **`Panes`** (`panes.dfy`) compares the two pages' details panes. It imports both page modules.
- **`SaveData`** (`save_data.dfy`) is the cache writer, as the class `CacheWriter`. It has the cache file as a field and `Handle` for one POST.
  - JSON values are modelled, together with PHP's integer-like array keys, the `(array)` cast, `empty()` and `json_encode`'s choice between a list and an object.

Several behaviours of the code are modelled exactly as written:

- **Current page:**
  - If the local file cannot be read, `useLocalData` keeps its initial `true`. The titles fetched instead are therefore handled as local data. Choosing a city then draws the title map's empty list, so no markers appear (`App.Start`, `App.ChangeCity`).
  - On the remote path, the change handler requests the CSV of the sheet named `${ data[city] }`. That is the title map's `[]`, which prints as `""`, not the city name (`RemoteChangeAsksForEmptyName`).
  - A fresh snapshot with no sheets makes `selectSheet` throw inside the promise chain. The chain's `catch` then asks for the titles (`GoesRemote`).
  - A row with no Website column has a heading that links to `undefined` (`NameHeading`).
- **Older page:**
  - `openDetails` reads an undeclared `website` after its loop. It ends in a ReferenceError, and the website button is never appended (`LegacyApp.OpenDetails`). This assumes the page defines no global `website` (an element with `id="website"` would be one).
  - A marker with no `Name` column and an empty `Website` leaves the previous heading in place, because jQuery's `.text(undefined)` reads instead of writing (`LegacyHeading`).
  - It posts `dataToSave` form-encoded and without a `type`. The cache writer does not see JSON, so it rejects every such post with a 400 (`OnlyObjectsAccepted`).
- **Cache writer:**
  - A valid request of any type other than `titles` leaves the cache file empty (`OtherTypeEmptiesCache`).
  - A JSON object is never `empty()`, so a titles request with no titles is accepted. It writes an empty list.

## Model

| member | source | states |
|---|---|---|
| Dicts.Get | src/js/main.js:221 | Property lookup: found iff the key is present, and then the value paired with it |
| Dicts.Put | src/js/main.js:104 | Property assignment keeps the keys, or appends the new key last |
| Dicts.PutGet | src/js/main.js:104 | After assigning `v` to key `k`, reading `k` gives `v` and every other key reads as before |
| Dicts.PutExisting | inc/savedata.php:40 | Assigning to a key that is present replaces its value in place; key order is unchanged |
| Dicts.PutFresh | js/main.js:132 | Assigning to a key that is absent appends it at the end |
| Freshness.CacheTtl | src/js/main.js:8 | An absent or empty `cache` parameter gives the TTL 2592000000 ms; any other value is passed to `parseInt` |
| Freshness.ParseIntOfIntString | src/js/main.js:87 | `parseInt` of an integer's decimal text gives that integer back |
| Freshness.ParseIntIsNaN | src/js/main.js:87 | `parseInt` gives NaN iff no digit follows the leading whitespace, the optional sign and any `0x` prefix (so ".5", "v2", "-x1", "0x" and "0xg" are NaN) |
| Freshness.NoDigitsIsNaN | src/js/main.js:87 | `parseInt` of a string with no decimal digit is NaN |
| Freshness.ParseInt | src/js/main.js:87 | Definition of `parseInt` without a radix: leading whitespace, one sign, `0x` selecting base 16, the longest digit run, NaN for none; proved by `ParseIntOfIntString`, `ParseIntIsNaN` and `NoDigitsIsNaN` |
| Freshness.IsStale | src/js/main.js:86-89 | Definition of `nowTime > fileTime + ttl`, false when either side is NaN; its content is `StaleRule` |
| Freshness.StaleRule | src/js/main.js:83-89 | Stale iff the TTL is a number and `now > fileTime + ttl`; the default is 30 days; `now == fileTime + ttl` counts as fresh |
| Freshness.ZeroParameter | src/js/main.js:87-89 | `?cache=0` gives TTL 0, so data is stale as soon as `now > fileTime` |
| Freshness.NonNumericParameterIsFresh | src/js/main.js:87-89 | Every `cache` value that parses to NaN (no digit after its whitespace, sign and `0x` prefix) leaves the data fresh at every time |
| Sheets.PinColour | src/js/main.js:263 | `#1392db` iff `Been?` is not `''` (a missing column included), else `#ee1c24` |
| Sheets.NewMarkersSound | src/js/main.js:256-282 | Every added marker comes from a mappable row and carries that row's index as `keyId`, its `Name` as title, its colour and the row itself; keyIds strictly increase |
| Sheets.NewMarkersComplete | src/js/main.js:260 | Row `i` gets a marker iff `Latitude !== ''`, `Longitude !== ''` and `Status === ''`; a missing Status excludes the row, a missing Latitude does not |
| Sheets.Dispatch | src/js/main.js:166-174 | More than one sheet builds the list of all sheet names in key order; exactly one renders that sheet's rows; none is the failing `initMarkers(undefined)` |
| Sheets.CleanKey | src/js/main.js:441 | A cleaned key is no longer than the key and contains only `[a-z0-9]` |
| Sheets.CleanKeyFixed | src/js/main.js:441 | Cleaning leaves a key unchanged iff it is already made only of `[a-z0-9]` |
| Sheets.CleanKeyIdempotent | src/js/main.js:441 | Cleaning twice is the same as cleaning once |
| Sheets.DetailLine | src/js/main.js:440-448 | Definition of `buildSingleDetail`: a line of key and value with the class `location__` + the cleaned key; what the class may contain is proved by `DiningMap.ClassOfKey` and `DiningMap.DetailPaneWellClassed` |
| Sheets.SiteButton | src/js/main.js:450-460 | Definition of `buildSiteButton`: a button showing the key, linking to the URL, with the class `location__` + the cleaned key |
| Sheets.Mappable | src/js/main.js:260 | Definition of the marker filter on `Get`: a missing Latitude or Longitude passes, a missing Status fails; proved to decide markers by `NewMarkersComplete` |
| Sheets.MarkerAt | src/js/main.js:265-273 | Definition of the marker built for row `i`: title `result.Name` (possibly missing), `keyId` `i`, the pin colour and the row as `data`; used by `NewMarkersSound` and `NewMarkersComplete` |
| Sheets.BeenLabel | src/js/main.js:395 | Definition of the Yes/No text: `No` exactly for the empty string, `Yes` otherwise, a missing column included (js/main.js:351 is the same rule) |
| Sheets.NewMarkers | src/js/main.js:256-282 | Definition of the markers one `initMarkers(rows)` adds, in loop order; its properties are `NewMarkersSound` and `NewMarkersComplete` |
| Sheets.NameHeading | src/js/main.js:425-438 | On the current page the heading is a link iff `Website !== ''` (a missing column links to "undefined"); its text is the marker title, "undefined" when it is missing |
| Sheets.NextMinimal | src/js/main.js:329-337 | Whatever the previous flag was, afterwards `minimal` iff `innerWidth < 768` |
| Sheets.OptionsFor | src/js/main.js:207-213 | Definition of the `<option>` list: one per city, in order, value and text both the city name; the loop that builds it is `App.InitOverlay` |
| DiningMap.TitleMapKeys | src/js/main.js:102-107 | The title map's keys are exactly the sheet titles, and every title maps to `[]` |
| DiningMap.TitleMap | src/js/main.js:102-105 | Definition of `sheetsTitles[title] = []` for each title in turn, as ordered-dictionary assignment |
| DiningMap.TitleMapOrder | src/js/main.js:102-107 | Duplicate titles collapse to one key, and keys follow the order of each title's first occurrence (insertion order; see "Left out" for integer-like titles) |
| DiningMap.SheetParam | src/js/main.js:223 | Definition of `${ data[city] }`: a missing entry prints "undefined", an array of rows prints one "[object Object]" per row, joined by commas |
| DiningMap.RemoteChangeAsksForEmptyName | src/js/main.js:223 | On the remote path, every listed city requests the sheet named `""` |
| DiningMap.GoesRemote | src/js/main.js:140-158 | Definition of when the page asks for the titles: the read failed, the body did not parse, the file is stale, or it holds no sheet; used by `App.Start` |
| DiningMap.ListedLines | src/js/main.js:399-408 | Definition of the lines the `for…in` loop appends, in column order; its properties are `ListedLinesMembers`, `ListedLinesAreLines` and `ListedLinesOrder` |
| DiningMap.WebsiteOf | src/js/main.js:379 | Definition of the website the pane uses: the Website cell, or `''` when the column is missing (`marker.data.Website` or `''`) |
| DiningMap.WebsiteButton | src/js/main.js:410-415 | Definition of what follows the loop: one `buildSiteButton('Website', website)` when `WebsiteOf` is not `''`, nothing otherwise; its place in the pane is `DetailPaneShape` |
| DiningMap.DetailPane | src/js/main.js:395-415 | Definition of the whole pane: the Been? line, the listed lines, then the website button when `WebsiteOf` is not `''`; its shape is `DetailPaneShape` |
| DiningMap.ListedColumns | src/js/main.js:399-408 | Definition of the columns the `for…in` loop lists: indices of columns not excluded whose value is not `''`, in visiting order |
| DiningMap.ListedLinesOrder | src/js/main.js:399-408 | The listed lines are in column order: line `j` is built from column `ListedColumns(row)[j]`, and those column indices strictly increase |
| DiningMap.ListedLinesMembers | src/js/main.js:399-408 | A line is listed iff some column is not excluded, has a non-empty value, and that line is built from it |
| DiningMap.ListedLinesAreLines | src/js/main.js:399-408 | Every listed entry is a plain line of a non-excluded column with a non-empty value |
| DiningMap.ClassOfKey | src/js/main.js:440-460 | Lines and buttons both carry a class `location__` followed only by `[a-z0-9]` |
| DiningMap.DetailPaneShape | src/js/main.js:395-415 | The Been? Yes/No line comes first; everything between it and the optional button is exactly the listed lines, all plain lines of listed columns; the Website button comes last iff the Website cell is present and not empty |
| DiningMap.DetailPaneWellClassed | src/js/main.js:395-415 | Every class in the pane is `location__` + `[a-z0-9]*` |
| DiningMap.BuildDetails | src/js/main.js:379-415 | The loop builds exactly the pane described by `DetailPane` |
| DiningMap.App.constructor | src/js/main.js:8-9 | The TTL comes from the `cache` parameter; `useLocalData` starts true; `minimal` follows the first `mobileBodyClass()` |
| DiningMap.App.GetLocalFile | src/js/main.js:71-92 | A failed read leaves `useLocalData` unchanged and yields nothing; otherwise `useLocalData` is "not stale" and the document is passed on |
| DiningMap.App.GetNewSheets | src/js/main.js:94-95 | Exactly one titles request is sent |
| DiningMap.App.InitMarkers | src/js/main.js:255-297 | The markers are the earlier markers followed by those of the mappable rows, in row order |
| DiningMap.App.InitOverlay | src/js/main.js:202-215 | The options are extended by one per city, in order; the overlay is shown and the listener holds the data |
| DiningMap.App.SelectSheet | src/js/main.js:166-174 | Markers and options grow as `Dispatch` says; it fails exactly on a snapshot with no sheet |
| DiningMap.App.Start | src/js/main.js:140-158 | A failed, unparsable, stale or sheetless local file sends exactly one titles request and draws nothing; a fresh file is dispatched with no request |
| DiningMap.App.ReceiveTitles | src/js/main.js:101-111 | The title map is posted once to the cache writer and then dispatched; a failed reply changes nothing |
| DiningMap.App.ChangeCity | src/js/main.js:217-233 | With local data `data[city]` is drawn (a missing city throws, and the overlay stays); otherwise one CSV request for `${ data[city] }` is sent; the overlay hides unless the handler threw |
| DiningMap.App.ReceiveSheet | src/js/main.js:224-226 | The parsed sheet's mappable rows are appended as markers |
| DiningMap.App.MobileBodyClass | src/js/main.js:329-337 | `minimal` iff `innerWidth < 768` |
| DiningMap.App.OpenMenu | src/js/main.js:418-423 | The sidebar opens when the body is `minimal`, and is otherwise left as it was |
| DiningMap.App.CloseDetails | src/js/main.js:176-184 | The sidebar is closed |
| DiningMap.App.OpenDetails | src/js/main.js:375-416 | The sidebar opens on narrow screens, the heading follows `NameHeading`, and the pane is `DetailPane` of the row |
| LegacyDiningMap.CollectSheets | js/main.js:129-133 | The collected map has exactly the sheet names of `newData`, in order, each with all rows of its sheet |
| LegacyDiningMap.SwitchCase | js/main.js:349-374 | Definition of the switch on one column: the Yes/No line for `Been?`, nothing for Instagram, Website, Latitude, Longitude and Name, otherwise a line when the value is not `''` |
| LegacyDiningMap.PaneLines | js/main.js:348-375 | Definition of the lines of the whole `for…in` loop, in column order; related to the current page by the `Panes` lemmas |
| Panes.PaneLinesWithoutBeen | js/main.js:348-375 | A row without `Been?` gets no Yes/No line: the switch lists exactly what the current page's loop lists |
| Panes.BeenAtItsPosition | js/main.js:348-357 | The Yes/No line sits at the `Been?` column's own position, between the columns before and after it |
| Panes.SameAsCurrentWhenBeenFirst | js/main.js:348-375 | With `Been?` as the first column, the legacy pane plus the website button is the current pane |
| LegacyDiningMap.BuildDetails | js/main.js:348-375 | The switch loop builds exactly `PaneLines` of the row |
| LegacyDiningMap.NoButton | js/main.js:348-383 | No entry of the legacy pane is a button |
| LegacyDiningMap.LegacyApp.constructor | js/main.js:48-74 | Nothing is drawn yet; `minimal` follows the first `mobileBodyClass()` |
| LegacyDiningMap.LegacyApp.GetNewData | js/main.js:122-126 | Exactly one Tabletop request is sent |
| LegacyDiningMap.LegacyApp.InitMarkers | js/main.js:212-254 | The markers are the earlier markers followed by those of the mappable rows, in row order |
| LegacyDiningMap.LegacyApp.InitOverlay | js/main.js:182-196 | One option per city, in order; the overlay is shown |
| LegacyDiningMap.LegacyApp.SheetSelection | js/main.js:171-180 | Markers and options grow as `Dispatch` says; it fails exactly on a snapshot with no sheet |
| LegacyDiningMap.LegacyApp.Start | js/main.js:80-107 | An error, or data for which `now > fileTime + 60`, sends exactly one Tabletop request and draws nothing; otherwise the data is dispatched, with markers, options, the listener's data and the overlay flag as `SheetSelection` sets them |
| LegacyDiningMap.LegacyApp.ReceiveTabletop | js/main.js:127-145 | One save request is sent, carrying exactly the sheet names and rows; the same map is then dispatched, with markers, options, the listener's data and the overlay flag as `SheetSelection` sets them |
| LegacyDiningMap.LegacyApp.ChangeCity | js/main.js:198-204 | Always draws the listed data's `data[city]`; the overlay hides unless a missing city threw |
| LegacyDiningMap.LegacyApp.MobileBodyClass | js/main.js:291-300 | `minimal` iff the width is below 768 |
| LegacyDiningMap.LegacyApp.OpenMenu | js/main.js:385-390 | The sidebar opens when the body is `minimal` |
| LegacyDiningMap.LegacyApp.CloseDetails | js/main.js:109-117 | The sidebar is closed |
| LegacyDiningMap.LegacyHeading | js/main.js:392-405 | The older page's heading is the current page's, except that a marker with no `Name` and an empty `Website` keeps the heading already shown, since jQuery's `.text(undefined)` writes nothing |
| LegacyDiningMap.LegacyApp.OpenDetails | js/main.js:338-383 | The heading becomes `LegacyHeading` of the one shown before; the pane lines are written; then it always ends in a ReferenceError on `website`, so no button is appended |
| SaveData.KeyOf | inc/savedata.php:10 | A member name becomes a string key exactly when it is not a canonical decimal integer, and then keeps its spelling |
| SaveData.KeyRoundTrip | inc/savedata.php:44 | Writing a valid key as a member name and reading it back gives the same key |
| SaveData.KeyTextOfKeyOf | inc/savedata.php:10 | Reading a name as a key and writing it back gives the same name, and the key is valid |
| SaveData.KeyOfInjective | inc/savedata.php:10 | Two names give the same key iff they are the same name |
| SaveData.ListArray | inc/savedata.php:10 | Definition of the `(array)` cast of a JSON list: item `i` under integer key `i`; used by `ToArrayValid` and `EncodeRoundTrip` |
| SaveData.ObjectArray | inc/savedata.php:10 | Definition of the `(array)` cast of a JSON object: each member under the key of its name, a repeated name keeping its first position and its last value; its properties are `ObjectLookup` and `ObjectArrayDistinct` |
| SaveData.ToArray | inc/savedata.php:10 | Definition of the `(array)` cast of any JSON value: null gives `[]`, a scalar gives `[0 => value]`, lists and objects as above |
| SaveData.ToArrayValid | inc/savedata.php:10 | Every key the `(array)` cast produces is one PHP can hold |
| SaveData.ObjectLookup | inc/savedata.php:12-13 | Looking up a non-numeric name in a cast object finds the last member of that name, or nothing |
| SaveData.ObjectArrayDistinct | inc/savedata.php:13 | A cast object with distinct names has one entry per member, in order, under the key of its name |
| SaveData.IsEmpty | inc/savedata.php:12-13 | Definition of PHP's `empty()` on a looked-up value: missing, null, false, 0, `""`, `"0"` and `[]` are empty; an object never is |
| SaveData.Validate | inc/savedata.php:10-15 | An accepted request has a non-empty type and a `dataToSave` whose keys are all valid |
| SaveData.ObjectBody | inc/savedata.php:10-15 | An object body is accepted iff its `type` and `dataToSave` are not `empty()`, and then carries exactly those values, with `dataToSave` cast to an array |
| SaveData.OnlyObjectsAccepted | inc/savedata.php:10-26 | A body that is not JSON, or not a JSON object, is always rejected |
| SaveData.EncodeRoundTrip | inc/savedata.php:44 | Decoding and casting what `json_encode` wrote gives back exactly the array that was written |
| SaveData.ReadArray | inc/savedata.php:29 | Definition of the old file's contents: the `(array)` cast of its JSON, `[]` for a missing, empty or unparsable file |
| SaveData.Encode | inc/savedata.php:44 | Definition of `json_encode` on an array: a list when the keys are 0, 1, 2, … in order, otherwise an object; its inverse is `EncodeRoundTrip` |
| SaveData.MergeTitles | inc/savedata.php:36-42 | The merged array has exactly the posted keys, in posted order |
| SaveData.MergeLookup | inc/savedata.php:36-42 | A key that was not posted is gone; a posted key found in the old file keeps the old value; any other posted key keeps the posted value |
| SaveData.MergeIdempotent | inc/savedata.php:36-42 | Merging the same titles into an already merged array changes nothing |
| SaveData.TitlesCache | inc/savedata.php:28-44 | After a titles request the file reads back as the posted keys in order, old rows kept for known names, posted values for new names, and unposted sheets dropped |
| SaveData.OtherTypeEmptiesCache | inc/savedata.php:30-47 | Any other valid type leaves the file truncated and empty |
| SaveData.SaveIdempotent | inc/savedata.php:28-47 | Handling the same valid request twice leaves the same file as handling it once |
| SaveData.AfterSave | inc/savedata.php:28-47 | Definition of the file after a valid request: the encoded merge for `titles`, empty for any other type; its properties are `TitlesCache`, `OtherTypeEmptiesCache` and `SaveIdempotent` |
| SaveData.RowJson | src/js/main.js:123-126 | Definition of `JSON.stringify` of one row: an object with one string member per column, in column order |
| SaveData.SnapshotJson | src/js/main.js:123-126 | Definition of `JSON.stringify` of a snapshot: an object with one member per sheet, named after the sheet and in order, each an array of `RowJson` of its rows; its cast is `SnapshotKeys` |
| SaveData.TitlesBody | src/js/main.js:123-126 | Definition of the body `saveSheetsTitles` posts: an object with `type` `"titles"` then `dataToSave` the stringified title map; it is accepted by `TitlesBodyAccepted` |
| SaveData.TitlesBodyAccepted | inc/savedata.php:12-15 | The current page's titles post is always accepted as a `titles` request, however few titles it carries |
| SaveData.SnapshotKeys | inc/savedata.php:13 | A posted snapshot casts to one entry per sheet name, in order, under that name's key |
| SaveData.CacheWriter.Handle | inc/savedata.php:10-47 | A rejected body gets the 400 JSON error and the file is left alone; an accepted one gets 200 with no body; the file is read before it is truncated, and the titles merge is written |

## Left out

- Google Maps (`Map`, `Marker`, bounds, `InfoWindow`) and `MarkerClusterer`: these are foreign objects with floating-point coordinates. A marker is kept as its title, `keyId`, colour and row.
- `fetch`, Tabletop and `Papa.parse`: their replies arrive as method arguments. An HTTP status is only ok or not ok. A CSV reply arrives already parsed into rows.
- `Date` parsing of `Last-Modified`: the file time arrives as integer milliseconds, or as NaN.
- Promise ordering, event listeners, the resize debounce and the `fadeIn`/`fadeOut` animations: each handler is a method that runs to completion. Overlay visibility is one flag.
- `innerHTML`/jQuery string assembly and its escaping: a pane line is a record of class, key and value.
- Pin icon objects, commented-out code, and the empty `saveData` of the current page.
- The reply handling of `saveSheetsTitles` (src/js/main.js:127-137): it only logs. The cache writer answers a successful save with a 200 and no body, so `response.json()` rejects and the page logs an error after every successful save. The model records the request and nothing after it.
- LegacyDiningMap.LegacyApp.OpenDetails: assumes the page defines no global `website`. The page's HTML is not part of this model; an element with `id="website"` would become `window.website`, and the button would then be appended.
- DiningMap.App.ChangeCity: models one change listener. It does not model the second listener that a second `initOverlay` call would add.
- Sheets.CleanKey: maps only the ASCII letters to lower case. It does not model `toLowerCase` of non-ASCII letters that lower-case into ASCII (U+0130, U+212A).
- Freshness.ParseInt: the value is an unbounded integer. It does not model the loss of precision for numbers beyond 2^53 or for very long digit runs, or floating-point addition in `fileTime + ttl`.
- Sheets.Dispatch, DiningMap.TitleMap, DiningMap.TitleMapOrder, LegacyDiningMap.CollectSheets, DiningMap.ListedLines, LegacyDiningMap.PaneLines, SaveData.SnapshotJson: keys are taken in insertion order. None of them models JavaScript listing integer-like keys (a sheet titled "2019") first, in ascending numeric order, in `Object.keys`, `for…in` and `JSON.stringify`.
- SaveData.KeyOf: treats every canonical decimal name as an integer key. It does not model PHP keeping names outside the 64-bit integer range as strings.
- SaveData.Json: numbers are integers. Floats, and PHP's `empty(0.0)`, are not modelled.
- SaveData.CacheWriter.Handle: treats `fopen`, `fwrite` and `json_encode` as always succeeding. It does not model pretty-print whitespace, nested objects with repeated member names, or JSON depth limits.
- A local snapshot whose JSON is not an object of sheets: the front ends receive it already as a snapshot, or as nothing.
- `URLSearchParams` percent-decoding of the `cache` parameter: the parameter arrives decoded.
