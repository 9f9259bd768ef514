/** The cache writer `inc/savedata.php`: it decodes the posted JSON into a PHP
    array, rejects a request without a non-empty `type` and `dataToSave` with a
    400 JSON error, and otherwise truncates `sheetdata.json`; for a `titles`
    request it writes back the posted sheet names, each keeping the rows the old
    cache held for it. */
module SaveData {
  import opened Dicts
  import Numerals
  import Sheets

  /** A decoded JSON value. Objects keep their members in document order, with
      any repeated names; numbers are integers. */
  datatype Json =
    | JNull
    | JBool(b: bool)
    | JNum(n: int)
    | JStr(s: string)
    | JArr(items: seq<Json>)
    | JObj(members: seq<(string, Json)>)

  /** A PHP array key: an integer or a string that does not look like one. */
  datatype Key = IntKey(i: int) | StrKey(s: string)

  /** A PHP array: keys in insertion order, each at most once. */
  type PhpArray = Dict<Key, Json>

  /* ---------- Keys ---------- */

  /** PHP's rule for a string used as an array key: the canonical decimal spelling
      of an integer (`0`, or an optional `-` before a numeral without a leading
      zero) becomes that integer; `-0`, `007` and `+1` stay strings. */
  predicate IsIntegerKey(s: string)
  {
    var digits := if |s| > 0 && s[0] == '-' then s[1..] else s;
    Numerals.IsCanonical(digits) && (digits == "0" ==> s == "0")
  }

  /** The key a string names. */
  function KeyOf(s: string): (k: Key)
    ensures k.StrKey? <==> !IsIntegerKey(s)
    ensures k.StrKey? ==> k.s == s
  {
    if IsIntegerKey(s) then
      var negative := s[0] == '-';
      var magnitude: int := Numerals.Value(if negative then s[1..] else s, 10);
      IntKey(if negative then -magnitude else magnitude)
    else StrKey(s)
  }

  /** The text of a key, as `json_encode` writes an object member name. */
  function KeyText(k: Key): string
  {
    match k
    case IntKey(i) => Numerals.IntString(i)
    case StrKey(s) => s
  }

  /** A key PHP can produce: a string key never looks like an integer. */
  predicate ValidKey(k: Key)
  {
    k.StrKey? ==> !IsIntegerKey(k.s)
  }

  predicate AllValid(a: seq<(Key, Json)>)
  {
    forall i :: 0 <= i < |a| ==> ValidKey(a[i].0)
  }

  /** Writing a valid key as text and reading it back gives the key. */
  lemma KeyRoundTrip(k: Key)
    requires ValidKey(k)
    ensures KeyOf(KeyText(k)) == k
  {
    if k.IntKey? {
      var i := k.i;
      var s := Numerals.IntString(i);
      var n: nat := if i < 0 then -i else i;
      var d := Numerals.DecimalString(n);
      Numerals.ValueOfDecimalString(n);
      if i < 0 {
        assert s == "-" + d && s[1..] == d;
        assert Numerals.IsCanonical(d) && d != "0";
      } else {
        assert s == d && !(s[0] == '-');
        assert Numerals.IsCanonical(d);
      }
      assert IsIntegerKey(s);
    }
  }

  /** Reading a string as a key and writing the key back gives the string. */
  lemma KeyTextOfKeyOf(s: string)
    ensures KeyText(KeyOf(s)) == s
    ensures ValidKey(KeyOf(s))
  {
    if IsIntegerKey(s) {
      if s[0] == '-' {
        var d := s[1..];
        assert d != "0" && d[0] != '0';
        Numerals.ValuePositive(d);
        Numerals.DecimalStringOfValue(d);
        assert s == "-" + d;
      } else {
        Numerals.DecimalStringOfValue(s);
      }
    }
  }

  /** Different strings name different keys. */
  lemma KeyOfInjective(s: string, t: string)
    ensures KeyOf(s) == KeyOf(t) <==> s == t
  {
    KeyTextOfKeyOf(s);
    KeyTextOfKeyOf(t);
  }

  /* ---------- The (array) cast ---------- */

  /** `(array)` of a decoded JSON array: its items under the keys 0, 1, ... */
  function ListArray(items: seq<Json>): (a: PhpArray)
    ensures |a| == |items|
    ensures forall i :: 0 <= i < |a| ==> a[i] == (IntKey(i), items[i])
  {
    seq(|items|, i requires 0 <= i < |items| => (IntKey(i), items[i]))
  }

  /** `(array)` of a decoded JSON object: each member assigned in document order
      under the key its name denotes, so a repeated name keeps its first position
      and its last value. */
  function ObjectArray(members: seq<(string, Json)>): PhpArray
    decreases |members|
  {
    if members == [] then []
    else
      var n := |members| - 1;
      Put(ObjectArray(members[..n]), KeyOf(members[n].0), members[n].1)
  }

  /** `(array) json_decode(...)`: null gives the empty array, an array or object
      its entries, and any other value a one-entry array under key 0. */
  function ToArray(j: Json): PhpArray
  {
    match j
    case JNull => []
    case JArr(items) => ListArray(items)
    case JObj(members) => ObjectArray(members)
    case _ => [(IntKey(0), j)]
  }

  lemma {:induction false} ObjectArrayValid(members: seq<(string, Json)>)
    ensures AllValid(ObjectArray(members))
    decreases |members|
  {
    if members != [] {
      var n := |members| - 1;
      var before := ObjectArray(members[..n]);
      ObjectArrayValid(members[..n]);
      KeyTextOfKeyOf(members[n].0);
      var after := ObjectArray(members);
      forall i | 0 <= i < |after| ensures ValidKey(after[i].0) {
        assert after[i].0 == Keys(after)[i];
        if i < |before| {
          assert Keys(after)[i] == Keys(before)[i];
        }
      }
    }
  }

  /** Every key the cast produces is one PHP can hold. */
  lemma ToArrayValid(j: Json)
    ensures AllValid(ToArray(j))
  {
    if j.JObj? {
      ObjectArrayValid(j.members);
    }
  }

  /** The value of the last member with the given name. */
  function LastValue(members: seq<(string, Json)>, name: string): (v: Option<Json>)
    decreases |members|
  {
    if members == [] then None
    else
      var n := |members| - 1;
      if members[n].0 == name then Some(members[n].1) else LastValue(members[..n], name)
  }

  /** Looking up a name that is not integer-like in a cast object finds the last
      member of that name, or nothing. */
  lemma {:induction false} ObjectLookup(members: seq<(string, Json)>, name: string)
    requires !IsIntegerKey(name)
    ensures Get(ObjectArray(members), StrKey(name)) == LastValue(members, name)
    decreases |members|
  {
    if members != [] {
      var n := |members| - 1;
      ObjectLookup(members[..n], name);
      PutGet(ObjectArray(members[..n]), KeyOf(members[n].0), members[n].1, StrKey(name));
    }
  }

  /** A cast object whose member names are all different holds one entry per
      member, in document order, under the key its name denotes. */
  lemma {:induction false} ObjectArrayDistinct(members: seq<(string, Json)>)
    requires UniqueKeys(members)
    ensures |ObjectArray(members)| == |members|
    ensures forall i :: 0 <= i < |members| ==> ObjectArray(members)[i] == (KeyOf(members[i].0), members[i].1)
    decreases |members|
  {
    if members != [] {
      var n := |members| - 1;
      var prefix := members[..n];
      PrefixUnique(members, n);
      ObjectArrayDistinct(prefix);
      var before := ObjectArray(prefix);
      var k := KeyOf(members[n].0);
      assert k !in Keys(before) by {
        forall i | 0 <= i < |before| ensures before[i].0 != k {
          assert before[i].0 == KeyOf(prefix[i].0) && prefix[i] == members[i];
          assert KeyAt(members, i) != KeyAt(members, n);
          KeyOfInjective(members[i].0, members[n].0);
        }
      }
      PutFresh(before, k, members[n].1);
      var after := ObjectArray(members);
      assert after == before + [(k, members[n].1)];
      forall i | 0 <= i < |members| ensures after[i] == (KeyOf(members[i].0), members[i].1) {
        if i < n {
          assert after[i] == before[i] && prefix[i] == members[i];
        }
      }
    }
  }

  /* ---------- Request validation ---------- */

  /** PHP's `empty()` on a possibly unset entry: unset, null, false, 0, "", "0"
      and the empty array are empty; an object never is. */
  predicate IsEmpty(v: Option<Json>)
  {
    match v
    case None => true
    case Some(j) => j == JNull || j == JBool(false) || j == JNum(0) || j == JStr("") || j == JStr("0") || j == JArr([])
  }

  /** What survives validation: the request type and the array to save. */
  datatype SaveRequest = SaveRequest(saveType: Json, dataToSave: PhpArray)

  /** Lines 10-15: decode the body (not JSON counts as null), cast it, and accept
      it only when both `type` and `dataToSave` are present and not empty. */
  function Validate(input: Option<Json>): (r: Option<SaveRequest>)
    ensures r.Some? ==> !IsEmpty(Some(r.value.saveType)) && AllValid(r.value.dataToSave)
  {
    var data := ToArray(if input.Some? then input.value else JNull);
    var saveType := Get(data, StrKey("type"));
    var dataToSave := Get(data, StrKey("dataToSave"));
    if IsEmpty(saveType) || IsEmpty(dataToSave) then None
    else
      ToArrayValid(dataToSave.value);
      Some(SaveRequest(saveType.value, ToArray(dataToSave.value)))
  }

  /** An object body is accepted exactly when its last `type` and its last
      `dataToSave` members are not empty, and then carries those two values. */
  lemma ObjectBody(members: seq<(string, Json)>)
    ensures var t, d := LastValue(members, "type"), LastValue(members, "dataToSave");
      Validate(Some(JObj(members))) ==
        if IsEmpty(t) || IsEmpty(d) then None else Some(SaveRequest(t.value, ToArray(d.value)))
  {
    RequestNamesAreStrings();
    ObjectLookup(members, "type");
    ObjectLookup(members, "dataToSave");
    assert ToArray(JObj(members)) == ObjectArray(members);
  }

  /** The two names the script reads are string keys. */
  lemma RequestNamesAreStrings()
    ensures !IsIntegerKey("type") && !IsIntegerKey("dataToSave")
  {
    assert !Numerals.IsDecimalDigit('t') && !Numerals.IsDecimalDigit('d');
  }

  /** A body that is not JSON, or whose JSON is not an object, is rejected: its
      cast has no string keys at all. */
  lemma OnlyObjectsAccepted(input: Option<Json>)
    requires !(input.Some? && input.value.JObj?)
    ensures Validate(input) == None
  {
    var data := ToArray(if input.Some? then input.value else JNull);
    assert forall i :: 0 <= i < |data| ==> data[i].0.IntKey?;
    assert StrKey("type") !in Keys(data);
  }

  /* ---------- The cache file ---------- */

  /** `./sheetdata.json`. */
  datatype FileState =
    | Missing               // no such file
    | Empty                 // zero bytes, as `fopen($my_file, 'w')` leaves it
    | Unparsable            // text that is not JSON
    | Document(value: Json) // the JSON text of this value

  /** Line 29: `(array) json_decode(file_get_contents($my_file))`; a missing,
      empty or unparsable file decodes to null and so gives the empty array. */
  function ReadArray(f: FileState): PhpArray
  {
    if f.Document? then ToArray(f.value) else []
  }

  /** Keys 0, 1, ..., in order: `json_encode` writes such an array as a JSON list. */
  predicate IsList(a: seq<(Key, Json)>)
  {
    forall i :: 0 <= i < |a| ==> a[i].0 == IntKey(i)
  }

  function Members(a: seq<(Key, Json)>): (ms: seq<(string, Json)>)
    ensures |ms| == |a|
    ensures forall i :: 0 <= i < |a| ==> ms[i] == (KeyText(a[i].0), a[i].1)
  {
    seq(|a|, i requires 0 <= i < |a| => (KeyText(a[i].0), a[i].1))
  }

  /** `json_encode($data_to_save)` as a value: a list array becomes a JSON array of
      its values, any other array an object whose member names are its keys'
      text. */
  function Encode(a: PhpArray): Json
  {
    if IsList(a) then JArr(Values(a)) else JObj(Members(a))
  }

  lemma {:induction false} MembersRoundTrip(a: seq<(Key, Json)>)
    requires UniqueKeys(a) && AllValid(a)
    ensures ObjectArray(Members(a)) == a
    decreases |a|
  {
    if a != [] {
      var n := |a| - 1;
      var prefix := a[..n];
      var last := a[n];
      PrefixUnique(a, n);
      assert AllValid(prefix) by {
        assert forall i :: 0 <= i < n ==> prefix[i] == a[i];
      }
      var ms := Members(a);
      assert ms[..n] == Members(prefix);
      MembersRoundTrip(prefix);
      KeyRoundTrip(last.0);
      assert ObjectArray(ms) == Put(prefix, last.0, last.1);
      PutFresh(prefix, last.0, last.1);
      assert prefix + [last] == a;
    }
  }

  /** What is written decodes back to the array that was encoded. */
  lemma EncodeRoundTrip(a: PhpArray)
    requires AllValid(a)
    ensures ToArray(Encode(a)) == a
  {
    if IsList(a) {
      assert ListArray(Values(a)) == a;
    } else {
      MembersRoundTrip(a);
    }
  }

  /* ---------- Merging titles ---------- */

  /** The value kept for a posted entry: the old cache's value under that key when
      there is one, otherwise the posted value. */
  function Merged(entry: (Key, Json), cached: PhpArray): Json
  {
    var prior := Get(cached, entry.0);
    if prior.Some? then prior.value else entry.1
  }

  /** The array the loop of lines 36-42 leaves: the posted keys in their order,
      each with its merged value. */
  function MergeTitles(sent: PhpArray, cached: PhpArray): (r: PhpArray)
    ensures Keys(r) == Keys(sent)
  {
    var r := seq(|sent|, i requires 0 <= i < |sent| => (sent[i].0, Merged(sent[i], cached)));
    assert Keys(r) == Keys(sent);
    forall i, j | 0 <= i < j < |r| ensures KeyAt(r, i) != KeyAt(r, j) {
      assert KeyAt(sent, i) != KeyAt(sent, j);
    }
    r
  }

  /** A merged lookup: a key not posted is gone, a posted key found in the old
      cache keeps the old value, any other posted key keeps the posted value. */
  lemma MergeLookup(sent: PhpArray, cached: PhpArray, k: Key)
    ensures Get(MergeTitles(sent, cached), k) ==
      if Get(sent, k).None? then None
      else if Get(cached, k).Some? then Get(cached, k)
      else Get(sent, k)
  {
    var r := MergeTitles(sent, cached);
    if k in Keys(sent) {
      var i :| 0 <= i < |sent| && sent[i].0 == k;
      GetAt(sent, i);
      GetAt(r, i);
    }
  }

  /** Merging the same titles into an already merged cache changes nothing. */
  lemma MergeIdempotent(sent: PhpArray, cached: PhpArray)
    ensures MergeTitles(sent, MergeTitles(sent, cached)) == MergeTitles(sent, cached)
  {
    var m := MergeTitles(sent, cached);
    var m2 := MergeTitles(sent, m);
    forall i | 0 <= i < |sent| ensures m2[i] == m[i] {
      assert m[i].0 == Keys(m)[i] == sent[i].0;
      GetAt(m, i);
    }
  }

  /** The array while the loop of lines 36-42 runs: the first `i` entries merged,
      the rest as posted. */
  function Merging(sent: seq<(Key, Json)>, cached: PhpArray, i: nat): (r: seq<(Key, Json)>)
    requires i <= |sent|
    ensures |r| == |sent|
    ensures forall j :: 0 <= j < |sent| ==> r[j].0 == sent[j].0
  {
    seq(|sent|, j requires 0 <= j < |sent| => if j < i then (sent[j].0, Merged(sent[j], cached)) else sent[j])
  }

  /** One turn of the loop merges entry `i`, which changes it only when the old
      cache has its key; the loop starts from the posted array and ends with the merge. */
  lemma MergingStep(sent: PhpArray, cached: PhpArray, i: nat)
    requires i < |sent|
    ensures Merging(sent, cached, i)[i] == sent[i]
    ensures Merging(sent, cached, i)[i := (sent[i].0, Merged(sent[i], cached))] == Merging(sent, cached, i + 1)
    ensures sent[i].0 !in Keys(cached) ==> Merging(sent, cached, i) == Merging(sent, cached, i + 1)
  {
    if sent[i].0 !in Keys(cached) {
      assert Merged(sent[i], cached) == sent[i].1;
    }
  }

  lemma MergingEnds(sent: PhpArray, cached: PhpArray)
    ensures Merging(sent, cached, 0) == sent
    ensures Merging(sent, cached, |sent|) == MergeTitles(sent, cached)
  {
  }

  /* ---------- Responses and the request ---------- */

  datatype Response = Response(status: int, contentType: Option<string>, body: Option<Json>)

  /** Lines 16-25: the 400 JSON error. */
  const BadRequest := Response(400, Some("application/json; charset=utf-8"),
    Some(JObj([("success", JBool(false)), ("errorno", JNum(400)),
                ("message", JStr("Bad Request: Missing data on request."))])))

  /** A request that passed validation: status 200 and no body. */
  const Saved := Response(200, None, None)

  /** The cache file after a validated request: truncated, and for a `titles`
      request (the exact string) the merged titles written into it. */
  function AfterSave(request: SaveRequest, f: FileState): FileState
  {
    if request.saveType == JStr("titles") then Document(Encode(MergeTitles(request.dataToSave, ReadArray(f))))
    else Empty
  }

  /** After a `titles` request the cache holds exactly the posted sheet names, in
      their order; a name already cached keeps its old rows, a new name gets the
      posted value, and a cached name not posted is dropped. */
  lemma TitlesCache(request: SaveRequest, f: FileState, k: Key)
    requires request.saveType == JStr("titles") && AllValid(request.dataToSave)
    ensures Keys(ReadArray(AfterSave(request, f))) == Keys(request.dataToSave)
    ensures Get(ReadArray(AfterSave(request, f)), k) ==
      if Get(request.dataToSave, k).None? then None
      else if Get(ReadArray(f), k).Some? then Get(ReadArray(f), k)
      else Get(request.dataToSave, k)
  {
    var m := MergeTitles(request.dataToSave, ReadArray(f));
    forall i | 0 <= i < |m| ensures ValidKey(m[i].0) {
      assert m[i].0 == Keys(m)[i] == request.dataToSave[i].0;
    }
    EncodeRoundTrip(m);
    MergeLookup(request.dataToSave, ReadArray(f), k);
  }

  /** Any other request type leaves the cache empty. */
  lemma OtherTypeEmptiesCache(request: SaveRequest, f: FileState)
    requires request.saveType != JStr("titles")
    ensures AfterSave(request, f) == Empty && ReadArray(AfterSave(request, f)) == []
  {
  }

  /** Handling the same validated request twice leaves the same cache as once. */
  lemma SaveIdempotent(request: SaveRequest, f: FileState)
    requires AllValid(request.dataToSave)
    ensures AfterSave(request, AfterSave(request, f)) == AfterSave(request, f)
  {
    if request.saveType == JStr("titles") {
      var m := MergeTitles(request.dataToSave, ReadArray(f));
      forall i | 0 <= i < |m| ensures ValidKey(m[i].0) {
        assert m[i].0 == Keys(m)[i] == request.dataToSave[i].0;
      }
      EncodeRoundTrip(m);
      MergeIdempotent(request.dataToSave, ReadArray(f));
    }
  }

  /** `JSON.stringify` of a snapshot: an object of sheets, each an array of row
      objects whose cells are strings. */
  function RowJson(row: seq<(string, string)>): Json
  {
    JObj(seq(|row|, i requires 0 <= i < |row| => (row[i].0, JStr(row[i].1))))
  }

  function SnapshotJson(s: Sheets.Snapshot): (j: Json)
    ensures j.JObj? && |j.members| == |s|
    ensures forall i :: 0 <= i < |s| ==> j.members[i].0 == s[i].0
  {
    JObj(seq(|s|, i requires 0 <= i < |s| =>
      (s[i].0, JArr(seq(|s[i].1|, j requires 0 <= j < |s[i].1| => RowJson(s[i].1[j]))))))
  }

  /** The body the current front end's `saveSheetsTitles` posts. */
  function TitlesBody(titles: Sheets.Snapshot): Json
  {
    JObj([("type", JStr("titles")), ("dataToSave", SnapshotJson(titles))])
  }

  /** The current front end's request always passes validation, however few
      titles it carries (an object is never empty), as a `titles` request
      carrying the cast of the posted title object. */
  lemma TitlesBodyAccepted(titles: Sheets.Snapshot)
    ensures Validate(Some(TitlesBody(titles))) ==
      Some(SaveRequest(JStr("titles"), ToArray(SnapshotJson(titles))))
  {
    var members := [("type", JStr("titles")), ("dataToSave", SnapshotJson(titles))];
    ObjectBody(members);
    assert members[..1] == [("type", JStr("titles"))];
    assert LastValue(members, "type") == Some(JStr("titles"));
    assert LastValue(members, "dataToSave") == Some(SnapshotJson(titles));
  }

  /** The cast of a posted snapshot has one entry per sheet name, in order, under
      the key that name denotes. */
  lemma SnapshotKeys(titles: Sheets.Snapshot)
    ensures Keys(ToArray(SnapshotJson(titles))) == seq(|titles|, i requires 0 <= i < |titles| => KeyOf(titles[i].0))
  {
    var ms := SnapshotJson(titles).members;
    assert UniqueKeys(ms) by {
      forall i, j | 0 <= i < j < |ms| ensures KeyAt(ms, i) != KeyAt(ms, j) {
        assert ms[i].0 == titles[i].0 && ms[j].0 == titles[j].0 && KeyAt(titles, i) != KeyAt(titles, j);
      }
    }
    ObjectArrayDistinct(ms);
  }

  /** The web server's view of `savedata.php`: the cache file it rewrites. */
  class CacheWriter {
    var file: FileState

    constructor (initial: FileState)
      ensures file == initial
    {
      file := initial;
    }

    /** One POST: a rejected body answers 400 and leaves the file alone; an
        accepted one truncates the file and, for `titles`, writes the merge. */
    method Handle(input: Option<Json>) returns (response: Response)
      modifies this`file
      ensures response == if Validate(input).None? then BadRequest else Saved
      ensures file == if Validate(input).None? then old(file) else AfterSave(Validate(input).value, old(file))
    {
      var request := Validate(input);
      if request.None? {
        return BadRequest;
      }
      var saveType, dataToSave := request.value.saveType, request.value.dataToSave;
      var fileContents := ReadArray(file);
      file := Empty;
      if saveType == JStr("titles") {
        var data := dataToSave;
        var i := 0;
        MergingEnds(dataToSave, fileContents);
        while i < |dataToSave|
          invariant 0 <= i <= |dataToSave|
          invariant data == Merging(dataToSave, fileContents, i)
        {
          var sheetName := dataToSave[i].0;
          MergingStep(dataToSave, fileContents, i);
          if sheetName in Keys(fileContents) {
            var prior := Get(fileContents, sheetName);
            PutExisting(data, i, prior.value);
            data := Put(data, sheetName, prior.value);
          }
          i := i + 1;
        }
        file := Document(Encode(data));
      }
      response := Saved;
    }
  }
}
