/** How the two front ends' details panes relate: the older page's switch emits
    the `Been?` line where that column stands and otherwise lists what the current
    page lists, and it never appends the website button. */
module Panes {
  import opened Dicts
  import opened Sheets
  import Current = DiningMap
  import Legacy = LegacyDiningMap

  /** Away from the `Been?` column the switch lists exactly what the current front
      end's loop lists. */
  lemma {:induction false} PaneLinesWithoutBeen(row: seq<(string, string)>)
    requires "Been?" !in Keys(row)
    ensures Legacy.PaneLines(row) == Current.ListedLines(row)
    decreases |row|
  {
    if row != [] {
      var n := |row| - 1;
      assert row[n].0 == Keys(row)[n];
      assert Keys(row[..n]) == Keys(row)[..n];
      PaneLinesWithoutBeen(row[..n]);
    }
  }

  /** The keys of a row are unique, so the column at `i` is the only `Been?` one. */
  lemma BeenOnlyAt(row: Row, i: nat)
    requires i < |row| && row[i].0 == "Been?"
    ensures "Been?" !in Keys(row[..i]) && "Been?" !in Keys(row[i + 1..])
  {
    var before: seq<(string, string)>, after: seq<(string, string)> := row[..i], row[i + 1..];
    forall j | 0 <= j < |before| ensures Keys(before)[j] != "Been?" {
      assert before[j] == row[j] && KeyAt(row, j) != KeyAt(row, i);
    }
    forall j | 0 <= j < |after| ensures Keys(after)[j] != "Been?" {
      assert after[j] == row[i + 1 + j] && KeyAt(row, i) != KeyAt(row, i + 1 + j);
    }
  }

  /** Columns around a single `Been?` column list what the current front end lists. */
  lemma PaneLinesAround(before: seq<(string, string)>, been: (string, string), after: seq<(string, string)>)
    requires been.0 == "Been?"
    requires "Been?" !in Keys(before) && "Been?" !in Keys(after)
    ensures Legacy.PaneLines(before + [been] + after) ==
      Current.ListedLines(before) + [DetailLine("Been?", BeenLabel(Some(been.1)))] +
      Current.ListedLines(after)
  {
    Legacy.PaneLinesAppend(before + [been], after);
    Legacy.PaneLinesAppend(before, [been]);
    Legacy.PaneLinesSingle(been);
    PaneLinesWithoutBeen(before);
    PaneLinesWithoutBeen(after);
  }

  /** The `Been?` line appears at the position of the `Been?` column, between the
      lines of the columns before and after it. */
  lemma BeenAtItsPosition(row: Row, i: nat)
    requires i < |row| && row[i].0 == "Been?"
    ensures Legacy.PaneLines(row) ==
      Current.ListedLines(row[..i]) + [DetailLine("Been?", BeenLabel(Some(row[i].1)))] +
      Current.ListedLines(row[i + 1..])
  {
    BeenOnlyAt(row, i);
    SplitAt(row, i);
    PaneLinesAround(row[..i], row[i], row[i + 1..]);
  }

  lemma SplitAt<T>(s: seq<T>, i: nat)
    requires i < |s|
    ensures s[..i] + [s[i]] + s[i + 1..] == s
    ensures i == 0 ==> [s[0]] + s[1..] == s && s[..0] == []
  {
  }

  /** A leading `Been?` column adds nothing to the current front end's listed lines. */
  lemma ListedLinesAfterBeen(been: (string, string), rest: seq<(string, string)>)
    requires been.0 == "Been?"
    ensures Current.ListedLines([been] + rest) == Current.ListedLines(rest)
  {
    Current.ListedLinesAppend([been], rest);
    assert [been][..0] == [];
  }

  /** When `Been?` is the first column, the legacy pane is the current pane
      without the website button. */
  lemma SameAsCurrentWhenBeenFirst(row: Row)
    requires row != [] && row[0].0 == "Been?"
    ensures Legacy.PaneLines(row) + Current.WebsiteButton(row) == Current.DetailPane(row)
  {
    BeenOnlyAt(row, 0);
    SplitAt(row, 0);
    BeenFirst(row[0], row[1..]);
    GetAt(row, 0);
  }

  lemma BeenFirst(been: (string, string), rest: seq<(string, string)>)
    requires been.0 == "Been?" && "Been?" !in Keys(rest)
    ensures Legacy.PaneLines([been] + rest) ==
      [DetailLine("Been?", BeenLabel(Some(been.1)))] + Current.ListedLines([been] + rest)
  {
    Legacy.PaneLinesAppend([been], rest);
    Legacy.PaneLinesSingle(been);
    PaneLinesWithoutBeen(rest);
    ListedLinesAfterBeen(been, rest);
  }
}
