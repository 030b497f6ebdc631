/**
 * `MagitPopup.update`: lays the popup's key bindings out as text. Each shown
 * section prints its name and then its key descriptions in columns, row by
 * row, each key and description padded to the widest one of its column.
 * The editor is seen as the list of `insertText` calls made on it.
 */
module Popup {
  import opened JsString

  /** `MAGIT_COLORS` */
  const SectionColor := "red"
  const KeyColor := "red"
  const ActiveDescColor := "white"
  const InactiveDescColor := "gray"

  /** One `insertText(msg, color)` call; an empty color leaves the text undecorated. */
  datatype Insertion = Insertion(text: string, color: string)

  datatype KeyDescription = KeyDescription(key: string, desc: string)

  /** A section: its name and its columns of key descriptions. */
  datatype Section = Section(sectionName: string, keyDescriptions: seq<seq<KeyDescription>>)

  /** What goes between two shown sections. */
  const SectionBreak := Insertion("\n\n", "")

  /** What starts each row. */
  const RowBreak := Insertion("\n", "")

  /** A section whose name starts with a space is not shown. */
  predicate Hidden(s: Section) {
    StartsWith(s.sectionName, " ")
  }

  // ------------------------------------------------------------------
  // Column widths

  /** The width of a column's keys: the longest key, 0 for an empty column. */
  function KeyWidth(items: seq<KeyDescription>): (w: nat)
    ensures forall i :: 0 <= i < |items| ==> |items[i].key| <= w
    ensures items == [] ==> w == 0
    ensures items != [] ==> exists i :: 0 <= i < |items| && |items[i].key| == w
  {
    if items == [] then 0
    else
      var w := KeyWidth(items[..|items| - 1]);
      var k := |items[|items| - 1].key|;
      assert forall i :: 0 <= i < |items| - 1 ==> items[i] == items[..|items| - 1][i];
      if k > w then k else w
  }

  /** The width of a column's descriptions: the longest one, 0 for an empty column. */
  function DescWidth(items: seq<KeyDescription>): (w: nat)
    ensures forall i :: 0 <= i < |items| ==> |items[i].desc| <= w
    ensures items == [] ==> w == 0
    ensures items != [] ==> exists i :: 0 <= i < |items| && |items[i].desc| == w
  {
    if items == [] then 0
    else
      var w := DescWidth(items[..|items| - 1]);
      var d := |items[|items| - 1].desc|;
      assert forall i :: 0 <= i < |items| - 1 ==> items[i] == items[..|items| - 1][i];
      if d > w then d else w
  }

  /** `keyLens`: the key width of each column. */
  function KeyWidths(cols: seq<seq<KeyDescription>>): seq<nat> {
    seq(|cols|, c requires 0 <= c < |cols| => KeyWidth(cols[c]))
  }

  /** `descLens`: the description width of each column. */
  function DescWidths(cols: seq<seq<KeyDescription>>): seq<nat> {
    seq(|cols|, c requires 0 <= c < |cols| => DescWidth(cols[c]))
  }

  /** `line`: the number of rows, the length of the longest column, 0 with no columns. */
  function RowCount(cols: seq<seq<KeyDescription>>): (n: nat)
    ensures forall c :: 0 <= c < |cols| ==> |cols[c]| <= n
    ensures cols == [] ==> n == 0
    ensures cols != [] ==> exists c :: 0 <= c < |cols| && |cols[c]| == n
  {
    if cols == [] then 0
    else
      var n := RowCount(cols[..|cols| - 1]);
      var m := |cols[|cols| - 1]|;
      assert forall c :: 0 <= c < |cols| - 1 ==> cols[c] == cols[..|cols| - 1][c];
      if m > n then m else n
  }

  // ------------------------------------------------------------------
  // Emitted text

  /** One cell: the key padded to its column's key width and the description padded to its
      column's description width. */
  function Cell(item: KeyDescription, keyLen: nat, descLen: nat): seq<Insertion> {
    [Insertion(" " + PadEnd(item.key, keyLen), KeyColor),
     Insertion(" " + PadEnd(item.desc, descLen) + "  ", ActiveDescColor)]
  }

  /** The cells of row `l` from the first `c` columns; a column with no entry at that row is
      skipped. */
  function RowCells(cols: seq<seq<KeyDescription>>, keyLens: seq<nat>, descLens: seq<nat>, l: nat, c: nat): seq<Insertion>
    requires |keyLens| == |descLens| == |cols| && c <= |cols|
  {
    if c == 0 then []
    else
      RowCells(cols, keyLens, descLens, l, c - 1) +
      (if |cols[c - 1]| <= l then [] else Cell(cols[c - 1][l], keyLens[c - 1], descLens[c - 1]))
  }

  /** The first `n` rows, each a line break and then its cells. */
  function Rows(cols: seq<seq<KeyDescription>>, keyLens: seq<nat>, descLens: seq<nat>, n: nat): seq<Insertion>
    requires |keyLens| == |descLens| == |cols|
  {
    if n == 0 then []
    else Rows(cols, keyLens, descLens, n - 1) + [RowBreak] + RowCells(cols, keyLens, descLens, n - 1, |cols|)
  }

  /** A shown section: its name, then all its rows. */
  function SectionText(s: Section): (r: seq<Insertion>)
    ensures r != [] && r[0] == Insertion(s.sectionName, SectionColor)
  {
    var cols := s.keyDescriptions;
    [Insertion(s.sectionName, SectionColor)] + Rows(cols, KeyWidths(cols), DescWidths(cols), RowCount(cols))
  }

  /** The sections that are shown, in order. */
  function Visible(sections: seq<Section>): (r: seq<Section>)
    ensures |r| <= |sections|
    ensures forall x :: x in r ==> x in sections && !Hidden(x)
  {
    if sections == [] then []
    else
      var last := sections[|sections| - 1];
      Visible(sections[..|sections| - 1]) + (if Hidden(last) then [] else [last])
  }

  /** `update()` as a function of the sections, in the order of its loop: a hidden section
      adds nothing, a shown one adds a break unless it is the first shown, then its text. */
  function Render(sections: seq<Section>): (r: seq<Insertion>)
    ensures Visible(sections) == [] <==> r == []
  {
    if sections == [] then []
    else
      var before := sections[..|sections| - 1];
      var last := sections[|sections| - 1];
      Render(before) +
      (if Hidden(last) then []
       else (if Visible(before) == [] then [] else [SectionBreak]) + SectionText(last))
  }

  /** The shown sections' texts joined with a break between each two. */
  function JoinSections(shown: seq<Section>): seq<Insertion> {
    if shown == [] then []
    else if |shown| == 1 then SectionText(shown[0])
    else SectionText(shown[0]) + [SectionBreak] + JoinSections(shown[1..])
  }

  lemma RowCellsSnoc(cols: seq<seq<KeyDescription>>, keyLens: seq<nat>, descLens: seq<nat>, l: nat, c: nat)
    requires |keyLens| == |descLens| == |cols| && c < |cols|
    ensures RowCells(cols, keyLens, descLens, l, c + 1) ==
      if |cols[c]| <= l then RowCells(cols, keyLens, descLens, l, c)
      else RowCells(cols, keyLens, descLens, l, c) + Cell(cols[c][l], keyLens[c], descLens[c])
  {
  }

  /** One more item: what the widths of a column become. */
  lemma ItemsSnoc(items: seq<KeyDescription>, i: nat)
    requires i < |items|
    ensures KeyWidth(items[..i + 1]) == if |items[i].key| > KeyWidth(items[..i]) then |items[i].key| else KeyWidth(items[..i])
    ensures DescWidth(items[..i + 1]) == if |items[i].desc| > DescWidth(items[..i]) then |items[i].desc| else DescWidth(items[..i])
  {
    assert items[..i + 1][..i] == items[..i];
  }

  /** One more column: what the widths and the row count become. */
  lemma ColumnsSnoc(cols: seq<seq<KeyDescription>>, c: nat)
    requires c < |cols|
    ensures KeyWidths(cols[..c + 1]) == KeyWidths(cols[..c]) + [KeyWidth(cols[c])]
    ensures DescWidths(cols[..c + 1]) == DescWidths(cols[..c]) + [DescWidth(cols[c])]
    ensures RowCount(cols[..c + 1]) == if |cols[c]| > RowCount(cols[..c]) then |cols[c]| else RowCount(cols[..c])
  {
    assert cols[..c + 1][..c] == cols[..c];
  }

  /** One more section: what `Render` and `Visible` add for it. */
  lemma RenderSnoc(sections: seq<Section>, i: nat)
    requires i < |sections|
    ensures var before, s := sections[..i], sections[i];
      Visible(sections[..i + 1]) == Visible(before) + (if Hidden(s) then [] else [s]) &&
      Render(sections[..i + 1]) ==
        if Hidden(s) then Render(before)
        else if Visible(before) == [] then Render(before) + SectionText(s)
        else Render(before) + [SectionBreak] + SectionText(s)
  {
    assert sections[..i + 1][..i] == sections[..i];
  }

  // ------------------------------------------------------------------
  // What the layout promises

  /** Joining one more shown section. */
  lemma {:induction false} JoinSectionsSnoc(shown: seq<Section>, s: Section)
    ensures JoinSections(shown + [s]) ==
      if shown == [] then SectionText(s) else JoinSections(shown) + [SectionBreak] + SectionText(s)
  {
    if shown == [] {
      assert shown + [s] == [s];
    } else if |shown| == 1 {
      assert (shown + [s])[1..] == [s];
    } else {
      assert (shown + [s])[0] == shown[0] && (shown + [s])[1..] == shown[1..] + [s];
      JoinSectionsSnoc(shown[1..], s);
      Regroup(SectionText(shown[0]), [SectionBreak], JoinSections(shown[1..]), [SectionBreak], SectionText(s));
    }
  }

  /** The popup's text is the shown sections' texts with a blank line between each two:
      hidden sections leave no trace, not even a break. */
  lemma {:induction false} RenderJoins(sections: seq<Section>)
    ensures Render(sections) == JoinSections(Visible(sections))
  {
    if sections != [] {
      var before, last := sections[..|sections| - 1], sections[|sections| - 1];
      RenderJoins(before);
      var shown := Visible(before);
      if Hidden(last) {
        assert Visible(sections) == shown + [];
        assert shown + [] == shown;
        assert Render(sections) == Render(before) + [];
        assert Render(before) + [] == Render(before);
      } else {
        assert Visible(sections) == shown + [last];
        JoinSectionsSnoc(shown, last);
        var t := SectionText(last);
        if shown == [] {
          assert Render(sections) == Render(before) + ([] + t);
          assert [] + t == t;
        } else {
          assert Render(sections) == Render(before) + ([SectionBreak] + t);
          Assoc(Render(before), [SectionBreak], t);
        }
      }
    }
  }

  /** The number of row breaks among some insertions. */
  function LineBreaks(ins: seq<Insertion>): nat {
    multiset(ins)[RowBreak]
  }

  lemma CellIsNoBreak(item: KeyDescription, keyLen: nat, descLen: nat)
    ensures RowBreak !in Cell(item, keyLen, descLen)
  {
    assert |KeyColor| == 3 && |ActiveDescColor| == 5;
  }

  /** Cells are coloured, so none of them is a row break. */
  lemma {:induction false} RowCellsHaveNoBreak(cols: seq<seq<KeyDescription>>, keyLens: seq<nat>, descLens: seq<nat>, l: nat, c: nat)
    requires |keyLens| == |descLens| == |cols| && c <= |cols|
    ensures RowBreak !in RowCells(cols, keyLens, descLens, l, c)
  {
    if c > 0 {
      RowCellsHaveNoBreak(cols, keyLens, descLens, l, c - 1);
      if l < |cols[c - 1]| {
        CellIsNoBreak(cols[c - 1][l], keyLens[c - 1], descLens[c - 1]);
      }
    }
  }

  /** Lines, each introduced by a row break. */
  function Joined(lines: seq<seq<Insertion>>): seq<Insertion> {
    if lines == [] then [] else Joined(lines[..|lines| - 1]) + [RowBreak] + lines[|lines| - 1]
  }

  /** The cells of each of the first `n` rows. */
  function RowLines(cols: seq<seq<KeyDescription>>, keyLens: seq<nat>, descLens: seq<nat>, n: nat): (r: seq<seq<Insertion>>)
    requires |keyLens| == |descLens| == |cols|
    ensures |r| == n
  {
    if n == 0 then [] else RowLines(cols, keyLens, descLens, n - 1) + [RowCells(cols, keyLens, descLens, n - 1, |cols|)]
  }

  lemma {:induction false} RowLinesAt(cols: seq<seq<KeyDescription>>, keyLens: seq<nat>, descLens: seq<nat>, n: nat, l: nat)
    requires |keyLens| == |descLens| == |cols| && l < n
    ensures RowLines(cols, keyLens, descLens, n)[l] == RowCells(cols, keyLens, descLens, l, |cols|)
  {
    if l < n - 1 {
      RowLinesAt(cols, keyLens, descLens, n - 1, l);
    }
  }

  lemma {:induction false} RowsJoined(cols: seq<seq<KeyDescription>>, keyLens: seq<nat>, descLens: seq<nat>, n: nat)
    requires |keyLens| == |descLens| == |cols|
    ensures Rows(cols, keyLens, descLens, n) == Joined(RowLines(cols, keyLens, descLens, n))
  {
    if n > 0 {
      RowsJoined(cols, keyLens, descLens, n - 1);
      var lines := RowLines(cols, keyLens, descLens, n);
      assert lines[..n - 1] == RowLines(cols, keyLens, descLens, n - 1);
    }
  }

  lemma {:induction false} JoinedBreaks(lines: seq<seq<Insertion>>)
    requires forall i | 0 <= i < |lines| :: RowBreak !in lines[i]
    ensures LineBreaks(Joined(lines)) == |lines|
  {
    if lines != [] {
      var init, last := lines[..|lines| - 1], lines[|lines| - 1];
      JoinedBreaks(init);
      assert Joined(lines) == Joined(init) + [RowBreak] + last;
      assert multiset(Joined(init) + [RowBreak] + last) == multiset(Joined(init)) + multiset([RowBreak]) + multiset(last);
    }
  }

  /** The first `n` rows start exactly `n` lines. */
  lemma RowsBreaks(cols: seq<seq<KeyDescription>>, keyLens: seq<nat>, descLens: seq<nat>, n: nat)
    requires |keyLens| == |descLens| == |cols|
    ensures LineBreaks(Rows(cols, keyLens, descLens, n)) == n
  {
    var lines := RowLines(cols, keyLens, descLens, n);
    RowsJoined(cols, keyLens, descLens, n);
    forall i | 0 <= i < n
      ensures RowBreak !in lines[i]
    {
      RowLinesAt(cols, keyLens, descLens, n, i);
      RowCellsHaveNoBreak(cols, keyLens, descLens, i, |cols|);
    }
    JoinedBreaks(lines);
  }

  /** A shown section takes as many lines below its name as its longest column has entries. */
  lemma SectionLines(s: Section)
    ensures LineBreaks(SectionText(s)) == RowCount(s.keyDescriptions)
  {
    var cols := s.keyDescriptions;
    var name := [Insertion(s.sectionName, SectionColor)];
    var rows := Rows(cols, KeyWidths(cols), DescWidths(cols), RowCount(cols));
    RowsBreaks(cols, KeyWidths(cols), DescWidths(cols), RowCount(cols));
    assert SectionText(s) == name + rows;
    assert multiset(name + rows) == multiset(name) + multiset(rows);
  }

  /** Columns line up: every cell of a column is as wide as that column's widest key and
      widest description, and shows its own key and description in full. */
  lemma CellAligned(col: seq<KeyDescription>, l: nat)
    requires l < |col|
    ensures var cell := Cell(col[l], KeyWidth(col), DescWidth(col));
      |cell| == 2 &&
      |cell[0].text| == 1 + KeyWidth(col) && cell[0].text[1..1 + |col[l].key|] == col[l].key &&
      |cell[1].text| == 3 + DescWidth(col) && cell[1].text[1..1 + |col[l].desc|] == col[l].desc
  {
    var key, desc := PadEnd(col[l].key, KeyWidth(col)), PadEnd(col[l].desc, DescWidth(col));
    assert (" " + key)[1..1 + |col[l].key|] == key[..|col[l].key|];
    assert (" " + desc + "  ")[1..1 + |col[l].desc|] == desc[..|col[l].desc|];
  }

  // ------------------------------------------------------------------
  // The popup

  class MagitPopup {
    var keybindings: seq<Section>
    /** The editor's contents, as the insertions made since the last `setText('')`. */
    var text: seq<Insertion>

    constructor (keybindings: seq<Section>)
      ensures this.keybindings == keybindings && text == []
    {
      this.keybindings := keybindings;
      text := [];
    }

    method InsertText(msg: string, color: string)
      modifies this
      ensures keybindings == old(keybindings) && text == old(text) + [Insertion(msg, color)]
    {
      text := text + [Insertion(msg, color)];
    }

    /** `update()`: clear the editor, then write each shown section. */
    method Update()
      modifies this
      ensures keybindings == old(keybindings) && text == Render(keybindings)
    {
      text := [];
      var firstLine := true;
      var i := 0;
      while i < |keybindings|
        invariant 0 <= i <= |keybindings| && keybindings == old(keybindings)
        invariant text == Render(keybindings[..i]) && firstLine == (Visible(keybindings[..i]) == [])
      {
        var section := keybindings[i];
        RenderSnoc(keybindings, i);
        if !Hidden(section) {
          if firstLine {
            firstLine := false;
          } else {
            InsertText("\n\n", "");
          }
          WriteSection(section);
        }
        i := i + 1;
      }
      assert keybindings[..i] == keybindings;
    }

    /** One shown section: its name, the widths of its columns, then its rows. */
    method WriteSection(section: Section)
      modifies this
      ensures keybindings == old(keybindings) && text == old(text) + SectionText(section)
    {
      InsertText(section.sectionName, SectionColor);
      var keyLens, descLens, line := MeasureColumns(section.keyDescriptions);
      WriteRows(section.keyDescriptions, keyLens, descLens, line);
      Assoc(old(text), [Insertion(section.sectionName, SectionColor)], Rows(section.keyDescriptions, keyLens, descLens, line));
    }

    /** The row loop: a line break, then the row's cells. */
    method WriteRows(cols: seq<seq<KeyDescription>>, keyLens: seq<nat>, descLens: seq<nat>, line: nat)
      requires |keyLens| == |descLens| == |cols|
      modifies this
      ensures keybindings == old(keybindings) && text == old(text) + Rows(cols, keyLens, descLens, line)
    {
      var l := 0;
      while l < line
        invariant 0 <= l <= line && keybindings == old(keybindings)
        invariant text == old(text) + Rows(cols, keyLens, descLens, l)
      {
        InsertText("\n", "");
        WriteRow(cols, keyLens, descLens, l);
        Assoc3(old(text), Rows(cols, keyLens, descLens, l), [RowBreak], RowCells(cols, keyLens, descLens, l, |cols|));
        l := l + 1;
      }
    }

    /** One cell of a row: the padded key, then the padded description. */
    method WriteCell(item: KeyDescription, keyLen: nat, descLen: nat)
      modifies this
      ensures keybindings == old(keybindings) && text == old(text) + Cell(item, keyLen, descLen)
    {
      var key := PadEnd(item.key, keyLen);
      var desc := PadEnd(item.desc, descLen);
      InsertText(" " + key, KeyColor);
      InsertText(" " + desc + "  ", ActiveDescColor);
    }

    /** The column loop of one row: columns too short for the row are skipped. */
    method WriteRow(cols: seq<seq<KeyDescription>>, keyLens: seq<nat>, descLens: seq<nat>, l: nat)
      requires |keyLens| == |descLens| == |cols|
      modifies this
      ensures keybindings == old(keybindings) && text == old(text) + RowCells(cols, keyLens, descLens, l, |cols|)
    {
      ghost var start := text;
      var c := 0;
      while c < |cols|
        invariant 0 <= c <= |cols| && keybindings == old(keybindings)
        invariant text == start + RowCells(cols, keyLens, descLens, l, c)
      {
        WriteColumnCell(cols, keyLens, descLens, l, c, start);
        c := c + 1;
      }
    }

    /** One step of the column loop: the cell of column `c`, when that column reaches row `l`. */
    method WriteColumnCell(cols: seq<seq<KeyDescription>>, keyLens: seq<nat>, descLens: seq<nat>, l: nat, c: nat,
                           ghost start: seq<Insertion>)
      requires |keyLens| == |descLens| == |cols| && c < |cols|
      requires text == start + RowCells(cols, keyLens, descLens, l, c)
      modifies this
      ensures keybindings == old(keybindings) && text == start + RowCells(cols, keyLens, descLens, l, c + 1)
    {
      ghost var row := RowCells(cols, keyLens, descLens, l, c);
      RowCellsSnoc(cols, keyLens, descLens, l, c);
      if |cols[c]| > l {
        WriteCell(cols[c][l], keyLens[c], descLens[c]);
        Assoc(start, row, Cell(cols[c][l], keyLens[c], descLens[c]));
      }
    }
  }

  /** The width loop of `update`: the key and description widths of every column and the
      number of rows. */
  method MeasureColumns(cols: seq<seq<KeyDescription>>) returns (keyLens: seq<nat>, descLens: seq<nat>, line: nat)
    ensures keyLens == KeyWidths(cols) && descLens == DescWidths(cols) && line == RowCount(cols)
  {
    keyLens, descLens, line := [], [], 0;
    var c := 0;
    while c < |cols|
      invariant 0 <= c <= |cols|
      invariant keyLens == KeyWidths(cols[..c]) && descLens == DescWidths(cols[..c]) && line == RowCount(cols[..c])
    {
      ColumnsSnoc(cols, c);
      var items := cols[c];
      if |items| > line {
        line := |items|;
      }
      var keyLen, descLen := MeasureColumn(items);
      keyLens := keyLens + [keyLen];
      descLens := descLens + [descLen];
      c := c + 1;
    }
    assert cols[..c] == cols;
  }

  /** The item loop of one column: its longest key and its longest description. */
  method MeasureColumn(items: seq<KeyDescription>) returns (keyLen: nat, descLen: nat)
    ensures keyLen == KeyWidth(items) && descLen == DescWidth(items)
  {
    keyLen, descLen := 0, 0;
    var i := 0;
    while i < |items|
      invariant 0 <= i <= |items|
      invariant keyLen == KeyWidth(items[..i]) && descLen == DescWidth(items[..i])
    {
      ItemsSnoc(items, i);
      if |items[i].key| > keyLen {
        keyLen := |items[i].key|;
      }
      if |items[i].desc| > descLen {
        descLen := |items[i].desc|;
      }
      i := i + 1;
    }
    assert items[..i] == items;
  }
}
