/** The Slack table: rows of cells become pairs of fields, cut into section blocks of at
    most ten. The rego template does the same cut declaratively. */
module SlackTable {
  import opened Text

  datatype TextBlock = TextBlock(typeField: string, textField: string)

  const BLANK := TextBlock("", "")
  const ROWS_PER_BLOCK := 5

  function Mrkdwn(text: string): TextBlock {
    TextBlock("mrkdwn", text)
  }

  // ---------- Specification ----------

  function Bold(header: bool, cell: string): string {
    if header then "*" + cell + "*" else cell
  }

  function Bolds(header: bool, cells: seq<string>): seq<string> {
    seq(|cells|, i requires 0 <= i < |cells| => Bold(header, cells[i]))
  }

  /** A table whose first cell is "#" shows its first two columns as one. */
  predicate Numbered(rows: seq<seq<string>>) {
    rows != [] && rows[0] != [] && rows[0][0] == "#"
  }

  function Cell1(row: seq<string>, header: bool, numbered: bool): string {
    if row == [] then ""
    else if numbered && |row| > 1 then Bold(header, row[0]) + " " + Bold(header, row[1])
    else Bold(header, row[0])
  }

  function Cell2(row: seq<string>, header: bool, numbered: bool): string {
    var first := if numbered then 2 else 1;
    if |row| <= first then "" else Join(Bolds(header, row[first..]), " / ")
  }

  /** All fields of the table, two a row. */
  function TableFields(rows: seq<seq<string>>): seq<TextBlock> {
    seq(2 * |rows|, k requires 0 <= k < 2 * |rows| =>
      Mrkdwn(if k % 2 == 0 then Cell1(rows[k / 2], k / 2 == 0, Numbered(rows))
             else Cell2(rows[k / 2], k / 2 == 0, Numbered(rows))))
  }

  /** Consecutive pieces of `n` elements; the last one may be shorter. */
  function Chunks<T>(s: seq<T>, n: nat): seq<seq<T>>
    requires n > 0
  {
    if s == [] then [] else if |s| <= n then [s] else [s[..n]] + Chunks(s[n..], n)
  }

  predicate Transposed(rows: seq<seq<string>>) {
    |rows| == 2 && |rows[0]| == 5
  }

  /** Header over value, column by column; a missing value leaves its field blank. */
  function Transposition(rows: seq<seq<string>>): seq<TextBlock>
    requires Transposed(rows)
  {
    seq(10, k requires 0 <= k < 10 =>
      if k % 2 == 0 then Mrkdwn("*" + rows[0][k / 2] + "*")
      else if k / 2 < |rows[1]| then Mrkdwn(rows[1][k / 2])
      else BLANK)
  }

  /** The tables on which no index is out of range: a transposed one must not have more
      values than headers, and any other needs a first cell to look at as soon as some row
      has a second one. */
  predicate InRange(rows: seq<seq<string>>) {
    if Transposed(rows) then |rows[1]| <= 5
    else forall i | 0 <= i < |rows| :: |rows[i]| > 1 ==> rows[0] != []
  }

  // ---------- The loops ----------

  /** The two buffers after `j` cells of the row. */
  function Partial1(r: seq<string>, j: nat, header: bool, numbered: bool): string
    requires j <= |r|
  {
    if j == 0 then ""
    else if numbered && j > 1 then Bold(header, r[0]) + " " + Bold(header, r[1])
    else Bold(header, r[0])
  }

  function Partial2(r: seq<string>, j: nat, header: bool, numbered: bool): string
    requires j <= |r|
  {
    if numbered then (if j <= 2 then "" else Join(Bolds(header, r[2..j]), " / "))
    else if j <= 1 then ""
    else Join(Bolds(header, r[1..j]), " / ") + (if j == 2 && |r| > 2 then " / " else "")
  }

  /** What cell `j` adds to the two buffers: where it goes, and when a separator goes
      before or after it. */
  function Added1(r: seq<string>, j: nat, header: bool, numbered: bool): string
    requires j < |r|
  {
    if j == 0 then Bold(header, r[0]) else if j == 1 && numbered then " " + Bold(header, r[1]) else ""
  }

  function Added2(r: seq<string>, j: nat, header: bool, numbered: bool): string
    requires j < |r|
  {
    if j == 0 || (j == 1 && numbered) then ""
    else if j == 1 then Bold(header, r[1]) + (if |r| > 2 then " / " else "")
    else (if j > 2 then " / " else "") + Bold(header, r[j])
  }

  lemma CellAdded(r: seq<string>, j: nat, header: bool, numbered: bool)
    requires j < |r|
    ensures Partial1(r, j + 1, header, numbered) == Partial1(r, j, header, numbered) + Added1(r, j, header, numbered)
    ensures Partial2(r, j + 1, header, numbered) == Partial2(r, j, header, numbered) + Added2(r, j, header, numbered)
  {
    var first := if numbered then 2 else 1;
    if j >= first {
      BoldAdded(r, first, j, header);
    }
  }

  lemma BoldAdded(r: seq<string>, first: nat, j: nat, header: bool)
    requires first <= j < |r|
    ensures var joined := Join(Bolds(header, r[first..j + 1]), " / ");
            joined == if j == first then Bold(header, r[j])
                      else Join(Bolds(header, r[first..j]), " / ") + " / " + Bold(header, r[j])
  {
    var before := Bolds(header, r[first..j]);
    assert Bolds(header, r[first..j + 1]) == before + [Bold(header, r[j])];
    if j > first {
      JoinSnoc(before, Bold(header, r[j]), " / ");
    }
  }

  lemma AllCellsAdded(r: seq<string>, header: bool, numbered: bool)
    ensures Partial1(r, |r|, header, numbered) == Cell1(r, header, numbered)
    ensures Partial2(r, |r|, header, numbered) == Cell2(r, header, numbered)
  {
    assert |r| > 1 ==> r[1..|r|] == r[1..];
    assert |r| > 2 ==> r[2..|r|] == r[2..];
  }

  method RowCells(r: seq<string>, line: nat, rows: seq<seq<string>>) returns (cell1: string, cell2: string)
    requires line < |rows| && r == rows[line]
    requires |r| > 1 ==> rows[0] != []
    ensures cell1 == Cell1(r, line == 0, Numbered(rows))
    ensures cell2 == Cell2(r, line == 0, Numbered(rows))
  {
    cell1, cell2 := "", "";
    for j := 0 to |r|
      invariant cell1 == Partial1(r, j, line == 0, Numbered(rows))
      invariant cell2 == Partial2(r, j, line == 0, Numbered(rows))
    {
      CellAdded(r, j, line == 0, Numbered(rows));
      cell1, cell2 := AddCell(cell1, cell2, r, j, line, rows);
    }
    AllCellsAdded(r, line == 0, Numbered(rows));
  }

  method AddCell(before1: string, before2: string, r: seq<string>, j: nat, line: nat, rows: seq<seq<string>>)
    returns (cell1: string, cell2: string)
    requires j < |r| && (j == 1 ==> rows != [] && rows[0] != [])
    ensures cell1 == before1 + Added1(r, j, line == 0, Numbered(rows))
    ensures cell2 == before2 + Added2(r, j, line == 0, Numbered(rows))
  {
    cell1, cell2 := before1, before2;
    var bold := "";
    if line == 0 {
      bold := "*";
    }
    var f := bold + r[j] + bold;
    assert f == Bold(line == 0, r[j]);
    if j == 0 {
      cell1 := cell1 + f;
    } else if j == 1 {
      if rows[0][0] == "#" {
        cell1 := cell1 + (" " + f);
      } else {
        cell2 := cell2 + f;
        if |r| > 2 {
          cell2 := cell2 + " / ";
        }
      }
    } else {
      if j > 2 {
        cell2 := cell2 + " / ";
      }
      cell2 := cell2 + f;
    }
  }

  method TransposedTable(rows: seq<seq<string>>) returns (block: seq<TextBlock>)
    requires Transposed(rows) && InRange(rows)
    ensures block == Transposition(rows)
  {
    var fields := new TextBlock[2 * |rows[0]|](_ => BLANK);
    for i := 0 to |rows|
      invariant forall k | 0 <= k < 10 ::
                  fields[k] == if (k % 2 == 0 && i > 0) || (k % 2 == 1 && i > 1) then Transposition(rows)[k] else BLANK
    {
      var r := rows[i];
      for j := 0 to |r|
        invariant forall k | 0 <= k < 10 ::
                    fields[k] == if (k % 2 == 0 && (i > 0 || k / 2 < j)) || (k % 2 == 1 && i == 1 && k / 2 < j)
                                 then Transposition(rows)[k] else BLANK
      {
        if i == 0 {
          fields[j * 2] := Mrkdwn("*" + r[j] + "*");
        } else {
          fields[j * 2 + 1] := Mrkdwn(r[j]);
        }
      }
    }
    block := fields[..];
    assert block == Transposition(rows);
  }

  function Min(a: int, b: int): int {
    if a < b then a else b
  }

  /** The fields of group `g` up to row `line` are in place. */
  ghost predicate Filled(all: seq<TextBlock>, g: nat, line: nat, fields: seq<TextBlock>) {
    && ROWS_PER_BLOCK * g <= line <= ROWS_PER_BLOCK * g + ROWS_PER_BLOCK
    && 2 * line <= |all| && |all| % 2 == 0
    && |fields| == Min(10, |all| - 10 * g)
    && forall k | 0 <= k < 2 * line - 10 * g :: fields[k] == all[10 * g + k]
  }

  lemma BlockComplete(all: seq<TextBlock>, g: nat, line: nat, fields: seq<TextBlock>)
    requires Filled(all, g, line, fields) && ROWS_PER_BLOCK * g < line
    requires line == ROWS_PER_BLOCK * g + ROWS_PER_BLOCK || 2 * line == |all|
    ensures g < |Groups(all)| && Groups(all)[g] == fields
    ensures 2 * line == |all| ==> |Groups(all)| == g + 1
  {
    assert Group(all, g) == all[10 * g..2 * line];
    assert fields == all[10 * g..2 * line];
  }

  /** The first `g` groups are written out and the next one is filled up to row `line`. */
  ghost predicate Progress(all: seq<TextBlock>, blocks: seq<seq<TextBlock>>, g: nat, line: nat,
                           fields: seq<TextBlock>) {
    && Filled(all, g, line, fields)
    && (line > 0 ==> ROWS_PER_BLOCK * g < line)
    && g <= |Groups(all)| && blocks == Groups(all)[..g]
  }

  /** The block being filled is complete when the next one begins, and at the end. */
  lemma BlockWritten(all: seq<TextBlock>, blocks: seq<seq<TextBlock>>, g: nat, line: nat, fields: seq<TextBlock>)
    requires Progress(all, blocks, g, line, fields) && line > 0
    requires line % ROWS_PER_BLOCK == 0 || 2 * line == |all|
    ensures g + 1 <= |Groups(all)| && blocks + [fields] == Groups(all)[..g + 1]
    ensures 2 * line == |all| ==> blocks + [fields] == Groups(all)
    ensures 2 * line < |all| ==> line == ROWS_PER_BLOCK * (g + 1)
  {
    if line % ROWS_PER_BLOCK == 0 {
      NextGroup(g, line);
    }
    BlockComplete(all, g, line, fields);
  }

  lemma RowPlaced(rows: seq<seq<string>>, g: nat, line: nat, fields: seq<TextBlock>, cell1: string, cell2: string)
    requires line < |rows| && line < ROWS_PER_BLOCK * g + ROWS_PER_BLOCK
    requires Filled(TableFields(rows), g, line, fields)
    requires cell1 == Cell1(rows[line], line == 0, Numbered(rows))
        && cell2 == Cell2(rows[line], line == 0, Numbered(rows))
    ensures 0 <= 2 * line - 10 * g && 2 * line - 10 * g + 1 < |fields|
    ensures line % ROWS_PER_BLOCK * 2 == 2 * line - 10 * g
    ensures Filled(TableFields(rows), g, line + 1,
        fields[2 * line - 10 * g := Mrkdwn(cell1)][2 * line - 10 * g + 1 := Mrkdwn(cell2)])
  {
    RowFields(rows, line);
    assert line % ROWS_PER_BLOCK == line - ROWS_PER_BLOCK * g;
  }

  method PlaceRow(fields: array<TextBlock>, at: nat, first: TextBlock, second: TextBlock)
    requires at + 1 < fields.Length
    modifies fields
    ensures fields[..] == old(fields[..])[at := first][at + 1 := second]
  {
    fields[at] := first;
    fields[at + 1] := second;
  }

  method AddRow(fields: array<TextBlock>, rows: seq<seq<string>>, ghost g: nat, line: nat)
    requires line < |rows| && (|rows[line]| > 1 ==> rows[0] != [])
    requires line < ROWS_PER_BLOCK * g + ROWS_PER_BLOCK && Filled(TableFields(rows), g, line, fields[..])
    modifies fields
    ensures Filled(TableFields(rows), g, line + 1, fields[..])
  {
    var cell1, cell2 := RowCells(rows[line], line, rows);
    RowPlaced(rows, g, line, fields[..], cell1, cell2);
    PlaceRow(fields, line % ROWS_PER_BLOCK * 2, Mrkdwn(cell1), Mrkdwn(cell2));
  }

  method NewBlock(rows: seq<seq<string>>, g: nat, line: nat) returns (fields: array<TextBlock>)
    requires line < |rows| && line == ROWS_PER_BLOCK * g
    ensures fresh(fields) && fields.Length > 0 && Filled(TableFields(rows), g, line, fields[..])
  {
    var current := ROWS_PER_BLOCK;
    if |rows| - line < ROWS_PER_BLOCK {
      current := |rows| - line;
    }
    fields := new TextBlock[current * 2](_ => BLANK);
  }

  /** Blocks are written out when the next one begins; `fields` is the block being filled
      and `g` its number. */
  method BlockTable(rows: seq<seq<string>>) returns (blocks: seq<seq<TextBlock>>)
    requires rows != [] && !Transposed(rows) && InRange(rows)
    ensures blocks == Groups(TableFields(rows))
  {
    blocks := [];
    var g := 0;
    var fields := NewBlock(rows, 0, 0);
    for line := 0 to |rows|
      invariant fresh(fields) && Progress(TableFields(rows), blocks, g, line, fields[..])
    {
      if line % ROWS_PER_BLOCK == 0 && line > 0 {
        BlockWritten(TableFields(rows), blocks, g, line, fields[..]);
        blocks := blocks + [fields[..]];
        g := g + 1;
        fields := NewBlock(rows, g, line);
      }
      SameGroup(g, line);
      AddRow(fields, rows, g, line);
    }
    BlockWritten(TableFields(rows), blocks, g, |rows|, fields[..]);
    blocks := blocks + [fields[..]];
  }

  lemma NextGroup(g: nat, line: nat)
    requires line % ROWS_PER_BLOCK == 0 && ROWS_PER_BLOCK * g < line <= ROWS_PER_BLOCK * g + ROWS_PER_BLOCK
    ensures line == ROWS_PER_BLOCK * (g + 1)
  {
  }

  lemma SameGroup(g: nat, line: nat)
    requires ROWS_PER_BLOCK * g <= line <= ROWS_PER_BLOCK * g + ROWS_PER_BLOCK
    requires line % ROWS_PER_BLOCK == 0 ==> line == ROWS_PER_BLOCK * g
    ensures line < ROWS_PER_BLOCK * g + ROWS_PER_BLOCK
  {
  }

  lemma RowFields(rows: seq<seq<string>>, line: nat)
    requires line < |rows|
    ensures TableFields(rows)[2 * line] == Mrkdwn(Cell1(rows[line], line == 0, Numbered(rows)))
    ensures TableFields(rows)[2 * line + 1] == Mrkdwn(Cell2(rows[line], line == 0, Numbered(rows)))
  {
  }

  /** What a reader sees of row `line`: the first cell in one field and the rest joined in the
      next, or the first two cells together where the table is numbered; header cells are
      starred and all others verbatim. */
  predicate RowShown(fields: seq<TextBlock>, rows: seq<seq<string>>, line: nat)
    requires line < |rows|
  {
    var row := rows[line];
    var cells := if line == 0 then seq(|row|, i requires 0 <= i < |row| => "*" + row[i] + "*") else row;
    var first := if rows[0] != [] && rows[0][0] == "#" then 2 else 1;
    && 2 * line + 1 < |fields|
    && fields[2 * line].typeField == "mrkdwn" && fields[2 * line + 1].typeField == "mrkdwn"
    && fields[2 * line].textField
       == (if cells == [] then "" else if first == 2 && |cells| > 1 then cells[0] + " " + cells[1] else cells[0])
    && fields[2 * line + 1].textField == (if |cells| <= first then "" else Join(cells[first..], " / "))
  }

  lemma FieldsShowRows(rows: seq<seq<string>>, line: nat)
    requires line < |rows|
    ensures RowShown(TableFields(rows), rows, line)
  {
    var row := rows[line];
    RowFields(rows, line);
    CellsShown(row, line == 0);
  }

  lemma CellsShown(row: seq<string>, header: bool)
    ensures var cells := if header then seq(|row|, i requires 0 <= i < |row| => "*" + row[i] + "*") else row;
            && Bolds(header, row) == cells
            && (|row| > 1 ==> Bolds(header, row[1..]) == cells[1..])
            && (|row| > 2 ==> Bolds(header, row[2..]) == cells[2..])
            && (forall i | 0 <= i < |row| :: Bold(header, row[i]) == cells[i])
  {
  }

  /** All rows are shown in order, in blocks of ten fields of which only the last may be shorter. */
  predicate AllShown(blocks: seq<seq<TextBlock>>, rows: seq<seq<string>>) {
    && |Flatten(blocks)| == 2 * |rows|
    && (forall line | 0 <= line < |rows| :: RowShown(Flatten(blocks), rows, line))
    && (forall i | 0 <= i < |blocks| :: if i < |blocks| - 1 then |blocks[i]| == 10 else 1 <= |blocks[i]| <= 10)
  }

  /** A header and its value in two fields next to each other; a missing value leaves its field
      blank. */
  predicate ColumnShown(block: seq<TextBlock>, header: seq<string>, values: seq<string>, k: nat)
    requires k < |header|
  {
    && 2 * k + 1 < |block|
    && block[2 * k] == TextBlock("mrkdwn", "*" + header[k] + "*")
    && block[2 * k + 1] == if k < |values| then TextBlock("mrkdwn", values[k]) else TextBlock("", "")
  }

  predicate ColumnsShown(blocks: seq<seq<TextBlock>>, rows: seq<seq<string>>)
    requires |rows| == 2 && |rows[0]| == 5
  {
    && |blocks| == 1 && |blocks[0]| == 10
    && (forall k | 0 <= k < 5 :: ColumnShown(blocks[0], rows[0], rows[1], k))
  }

  ghost predicate AgreesWithTemplate(blocks: seq<seq<TextBlock>>, rows: seq<seq<string>>) {
    forall caption :: FieldGroups(RenderSections(TableFields(rows), caption)) == blocks
  }

  /** The blocks of the table. A table of two rows under five headers is shown by columns, all
      others by rows; these are the groups that the template makes of the same fields. */
  method Table(rows: seq<seq<string>>) returns (blocks: seq<seq<TextBlock>>)
    requires InRange(rows)
    ensures blocks == if Transposed(rows) then [Transposition(rows)] else Chunks(TableFields(rows), 10)
    ensures if |rows| == 2 && |rows[0]| == 5 then ColumnsShown(blocks, rows)
            else AllShown(blocks, rows) && AgreesWithTemplate(blocks, rows)
  {
    if |rows| == 0 {
      TableReads(rows);
      return [];
    }
    if |rows| == 2 && |rows[0]| == 5 {
      var block := TransposedTable(rows);
      TranspositionReads(rows);
      return [block];
    }
    blocks := BlockTable(rows);
    TableReads(rows);
  }

  lemma TranspositionReads(rows: seq<seq<string>>)
    requires Transposed(rows)
    ensures ColumnsShown([Transposition(rows)], rows)
  {
    forall k | 0 <= k < 5 ensures ColumnShown(Transposition(rows), rows[0], rows[1], k) {
      OneColumn(rows, k);
    }
  }

  lemma OneColumn(rows: seq<seq<string>>, k: nat)
    requires Transposed(rows) && k < 5
    ensures Transposition(rows)[2 * k] == TextBlock("mrkdwn", "*" + rows[0][k] + "*")
    ensures Transposition(rows)[2 * k + 1]
         == if k < |rows[1]| then TextBlock("mrkdwn", rows[1][k]) else TextBlock("", "")
  {
    assert 2 * k / 2 == k && (2 * k + 1) / 2 == k && (2 * k + 1) % 2 == 1;
  }

  lemma TableReads(rows: seq<seq<string>>)
    ensures Groups(TableFields(rows)) == Chunks(TableFields(rows), 10)
    ensures AllShown(Groups(TableFields(rows)), rows) && AgreesWithTemplate(Groups(TableFields(rows)), rows)
  {
    GroupsAreChunks(TableFields(rows));
    ChunksExact(TableFields(rows), 10);
    forall line | 0 <= line < |rows| ensures RowShown(TableFields(rows), rows, line) {
      FieldsShowRows(rows, line);
    }
    forall caption ensures FieldGroups(RenderSections(TableFields(rows), caption)) == Groups(TableFields(rows)) {
      FieldGroupsOfCaptioned(Groups(TableFields(rows)), caption);
    }
  }

  // ---------- The declarative cut ----------

  /** `array.slice` clamps its bounds. */
  function Slice<T>(s: seq<T>, from: nat, to: nat): seq<T>
    requires from <= to
  {
    s[Min(from, |s|)..Min(to, |s|)]
  }

  function Group<T>(fields: seq<T>, g: nat): seq<T> {
    Slice(fields, 10 * g, 10 * g + 10)
  }

  /** The groups of `render_sections`: one for each index from zero to `ceil(count / 10) - 1`. */
  function Groups<T>(fields: seq<T>): seq<seq<T>> {
    var n := (|fields| + 9) / 10;
    seq(n, g requires 0 <= g < n => Group(fields, g))
  }

  datatype Section = Caption(text: string) | Fields(fields: seq<TextBlock>)

  function Captioned(groups: seq<seq<TextBlock>>, caption: string): seq<seq<Section>> {
    seq(|groups|, g requires 0 <= g < |groups| => [Caption(caption), Fields(groups[g])])
  }

  /** `render_sections`: a caption and a group of fields for each group; none for no rows. */
  function RenderSections(rows: seq<TextBlock>, caption: string): seq<Section> {
    Flatten(Captioned(Groups(rows), caption))
  }

  lemma SliceShift<T>(s: seq<T>, from: nat, to: nat)
    requires |s| >= 10 && from <= to
    ensures Slice(s, from + 10, to + 10) == Slice(s[10..], from, to)
  {
    var i, j := Min(from, |s[10..]|), Min(to, |s[10..]|);
    assert Min(from + 10, |s|) == i + 10 && Min(to + 10, |s|) == j + 10;
    assert s[10..][i..j] == s[i + 10..j + 10];
  }

  lemma GroupsOfLong<T>(fields: seq<T>)
    requires |fields| > 10
    ensures Groups(fields) == [fields[..10]] + Groups(fields[10..])
  {
    var rest, groups := fields[10..], Groups(fields);
    var cut := [fields[..10]] + Groups(rest);
    assert |groups| == |cut|;
    forall g | 0 <= g < |groups| ensures groups[g] == cut[g] {
      assert groups[g] == Group(fields, g);
      if g > 0 {
        SliceShift(fields, 10 * (g - 1), 10 * (g - 1) + 10);
        assert cut[g] == Group(rest, g - 1);
      }
    }
    assert groups == cut;
  }

  lemma GroupsOfShort<T>(fields: seq<T>)
    requires |fields| <= 10
    ensures Groups(fields) == if fields == [] then [] else [fields]
  {
    assert |Groups(fields)| == if fields == [] then 0 else 1;
    if fields != [] {
      assert Groups(fields)[0] == Group(fields, 0) == fields;
    }
  }

  lemma {:induction false} GroupsAreChunks<T>(fields: seq<T>)
    ensures Groups(fields) == Chunks(fields, 10)
    decreases |fields|
  {
    if |fields| > 10 {
      GroupsOfLong(fields);
      GroupsAreChunks(fields[10..]);
    } else {
      GroupsOfShort(fields);
    }
  }

  /** What a cut into chunks means: nothing is lost or moved, every chunk but the last is
      full, and the last is not empty. */
  lemma {:induction false} ChunksExact<T>(s: seq<T>, n: nat)
    requires n > 0
    ensures Flatten(Chunks(s, n)) == s
    ensures forall i | 0 <= i < |Chunks(s, n)| ::
              if i < |Chunks(s, n)| - 1 then |Chunks(s, n)[i]| == n else 1 <= |Chunks(s, n)[i]| <= n
    decreases |s|
  {
    if |s| > n {
      ChunksExact(s[n..], n);
      assert s == s[..n] + s[n..];
      assert Chunks(s[n..], n) != [];
    } else if s != [] {
      assert Flatten([s]) == s + Flatten([s][1..]);
    }
  }

  /** The template's sections: each group has the caption in front of it. */
  lemma {:induction false} SectionsAlternate(groups: seq<seq<TextBlock>>, caption: string, g: nat)
    requires g < |groups|
    ensures |Flatten(Captioned(groups, caption))| == 2 * |groups|
    ensures Flatten(Captioned(groups, caption))[2 * g] == Caption(caption)
    ensures Flatten(Captioned(groups, caption))[2 * g + 1] == Fields(groups[g])
  {
    assert Captioned(groups, caption)[1..] == Captioned(groups[1..], caption);
    if |groups| == 1 {
      assert Flatten(Captioned(groups[1..], caption)) == [];
    } else {
      SectionsAlternate(groups[1..], caption, if g > 0 then g - 1 else 0);
    }
  }

  /** The groups of fields in a list of sections, captions left out. */
  function FieldGroups(sections: seq<Section>): seq<seq<TextBlock>> {
    if sections == [] then []
    else (if sections[0].Fields? then [sections[0].fields] else []) + FieldGroups(sections[1..])
  }

  lemma {:induction false} FieldGroupsOfCaptioned(groups: seq<seq<TextBlock>>, caption: string)
    ensures FieldGroups(Flatten(Captioned(groups, caption))) == groups
  {
    if groups != [] {
      FieldGroupsOfCaptioned(groups[1..], caption);
      assert Captioned(groups, caption)[1..] == Captioned(groups[1..], caption);
      var rest := Flatten(Captioned(groups[1..], caption));
      var sections := [Caption(caption), Fields(groups[0])] + rest;
      assert Flatten(Captioned(groups, caption)) == sections;
      assert sections[1..] == [Fields(groups[0])] + rest && sections[1..][1..] == rest;
      assert groups == [groups[0]] + groups[1..];
    }
  }
}
