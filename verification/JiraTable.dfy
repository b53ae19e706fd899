/** Tables in Jira's wiki text. */
module JiraTable {
  import opened Text

  function HeaderLine(row: seq<string>): string {
    "||" + Join(row, "||") + "||"
  }

  function RowLine(row: seq<string>): string {
    "|" + Join(row, "|") + "|"
  }

  function Lines(rows: seq<seq<string>>): seq<string> {
    seq(|rows|, i requires 0 <= i < |rows| => if i == 0 then HeaderLine(rows[i]) else RowLine(rows[i]))
  }

  function Ended(lines: seq<string>): string {
    if lines == [] then "" else Ended(lines[..|lines| - 1]) + lines[|lines| - 1] + "\n"
  }

  function Rendered(rows: seq<seq<string>>): string {
    if rows == [] then "" else Ended(Lines(rows)) + "\n"
  }

  lemma LineEnded(lines: seq<string>, i: nat)
    requires i < |lines|
    ensures Ended(lines[..i + 1]) == Ended(lines[..i]) + lines[i] + "\n"
  {
    var upTo := lines[..i + 1];
    assert upTo[..i] == lines[..i] && upTo[i] == lines[i];
  }

  lemma {:induction false} EndedIsFlat(lines: seq<string>)
    ensures Ended(lines) == Flatten(seq(|lines|, i requires 0 <= i < |lines| => lines[i] + "\n"))
  {
    if lines != [] {
      var n := |lines| - 1;
      var ended := seq(|lines|, i requires 0 <= i < |lines| => lines[i] + "\n");
      EndedIsFlat(lines[..n]);
      assert ended[..n] == seq(n, i requires 0 <= i < n => lines[..n][i] + "\n");
      assert ended == ended[..n] + [ended[n]];
      FlattenSnoc(ended[..n], ended[n]);
    }
  }

  /** Row by row: double bars for the first one, single bars for all others. */
  lemma RenderedIsFlat(rows: seq<seq<string>>)
    requires rows != []
    ensures Rendered(rows)
         == Flatten(seq(|rows|, i requires 0 <= i < |rows| =>
                      if i == 0 then "||" + Join(rows[i], "||") + "||" + "\n"
                      else "|" + Join(rows[i], "|") + "|" + "\n"))
            + "\n"
  {
    var lines := Lines(rows);
    EndedIsFlat(lines);
    assert seq(|lines|, i requires 0 <= i < |lines| => lines[i] + "\n")
        == seq(|rows|, i requires 0 <= i < |rows| =>
             if i == 0 then "||" + Join(rows[i], "||") + "||" + "\n" else "|" + Join(rows[i], "|") + "|" + "\n");
  }

  method Table(rows: seq<seq<string>>) returns (text: string)
    ensures text == Rendered(rows)
    ensures rows == [] ==> text == ""
    ensures rows != [] ==>
              text == Flatten(seq(|rows|, i requires 0 <= i < |rows| =>
                                if i == 0 then "||" + Join(rows[i], "||") + "||" + "\n"
                                else "|" + Join(rows[i], "|") + "|" + "\n"))
                      + "\n"
  {
    if |rows| == 0 {
      return "";
    }
    RenderedIsFlat(rows);
    text := "";
    ghost var lines := Lines(rows);
    for i := 0 to |rows|
      invariant text == Ended(lines[..i])
    {
      LineEnded(lines, i);
      if i == 0 {
        text := text + HeaderLine(rows[i]) + "\n";
      } else {
        text := text + RowLine(rows[i]) + "\n";
      }
    }
    assert lines[..|rows|] == lines;
    text := text + "\n";
  }

  // ---------- Reading a table back ----------

  lemma Regrouped(a: string, b: string, c: string)
    ensures a + b + "\n" + c == a + (b + ['\n'] + c)
  {
  }

  lemma {:induction false} EndedSplits(lines: seq<string>, rest: string)
    requires Free(lines, '\n')
    ensures Split(Ended(lines) + rest, '\n') == lines + Split(rest, '\n')
  {
    if lines == [] {
      assert Ended(lines) + rest == rest;
    } else {
      var before, last := lines[..|lines| - 1], lines[|lines| - 1];
      var tail := last + ['\n'] + rest;
      SplitAtSeparator(last, rest, '\n');
      SplitFree(last, '\n');
      EndedSplits(before, tail);
      Regrouped(Ended(before), last, rest);
      assert before + [last] == lines;
      assert before + ([last] + Split(rest, '\n')) == (before + [last]) + Split(rest, '\n');
    }
  }

  /** The text splits into its lines and two empty pieces. */
  lemma RenderedSplits(rows: seq<seq<string>>)
    requires rows != [] && Free(Lines(rows), '\n')
    ensures Split(Rendered(rows), '\n') == Lines(rows) + ["", ""]
  {
    EndedSplits(Lines(rows), "\n");
    assert "\n"[1..] == "";
  }

  lemma {:induction false} JoinFree(parts: seq<string>, sep: string, c: char)
    requires Free(parts, c) && c !in sep
    ensures c !in Join(parts, sep)
  {
    if |parts| > 1 {
      JoinFree(parts[1..], sep, c);
    }
  }

  /** The cells with an empty piece between any two: what the header's double bars leave. */
  function Spread(row: seq<string>): seq<string> {
    if |row| <= 1 then row else [row[0], ""] + Spread(row[1..])
  }

  lemma {:induction false} DoubleBars(row: seq<string>)
    requires row != []
    ensures Join(row, "||") == Join(Spread(row), "|")
    ensures Spread(row) != [] && (Free(row, '|') ==> Free(Spread(row), '|'))
  {
    if |row| > 1 {
      var rest := Spread(row[1..]);
      DoubleBars(row[1..]);
      assert Spread(row)[1..] == [""] + rest;
      assert ([""] + rest)[1..] == rest;
      assert Join(Spread(row), "|") == row[0] + "|" + ("" + "|" + Join(rest, "|"));
    }
  }

  lemma {:induction false} SpreadInjective(a: seq<string>, b: seq<string>)
    requires a != [] && b != [] && Spread(a) == Spread(b)
    ensures a == b
  {
    assert |Spread(a)| == 2 * |a| - 1 && |Spread(b)| == 2 * |b| - 1 by { SpreadLength(a); SpreadLength(b); }
    if |a| > 1 {
      assert Spread(a)[2..] == Spread(a[1..]) && Spread(b)[2..] == Spread(b[1..]);
      SpreadInjective(a[1..], b[1..]);
      assert a == [a[0]] + a[1..] && b == [b[0]] + b[1..];
    }
  }

  lemma {:induction false} SpreadLength(row: seq<string>)
    requires row != []
    ensures |Spread(row)| == 2 * |row| - 1
  {
    if |row| > 1 { SpreadLength(row[1..]); }
  }

  lemma RowLineSplits(row: seq<string>)
    requires row != [] && Free(row, '|')
    ensures Split(RowLine(row), '|') == [""] + row + [""]
  {
    assert RowLine(row) == "" + ['|'] + (Join(row, "|") + ['|'] + "");
    SplitAtSeparator("", Join(row, "|") + ['|'] + "", '|');
    SplitAtSeparator(Join(row, "|"), "", '|');
    SplitUndoesJoin(row, '|');
  }

  lemma HeaderLineSplits(row: seq<string>)
    requires row != [] && Free(row, '|')
    ensures Split(HeaderLine(row), '|') == ["", ""] + Spread(row) + ["", ""]
  {
    DoubleBars(row);
    RowLineSplits(Spread(row));
    var inner := RowLine(Spread(row));
    assert HeaderLine(row) == "" + ['|'] + (inner + ['|'] + "");
    SplitAtSeparator("", inner + ['|'] + "", '|');
    SplitAtSeparator(inner, "", '|');
    assert Split("", '|') == [""];
  }

  predicate PlainCells(rows: seq<seq<string>>) {
    forall i | 0 <= i < |rows| :: rows[i] != [] && Free(rows[i], '|') && Free(rows[i], '\n')
  }

  lemma PlainLines(rows: seq<seq<string>>)
    requires PlainCells(rows)
    ensures Free(Lines(rows), '\n')
  {
    forall i | 0 <= i < |rows| ensures '\n' !in Lines(rows)[i] {
      JoinFree(rows[i], "||", '\n');
      JoinFree(rows[i], "|", '\n');
    }
  }

  /** Different tables have different texts, provided no row is empty and no cell contains
      a bar or a newline. */
  lemma TableInjective(a: seq<seq<string>>, b: seq<seq<string>>)
    requires PlainCells(a) && PlainCells(b) && Rendered(a) == Rendered(b)
    ensures a == b
  {
    if a != [] && b != [] {
      PlainLines(a);
      PlainLines(b);
      RenderedSplits(a);
      RenderedSplits(b);
      var end := ["", ""];
      assert Lines(a) == (Lines(a) + end)[..|Lines(a)|];
      assert Lines(b) == (Lines(b) + end)[..|Lines(b)|];
      assert Lines(a) == Lines(b);
      forall i | 0 <= i < |a| ensures a[i] == b[i] {
        assert Lines(a)[i] == Lines(b)[i];
        SameLineSameRow(a[i], b[i], i == 0);
      }
    }
  }

  lemma SameLineSameRow(p: seq<string>, q: seq<string>, header: bool)
    requires p != [] && q != [] && Free(p, '|') && Free(q, '|')
    requires if header then HeaderLine(p) == HeaderLine(q) else RowLine(p) == RowLine(q)
    ensures p == q
  {
    if header {
      HeaderLineSplits(p);
      HeaderLineSplits(q);
      var s := Split(HeaderLine(p), '|');
      assert s[2..|s| - 2] == Spread(p) && s[2..|s| - 2] == Spread(q);
      SpreadInjective(p, q);
    } else {
      RowLineSplits(p);
      RowLineSplits(q);
      var s := Split(RowLine(p), '|');
      assert s[1..|s| - 1] == p && s[1..|s| - 1] == q;
    }
  }

  /** A row without cells reads like a row with one empty cell. */
  lemma EmptyRowCollides(rows: seq<seq<string>>)
    ensures Rendered(rows + [[]]) == Rendered(rows + [[""]])
  {
    assert Lines(rows + [[]]) == Lines(rows + [[""]]);
  }
}
