/** The vulnerability tables of a report, one for each severity that occurs. */
module Vulnerabilities {
  import opened Text

  const NONE := "none"

  datatype Vulnerability = Vulnerability(name: string, fixVersion: string, severity: string)
  datatype Resource = Resource(name: string, version: string, vulnerabilities: seq<Vulnerability>)

  type Row = seq<string>

  const HEADER: Row := ["Vulnerability ID", "Resource name", "Installed version", "Fix version"]

  /** The severities in report order, with their headings. */
  const ORDER: seq<(string, string)> :=
    [("critical", "Critical"), ("high", "High"), ("medium", "Medium"), ("low", "Low"), ("negligible", "Negligible")]

  /** The four ways of rendering that the report is given: `lower` and `clear` are
      `strings.ToLower` and `data.ClearField`, the others belong to the layout. */
  datatype Layout = Layout(lower: string -> string, clear: string -> string,
                           titleH3: string -> string, table: seq<Row> -> string)

  function OrNone(text: string): string {
    if text == "" then NONE else text
  }

  function RowOf(r: Resource, v: Vulnerability, layout: Layout): Row {
    [OrNone(v.name), OrNone(r.name), OrNone(r.version), if v.fixVersion == "" then NONE else layout.clear(v.fixVersion)]
  }

  // ---------- Specification: plain filtering ----------

  /** All pairs of a resource and one of its vulnerabilities, in order. */
  function Pairs(resources: seq<Resource>): seq<(Resource, Vulnerability)> {
    if resources == [] then [] else
      var last := resources[|resources| - 1];
      Pairs(resources[..|resources| - 1])
      + seq(|last.vulnerabilities|, i requires 0 <= i < |last.vulnerabilities| => (last, last.vulnerabilities[i]))
  }

  function RowsOf(pairs: seq<(Resource, Vulnerability)>, severity: string, layout: Layout): seq<Row> {
    if pairs == [] then [] else
      var (r, v) := pairs[|pairs| - 1];
      RowsOf(pairs[..|pairs| - 1], severity, layout)
      + (if layout.lower(v.severity) == severity then [RowOf(r, v, layout)] else [])
  }

  /** The tables of the first `n` severities; a severity without rows has none. */
  function Report(pairs: seq<(Resource, Vulnerability)>, n: nat, layout: Layout): string
    requires n <= |ORDER|
  {
    if n == 0 then "" else
      var (severity, heading) := ORDER[n - 1];
      var rows := RowsOf(pairs, severity, layout);
      Report(pairs, n - 1, layout)
      + (if rows == [] then "" else
           layout.titleH3(heading + " severity vulnerabilities") + layout.table([HEADER] + rows))
  }

  // ---------- The loops ----------

  /** The map holds the rows of every severity met so far, and no other key. */
  ghost predicate Grouped(rating: map<string, seq<Row>>, pairs: seq<(Resource, Vulnerability)>, layout: Layout) {
    forall severity :: (if severity in rating then rating[severity] else []) == RowsOf(pairs, severity, layout)
                       && (severity in rating ==> rating[severity] != [])
  }

  method RenderVulnerabilities(resources: seq<Resource>, layout: Layout) returns (text: string)
    ensures text == Report(Pairs(resources), |ORDER|, layout)
    ensures text == Flatten([TableFor(Pairs(resources), "critical", "Critical", layout),
                             TableFor(Pairs(resources), "high", "High", layout),
                             TableFor(Pairs(resources), "medium", "Medium", layout),
                             TableFor(Pairs(resources), "low", "Low", layout),
                             TableFor(Pairs(resources), "negligible", "Negligible", layout)])
  {
    var rating := GroupBySeverity(resources, layout);
    text := "";
    for i := 0 to |ORDER|
      invariant text == Report(Pairs(resources), i, layout)
    {
      var (severity, heading) := ORDER[i];
      if severity in rating {
        text := text + (layout.titleH3(heading + " severity vulnerabilities")
                        + layout.table([HEADER] + rating[severity]));
      }
    }
    ReportReads(Pairs(resources), layout);
  }

  method GroupBySeverity(resources: seq<Resource>, layout: Layout) returns (rating: map<string, seq<Row>>)
    ensures Grouped(rating, Pairs(resources), layout)
  {
    rating := map[];
    for i := 0 to |resources|
      invariant Grouped(rating, Pairs(resources[..i]), layout)
    {
      var r := resources[i];
      ghost var before := Pairs(resources[..i]);
      assert resources[..i + 1][..i] == resources[..i];
      assert Pairs(resources[..i + 1]) == before + PairsWith(r, |r.vulnerabilities|);
      rating := AddResource(rating, before, r, layout);
    }
    assert resources[..|resources|] == resources;
  }

  function WithRow(rating: map<string, seq<Row>>, key: string, row: Row): map<string, seq<Row>> {
    rating[key := (if key in rating then rating[key] else []) + [row]]
  }

  method AddResource(soFar: map<string, seq<Row>>, ghost before: seq<(Resource, Vulnerability)>, r: Resource,
                     layout: Layout)
    returns (rating: map<string, seq<Row>>)
    requires Grouped(soFar, before, layout)
    ensures Grouped(rating, before + PairsWith(r, |r.vulnerabilities|), layout)
  {
    rating := soFar;
    assert before + PairsWith(r, 0) == before;
    for j := 0 to |r.vulnerabilities|
      invariant Grouped(rating, before + PairsWith(r, j), layout)
    {
      var v := r.vulnerabilities[j];
      var key := layout.lower(v.severity);
      RowAppended(rating, before + PairsWith(r, j), r, v, layout);
      PairAppended(before, r, j);
      rating := WithRow(rating, key, RowOf(r, v, layout));
    }
  }

  lemma PairAppended(before: seq<(Resource, Vulnerability)>, r: Resource, j: nat)
    requires j < |r.vulnerabilities|
    ensures before + PairsWith(r, j + 1) == before + PairsWith(r, j) + [(r, r.vulnerabilities[j])]
  {
  }

  lemma RowAppended(rating: map<string, seq<Row>>, pairs: seq<(Resource, Vulnerability)>, r: Resource,
                    v: Vulnerability, layout: Layout)
    requires Grouped(rating, pairs, layout)
    ensures Grouped(WithRow(rating, layout.lower(v.severity), RowOf(r, v, layout)), pairs + [(r, v)], layout)
  {
    RowAdded(pairs, r, v, layout);
    var after := WithRow(rating, layout.lower(v.severity), RowOf(r, v, layout));
    forall severity
      ensures (if severity in after then after[severity] else []) == RowsOf(pairs + [(r, v)], severity, layout)
      ensures severity in after ==> after[severity] != []
    {
      var before := if severity in rating then rating[severity] else [];
      assert before == RowsOf(pairs, severity, layout);
    }
  }

  function PairsWith(r: Resource, n: nat): seq<(Resource, Vulnerability)>
    requires n <= |r.vulnerabilities|
  {
    seq(n, i requires 0 <= i < n => (r, r.vulnerabilities[i]))
  }

  lemma RowAdded(pairs: seq<(Resource, Vulnerability)>, r: Resource, v: Vulnerability, layout: Layout)
    ensures forall severity ::
              RowsOf(pairs + [(r, v)], severity, layout)
              == RowsOf(pairs, severity, layout)
                 + (if layout.lower(v.severity) == severity then [RowOf(r, v, layout)] else [])
  {
    assert (pairs + [(r, v)])[..|pairs|] == pairs;
  }

  /** The rows of a severity, pair by pair: a vulnerability of that severity, in lower case, adds
      a row of four columns, and any other none. */
  lemma RowsGrow(pairs: seq<(Resource, Vulnerability)>, r: Resource, v: Vulnerability, severity: string, layout: Layout)
    ensures RowsOf([], severity, layout) == []
    ensures RowsOf(pairs + [(r, v)], severity, layout)
         == RowsOf(pairs, severity, layout)
            + (if layout.lower(v.severity) != severity then []
               else [[if v.name == "" then "none" else v.name,
                      if r.name == "" then "none" else r.name,
                      if r.version == "" then "none" else r.version,
                      if v.fixVersion == "" then "none" else layout.clear(v.fixVersion)]])
  {
    RowAdded(pairs, r, v, layout);
  }

  /** Each resource with its vulnerabilities, in order. */
  function PairLists(resources: seq<Resource>): seq<seq<(Resource, Vulnerability)>> {
    seq(|resources|, i requires 0 <= i < |resources| => PairsWith(resources[i], |resources[i].vulnerabilities|))
  }

  lemma {:induction false} PairsAreFlat(resources: seq<Resource>)
    ensures Pairs(resources) == Flatten(PairLists(resources))
  {
    if resources != [] {
      var n := |resources| - 1;
      PairsAreFlat(resources[..n]);
      assert PairLists(resources) == PairLists(resources[..n]) + [PairLists(resources)[n]];
      FlattenSnoc(PairLists(resources[..n]), PairLists(resources)[n]);
      assert PairLists(resources)[n] == PairsWith(resources[n], |resources[n].vulnerabilities|);
    }
  }

  /** The table of one severity, if it has rows. */
  function TableFor(pairs: seq<(Resource, Vulnerability)>, severity: string, heading: string, layout: Layout): string {
    var rows := RowsOf(pairs, severity, layout);
    if rows == [] then ""
    else layout.titleH3(heading + " severity vulnerabilities")
         + layout.table([["Vulnerability ID", "Resource name", "Installed version", "Fix version"]] + rows)
  }

  function Tables(pairs: seq<(Resource, Vulnerability)>, n: nat, layout: Layout): seq<string>
    requires n <= |ORDER|
  {
    seq(n, i requires 0 <= i < n => TableFor(pairs, ORDER[i].0, ORDER[i].1, layout))
  }

  lemma {:induction false} ReportIsFlat(pairs: seq<(Resource, Vulnerability)>, n: nat, layout: Layout)
    requires n <= |ORDER|
    ensures Report(pairs, n, layout) == Flatten(Tables(pairs, n, layout))
  {
    if n > 0 {
      ReportIsFlat(pairs, n - 1, layout);
      var last := TableFor(pairs, ORDER[n - 1].0, ORDER[n - 1].1, layout);
      assert Tables(pairs, n, layout) == Tables(pairs, n - 1, layout) + [last];
      FlattenSnoc(Tables(pairs, n - 1, layout), last);
    }
  }

  /** The whole report: five tables in this order under these headings. */
  lemma ReportReads(pairs: seq<(Resource, Vulnerability)>, layout: Layout)
    ensures Report(pairs, |ORDER|, layout)
         == Flatten([TableFor(pairs, "critical", "Critical", layout),
                     TableFor(pairs, "high", "High", layout),
                     TableFor(pairs, "medium", "Medium", layout),
                     TableFor(pairs, "low", "Low", layout),
                     TableFor(pairs, "negligible", "Negligible", layout)])
  {
    ReportIsFlat(pairs, |ORDER|, layout);
    TablesRead(pairs, |ORDER|, layout);
  }

  lemma TablesRead(pairs: seq<(Resource, Vulnerability)>, n: nat, layout: Layout)
    requires n == |ORDER|
    ensures Tables(pairs, n, layout)
         == [TableFor(pairs, "critical", "Critical", layout),
             TableFor(pairs, "high", "High", layout),
             TableFor(pairs, "medium", "Medium", layout),
             TableFor(pairs, "low", "Low", layout),
             TableFor(pairs, "negligible", "Negligible", layout)]
  {
    assert ORDER[0] == ("critical", "Critical") && ORDER[1] == ("high", "High") && ORDER[2] == ("medium", "Medium");
    assert ORDER[3] == ("low", "Low") && ORDER[4] == ("negligible", "Negligible");
    FiveTables(Tables(pairs, n, layout));
  }

  lemma FiveTables(tables: seq<string>)
    requires |tables| == 5
    ensures tables == [tables[0], tables[1], tables[2], tables[3], tables[4]]
  {
  }

  // ---------- Nothing is lost ----------

  predicate Listed(v: Vulnerability, layout: Layout) {
    exists i | 0 <= i < |ORDER| :: layout.lower(v.severity) == ORDER[i].0
  }

  function ListedCount(pairs: seq<(Resource, Vulnerability)>, layout: Layout): nat {
    if pairs == [] then 0 else
      ListedCount(pairs[..|pairs| - 1], layout) + (if Listed(pairs[|pairs| - 1].1, layout) then 1 else 0)
  }

  function RowTotal(pairs: seq<(Resource, Vulnerability)>, n: nat, layout: Layout): nat
    requires n <= |ORDER|
  {
    if n == 0 then 0 else RowTotal(pairs, n - 1, layout) + |RowsOf(pairs, ORDER[n - 1].0, layout)|
  }

  /** The five tables together have one row for each vulnerability of one of the five
      severities: none is missing and none is in two tables. */
  lemma {:induction false} RowsCountVulnerabilities(pairs: seq<(Resource, Vulnerability)>, layout: Layout)
    ensures RowTotal(pairs, |ORDER|, layout) == ListedCount(pairs, layout)
  {
    if pairs == [] {
      NoRows(|ORDER|, layout);
    } else {
      RowsCountVulnerabilities(pairs[..|pairs| - 1], layout);
      OneMoreRow(pairs, |ORDER|, layout);
    }
  }

  lemma {:induction false} NoRows(n: nat, layout: Layout)
    requires n <= |ORDER|
    ensures RowTotal([], n, layout) == 0
  {
    if n > 0 {
      NoRows(n - 1, layout);
    }
  }

  lemma {:induction false} OneMoreRow(pairs: seq<(Resource, Vulnerability)>, n: nat, layout: Layout)
    requires n <= |ORDER| && pairs != []
    ensures var severity := layout.lower(pairs[|pairs| - 1].1.severity);
            RowTotal(pairs, n, layout)
            == RowTotal(pairs[..|pairs| - 1], n, layout)
              + (if exists i | 0 <= i < n :: severity == ORDER[i].0 then 1 else 0)
  {
    if n > 0 {
      OneMoreRow(pairs, n - 1, layout);
      assert forall i | 0 <= i < n - 1 :: ORDER[i].0 != ORDER[n - 1].0;
    }
  }
}
