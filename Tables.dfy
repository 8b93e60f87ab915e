/**
 * Extraction of pot entries and match records from the page's tables.
 * The HTML parser is not modelled: a document is the sequence of its
 * tables, each already reduced to the texts the script reads from it.
 */
module Tables {
  import opened Common
  import opened Text

  /** One `<td>`: its stripped text and, in document order, the stripped texts of its `<a href>` anchors. */
  datatype Cell = Cell(text: string, anchors: seq<string>)

  /** The `<td>` cells of one `<tr>`. */
  type Row = seq<Cell>

  /**
   * One `<table>`: the stripped text of its caption if it has one, whether it
   * carries the class `sports-series`, and its rows, header row first.
   */
  datatype Table = Table(caption: Option<string>, sportsSeries: bool, rows: seq<Row>)

  /** A team's pot; the coefficient is whatever the float parser made of the last cell. */
  datatype PotEntry = PotEntry(pot: string, team: string, coefficient: Option<real>)

  datatype MatchRecord = MatchRecord(matchday: string, home: string, score: string, away: string)

  /** The failure the results loop can run into: a results table without a caption. */
  datatype Extracted = Records(records: seq<MatchRecord>) | MissingCaption(table: nat)

  const PotPrefix: string := "Pot"
  const EnDash: char := '\U{2013}'

  /** Python's `rows[1:]`: the rows after the header row. */
  function Body(rows: seq<Row>): (b: seq<Row>)
    ensures rows != [] ==> b == rows[1..]
    ensures rows == [] ==> b == []
  {
    if rows == [] then [] else rows[1..]
  }

  predicate IsPotTable(t: Table) {
    t.caption.Some? && StartsWith(t.caption.value, PotPrefix)
  }

  // ---------------------------------------------------------------------------
  // Pot tables
  // ---------------------------------------------------------------------------

  /** The first anchor text that is not empty: the team name, skipping flag icons. */
  function FirstNamed(anchors: seq<string>): (r: Option<string>)
    ensures r.None? <==> forall k :: 0 <= k < |anchors| ==> anchors[k] == ""
    ensures r.Some? ==> r.value != ""
    ensures r.Some? ==>
      exists k :: 0 <= k < |anchors| && anchors[k] == r.value && forall j :: 0 <= j < k ==> anchors[j] == ""
  {
    if anchors == [] then None
    else if anchors[0] != "" then Some(anchors[0])
    else
      var r := FirstNamed(anchors[1..]);
      assert r.Some? ==> anchors[1..][IndexOfNamed(anchors[1..], r.value)] == r.value;
      r
  }

  /** A witness for the index at which `FirstNamed` finds `name`. */
  function IndexOfNamed(anchors: seq<string>, name: string): (k: nat)
    requires name in anchors
    ensures k < |anchors| && anchors[k] == name
  {
    if anchors[0] == name then 0 else 1 + IndexOfNamed(anchors[1..], name)
  }

  /** What one body row of a pot table contributes: nothing, or one entry. */
  function RowPot(pot: string, row: Row, parse: string -> Option<real>): (r: Option<PotEntry>)
    ensures r.Some? ==>
      && |row| >= 3
      && r.value.pot == pot
      && r.value.team != "" && r.value.team in row[0].anchors
      && r.value.coefficient == parse(row[|row| - 1].text)
  {
    if |row| < 3 then None
    else
      match FirstNamed(row[0].anchors)
      case None => None
      case Some(team) => Some(PotEntry(pot, team, parse(row[|row| - 1].text)))
  }

  function RowsPots(pot: string, rows: seq<Row>, parse: string -> Option<real>): (r: seq<PotEntry>)
    ensures |r| <= |rows|
    ensures forall k :: 0 <= k < |r| ==> r[k].pot == pot && r[k].team != ""
  {
    if rows == [] then []
    else
      var last := RowPot(pot, rows[|rows| - 1], parse);
      RowsPots(pot, rows[..|rows| - 1], parse) + (if last.Some? then [last.value] else [])
  }

  /** The entries of one table: none unless its caption starts with "Pot", at most one per body row. */
  function TablePots(t: Table, parse: string -> Option<real>): (r: seq<PotEntry>)
    ensures !IsPotTable(t) ==> r == []
    ensures |r| <= |Body(t.rows)|
    ensures forall k :: 0 <= k < |r| ==> IsPotTable(t) && r[k].pot == t.caption.value && r[k].team != ""
    ensures Labelled(r)
  {
    if IsPotTable(t) then RowsPots(t.caption.value, Body(t.rows), parse) else []
  }

  /**
   * The `teams` list the pot loop builds from a document: every entry has a
   * pot label starting with "Pot" and a non-empty team name.
   */
  function PotsOf(doc: seq<Table>, parse: string -> Option<real>): (r: seq<PotEntry>)
    ensures Labelled(r)
  {
    if doc == [] then []
    else
      var front, tail := PotsOf(doc[..|doc| - 1], parse), TablePots(doc[|doc| - 1], parse);
      LabelledAppend(front, tail);
      front + tail
  }

  /** Every entry has a pot label starting with "Pot" and a non-empty team name. */
  predicate Labelled(es: seq<PotEntry>) {
    forall k :: 0 <= k < |es| ==> StartsWith(es[k].pot, PotPrefix) && es[k].team != ""
  }

  lemma LabelledAppend(a: seq<PotEntry>, b: seq<PotEntry>)
    requires Labelled(a) && Labelled(b)
    ensures Labelled(a + b)
  {
    assert forall k :: |a| <= k < |a + b| ==> (a + b)[k] == b[k - |a|];
  }

  /** Dropping the last element of a concatenation with a non-empty right part. */
  lemma DropLastAppend<T>(a: seq<T>, b: seq<T>)
    requires b != []
    ensures (a + b)[..|a + b| - 1] == a + b[..|b| - 1]
    ensures (a + b)[|a + b| - 1] == b[|b| - 1]
  {
    var l, r := (a + b)[..|a + b| - 1], a + b[..|b| - 1];
    assert |l| == |r|;
    forall i | 0 <= i < |l| ensures l[i] == r[i] {
      if i >= |a| {
        assert l[i] == b[i - |a|];
      }
    }
  }

  /** Entries appear table by table, in document order. */
  lemma {:induction false} PotsOfAppend(a: seq<Table>, b: seq<Table>, parse: string -> Option<real>)
    ensures PotsOf(a + b, parse) == PotsOf(a, parse) + PotsOf(b, parse)
    decreases |b|
  {
    if b == [] {
      assert a + b == a;
    } else {
      var b', t := b[..|b| - 1], b[|b| - 1];
      DropLastAppend(a, b);
      PotsOfAppend(a, b', parse);
      var x, y, z := PotsOf(a, parse), PotsOf(b', parse), TablePots(t, parse);
      assert PotsOf(a + b, parse) == (x + y) + z;
      assert PotsOf(b, parse) == y + z;
      AppendAssoc(x, y, z);
    }
  }

  lemma InAppend<T>(x: T, a: seq<T>, b: seq<T>)
    requires x in a || x in b
    ensures x in a + b
  {
  }

  lemma AppendAssoc<T>(x: seq<T>, y: seq<T>, z: seq<T>)
    ensures (x + y) + z == x + (y + z)
  {
  }

  /** Within a table, entries appear row by row. */
  lemma {:induction false} RowsPotsAppend(pot: string, a: seq<Row>, b: seq<Row>, parse: string -> Option<real>)
    ensures RowsPots(pot, a + b, parse) == RowsPots(pot, a, parse) + RowsPots(pot, b, parse)
    decreases |b|
  {
    if b == [] {
      assert a + b == a;
    } else {
      var b', last := b[..|b| - 1], RowPot(pot, b[|b| - 1], parse);
      DropLastAppend(a, b);
      RowsPotsAppend(pot, a, b', parse);
      var x, y, z := RowsPots(pot, a, parse), RowsPots(pot, b', parse), if last.Some? then [last.value] else [];
      assert RowsPots(pot, a + b, parse) == (x + y) + z;
      assert RowsPots(pot, b, parse) == y + z;
      AppendAssoc(x, y, z);
    }
  }

  /** Body row `j` of table `i` is a pot-table row that yields `e`. */
  predicate YieldsAt(doc: seq<Table>, parse: string -> Option<real>, i: int, j: int, e: PotEntry) {
    && 0 <= i < |doc|
    && IsPotTable(doc[i])
    && 0 <= j < |Body(doc[i].rows)|
    && RowPot(doc[i].caption.value, Body(doc[i].rows)[j], parse) == Some(e)
  }

  lemma {:induction false} RowsPotsMembers(pot: string, rows: seq<Row>, parse: string -> Option<real>, e: PotEntry)
    ensures e in RowsPots(pot, rows, parse) <==> exists j :: 0 <= j < |rows| && RowPot(pot, rows[j], parse) == Some(e)
  {
    if e in RowsPots(pot, rows, parse) {
      var j := RowsPotsSound(pot, rows, parse, e);
    }
    if j :| 0 <= j < |rows| && RowPot(pot, rows[j], parse) == Some(e) {
      RowsPotsComplete(pot, rows, parse, e, j);
    }
  }

  /** An emitted entry comes from some row: `j` is that row. */
  lemma {:induction false} RowsPotsSound(pot: string, rows: seq<Row>, parse: string -> Option<real>, e: PotEntry) returns (j: nat)
    requires e in RowsPots(pot, rows, parse)
    ensures j < |rows| && RowPot(pot, rows[j], parse) == Some(e)
  {
    var n := |rows| - 1;
    var rows', last := rows[..n], RowPot(pot, rows[n], parse);
    var front: seq<PotEntry>, tail: seq<PotEntry> := RowsPots(pot, rows', parse), if last.Some? then [last.value] else [];
    assert RowsPots(pot, rows, parse) == front + tail;
    if e in front {
      j := RowsPotsSound(pot, rows', parse, e);
      assert rows[j] == rows'[j];
    } else {
      j := n;
    }
  }

  /** Every row that gives an entry has it emitted. */
  lemma {:induction false} RowsPotsComplete(pot: string, rows: seq<Row>, parse: string -> Option<real>, e: PotEntry, j: nat)
    requires j < |rows| && RowPot(pot, rows[j], parse) == Some(e)
    ensures e in RowsPots(pot, rows, parse)
  {
    var n := |rows| - 1;
    var rows', last := rows[..n], RowPot(pot, rows[n], parse);
    var front: seq<PotEntry>, tail: seq<PotEntry> := RowsPots(pot, rows', parse), if last.Some? then [last.value] else [];
    assert RowsPots(pot, rows, parse) == front + tail;
    if j < n {
      assert rows'[j] == rows[j];
      RowsPotsComplete(pot, rows', parse, e, j);
      assert e in front;
    } else {
      assert tail == [e];
    }
  }

  lemma {:induction false} PotsOfSound(doc: seq<Table>, parse: string -> Option<real>, e: PotEntry)
    requires e in PotsOf(doc, parse)
    ensures exists i, j :: YieldsAt(doc, parse, i, j, e)
  {
    var n := |doc| - 1;
    var doc' := doc[..n];
    var t := doc[n];
    if e in PotsOf(doc', parse) {
      PotsOfSound(doc', parse, e);
      var i, j :| YieldsAt(doc', parse, i, j, e);
      assert doc[i] == doc'[i];
      assert YieldsAt(doc, parse, i, j, e);
    } else {
      assert e in TablePots(t, parse);
      var j := RowsPotsSound(t.caption.value, Body(t.rows), parse, e);
      assert YieldsAt(doc, parse, n, j, e);
    }
  }

  lemma {:induction false} PotsOfComplete(doc: seq<Table>, parse: string -> Option<real>, e: PotEntry, i: int, j: int)
    requires YieldsAt(doc, parse, i, j, e)
    ensures e in PotsOf(doc, parse)
  {
    var n := |doc| - 1;
    var doc', t := doc[..n], doc[n];
    var front, tail := PotsOf(doc', parse), TablePots(t, parse);
    PotsOfStep(doc, parse);
    if i < n {
      assert doc'[i] == doc[i];
      assert YieldsAt(doc', parse, i, j, e);
      PotsOfComplete(doc', parse, e, i, j);
    } else {
      assert i == n;
      assert IsPotTable(t) && RowPot(t.caption.value, Body(t.rows)[j], parse) == Some(e);
      assert tail == RowsPots(t.caption.value, Body(t.rows), parse);
      RowsPotsComplete(t.caption.value, Body(t.rows), parse, e, j);
    }
    InAppend(e, front, tail);
  }

  lemma PotsOfStep(doc: seq<Table>, parse: string -> Option<real>)
    requires doc != []
    ensures PotsOf(doc, parse) == PotsOf(doc[..|doc| - 1], parse) + TablePots(doc[|doc| - 1], parse)
  {
  }

  /**
   * An entry is emitted exactly when some body row of a pot table has at
   * least three cells and a named anchor in its first cell that gives it.
   */
  lemma PotsOfMembers(doc: seq<Table>, parse: string -> Option<real>, e: PotEntry)
    ensures e in PotsOf(doc, parse) <==> exists i, j :: YieldsAt(doc, parse, i, j, e)
  {
    if e in PotsOf(doc, parse) {
      PotsOfSound(doc, parse, e);
    }
    if i, j :| YieldsAt(doc, parse, i, j, e) {
      PotsOfComplete(doc, parse, e, i, j);
    }
  }

  /** A row yields an entry iff it has at least three cells and a non-empty anchor in its first cell. */
  lemma RowPotSpec(pot: string, row: Row, parse: string -> Option<real>)
    ensures RowPot(pot, row, parse).Some? <==>
      |row| >= 3 && exists k :: 0 <= k < |row[0].anchors| && row[0].anchors[k] != ""
    ensures RowPot(pot, row, parse).Some? ==>
      RowPot(pot, row, parse).value == PotEntry(pot, FirstNamed(row[0].anchors).value, parse(row[|row| - 1].text))
  {
  }

  /** The header row of a table contributes nothing, whatever it holds. */
  lemma HeaderIgnored(t: Table, header: Row, header': Row, parse: string -> Option<real>)
    ensures PotsOf([t.(rows := [header] + t.rows)], parse) == PotsOf([t.(rows := [header'] + t.rows)], parse)
  {
    assert Body([header] + t.rows) == t.rows;
    assert Body([header'] + t.rows) == t.rows;
    assert [t.(rows := [header] + t.rows)][..0] == [];
    assert [t.(rows := [header'] + t.rows)][..0] == [];
  }

  /** The early-`break` search of the first named anchor. */
  method FirstNamedAnchor(anchors: seq<string>) returns (team: Option<string>)
    ensures team == FirstNamed(anchors)
  {
    team := None;
    var i := 0;
    while i < |anchors|
      invariant 0 <= i <= |anchors|
      invariant FirstNamed(anchors[i..]) == FirstNamed(anchors)
    {
      if anchors[i] != "" {
        team := Some(anchors[i]);
        break;
      }
      assert anchors[i..][1..] == anchors[i + 1..];
      i := i + 1;
    }
  }

  /** The row loop of one pot table: the body rows that yield an entry, in order. */
  method ExtractPotRows(potText: string, body: seq<Row>, parse: string -> Option<real>) returns (entries: seq<PotEntry>)
    ensures entries == RowsPots(potText, body, parse)
  {
    entries := [];
    for j := 0 to |body|
      invariant entries == RowsPots(potText, body[..j], parse)
    {
      assert body[..j + 1][..j] == body[..j];
      var cols := body[j];
      if |cols| < 3 {
        continue;
      }
      var team := FirstNamedAnchor(cols[0].anchors);
      if team.None? {
        continue;
      }
      var coefficient := parse(cols[|cols| - 1].text);
      entries := entries + [PotEntry(potText, team.value, coefficient)];
    }
    assert body[..|body|] == body;
  }

  /** The pot loop: every caption starting with "Pot", every body row of its table. */
  method ExtractPots(doc: seq<Table>, parse: string -> Option<real>) returns (teams: seq<PotEntry>)
    ensures teams == PotsOf(doc, parse)
  {
    teams := [];
    for i := 0 to |doc|
      invariant teams == PotsOf(doc[..i], parse)
    {
      assert doc[..i + 1][..i] == doc[..i];
      var table := doc[i];
      if !IsPotTable(table) {
        continue;
      }
      var entries := ExtractPotRows(table.caption.value, Body(table.rows), parse);
      teams := teams + entries;
    }
    assert doc[..|doc|] == doc;
  }

  // ---------------------------------------------------------------------------
  // Results tables
  // ---------------------------------------------------------------------------

  /** The body rows with at least three cells: the rows the results loop keeps. */
  function LongRows(rows: seq<Row>): (r: seq<Row>)
    ensures |r| <= |rows|
    ensures forall k :: 0 <= k < |r| ==> |r[k]| >= 3
    ensures forall row :: row in r <==> row in rows && |row| >= 3
  {
    if rows == [] then []
    else LongRows(rows[..|rows| - 1]) + (if |rows[|rows| - 1]| >= 3 then [rows[|rows| - 1]] else [])
  }

  /** One match record: home and away from the first and third cells, the score with its en dash replaced. */
  function RowRecord(matchday: string, row: Row): (r: MatchRecord)
    requires |row| >= 3
    ensures r.matchday == matchday && r.home == row[0].text && r.away == row[2].text
    ensures |r.score| == |row[1].text| && EnDash !in r.score
  {
    MatchRecord(matchday, row[0].text, Replace(row[1].text, EnDash, '-'), row[2].text)
  }

  /** One record per row of at least three cells, in row order. */
  function RowsResults(matchday: string, rows: seq<Row>): (r: seq<MatchRecord>)
    ensures |r| == |LongRows(rows)|
    ensures forall k :: 0 <= k < |r| ==>
      var row := LongRows(rows)[k];
      && r[k].matchday == matchday
      && r[k].home == row[0].text
      && r[k].away == row[2].text
      && r[k].score == Replace(row[1].text, EnDash, '-')
      && EnDash !in r[k].score
  {
    if rows == [] then []
    else
      var last := rows[|rows| - 1];
      RowsResults(matchday, rows[..|rows| - 1]) + (if |last| >= 3 then [RowRecord(matchday, last)] else [])
  }

  /**
   * The `results` list the results loop builds, or the failure it meets at
   * the first `sports-series` table that has no caption: every earlier
   * `sports-series` table has one.
   */
  function ResultsOf(doc: seq<Table>): (r: Extracted)
    ensures r.MissingCaption? ==> r.table < |doc| && doc[r.table].sportsSeries && doc[r.table].caption.None?
    ensures r.MissingCaption? ==> forall i :: 0 <= i < r.table && doc[i].sportsSeries ==> doc[i].caption.Some?
    ensures r.Records? <==> forall i :: 0 <= i < |doc| && doc[i].sportsSeries ==> doc[i].caption.Some?
    ensures r.Records? ==> forall k :: 0 <= k < |r.records| ==> EnDash !in r.records[k].score
  {
    if doc == [] then Records([])
    else
      var t := doc[|doc| - 1];
      match ResultsOf(doc[..|doc| - 1])
      case MissingCaption(i) => MissingCaption(i)
      case Records(rs) =>
        if !t.sportsSeries then Records(rs)
        else if t.caption.None? then MissingCaption(|doc| - 1)
        else Records(rs + RowsResults(t.caption.value, Body(t.rows)))
  }

  /** Once the loop has failed on a prefix, the rest of the document does not matter. */
  lemma {:induction false} ResultsOfFailed(doc: seq<Table>, n: nat)
    requires n <= |doc| && ResultsOf(doc[..n]).MissingCaption?
    ensures ResultsOf(doc) == ResultsOf(doc[..n])
    decreases |doc|
  {
    if n < |doc| {
      assert doc[..|doc| - 1][..n] == doc[..n];
      ResultsOfFailed(doc[..|doc| - 1], n);
    } else {
      assert doc[..n] == doc;
    }
  }

  lemma RowsResultsStep(matchday: string, rows: seq<Row>, j: nat)
    requires j < |rows|
    ensures RowsResults(matchday, rows[..j + 1]) ==
      RowsResults(matchday, rows[..j]) + (if |rows[j]| >= 3 then [RowRecord(matchday, rows[j])] else [])
  {
    assert rows[..j + 1][..j] == rows[..j];
  }

  /** The kept rows keep row order: filtering `a + b` is filtering `a`, then `b`. */
  lemma {:induction false} LongRowsAppend(a: seq<Row>, b: seq<Row>)
    ensures LongRows(a + b) == LongRows(a) + LongRows(b)
    decreases |b|
  {
    if b == [] {
      assert a + b == a;
    } else {
      var b', last := b[..|b| - 1], b[|b| - 1];
      DropLastAppend(a, b);
      LongRowsAppend(a, b');
      var x, y, z := LongRows(a), LongRows(b'), if |last| >= 3 then [last] else [];
      assert LongRows(a + b) == (x + y) + z;
      assert LongRows(b) == y + z;
      AppendAssoc(x, y, z);
    }
  }

  /** A single row is kept exactly when it has at least three cells. */
  lemma LongRowsOne(row: Row)
    ensures LongRows([row]) == if |row| >= 3 then [row] else []
  {
    assert [row][..0] == [];
  }

  /** Records come row by row: the records of `a + b` are those of `a`, then those of `b`. */
  lemma {:induction false} RowsResultsAppend(matchday: string, a: seq<Row>, b: seq<Row>)
    ensures RowsResults(matchday, a + b) == RowsResults(matchday, a) + RowsResults(matchday, b)
    decreases |b|
  {
    if b == [] {
      assert a + b == a;
    } else {
      var b', last := b[..|b| - 1], b[|b| - 1];
      DropLastAppend(a, b);
      RowsResultsAppend(matchday, a, b');
      var x, y := RowsResults(matchday, a), RowsResults(matchday, b');
      var z := if |last| >= 3 then [RowRecord(matchday, last)] else [];
      assert RowsResults(matchday, a + b) == (x + y) + z;
      assert RowsResults(matchday, b) == y + z;
      AppendAssoc(x, y, z);
    }
  }

  /** A single row gives one record if it has at least three cells, and none otherwise. */
  lemma RowsResultsOne(matchday: string, row: Row)
    ensures RowsResults(matchday, [row]) == if |row| >= 3 then [RowRecord(matchday, row)] else []
  {
    assert [row][..0] == [];
  }

  /** One step of the results loop: the table `t` after the tables of `doc`. */
  lemma ResultsOfStep(doc: seq<Table>, t: Table)
    ensures ResultsOf(doc + [t]) ==
      match ResultsOf(doc)
      case MissingCaption(i) => MissingCaption(i)
      case Records(rs) =>
        if !t.sportsSeries then Records(rs)
        else if t.caption.None? then MissingCaption(|doc|)
        else Records(rs + RowsResults(t.caption.value, Body(t.rows)))
  {
    assert (doc + [t])[..|doc|] == doc;
    assert (doc + [t])[|doc|] == t;
  }

  /**
   * Records come table by table: when neither part fails, the records of
   * `a + b` are those of `a`, then those of `b`.
   */
  lemma {:induction false} ResultsOfAppend(a: seq<Table>, b: seq<Table>)
    requires ResultsOf(a).Records? && ResultsOf(b).Records?
    ensures ResultsOf(a + b) == Records(ResultsOf(a).records + ResultsOf(b).records)
    decreases |b|
  {
    if b == [] {
      assert a + b == a;
    } else {
      var b', t := b[..|b| - 1], b[|b| - 1];
      assert b == b' + [t];
      assert a + b == (a + b') + [t];
      ResultsOfStep(b', t);
      ResultsOfAppend(a, b');
      ResultsOfStep(a + b', t);
      var x, y := ResultsOf(a).records, ResultsOf(b').records;
      if t.sportsSeries {
        var z := RowsResults(t.caption.value, Body(t.rows));
        AppendAssoc(x, y, z);
      }
    }
  }

  /** One table: a captioned `sports-series` table gives one record per long body row, any other table none. */
  lemma ResultsOfOne(t: Table)
    ensures !t.sportsSeries ==> ResultsOf([t]) == Records([])
    ensures t.sportsSeries && t.caption.Some? ==> ResultsOf([t]) == Records(RowsResults(t.caption.value, Body(t.rows)))
    ensures t.sportsSeries && t.caption.None? ==> ResultsOf([t]) == MissingCaption(0)
  {
    ResultsOfStep([], t);
    assert [] + [t] == [t];
  }

  /** The inner loop of the results loop: one record per body row of at least three cells. */
  method ExtractRows(matchday: string, body: seq<Row>) returns (records: seq<MatchRecord>)
    ensures records == RowsResults(matchday, body)
  {
    records := [];
    for j := 0 to |body|
      invariant records == RowsResults(matchday, body[..j])
    {
      RowsResultsStep(matchday, body, j);
      var cols := body[j];
      if |cols| < 3 {
        continue;
      }
      var home := cols[0].text;
      var score := Replace(cols[1].text, EnDash, '-');
      var away := cols[2].text;
      records := records + [MatchRecord(matchday, home, score, away)];
    }
    assert body[..|body|] == body;
  }

  /** The results loop over every `sports-series` table. */
  method ExtractResults(doc: seq<Table>) returns (out: Extracted)
    ensures out == ResultsOf(doc)
  {
    var results := [];
    for i := 0 to |doc|
      invariant ResultsOf(doc[..i]) == Records(results)
    {
      assert doc[..i + 1][..i] == doc[..i];
      var table := doc[i];
      if !table.sportsSeries {
        continue;
      }
      if table.caption.None? {
        ResultsOfFailed(doc, i + 1);
        return MissingCaption(i);
      }
      var matchday := table.caption.value;
      var rows := ExtractRows(matchday, Body(table.rows));
      results := results + rows;
    }
    assert doc[..|doc|] == doc;
    out := Records(results);
  }
}
