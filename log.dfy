/** The report of `write_log` (detect_duplicates.py lines 71-78): a header line, then
    one `kind,key,path` line for every member of every list of more than one path,
    map by map and key by key in insertion order.

    The rows are computed first as triples; `Record` renders one row as the line the
    script writes. Writing the file itself is not modelled. */
module Log {
  import opened Common
  import opened Dicts

  /** The first line of the report. */
  const Header: string := "Tipo,Hash/Nome,Caminho\n"

  /** One reported member: the map's name, the key of its list and the path. */
  datatype Row = Row(kind: string, key: string, file: Path)

  /** The line `f"{kind},{key},{file}\n"`. */
  function Record(r: Row): string
  {
    r.kind + "," + r.key + "," + r.file + "\n"
  }

  /** The rows of one list: one per member, the first one included, in list order. */
  function GroupRows(kind: string, key: string, files: seq<Path>): (rows: seq<Row>)
    ensures |rows| == |files|
    ensures forall i {:trigger rows[i]} :: 0 <= i < |files| ==> rows[i] == Row(kind, key, files[i])
  {
    if files == [] then [] else [Row(kind, key, files[0])] + GroupRows(kind, key, files[1..])
  }

  /** The rows of one map: its lists of more than one path, in insertion order. */
  function MapRows(kind: string, d: Dict): seq<Row>
  {
    if d == [] then []
    else (if |d[0].files| > 1 then GroupRows(kind, d[0].key, d[0].files) else []) + MapRows(kind, d[1..])
  }

  /** The rows of all maps, in the order in which the maps are given. */
  function Rows(dups: seq<(string, Dict)>): seq<Row>
  {
    if dups == [] then [] else MapRows(dups[0].0, dups[0].1) + Rows(dups[1..])
  }

  /** The rendered lines, one per row. */
  function Render(rows: seq<Row>): (lines: seq<string>)
    ensures |lines| == |rows|
    ensures forall i {:trigger lines[i]} :: 0 <= i < |rows| ==> lines[i] == Record(rows[i])
  {
    if rows == [] then [] else [Record(rows[0])] + Render(rows[1..])
  }

  /** The lines of the report file. */
  function LogLines(dups: seq<(string, Dict)>): (lines: seq<string>)
    ensures |lines| == |Rows(dups)| + 1 && lines[0] == Header
    ensures forall i :: 1 <= i < |lines| ==> lines[i] == Record(Rows(dups)[i - 1])
  {
    [Header] + Render(Rows(dups))
  }

  /** `kind` reports the path at position `k` of entry `e` of `d`, whose list has
      more than one member. */
  ghost predicate ReportedIn(kind: string, d: Dict, r: Row)
  {
    exists e, k :: 0 <= e < |d| && |d[e].files| > 1 && 0 <= k < |d[e].files| &&
                   r == Row(kind, d[e].key, d[e].files[k])
  }

  /** Some map of `dups` reports `r`. */
  ghost predicate Reported(dups: seq<(string, Dict)>, r: Row)
  {
    exists m :: 0 <= m < |dups| && ReportedIn(dups[m].0, dups[m].1, r)
  }

  lemma {:induction false} MapRowsIff(kind: string, d: Dict, r: Row)
    ensures r in MapRows(kind, d) <==> ReportedIn(kind, d, r)
  {
    if d != [] {
      var here := if |d[0].files| > 1 then GroupRows(kind, d[0].key, d[0].files) else [];
      assert MapRows(kind, d) == here + MapRows(kind, d[1..]);
      MapRowsIff(kind, d[1..], r);
      if r in here {
        var k :| 0 <= k < |here| && here[k] == r;
        assert ReportedIn(kind, d, r) by {
          assert 0 < |d| && |d[0].files| > 1 && r == Row(kind, d[0].key, d[0].files[k]);
        }
      } else if r in MapRows(kind, d[1..]) {
        var e, k :| 0 <= e < |d[1..]| && |d[1..][e].files| > 1 && 0 <= k < |d[1..][e].files| &&
                    r == Row(kind, d[1..][e].key, d[1..][e].files[k]);
        assert d[1..][e] == d[e + 1];
      }
      if ReportedIn(kind, d, r) {
        var e, k :| 0 <= e < |d| && |d[e].files| > 1 && 0 <= k < |d[e].files| &&
                    r == Row(kind, d[e].key, d[e].files[k]);
        if e == 0 {
          assert here[k] == r;
        } else {
          assert d[1..][e - 1] == d[e];
          assert ReportedIn(kind, d[1..], r);
        }
      }
    }
  }

  /** The report is sound and complete: a row is listed exactly when some map has a
      list of more than one path holding that path under that key; the first member
      of such a list is listed too, and a list of one path contributes nothing. */
  lemma {:induction false} RowsIff(dups: seq<(string, Dict)>, r: Row)
    ensures r in Rows(dups) <==> Reported(dups, r)
  {
    if dups != [] {
      MapRowsIff(dups[0].0, dups[0].1, r);
      RowsIff(dups[1..], r);
      if r in Rows(dups[1..]) {
        var m :| 0 <= m < |dups[1..]| && ReportedIn(dups[1..][m].0, dups[1..][m].1, r);
        assert dups[1..][m] == dups[m + 1];
      }
      if Reported(dups, r) {
        var m :| 0 <= m < |dups| && ReportedIn(dups[m].0, dups[m].1, r);
        if m > 0 {
          assert dups[1..][m - 1] == dups[m];
          assert Reported(dups[1..], r);
        }
      }
    }
  }

  /** The report is the header alone exactly when no map has a list of more than
      one path. */
  lemma OnlyHeader(dups: seq<(string, Dict)>)
    ensures LogLines(dups) == [Header] <==>
              forall m, e :: 0 <= m < |dups| && 0 <= e < |dups[m].1| ==> |dups[m].1[e].files| <= 1
  {
    if m, e :| 0 <= m < |dups| && 0 <= e < |dups[m].1| && |dups[m].1[e].files| > 1 {
      var r := Row(dups[m].0, dups[m].1[e].key, dups[m].1[e].files[0]);
      assert ReportedIn(dups[m].0, dups[m].1, r);
      RowsIff(dups, r);
    } else if Rows(dups) != [] {
      RowsIff(dups, Rows(dups)[0]);
    }
  }

  // ---------------------------------------------------------------------------
  // Reading a line back

  /** The index of the first `,` in `s`, or -1. */
  function FirstComma(s: string): (i: int)
    ensures -1 <= i < |s|
    ensures i >= 0 ==> s[i] == ','
    ensures forall k :: 0 <= k < |s| && (i < 0 || k < i) ==> s[k] != ','
  {
    if s == [] then -1
    else if s[0] == ',' then 0
    else
      var i := FirstComma(s[1..]);
      if i < 0 then -1 else i + 1
  }

  /** Splits a line at its first two commas and drops its final newline. */
  function ParseRecord(line: string): Option<Row>
  {
    if |line| == 0 || line[|line| - 1] != '\n' then None
    else
      var body := line[..|line| - 1];
      var i := FirstComma(body);
      if i < 0 then None
      else
        var rest := body[i + 1..];
        var j := FirstComma(rest);
        if j < 0 then None else Some(Row(body[..i], rest[..j], rest[j + 1..]))
  }

  lemma FirstCommaAfter(a: string, b: string)
    requires ',' !in a
    ensures FirstComma(a + "," + b) == |a|
  {
    var s := a + "," + b;
    var i := FirstComma(s);
    assert s[|a|] == ',';
    assert forall k :: 0 <= k < |a| ==> s[k] == a[k];
  }

  /** A line can be read back into its row when neither the kind nor the key
      contains a comma; the path may contain any character. */
  lemma ParseRecordInverse(r: Row)
    requires ',' !in r.kind && ',' !in r.key
    ensures ParseRecord(Record(r)) == Some(r)
  {
    var rest := r.key + "," + r.file;
    var body := r.kind + "," + rest;
    var line := Record(r);
    assert line == body + "\n";
    assert line[|line| - 1] == '\n';
    assert line[..|line| - 1] == body;
    FirstCommaAfter(r.kind, rest);
    assert body[..|r.kind|] == r.kind;
    assert body[|r.kind| + 1..] == rest;
    FirstCommaAfter(r.key, r.file);
    assert rest[..|r.key|] == r.key;
    assert rest[|r.key| + 1..] == r.file;
  }

  /** Fields are not quoted, so a key with a comma (a file name such as `a,b.jpg`)
      gives the same line as a different row. */
  lemma RecordAmbiguous()
    ensures Record(Row("Nome", "a,b.jpg", "x.jpg")) == Record(Row("Nome", "a", "b.jpg,x.jpg"))
  {
  }
}
