/** The coverage table of `modified_files_coverage_table`
    (lib/slather/plugin.rb, lines 134-146), as a header, a separator and one
    row per coverage file, plus its rendering as markdown lines with the
    number formatter taken as a parameter. */
module Table {
  import opened Wrappers
  import opened Coverage

  const Header := "File | Coverage"
  const Separator := "-----|-----"

  /** One table row: a file's path and its coverage percentage. */
  datatype Row = Row(path: string, pct: real)

  /** A markdown pipe table. */
  datatype CoverageTable = CoverageTable(header: string, separator: string, rows: seq<Row>)

  /** One row per coverage file, in the coverage files' order. */
  function Rows(files: seq<FileCoverage>): (r: seq<Row>)
    ensures |r| == |files|
    ensures forall k :: 0 <= k < |files| ==> r[k] == Row(files[k].path, files[k].pct)
  {
    if |files| == 0 then []
    else [Row(files[0].path, files[0].pct)] + Rows(files[1..])
  }

  /** `modified_files_coverage_table`: nothing without a project; otherwise
      the header, the separator and a row for every coverage file, modified
      or not, in input order. */
  function ModifiedFilesCoverageTable(project: Option<Project>): (r: Option<CoverageTable>)
    ensures project.None? <==> r.None?
    ensures r.Some? ==> r.value.header == Header && r.value.separator == Separator
    ensures r.Some? ==> |r.value.rows| == |project.value.coverageFiles|
    ensures r.Some? ==> forall k :: 0 <= k < |r.value.rows| ==>
      r.value.rows[k].path == project.value.coverageFiles[k].path
      && r.value.rows[k].pct == project.value.coverageFiles[k].pct
  {
    match project
    case None => None
    case Some(p) => Some(CoverageTable(Header, Separator, Rows(p.coverageFiles)))
  }

  /** The rows as the source appends them: path, ` | `, the formatted
      percentage, a space and a line break. */
  function RenderRows(rows: seq<Row>, format: real -> string): string {
    if |rows| == 0 then ""
    else rows[0].path + " | " + format(rows[0].pct) + " \n" + RenderRows(rows[1..], format)
  }

  /** The whole table text: header line, separator line, then the rows. */
  function Render(t: CoverageTable, format: real -> string): string {
    t.header + "\n" + t.separator + "\n" + RenderRows(t.rows, format)
  }

  /** How often a character occurs in a string. */
  function Count(s: string, c: char): nat {
    if |s| == 0 then 0 else (if s[0] == c then 1 else 0) + Count(s[1..], c)
  }

  lemma {:induction false} CountAppend(a: string, b: string, c: char)
    ensures Count(a + b, c) == Count(a, c) + Count(b, c)
  {
    if |a| == 0 {
      assert a + b == b;
    } else {
      assert (a + b)[1..] == a[1..] + b;
      CountAppend(a[1..], b, c);
    }
  }

  /** Rendering distributes over splitting the rows. */
  lemma {:induction false} RenderRowsAppend(a: seq<Row>, b: seq<Row>, format: real -> string)
    ensures RenderRows(a + b, format) == RenderRows(a, format) + RenderRows(b, format)
  {
    if |a| == 0 {
      assert a + b == b;
    } else {
      assert (a + b)[0] == a[0];
      assert (a + b)[1..] == a[1..] + b;
      RenderRowsAppend(a[1..], b, format);
    }
  }

  /** With no line break inside a path or a formatted percentage, the
      rendered rows are exactly one line per row. */
  lemma {:induction false} RenderRowsLines(rows: seq<Row>, format: real -> string)
    requires forall k :: 0 <= k < |rows| ==> '\n' !in rows[k].path && '\n' !in format(rows[k].pct)
    ensures Count(RenderRows(rows, format), '\n') == |rows|
  {
    if |rows| > 0 {
      var r := rows[0];
      RenderRowsLines(rows[1..], format);
      NoBreakCount(r.path);
      NoBreakCount(format(r.pct));
      CountAppend(r.path, " | ", '\n');
      CountAppend(r.path + " | ", format(r.pct), '\n');
      CountAppend(r.path + " | " + format(r.pct), " \n", '\n');
      CountAppend(r.path + " | " + format(r.pct) + " \n", RenderRows(rows[1..], format), '\n');
    }
  }

  lemma {:induction false} NoBreakCount(s: string)
    requires '\n' !in s
    ensures Count(s, '\n') == 0
  {
    if |s| > 0 {
      assert s[0] in s;
      NoBreakCount(s[1..]);
    }
  }

  /** A line break after a string without one counts one. */
  lemma {:induction false} LineCount(s: string)
    requires '\n' !in s
    ensures Count(s + "\n", '\n') == 1
  {
    NoBreakCount(s);
    CountAppend(s, "\n", '\n');
    assert Count("\n", '\n') == 1 + Count("", '\n');
  }

  /** The header and separator are two lines. */
  lemma HeadLines()
    ensures Count(Header + "\n" + Separator + "\n", '\n') == 2
  {
    LineCount(Header);
    LineCount(Separator);
    CountAppend(Header + "\n", Separator + "\n", '\n');
    assert Header + "\n" + Separator + "\n" == (Header + "\n") + (Separator + "\n");
  }

  /** The table of a project is two header lines and then one line per
      coverage file, and it starts with the header and separator lines. */
  lemma TableLines(p: Project, format: real -> string)
    requires forall f <- p.coverageFiles :: '\n' !in f.path && '\n' !in format(f.pct)
    ensures var text := Render(ModifiedFilesCoverageTable(Some(p)).value, format);
      && Count(text, '\n') == |p.coverageFiles| + 2
      && text[..|Header| + |Separator| + 2] == Header + "\n" + Separator + "\n"
  {
    var t := ModifiedFilesCoverageTable(Some(p)).value;
    forall k | 0 <= k < |t.rows|
      ensures '\n' !in t.rows[k].path && '\n' !in format(t.rows[k].pct)
    {
      assert p.coverageFiles[k] in p.coverageFiles;
    }
    RenderRowsLines(t.rows, format);
    var head := Header + "\n" + Separator + "\n";
    var body := RenderRows(t.rows, format);
    HeadLines();
    CountAppend(head, body, '\n');
    assert Render(t, format) == head + body;
    assert (head + body)[..|head|] == head;
  }
}
