/** The two threshold checks of lib/slather/plugin.rb:
    `notify_if_coverage_is_less_than` (lines 85-94) and
    `notify_if_modified_file_is_less_than` (lines 102-119). Instead of calling
    the host's `fail`/`warn`, each returns the messages it would send. */
module Checks {
  import opened Wrappers
  import opened Coverage
  import opened Notices

  /** Why a check cannot run: `@project` is nil (no `configure` call), and
      Ruby raises NoMethodError on it. */
  datatype CheckError = NoProject

  /** `notify_if_coverage_is_less_than`: one message exactly when the
      project's total, 100 * (lines tested) / (lines testable), is below the
      minimum. A project with no testable lines has a NaN (or Infinity)
      total in the source, which is below no minimum, so it gets none. */
  function ProjectCheck(project: Option<Project>, level: NotifyLevel, minimum: Minimum)
    : (r: Result<seq<Message>, CheckError>)
    ensures project.None? <==> r.Err?
    ensures r.Ok? ==> |r.value| <= 1
    ensures r.Ok? ==>
      var files := project.value.coverageFiles;
      (|r.value| == 1 <==>
        SumTestable(files) > 0
        && SumTested(files) as real / SumTestable(files) as real * 100.0 < minimum.value)
    ensures r.Ok? ==> forall m <- r.value :: m == Message(SeverityOf(level), TotalBelow(minimum))
  {
    match project
    case None => Err(NoProject)
    case Some(_) =>
      match TotalCoverage(project)
      case None => Ok([])
      case Some(total) =>
        if total < minimum.value then Ok([Message(SeverityOf(level), TotalBelow(minimum))])
        else Ok([])
  }

  /** A coverage file the per-file check reports: it is among the modified
      files and its percentage is below the minimum. */
  predicate Offends(f: FileCoverage, modified: set<string>, minimum: Minimum) {
    f.path in modified && f.pct < minimum.value
  }

  /** The source's `select`: the coverage files whose path is a modified
      file, in their original order. */
  function SelectModified(files: seq<FileCoverage>, modified: set<string>): seq<FileCoverage> {
    if |files| == 0 then []
    else (if files[0].path in modified then [files[0]] else []) + SelectModified(files[1..], modified)
  }

  /** The source's `each` over the selected files: one message per file
      below the minimum, in order. */
  function NotifyEach(selected: seq<FileCoverage>, severity: Severity, minimum: Minimum): seq<Message> {
    if |selected| == 0 then []
    else
      (if selected[0].pct < minimum.value
       then [Message(severity, FileBelow(selected[0].path, minimum))] else [])
      + NotifyEach(selected[1..], severity, minimum)
  }

  /** Reference definition: a single pass over the coverage files that
      reports each offending file, in order. */
  function Offenders(files: seq<FileCoverage>, modified: set<string>, severity: Severity, minimum: Minimum)
    : seq<Message>
  {
    if |files| == 0 then []
    else
      (if Offends(files[0], modified, minimum)
       then [Message(severity, FileBelow(files[0].path, minimum))] else [])
      + Offenders(files[1..], modified, severity, minimum)
  }

  /** Selecting and then checking is the single pass. */
  lemma {:induction false} SelectThenNotifyIsOffenders(
    files: seq<FileCoverage>, modified: set<string>, severity: Severity, minimum: Minimum)
    ensures NotifyEach(SelectModified(files, modified), severity, minimum)
         == Offenders(files, modified, severity, minimum)
  {
    if |files| > 0 {
      var f := files[0];
      var rest := SelectModified(files[1..], modified);
      SelectThenNotifyIsOffenders(files[1..], modified, severity, minimum);
      if f.path in modified {
        assert SelectModified(files, modified) == [f] + rest;
        assert ([f] + rest)[1..] == rest;
      } else {
        assert SelectModified(files, modified) == rest;
      }
    }
  }

  /** `notify_if_modified_file_is_less_than`: the messages for the modified
      coverage files below the minimum, as the single pass gives them. */
  function ModifiedFilesCheck(
    project: Option<Project>, modified: set<string>, level: NotifyLevel, minimum: Minimum)
    : (r: Result<seq<Message>, CheckError>)
    ensures project.None? <==> r.Err?
    ensures r.Ok? ==>
      r.value == Offenders(project.value.coverageFiles, modified, SeverityOf(level), minimum)
  {
    match project
    case None => Err(NoProject)
    case Some(p) =>
      var selected := SelectModified(p.coverageFiles, modified);
      SelectThenNotifyIsOffenders(p.coverageFiles, modified, SeverityOf(level), minimum);
      if |selected| > 0 then Ok(NotifyEach(selected, SeverityOf(level), minimum))
      else Ok([])
  }

  /** `msgs[k]` reports the file at position `idx[k]` of `files`, and the
      positions increase: the messages follow the files' order. */
  ghost predicate ReportsInOrder(
    msgs: seq<Message>, files: seq<FileCoverage>, idx: seq<nat>, severity: Severity, minimum: Minimum)
  {
    && |idx| == |msgs|
    && (forall k :: 0 <= k < |idx| ==>
          idx[k] < |files| && msgs[k] == Message(severity, FileBelow(files[idx[k]].path, minimum)))
    && (forall k, l :: 0 <= k < l < |idx| ==> idx[k] < idx[l])
  }

  /** Every position moved one file further on. */
  function Shift(idx: seq<nat>): seq<nat> {
    seq(|idx|, k requires 0 <= k < |idx| => idx[k] + 1)
  }

  /** Messages that follow `files[1..]` at `idx` follow `files` at the
      shifted positions, none of which is the first file. */
  lemma ShiftReports(
    msgs: seq<Message>, files: seq<FileCoverage>, idx: seq<nat>, severity: Severity, minimum: Minimum)
    requires |files| > 0
    requires ReportsInOrder(msgs, files[1..], idx, severity, minimum)
    ensures ReportsInOrder(msgs, files, Shift(idx), severity, minimum)
    ensures 0 !in Shift(idx)
    ensures forall i :: 1 <= i < |files| ==> (i in Shift(idx) <==> i - 1 in idx)
  {
  }

  /** Putting the first file's message in front of messages that follow
      the later files keeps them in order. */
  lemma ConsReports(
    msgs: seq<Message>, files: seq<FileCoverage>, idx: seq<nat>, severity: Severity, minimum: Minimum)
    requires |files| > 0 && 0 !in idx
    requires ReportsInOrder(msgs, files, idx, severity, minimum)
    ensures ReportsInOrder([Message(severity, FileBelow(files[0].path, minimum))] + msgs,
                           files, [0] + idx, severity, minimum)
  {
  }

  /** The single pass reports exactly the offending files, once each, in
      the order of the coverage files. */
  lemma {:induction false} OffendersExactly(
    files: seq<FileCoverage>, modified: set<string>, severity: Severity, minimum: Minimum)
    returns (idx: seq<nat>)
    ensures ReportsInOrder(Offenders(files, modified, severity, minimum), files, idx, severity, minimum)
    ensures forall i :: 0 <= i < |files| ==> (i in idx <==> Offends(files[i], modified, minimum))
  {
    if |files| == 0 {
      idx := [];
    } else {
      var rest := OffendersExactly(files[1..], modified, severity, minimum);
      var tailMsgs := Offenders(files[1..], modified, severity, minimum);
      ShiftReports(tailMsgs, files, rest, severity, minimum);
      forall i | 1 <= i < |files|
        ensures files[i] == files[1..][i - 1]
      {
      }
      var sh := Shift(rest);
      if Offends(files[0], modified, minimum) {
        assert Offenders(files, modified, severity, minimum)
            == [Message(severity, FileBelow(files[0].path, minimum))] + tailMsgs;
        ConsReports(tailMsgs, files, sh, severity, minimum);
        idx := [0] + sh;
        forall i | 0 <= i < |files|
          ensures i in idx <==> Offends(files[i], modified, minimum)
        {
          if i > 0 {
            assert i in idx <==> i in sh;
          }
        }
      } else {
        assert Offenders(files, modified, severity, minimum) == tailMsgs;
        idx := sh;
      }
    }
  }

  /** The per-file check reports exactly the coverage files whose path is
      modified and whose percentage is below the minimum, once each, in
      the coverage files' order, with the caller's severity. */
  lemma ModifiedFilesCheckExactly(p: Project, modified: set<string>, level: NotifyLevel, minimum: Minimum)
    returns (idx: seq<nat>)
    ensures ModifiedFilesCheck(Some(p), modified, level, minimum).Ok?
    ensures ReportsInOrder(ModifiedFilesCheck(Some(p), modified, level, minimum).value,
                           p.coverageFiles, idx, SeverityOf(level), minimum)
    ensures forall i :: 0 <= i < |p.coverageFiles| ==>
              (i in idx <==> Offends(p.coverageFiles[i], modified, minimum))
  {
    idx := OffendersExactly(p.coverageFiles, modified, SeverityOf(level), minimum);
  }

  /** A file whose path is not modified is never reported, whatever its
      coverage; every message names a modified path. */
  lemma ModifiedFilesCheckOnlyModified(p: Project, modified: set<string>, level: NotifyLevel, minimum: Minimum)
    ensures forall m <- ModifiedFilesCheck(Some(p), modified, level, minimum).value ::
              m.severity == SeverityOf(level) && m.notice.FileBelow?
              && m.notice.path in modified && m.notice.minimum == minimum
  {
    var msgs := ModifiedFilesCheck(Some(p), modified, level, minimum).value;
    var idx := ModifiedFilesCheckExactly(p, modified, level, minimum);
    forall m <- msgs
      ensures m.severity == SeverityOf(level) && m.notice.FileBelow?
              && m.notice.path in modified && m.notice.minimum == minimum
    {
      var k :| 0 <= k < |msgs| && msgs[k] == m;
      assert idx[k] in idx;
    }
  }

  /** The single pass sends nothing when no coverage file is modified. */
  lemma {:induction false} OffendersNoMatch(
    files: seq<FileCoverage>, modified: set<string>, severity: Severity, minimum: Minimum)
    requires forall f <- files :: f.path !in modified
    ensures Offenders(files, modified, severity, minimum) == []
  {
    if |files| > 0 {
      assert files[0] in files;
      OffendersNoMatch(files[1..], modified, severity, minimum);
    }
  }

  /** When no coverage file is modified, the check sends nothing. */
  lemma ModifiedFilesCheckNoMatch(p: Project, modified: set<string>, level: NotifyLevel, minimum: Minimum)
    requires forall f <- p.coverageFiles :: f.path !in modified
    ensures ModifiedFilesCheck(Some(p), modified, level, minimum) == Ok([])
  {
    OffendersNoMatch(p.coverageFiles, modified, SeverityOf(level), minimum);
  }
}
