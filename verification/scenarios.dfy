/** The scenarios of spec/slather_spec.rb, stated on the model. Each test
    mocks a file as `tested` lines out of 100 with the same percentage. */
module Scenarios {
  import opened Wrappers
  import opened Coverage
  import opened Notices
  import opened Checks
  import opened Host
  import opened Table

  /** The test suite's mock file: `c` of 100 lines tested, `c` percent. */
  function Mock(name: string, c: nat): FileCoverage {
    FileCoverage(name, c, 100, c as real)
  }

  const Fifty := Minimum(50.0, "50")
  const Warning := NotifyLevel("warning")

  /** Files at 10, 20 and 20 of 100 total 16.67 percent: one failure, with
      the text the code builds (the test expects "... less than 50%"). */
  lemma ProjectBelowMinimumFails()
    ensures var p := Project([Mock("AppDelegate.swift", 10), Mock("ViewController2.swift", 20),
                              Mock("ViewController.swift", 20)]);
      Route(ProjectCheck(Some(p), DefaultLevel, Fifty).value)
        == StatusReport(["Total coverage less than 50 code coverage"], [])
  {
    var p := Project([Mock("AppDelegate.swift", 10), Mock("ViewController2.swift", 20),
                      Mock("ViewController.swift", 20)]);
    assert SumTested(p.coverageFiles) == 50;
    assert SumTestable(p.coverageFiles) == 300;
    var msgs := ProjectCheck(Some(p), DefaultLevel, Fifty).value;
    assert msgs == [Message(Fail, TotalBelow(Fifty))];
    assert Texts(msgs) == [Text(TotalBelow(Fifty))];
    assert Text(TotalBelow(Fifty)) == "Total coverage less than 50 code coverage";
    ProjectCheckRouting(p, DefaultLevel, Fifty);
  }

  /** Files at 50, 80 and 80 total 70 percent: nothing is sent. */
  lemma ProjectAboveMinimumPasses()
    ensures ProjectCheck(Some(Project([Mock("AppDelegate.swift", 50), Mock("ViewController2.swift", 80),
                                       Mock("ViewController.swift", 80)])), DefaultLevel, Fifty) == Ok([])
  {
  }

  /** Files at 20, 80 and 80 total 60 percent: a file below the minimum
      does not make the project check fire. */
  lemma ProjectAboveMinimumWithLowFilePasses()
    ensures ProjectCheck(Some(Project([Mock("AppDelegate.swift", 20), Mock("ViewController2.swift", 80),
                                       Mock("ViewController.swift", 80)])), DefaultLevel, Fifty) == Ok([])
  {
  }

  /** At level `:warning` the project message is a warning, not an error. */
  lemma ProjectBelowMinimumWarns()
    ensures Route(ProjectCheck(Some(Project([Mock("AppDelegate.swift", 10)])), Warning, Fifty).value)
         == StatusReport([], ["Total coverage less than 50 code coverage"])
  {
    var p := Project([Mock("AppDelegate.swift", 10)]);
    assert SumTested(p.coverageFiles) == 10;
    assert SumTestable(p.coverageFiles) == 100;
    var msgs := ProjectCheck(Some(p), Warning, Fifty).value;
    assert msgs == [Message(Warn, TotalBelow(Fifty))];
    assert Texts(msgs) == [Text(TotalBelow(Fifty))];
    assert Text(TotalBelow(Fifty)) == "Total coverage less than 50 code coverage";
    ProjectCheckRouting(p, Warning, Fifty);
  }

  const ThreeFiles := [Mock("AppDelegate.swift", 10), Mock("ViewController2.swift", 20),
                        Mock("ViewController.swift", 80)]

  /** Of three files, only the modified one below the minimum is reported;
      the unmodified file at 20 percent is not. */
  lemma OnlyModifiedFileReported()
    ensures ModifiedFilesCheck(Some(Project(ThreeFiles)), {"AppDelegate.swift"}, DefaultLevel, Fifty).value
         == [Message(Fail, FileBelow("AppDelegate.swift", Fifty))]
  {
  }

  /** The file message text the code builds for AppDelegate.swift (the
      tests expect "... 50% code coverage"). */
  lemma AppDelegateText()
    ensures Text(FileBelow("AppDelegate.swift", Fifty)) == "AppDelegate.swift has less than 50 code coverage"
  {
  }

  /** The host then holds that one file's failure and no warning. */
  lemma OnlyModifiedFileFails()
    ensures Route(ModifiedFilesCheck(Some(Project(ThreeFiles)), {"AppDelegate.swift"}, DefaultLevel, Fifty).value)
         == StatusReport(["AppDelegate.swift has less than 50 code coverage"], [])
  {
    OnlyModifiedFileReported();
    RouteSingle(Message(Fail, FileBelow("AppDelegate.swift", Fifty)));
    AppDelegateText();
  }

  /** A modified file above the minimum sends nothing. */
  lemma ModifiedFileAboveMinimumPasses()
    ensures ModifiedFilesCheck(Some(Project([Mock("AppDelegate.swift", 80)])),
                               {"AppDelegate.swift"}, DefaultLevel, Fifty) == Ok([])
  {
  }

  /** At level `:warning` the file message is a warning, not an error. */
  lemma ModifiedFileBelowMinimumWarns()
    ensures Route(ModifiedFilesCheck(Some(Project([Mock("AppDelegate.swift", 10)])),
                                     {"AppDelegate.swift"}, Warning, Fifty).value)
         == StatusReport([], ["AppDelegate.swift has less than 50 code coverage"])
  {
    assert ModifiedFilesCheck(Some(Project([Mock("AppDelegate.swift", 10)])),
                              {"AppDelegate.swift"}, Warning, Fifty).value
        == [Message(Warn, FileBelow("AppDelegate.swift", Fifty))];
    RouteSingle(Message(Warn, FileBelow("AppDelegate.swift", Fifty)));
    AppDelegateText();
  }

  /** An added file that is not among the modified files is not reported:
      the code consults only the modified files (the test expects the added
      file to be counted as well). */
  lemma AddedFileIsNotCounted()
    ensures var p := Project([Mock("AppDelegate.swift", 10), Mock("ViewController.swift", 10)]);
      ModifiedFilesCheck(Some(p), {"AppDelegate.swift"}, Warning, Fifty).value
        == [Message(Warn, FileBelow("AppDelegate.swift", Fifty))]
  {
  }

  /** Six files at 10 to 60 percent total 35 percent, and the table lists
      all six in input order, modified or not, as the code builds it (the
      test expects only the five modified or added files). */
  lemma SixFilesTable()
    ensures var files := [Mock("AppDelegate.swift", 10), Mock("ViewController.swift", 20),
                          Mock("ViewController2.swift", 30), Mock("ViewController3.swift", 40),
                          Mock("ViewController4.swift", 50), Mock("ViewController5.swift", 60)];
      && TotalCoverage(Some(Project(files))) == Some(35.0)
      && ModifiedFilesCoverageTable(Some(Project(files)))
           == Some(CoverageTable(Header, Separator,
                [Row("AppDelegate.swift", 10.0), Row("ViewController.swift", 20.0),
                 Row("ViewController2.swift", 30.0), Row("ViewController3.swift", 40.0),
                 Row("ViewController4.swift", 50.0), Row("ViewController5.swift", 60.0)]))
  {
    var files := [Mock("AppDelegate.swift", 10), Mock("ViewController.swift", 20),
                  Mock("ViewController2.swift", 30), Mock("ViewController3.swift", 40),
                  Mock("ViewController4.swift", 50), Mock("ViewController5.swift", 60)];
    assert SumTested(files) == 210;
    assert SumTestable(files) == 600;
    var rows := Rows(files);
    assert rows == [Row("AppDelegate.swift", 10.0), Row("ViewController.swift", 20.0),
                    Row("ViewController2.swift", 30.0), Row("ViewController3.swift", 40.0),
                    Row("ViewController4.swift", 50.0), Row("ViewController5.swift", 60.0)];
  }

  /** Without a configured project there is no total and no table, and
      both checks stop with the error Ruby raises. */
  lemma NoProjectYieldsNothing(modified: set<string>, level: NotifyLevel, minimum: Minimum)
    ensures TotalCoverage(None) == None
    ensures ModifiedFilesCoverageTable(None) == None
    ensures ProjectCheck(None, level, minimum) == Err(NoProject)
    ensures ModifiedFilesCheck(None, modified, level, minimum) == Err(NoProject)
  {
  }
}
