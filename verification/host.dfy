/** The review host's side of the checks: `fail` appends a message string to
    the status report's errors and `warn` to its warnings (lines 88-92 and
    111-115 of lib/slather/plugin.rb). */
module Host {
  import opened Wrappers
  import opened Coverage
  import opened Notices
  import opened Checks

  /** The host's status report: its error and warning lists. */
  datatype StatusReport = StatusReport(errors: seq<string>, warnings: seq<string>) {

    /** This report followed by the entries of a later one. */
    function Then(next: StatusReport): StatusReport {
      StatusReport(errors + next.errors, warnings + next.warnings)
    }
  }

  /** The message strings of some messages, in order. */
  function Texts(msgs: seq<Message>): seq<string> {
    seq(|msgs|, k requires 0 <= k < |msgs| => Text(msgs[k].notice))
  }

  /** The host calls for some messages, made in order: `fail` for a failing
      message, `warn` for any other. */
  function Route(msgs: seq<Message>): StatusReport {
    if |msgs| == 0 then StatusReport([], [])
    else
      var rest := Route(msgs[1..]);
      var text := Text(msgs[0].notice);
      if msgs[0].severity == Fail then StatusReport([text] + rest.errors, rest.warnings)
      else StatusReport(rest.errors, [text] + rest.warnings)
  }

  /** Reference definition: the texts of the messages of one severity, in
      order. */
  function TextsOf(msgs: seq<Message>, severity: Severity): seq<string> {
    if |msgs| == 0 then []
    else (if msgs[0].severity == severity then [Text(msgs[0].notice)] else [])
         + TextsOf(msgs[1..], severity)
  }

  /** The errors are the failing messages' texts and the warnings are the
      other messages' texts, each in the messages' order. */
  lemma {:induction false} RouteIsTwoFilters(msgs: seq<Message>)
    ensures Route(msgs) == StatusReport(TextsOf(msgs, Fail), TextsOf(msgs, Warn))
  {
    if |msgs| > 0 {
      RouteIsTwoFilters(msgs[1..]);
    }
  }

  /** Every message lands in exactly one of the two lists: the lengths add
      up, and the two lists together hold exactly the message texts. */
  lemma {:induction false} RoutePartition(msgs: seq<Message>)
    ensures |Route(msgs).errors| + |Route(msgs).warnings| == |msgs|
    ensures multiset(Route(msgs).errors) + multiset(Route(msgs).warnings) == multiset(Texts(msgs))
  {
    if |msgs| > 0 {
      RoutePartition(msgs[1..]);
      assert Texts(msgs) == [Text(msgs[0].notice)] + Texts(msgs[1..]);
    }
  }

  /** A failing message's text is among the errors, and any other message's
      text is among the warnings. */
  lemma {:induction false} RouteBySeverity(msgs: seq<Message>)
    ensures forall i :: 0 <= i < |msgs| && msgs[i].severity == Fail ==>
              Text(msgs[i].notice) in Route(msgs).errors
    ensures forall i :: 0 <= i < |msgs| && msgs[i].severity == Warn ==>
              Text(msgs[i].notice) in Route(msgs).warnings
  {
    if |msgs| > 0 {
      RouteBySeverity(msgs[1..]);
      forall i | 1 <= i < |msgs|
        ensures msgs[i] == msgs[1..][i - 1]
      {
      }
    }
  }

  /** Messages that all have one severity all go, in order, to that
      severity's list, and the other list stays empty. */
  lemma {:induction false} RouteUniform(msgs: seq<Message>, severity: Severity)
    requires forall m <- msgs :: m.severity == severity
    ensures severity == Fail ==> Route(msgs) == StatusReport(Texts(msgs), [])
    ensures severity == Warn ==> Route(msgs) == StatusReport([], Texts(msgs))
  {
    if |msgs| > 0 {
      assert msgs[0] in msgs;
      RouteUniform(msgs[1..], severity);
      assert Texts(msgs) == [Text(msgs[0].notice)] + Texts(msgs[1..]);
    }
  }

  /** A single message lands in the list of its severity. */
  lemma RouteSingle(m: Message)
    ensures Route([m]) == if m.severity == Fail then StatusReport([Text(m.notice)], [])
                          else StatusReport([], [Text(m.notice)])
  {
  }

  /** Routing two batches of messages one after the other appends their
      entries in that order. */
  lemma {:induction false} RouteAppend(a: seq<Message>, b: seq<Message>)
    ensures Route(a + b) == Route(a).Then(Route(b))
  {
    if |a| == 0 {
      assert a + b == b;
    } else {
      assert (a + b)[0] == a[0];
      assert (a + b)[1..] == a[1..] + b;
      RouteAppend(a[1..], b);
      var ra := Route(a[1..]);
      var rb := Route(b);
      var text := Text(a[0].notice);
      if a[0].severity == Fail {
        assert [text] + ra.errors + rb.errors == [text] + (ra.errors + rb.errors);
      } else {
        assert [text] + ra.warnings + rb.warnings == [text] + (ra.warnings + rb.warnings);
      }
    }
  }

  /** The project check fills only the errors at level `:fail` and only the
      warnings at any other level. */
  lemma ProjectCheckRouting(p: Project, level: NotifyLevel, minimum: Minimum)
    ensures var msgs := ProjectCheck(Some(p), level, minimum).value;
      && (level.name == "fail" ==> Route(msgs) == StatusReport(Texts(msgs), []))
      && (level.name != "fail" ==> Route(msgs) == StatusReport([], Texts(msgs)))
  {
  }

  /** The per-file check fills only the errors at level `:fail` and only the
      warnings at any other level, in the coverage files' order. */
  lemma ModifiedFilesCheckRouting(p: Project, modified: set<string>, level: NotifyLevel, minimum: Minimum)
    ensures var msgs := ModifiedFilesCheck(Some(p), modified, level, minimum).value;
      && (level.name == "fail" ==> Route(msgs) == StatusReport(Texts(msgs), []))
      && (level.name != "fail" ==> Route(msgs) == StatusReport([], Texts(msgs)))
  {
    ModifiedFilesCheckOnlyModified(p, modified, level, minimum);
    RouteUniform(ModifiedFilesCheck(Some(p), modified, level, minimum).value, SeverityOf(level));
  }
}
