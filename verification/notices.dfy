/** The notifications the two threshold checks produce (lib/slather/plugin.rb,
    lines 85-119), as data: a severity chosen from the caller's notify level,
    and what fell short of which minimum. */
module Notices {
  import opened Wrappers

  /** The `notify_level:` argument, a Ruby symbol, by its name. */
  datatype NotifyLevel = NotifyLevel(name: string)

  /** The checks' default level, `:fail`. */
  const DefaultLevel := NotifyLevel("fail")

  /** Whether the host is asked to `fail` or to `warn`. */
  datatype Severity = Fail | Warn

  /** Only the level `:fail` fails; every other level warns. */
  function SeverityOf(level: NotifyLevel): Severity {
    if level.name == "fail" then Fail else Warn
  }

  /** The `minimum_coverage:` argument: the number compared against, and the
      text Ruby interpolates for it (`50` for the Integer 50, `50.0` for the
      Float), which the messages insert unchanged. */
  datatype Minimum = Minimum(value: real, spelling: string)

  /** What fell short: the project total, or one file given by its path. */
  datatype Notice =
    | TotalBelow(minimum: Minimum)
    | FileBelow(path: string, minimum: Minimum)

  /** One notification handed to the host. */
  datatype Message = Message(severity: Severity, notice: Notice)

  const TotalLead := "Total coverage less than "
  const FileLead := " has less than "
  const Tail := " code coverage"

  /** The message string the source interpolates for a notice. */
  function Text(n: Notice): string {
    match n
    case TotalBelow(m) => TotalLead + m.spelling + Tail
    case FileBelow(p, m) => p + FileLead + m.spelling + Tail
  }

  /** Reads a message string back into the notice it reports, given the
      minimum it was produced with; nothing if it is not such a message. */
  function ReadNotice(text: string, minimum: Minimum): (r: Option<Notice>)
    ensures r.Some? ==> r.value.minimum == minimum && Text(r.value) == text
  {
    var fileTail := FileLead + minimum.spelling + Tail;
    if text == TotalLead + minimum.spelling + Tail then
      Some(TotalBelow(minimum))
    else if |fileTail| <= |text| && text[|text| - |fileTail|..] == fileTail then
      assert text == text[..|text| - |fileTail|] + fileTail;
      Some(FileBelow(text[..|text| - |fileTail|], minimum))
    else
      None
  }

  /** No file message reads as the total message: the total's lead does not
      end with the file lead. */
  lemma FileTextIsNotTotalText(p: string, m: Minimum)
    ensures Text(FileBelow(p, m)) != Text(TotalBelow(m))
  {
    var f := Text(FileBelow(p, m));
    var t := Text(TotalBelow(m));
    if |f| == |t| {
      assert |p| == |TotalLead| - |FileLead|;
      assert f[|p|] == FileLead[0] == ' ';
      assert t[|p|] == TotalLead[|p|] == 'r';
    }
  }

  /** Every notice is read back from its own text: the message string
      identifies the notice, and in particular the file it names. */
  lemma ReadTextRoundTrip(n: Notice)
    ensures ReadNotice(Text(n), n.minimum) == Some(n)
  {
    match n
    case TotalBelow(m) =>
    case FileBelow(p, m) =>
      FileTextIsNotTotalText(p, m);
      var text := Text(n);
      var fileTail := FileLead + m.spelling + Tail;
      assert text == p + fileTail;
      assert text[|text| - |fileTail|..] == fileTail;
      assert text[..|text| - |fileTail|] == p;
  }

  /** Two file messages with the same minimum are equal only for the same
      path. */
  lemma FileTextInjective(p: string, q: string, m: Minimum)
    requires Text(FileBelow(p, m)) == Text(FileBelow(q, m))
    ensures p == q
  {
    ReadTextRoundTrip(FileBelow(p, m));
    ReadTextRoundTrip(FileBelow(q, m));
  }
}
