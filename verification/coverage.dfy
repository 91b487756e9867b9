/** Project-wide coverage: the aggregation fold of `total_coverage`
    (lib/slather/plugin.rb, lines 25-41). */
module Coverage {
  import opened Wrappers

  /** One entry of the coverage tool's report for a source file.
      `path` is the path relative to the repository root, `tested` and
      `testable` are the line counts, and `pct` is the tool's own
      percentage of lines tested, taken as given. */
  datatype FileCoverage = FileCoverage(path: string, tested: nat, testable: nat, pct: real)

  /** A configured coverage project: its coverage files, in the order the
      coverage tool lists them. */
  datatype Project = Project(coverageFiles: seq<FileCoverage>)

  /** The two running totals of the aggregation loop. */
  datatype Totals = Totals(tested: nat, testable: nat) {

    /** The totals after one more file has been visited. */
    function Add(f: FileCoverage): Totals {
      Totals(tested + f.tested, testable + f.testable)
    }
  }

  /** Reference definition: the lines tested over all files. */
  function SumTested(files: seq<FileCoverage>): nat {
    if |files| == 0 then 0 else files[0].tested + SumTested(files[1..])
  }

  /** Reference definition: the testable lines over all files. */
  function SumTestable(files: seq<FileCoverage>): nat {
    if |files| == 0 then 0 else files[0].testable + SumTestable(files[1..])
  }

  /** The source's `each` loop: visit the files front to back, adding each
      one's counts to the running totals `acc`. */
  function Accumulate(files: seq<FileCoverage>, acc: Totals): Totals {
    if |files| == 0 then acc else Accumulate(files[1..], acc.Add(files[0]))
  }

  /** The loop computes the two sums, on top of whatever it starts from. */
  lemma {:induction false} AccumulateIsSum(files: seq<FileCoverage>, acc: Totals)
    ensures Accumulate(files, acc)
         == Totals(acc.tested + SumTested(files), acc.testable + SumTestable(files))
  {
    if |files| > 0 {
      AccumulateIsSum(files[1..], acc.Add(files[0]));
    }
  }

  /** The percentage of the totals, as the source divides it: tested over
      testable, times 100. With no testable lines the source's float
      division gives NaN (or Infinity), which is no percentage at all. */
  function Percent(t: Totals): Option<real> {
    if t.testable == 0 then None
    else Some(t.tested as real / t.testable as real * 100.0)
  }

  /** `total_coverage`: nothing without a project, otherwise the percentage
      of the loop's totals. The result is the closed form over the two sums,
      so it depends on the files only through those sums. */
  function TotalCoverage(project: Option<Project>): (r: Option<real>)
    ensures project.None? ==> r == None
    ensures project.Some? ==>
      (r.None? <==> SumTestable(project.value.coverageFiles) == 0)
    ensures project.Some? && r.Some? ==>
      r.value == SumTested(project.value.coverageFiles) as real
                 / SumTestable(project.value.coverageFiles) as real * 100.0
  {
    match project
    case None => None
    case Some(p) =>
      AccumulateIsSum(p.coverageFiles, Totals(0, 0));
      Percent(Accumulate(p.coverageFiles, Totals(0, 0)))
  }

  /** Both sums distribute over concatenation. */
  lemma {:induction false} SumsAppend(a: seq<FileCoverage>, b: seq<FileCoverage>)
    ensures SumTested(a + b) == SumTested(a) + SumTested(b)
    ensures SumTestable(a + b) == SumTestable(a) + SumTestable(b)
  {
    if |a| == 0 {
      assert a + b == b;
    } else {
      assert (a + b)[1..] == a[1..] + b;
      SumsAppend(a[1..], b);
    }
  }

  /** Taking the file at index `i` out of `b` lowers each sum by that
      file's count. */
  lemma {:induction false} SumsRemove(b: seq<FileCoverage>, i: nat)
    requires i < |b|
    ensures SumTested(b) == b[i].tested + SumTested(b[..i] + b[i+1..])
    ensures SumTestable(b) == b[i].testable + SumTestable(b[..i] + b[i+1..])
  {
    var x := b[i];
    var front, back := b[..i], b[i+1..];
    assert b == front + ([x] + back);
    SumsAppend(front, [x] + back);
    SumsAppend(front, back);
    assert ([x] + back)[1..] == back;
    assert SumTested([x] + back) == x.tested + SumTested(back);
    assert SumTestable([x] + back) == x.testable + SumTestable(back);
  }

  /** Taking the element at index `i` out of a sequence removes exactly that
      element from its multiset. */
  lemma MultisetRemove<T>(b: seq<T>, i: nat)
    requires i < |b|
    ensures multiset(b[..i] + b[i+1..]) == multiset(b) - multiset{b[i]}
  {
    assert b == b[..i] + [b[i]] + b[i+1..];
  }

  /** The first file of `a` sits somewhere in any reordering `b`, and
      what is left of both is again a reordering. */
  lemma MatchFirst<T>(a: seq<T>, b: seq<T>) returns (i: nat)
    requires |a| > 0 && multiset(a) == multiset(b)
    ensures i < |b| && b[i] == a[0]
    ensures multiset(a[1..]) == multiset(b[..i] + b[i+1..])
  {
    var x := a[0];
    assert x in multiset(a);
    assert x in b;
    i :| 0 <= i < |b| && b[i] == x;
    MultisetRemove(b, i);
    assert a == [x] + a[1..];
    assert multiset(a[1..]) == multiset(a) - multiset{x};
  }

  /** Both sums are the same for any reordering of the files. */
  lemma {:induction false} SumsPermutation(a: seq<FileCoverage>, b: seq<FileCoverage>)
    requires multiset(a) == multiset(b)
    ensures SumTested(a) == SumTested(b)
    ensures SumTestable(a) == SumTestable(b)
    decreases |a|
  {
    if |a| == 0 {
      assert |b| == |multiset(b)| == 0;
    } else {
      var i := MatchFirst(a, b);
      SumsPermutation(a[1..], b[..i] + b[i+1..]);
      SumsRemove(b, i);
    }
  }

  /** The total does not depend on the order of the coverage files. */
  lemma TotalCoverageOrderIndependent(a: seq<FileCoverage>, b: seq<FileCoverage>)
    requires multiset(a) == multiset(b)
    ensures TotalCoverage(Some(Project(a))) == TotalCoverage(Some(Project(b)))
  {
    SumsPermutation(a, b);
  }

  /** Projects whose files have the same two sums have the same total. */
  lemma TotalCoverageOnlySums(a: seq<FileCoverage>, b: seq<FileCoverage>)
    requires SumTested(a) == SumTested(b) && SumTestable(a) == SumTestable(b)
    ensures TotalCoverage(Some(Project(a))) == TotalCoverage(Some(Project(b)))
  {
  }
}
