/** Strict acceptance of a parsed report against the selection it was run for
    (cts/upstream_runner.py). */
module Acceptance {
  import opened NameOrder
  import opened Positions
  import opened QpaReport

  datatype Verdict = Verdict(strict: bool, reportValid: bool, passed: nat, failed: nat, notSupported: nat, other: nat,
    missing: seq<string>, unexpected: seq<string>, duplicates: seq<string>, failures: seq<(string, string)>)

  function Names(results: seq<CaseResult>): (names: seq<string>)
    ensures |names| == |results| && forall i | 0 <= i < |results| :: names[i] == results[i].path
  {
    if results == [] then [] else Names(results[..|results| - 1]) + [results[|results| - 1].path]
  }

  predicate NoDuplicates(names: seq<string>) { forall i, j | 0 <= i < j < |names| :: names[i] != names[j] }

  // ----- the four tallies

  datatype Status = Passed | NotSupported | Failed | Unclassified

  function Classify(status: string): Status {
    if status == "Pass" then Passed
    else if status == "NotSupported" || status == "Not_Supported" then NotSupported
    else if status == "Fail" then Failed
    else Unclassified
  }

  function Tally(results: seq<CaseResult>, kind: Status): nat {
    if results == [] then 0
    else Tally(results[..|results| - 1], kind) + if Classify(results[|results| - 1].status) == kind then 1 else 0
  }

  /** The cases that did not pass, in order. */
  function Failures(results: seq<CaseResult>): seq<(string, string)> {
    if results == [] then []
    else
      var last := results[|results| - 1];
      Failures(results[..|results| - 1]) + if Classify(last.status) == Passed then [] else [(last.path, last.status)]
  }

  /** The names that occur again after a first time. */
  function Repeated(names: seq<string>): set<string> {
    if names == [] then {}
    else
      var front, last := names[..|names| - 1], names[|names| - 1];
      Repeated(front) + if last in Elements(front) then {last} else {}
  }

  lemma NextElement(names: seq<string>, i: nat)
    requires i < |names|
    ensures Elements(names[..i + 1]) == Elements(names[..i]) + {names[i]}
    ensures var again := if names[i] in Elements(names[..i]) then {names[i]} else {};
      Repeated(names[..i + 1]) == Repeated(names[..i]) + again
  {
    assert names[..i + 1][..i] == names[..i];
    assert names[..i + 1] == names[..i] + [names[i]];
    forall n | n in Elements(names[..i + 1]) ensures n in Elements(names[..i]) + {names[i]} {
      var k :| 0 <= k < i + 1 && names[..i + 1][k] == n;
      if k < i { assert names[..i][k] == n; }
    }
    forall n | n in Elements(names[..i]) + {names[i]} ensures n in Elements(names[..i + 1]) {
      if n == names[i] {
        assert names[..i + 1][i] == n;
      } else {
        var k :| 0 <= k < i && names[..i][k] == n;
        assert names[..i + 1][k] == n;
      }
    }
  }

  lemma NextResult(results: seq<CaseResult>, i: nat)
    requires i < |results|
    ensures Names(results[..i + 1]) == Names(results[..i]) + [results[i].path]
    ensures forall kind ::
      Tally(results[..i + 1], kind) == Tally(results[..i], kind) + if Classify(results[i].status) == kind then 1 else 0
    ensures var last := results[i];
      var more := if Classify(last.status) == Passed then [] else [(last.path, last.status)];
      Failures(results[..i + 1]) == Failures(results[..i]) + more
  {
    assert results[..i + 1][..i] == results[..i];
  }

  // ----- the loops

  method FindDuplicates(names: seq<string>) returns (seen: set<string>, duplicates: set<string>)
    ensures seen == Elements(names) && duplicates == Repeated(names)
  {
    seen, duplicates := {}, {};
    var i := 0;
    while i < |names|
      invariant i <= |names|
      invariant seen == Elements(names[..i]) && duplicates == Repeated(names[..i])
    {
      NextElement(names, i);
      if names[i] in seen {
        duplicates := duplicates + {names[i]};
      }
      seen := seen + {names[i]};
      i := i + 1;
    }
    assert names[..i] == names;
  }

  method Count(results: seq<CaseResult>)
    returns (passed: nat, failed: nat, notSupported: nat, other: nat, failures: seq<(string, string)>)
    ensures passed == Tally(results, Passed) && failed == Tally(results, Failed)
    ensures notSupported == Tally(results, NotSupported) && other == Tally(results, Unclassified)
    ensures failures == Failures(results)
  {
    passed, failed, notSupported, other, failures := 0, 0, 0, 0, [];
    var i := 0;
    while i < |results|
      invariant i <= |results|
      invariant passed == Tally(results[..i], Passed) && failed == Tally(results[..i], Failed)
      invariant notSupported == Tally(results[..i], NotSupported) && other == Tally(results[..i], Unclassified)
      invariant failures == Failures(results[..i])
    {
      NextResult(results, i);
      var path, status := results[i].path, results[i].status;
      if status == "Pass" {
        passed := passed + 1;
      } else if status == "NotSupported" || status == "Not_Supported" {
        notSupported, failures := notSupported + 1, failures + [(path, status)];
      } else if status == "Fail" {
        failed, failures := failed + 1, failures + [(path, status)];
      } else {
        other, failures := other + 1, failures + [(path, status)];
      }
      i := i + 1;
    }
    assert results[..i] == results;
  }

  method ReportedNames(results: seq<CaseResult>) returns (names: seq<string>)
    ensures names == Names(results)
  {
    names := [];
    var i := 0;
    while i < |results|
      invariant i <= |results| && names == Names(results[..i])
    {
      NextResult(results, i);
      names := names + [results[i].path];
      i := i + 1;
    }
    assert results[..i] == results;
  }

  /** The reported cases are the expected ones, each of them once, all passed, and
      the run ended well. */
  predicate Strict(expected: seq<string>, exitCode: int, results: seq<CaseResult>) {
    && exitCode == 0 && expected != [] && NoDuplicates(expected)
    && multiset(Names(results)) == multiset(expected)
    && forall i | 0 <= i < |results| :: results[i].status == "Pass"
  }

  /** The reported cases are the expected ones, none reported twice; the expected
      list itself may repeat a case. */
  predicate Valid(expected: seq<string>, exitCode: int, results: seq<CaseResult>) {
    && exitCode == 0 && expected != [] && NoDuplicates(Names(results)) && Elements(Names(results)) == Elements(expected)
  }

  method VerifyUpstreamAcceptance(expected: seq<string>, exitCode: int, results: seq<CaseResult>) returns (v: Verdict)
    ensures v.strict <==> Strict(expected, exitCode, results)
    ensures v.reportValid <==> Valid(expected, exitCode, results)
    ensures v.passed == Tally(results, Passed) && v.failed == Tally(results, Failed)
    ensures v.notSupported == Tally(results, NotSupported) && v.other == Tally(results, Unclassified)
    ensures v.passed + v.failed + v.notSupported + v.other == |results|
    ensures Lists(v.missing, Elements(expected) - Elements(Names(results)))
    ensures Lists(v.unexpected, Elements(Names(results)) - Elements(expected))
    ensures Lists(v.duplicates, Repeated(Names(results))) && v.failures == Failures(results)
  {
    hide Elements, Rising, Repeated, Tally, Failures, NoDuplicates, Names;
    var names := ReportedNames(results);
    var expectedSet, _ := FindDuplicates(expected);
    var reported, repeated := FindDuplicates(names);
    var missing := Sort(expectedSet - reported);
    var unexpected := Sort(reported - expectedSet);
    var duplicates := Sort(repeated);
    NoElements(missing);
    NoElements(unexpected);
    NoElements(duplicates);
    var passed, failed, notSupported, other, failures := Count(results);
    var reportValid := exitCode == 0 && missing == [] && unexpected == [] && duplicates == [] && expected != [];
    var strict := reportValid && failures == [] && passed == |expected| && |results| == |expected|;
    TalliesAddUp(results);
    NothingRepeated(names);
    AllPassed(results);
    assert missing == [] && unexpected == [] <==> reported == expectedSet;
    if reportValid && |results| == |expected| { SameNames(names, expected); }
    if Strict(expected, exitCode, results) { Permuted(names, expected); }
    v := Verdict(strict, reportValid, passed, failed, notSupported, other, missing, unexpected, duplicates, failures);
  }

  /** A list that expects one case twice can be answered by a valid report, never
      by a strictly verified one. */
  lemma ValidButNotStrict(path: string, details: string)
    ensures var results := [CaseResult(path, "Pass", details, false)];
      Valid([path, path], 0, results) && !Strict([path, path], 0, results)
  {
    var results, expected := [CaseResult(path, "Pass", details, false)], [path, path];
    assert Names(results) == [path] by { assert Names(results[..0]) == []; }
    assert expected[0] == expected[1];
    assert Elements(expected) == {path} == Elements([path]) by {
      assert [path][0] == path && expected[0] == path;
    }
  }

  /** A strictly verified report is valid; a valid one is strictly verified exactly
      when its cases all passed and the expected list repeats none. */
  lemma StrictIffValidAnd(expected: seq<string>, exitCode: int, results: seq<CaseResult>)
    ensures Strict(expected, exitCode, results) <==>
      && Valid(expected, exitCode, results) && NoDuplicates(expected)
      && forall i | 0 <= i < |results| :: results[i].status == "Pass"
  {
    hide Elements, NoDuplicates, Names;
    var names := Names(results);
    if Strict(expected, exitCode, results) { Permuted(names, expected); }
    if Valid(expected, exitCode, results) && NoDuplicates(expected) {
      ElementsSize(names);
      ElementsSize(expected);
      SameNames(names, expected);
    }
  }

  // ----- what the conditions amount to

  lemma {:induction false} TalliesAddUp(results: seq<CaseResult>)
    ensures Tally(results, Passed) + Tally(results, Failed) + Tally(results, NotSupported)
            + Tally(results, Unclassified) == |results|
    decreases |results|
  {
    if results != [] { TalliesAddUp(results[..|results| - 1]); }
  }

  lemma {:induction false} AllPassed(results: seq<CaseResult>)
    ensures Failures(results) == [] <==> forall i | 0 <= i < |results| :: results[i].status == "Pass"
    ensures Failures(results) == [] <==> Tally(results, Passed) == |results|
    ensures Tally(results, Passed) <= |results|
    ensures |Names(results)| == |results|
    decreases |results|
  {
    if results != [] {
      var front, last := results[..|results| - 1], results[|results| - 1];
      AllPassed(front);
      assert results == front + [last];
    }
  }

  lemma {:induction false} NothingRepeated(names: seq<string>)
    ensures Repeated(names) == {} <==> NoDuplicates(names)
    decreases |names|
  {
    if names != [] {
      var front, last := names[..|names| - 1], names[|names| - 1];
      NothingRepeated(front);
      if last in Elements(front) {
        var k :| 0 <= k < |front| && front[k] == last;
        assert names[k] == names[|names| - 1];
      } else {
        assert forall k | 0 <= k < |front| :: names[k] == front[k] && front[k] in Elements(front);
      }
    }
  }

  lemma {:induction false} ElementsSize(names: seq<string>)
    ensures |Elements(names)| <= |names|
    ensures |Elements(names)| == |names| <==> NoDuplicates(names)
    decreases |names|
  {
    if names != [] {
      var front, last := names[..|names| - 1], names[|names| - 1];
      ElementsSize(front);
      NextElement(names, |names| - 1);
      assert names[..|names|] == names;
      NothingRepeated(names);
      NothingRepeated(front);
    }
  }

  lemma {:induction false} CountOf(names: seq<string>, n: string)
    requires NoDuplicates(names)
    ensures multiset(names)[n] == if n in Elements(names) then 1 else 0
    decreases |names|
  {
    if names != [] {
      var front, last := names[..|names| - 1], names[|names| - 1];
      CountOf(front, n);
      NextElement(names, |names| - 1);
      assert names == front + [last] && names[..|names|] == names;
      NothingRepeated(names);
    }
  }

  /** As many different names as expected, and the same ones: a permutation of a
      duplicate-free list. */
  lemma SameNames(names: seq<string>, expected: seq<string>)
    requires NoDuplicates(names) && Elements(names) == Elements(expected) && |names| == |expected|
    ensures NoDuplicates(expected) && multiset(names) == multiset(expected)
  {
    hide Elements, NoDuplicates;
    ElementsSize(names);
    ElementsSize(expected);
    forall n: string ensures multiset(names)[n] == multiset(expected)[n] {
      CountOf(names, n);
      CountOf(expected, n);
    }
  }

  lemma Permuted(names: seq<string>, expected: seq<string>)
    requires NoDuplicates(expected) && multiset(names) == multiset(expected)
    ensures NoDuplicates(names) && Elements(names) == Elements(expected) && |names| == |expected|
  {
    hide NoDuplicates;
    forall n: string ensures n in Elements(names) <==> n in Elements(expected) {
      assert n in Elements(names) <==> n in multiset(names);
      assert n in Elements(expected) <==> n in multiset(expected);
    }
    assert Elements(names) == Elements(expected);
    assert |multiset(names)| == |names| && |multiset(expected)| == |expected|;
    ElementsSize(names);
    ElementsSize(expected);
  }

  // ----- the tallies and the failures, on the results themselves

  /** How many results have one of these statuses. */
  function With(results: seq<CaseResult>, statuses: set<string>): nat {
    if results == [] then 0
    else With(results[..|results| - 1], statuses) + if results[|results| - 1].status in statuses then 1 else 0
  }

  /** The tallies count the statuses they are named after; what has any other status
      is in the fourth. */
  lemma {:induction false} TalliesCount(results: seq<CaseResult>)
    ensures Tally(results, Passed) == With(results, {"Pass"})
    ensures Tally(results, Failed) == With(results, {"Fail"})
    ensures Tally(results, NotSupported) == With(results, {"NotSupported", "Not_Supported"})
    ensures Tally(results, Unclassified) + With(results, {"Pass", "Fail", "NotSupported", "Not_Supported"}) == |results|
    decreases |results|
  {
    if results != [] { TalliesCount(results[..|results| - 1]); }
  }

  function DidNotPass(): CaseResult -> bool { (r: CaseResult) => r.status != "Pass" }

  lemma {:induction false} FailuresUpTo(results: seq<CaseResult>, k: nat)
    requires k <= |results|
    ensures var places := Places(results, DidNotPass(), k);
      && |Failures(results[..k])| == |places|
      && forall i | 0 <= i < |places| ::
           places[i] < |results| && Failures(results[..k])[i] == (results[places[i]].path, results[places[i]].status)
  {
    if k > 0 {
      FailuresUpTo(results, k - 1);
      assert results[..k][..k - 1] == results[..k - 1] && results[..k][k - 1] == results[k - 1];
    }
  }

  /** The failures are the results that did not pass, in order, with their paths and
      statuses. */
  lemma FailuresAreThose(results: seq<CaseResult>)
    ensures var places := Places(results, DidNotPass(), |results|);
      && |Failures(results)| == |places|
      && forall i | 0 <= i < |places| ::
           places[i] < |results| && Failures(results)[i] == (results[places[i]].path, results[places[i]].status)
  {
    assert results[..|results|] == results;
    FailuresUpTo(results, |results|);
  }
}
