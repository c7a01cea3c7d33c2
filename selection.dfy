/**
  Which tests are selected and which files are reverted:
  `paths_that_changed` (lemontest/__init__.py:298-299), `get_changed_tests`
  (:302-323) and steps 1 to 4 of `LemonTestRunner.run` (:191-209).

  git is not modelled.  The walk over the changed lines between the two
  branches is given as the sequence of (path, line number) pairs it yields,
  parsing as a map from a path to its syntax tree (a path missing from the
  map is one that cannot be opened or parsed, which raises), and each
  `git checkout <to_branch> <path>` is recorded in a list.
*/
module Selection {
  import opened Wrappers
  import opened Syntax
  import opened Visitor
  import opened Suites

  predicate EndsWithPy(path: string)
  {
    |path| >= 3 && path[|path| - 3..] == ".py"
  }

  /** A changed line that `get_changed_tests` looks at: it is in a Python file
      among the test paths. */
  predicate InTestFile(change: (string, nat), testPaths: set<string>)
  {
    EndsWithPy(change.0) && change.0 in testPaths
  }

  predicate ParsedWellFormed(parsed: map<string, seq<Node>>)
  {
    forall p :: p in parsed ==> WellFormed(parsed[p])
  }

  /** `paths_that_changed`: the paths that have at least one changed line. */
  function PathsThatChanged(changes: seq<(string, nat)>): set<string>
  {
    set k | 0 <= k < |changes| :: changes[k].0
  }

  /** The identities recorded for one changed line of a test file. */
  function TestsAt(path: string, pairs: set<(string, string)>): set<Test>
  {
    set cm | cm in pairs :: Test(path, cm.0, cm.1)
  }

  /** The loop that adds one `Test` per (class, method) pair a visitor found. */
  method AddTests(found: set<Test>, path: string, pairs: set<(string, string)>) returns (r: set<Test>)
    ensures r == found + TestsAt(path, pairs)
  {
    r := found;
    var pending := pairs;
    while pending != {}
      invariant pending <= pairs
      invariant r == found + TestsAt(path, pairs - pending)
      decreases |pending|
    {
      var cm :| cm in pending;
      r := r + {Test(path, cm.0, cm.1)};
      pending := pending - {cm};
    }
    assert pairs - pending == pairs;
  }

  /** The body of the loop of `get_changed_tests` for one changed line of a
      test file: a fresh `LineNumberVisitor` over the file's tree, whose pairs
      become tests of that file. */
  method VisitLine(tree: ParsedModule, path: string, lineNo: nat, found: set<Test>) returns (r: set<Test>)
    requires tree.Valid()
    modifies tree
    ensures tree.Valid()
    ensures r == found + TestsAt(path, Resolve(tree.nodes, {lineNo}))
  {
    var v := new LineNumberVisitor({lineNo});
    v.Visit(tree);
    r := AddTests(found, path, v.classMethods);
  }

  /** No element occurs twice. */
  ghost predicate Distinct(s: seq<string>)
  {
    forall a, b :: 0 <= a < b < |s| ==> s[a] != s[b]
  }

  lemma DistinctAppend(s: seq<string>, x: string)
    requires Distinct(s) && x !in s
    ensures Distinct(s + [x])
  {
  }

  /** What `get_changed_tests` returns for the changed lines `changes`:
      `None` when a test file it has to parse cannot be parsed. */
  function ExpectedTests(changes: seq<(string, nat)>, parsed: map<string, seq<Node>>, testPaths: set<string>): Option<set<Test>>
    requires ParsedWellFormed(parsed)
  {
    if changes == [] then Some({})
    else
      var (path, lineNo) := changes[|changes| - 1];
      match ExpectedTests(changes[..|changes| - 1], parsed, testPaths)
      case None => None
      case Some(before) =>
        if !InTestFile((path, lineNo), testPaths) then Some(before)
        else if path !in parsed then None
        else Some(before + TestsAt(path, Resolve(parsed[path], {lineNo})))
  }

  /** `get_changed_tests`: one `LineNumberVisitor` per changed line of a test
      file, over that file's syntax tree, which is parsed on first use and
      then taken from `asts_by_path`.  `parses` lists the files parsed. */
  method GetChangedTests(changes: seq<(string, nat)>, parsed: map<string, seq<Node>>, testPaths: set<string>)
    returns (expected: Option<set<Test>>, ghost parses: seq<string>)
    requires ParsedWellFormed(parsed)
    ensures expected == ExpectedTests(changes, parsed, testPaths)
    ensures Distinct(parses)
    ensures forall p :: p in parses ==> p in ChangedTestFiles(changes, testPaths)
    ensures expected.Some? ==> forall p :: p in parses <==> p in ChangedTestFiles(changes, testPaths)
  {
    var found: set<Test> := {};
    var astsByPath: map<string, ParsedModule> := map[];
    parses := [];
    var i := 0;
    while i < |changes|
      invariant 0 <= i <= |changes|
      invariant ExpectedTests(changes[..i], parsed, testPaths) == Some(found)
      invariant forall p :: p in astsByPath ==>
                  p in parsed && astsByPath[p].nodes == parsed[p] && astsByPath[p].Valid() && fresh(astsByPath[p])
      invariant forall p :: p in parses <==> p in astsByPath
      invariant Distinct(parses)
      invariant forall p :: p in parses <==> p in ChangedTestFiles(changes[..i], testPaths)
    {
      var (path, lineNo) := changes[i];
      ExpectedTestsExtend(changes, parsed, testPaths, i, found);
      ChangedTestFilesExtend(changes, testPaths, i);
      if EndsWithPy(path) && path in testPaths {
        var moduleAst: ParsedModule;
        if path in astsByPath {
          moduleAst := astsByPath[path];
        } else {
          if path !in parsed {
            ExpectedTestsFailureStays(changes, parsed, testPaths, i + 1);
            assert changes[..|changes|] == changes;
            ChangedTestFilesGrow(changes, testPaths, i);
            return None, parses;
          }
          moduleAst := new ParsedModule(parsed[path]);
          astsByPath := astsByPath[path := moduleAst];
          DistinctAppend(parses, path);
          parses := parses + [path];
        }
        found := VisitLine(moduleAst, path, lineNo, found);
      }
      i := i + 1;
    }
    assert changes[..i] == changes;
    expected := Some(found);
  }

  /** One more changed line: what the loop body of `get_changed_tests` adds. */
  lemma ExpectedTestsExtend(changes: seq<(string, nat)>, parsed: map<string, seq<Node>>, testPaths: set<string>,
                            i: nat, found: set<Test>)
    requires ParsedWellFormed(parsed) && i < |changes|
    requires ExpectedTests(changes[..i], parsed, testPaths) == Some(found)
    ensures var (path, lineNo) := changes[i];
            ExpectedTests(changes[..i + 1], parsed, testPaths)
            == if !InTestFile(changes[i], testPaths) then Some(found)
               else if path !in parsed then None
               else Some(found + TestsAt(path, Resolve(parsed[path], {lineNo})))
  {
    assert changes[..i + 1][..i] == changes[..i];
    assert changes[..i + 1][i] == changes[i];
  }

  /** The test files among the changed lines: the files `get_changed_tests`
      has to parse. */
  function ChangedTestFiles(changes: seq<(string, nat)>, testPaths: set<string>): set<string>
  {
    if changes == [] then {}
    else
      var last := changes[|changes| - 1];
      ChangedTestFiles(changes[..|changes| - 1], testPaths) + (if InTestFile(last, testPaths) then {last.0} else {})
  }

  lemma ChangedTestFilesExtend(changes: seq<(string, nat)>, testPaths: set<string>, i: nat)
    requires i < |changes|
    ensures ChangedTestFiles(changes[..i + 1], testPaths)
            == ChangedTestFiles(changes[..i], testPaths) + (if InTestFile(changes[i], testPaths) then {changes[i].0} else {})
  {
    assert changes[..i + 1][..i] == changes[..i];
    assert changes[..i + 1][i] == changes[i];
  }

  /** A file is to be parsed iff it is a `.py` test file with a changed line. */
  lemma {:induction false} ChangedTestFilesAreTheTestFilesChanged(changes: seq<(string, nat)>, testPaths: set<string>, p: string)
    ensures p in ChangedTestFiles(changes, testPaths)
            <==> EndsWithPy(p) && p in testPaths && exists k :: 0 <= k < |changes| && changes[k].0 == p
  {
    if changes != [] {
      var init := changes[..|changes| - 1];
      ChangedTestFilesAreTheTestFilesChanged(init, testPaths, p);
      if exists k :: 0 <= k < |init| && init[k].0 == p {
        var k :| 0 <= k < |init| && init[k].0 == p;
        assert changes[k] == init[k];
      }
      if exists k :: 0 <= k < |changes| && changes[k].0 == p {
        var k :| 0 <= k < |changes| && changes[k].0 == p;
        if k < |init| {
          assert init[k] == changes[k];
        }
      }
    }
  }

  /** `get_changed_tests` raises exactly when some changed line lies in a test
      file that cannot be parsed. */
  lemma {:induction false} ExpectedTestsNoneIff(changes: seq<(string, nat)>, parsed: map<string, seq<Node>>,
                                                testPaths: set<string>)
    requires ParsedWellFormed(parsed)
    ensures ExpectedTests(changes, parsed, testPaths).None?
            <==> exists k :: 0 <= k < |changes| && InTestFile(changes[k], testPaths) && changes[k].0 !in parsed
  {
    if changes != [] {
      var init := changes[..|changes| - 1];
      ExpectedTestsNoneIff(init, parsed, testPaths);
      if exists k :: 0 <= k < |init| && InTestFile(init[k], testPaths) && init[k].0 !in parsed {
        var k :| 0 <= k < |init| && InTestFile(init[k], testPaths) && init[k].0 !in parsed;
        assert changes[k] == init[k];
      }
      if exists k :: 0 <= k < |changes| && InTestFile(changes[k], testPaths) && changes[k].0 !in parsed {
        var k :| 0 <= k < |changes| && InTestFile(changes[k], testPaths) && changes[k].0 !in parsed;
        if k < |init| {
          assert init[k] == changes[k];
        }
      }
    }
  }

  lemma {:induction false} ChangedTestFilesGrow(changes: seq<(string, nat)>, testPaths: set<string>, n: nat)
    requires n <= |changes|
    ensures ChangedTestFiles(changes[..n], testPaths) <= ChangedTestFiles(changes, testPaths)
    decreases |changes| - n
  {
    if n < |changes| {
      ChangedTestFilesExtend(changes, testPaths, n);
      ChangedTestFilesGrow(changes, testPaths, n + 1);
    } else {
      assert changes[..n] == changes;
    }
  }

  /** Once a parse has failed, the whole computation has failed. */
  lemma {:induction false} ExpectedTestsFailureStays(changes: seq<(string, nat)>, parsed: map<string, seq<Node>>,
                                                     testPaths: set<string>, n: nat)
    requires ParsedWellFormed(parsed) && n <= |changes|
    requires ExpectedTests(changes[..n], parsed, testPaths).None?
    ensures ExpectedTests(changes, parsed, testPaths).None?
    decreases |changes| - n
  {
    if n < |changes| {
      assert changes[..n + 1][..n] == changes[..n];
      ExpectedTestsFailureStays(changes, parsed, testPaths, n + 1);
    } else {
      assert changes[..n] == changes;
    }
  }

  /** The selected tests are exactly the identities (path, class, method)
      where some changed line of the test file `path` resolves to
      (class, method) in that file. */
  lemma {:induction false} ExpectedTestsAreResolvedLines(changes: seq<(string, nat)>, parsed: map<string, seq<Node>>,
                                                         testPaths: set<string>, t: Test)
    requires ParsedWellFormed(parsed)
    requires ExpectedTests(changes, parsed, testPaths).Some?
    ensures t in ExpectedTests(changes, parsed, testPaths).value
            <==> exists k :: 0 <= k < |changes| && changes[k].0 == t.path && InTestFile(changes[k], testPaths)
                             && t.path in parsed && (t.className, t.methodName) in Resolve(parsed[t.path], {changes[k].1})
  {
    if changes != [] {
      var init := changes[..|changes| - 1];
      ExpectedTestsAreResolvedLines(init, parsed, testPaths, t);
      var last := changes[|changes| - 1];
      if exists k :: 0 <= k < |changes| && changes[k].0 == t.path && InTestFile(changes[k], testPaths)
                     && t.path in parsed && (t.className, t.methodName) in Resolve(parsed[t.path], {changes[k].1}) {
        var k :| 0 <= k < |changes| && changes[k].0 == t.path && InTestFile(changes[k], testPaths)
                 && t.path in parsed && (t.className, t.methodName) in Resolve(parsed[t.path], {changes[k].1});
        if k < |init| {
          assert init[k] == changes[k];
        } else {
          assert t in TestsAt(last.0, Resolve(parsed[last.0], {last.1}));
        }
      }
      if exists k :: 0 <= k < |init| && init[k].0 == t.path && InTestFile(init[k], testPaths)
                     && t.path in parsed && (t.className, t.methodName) in Resolve(parsed[t.path], {init[k].1}) {
        var k :| 0 <= k < |init| && init[k].0 == t.path && InTestFile(init[k], testPaths)
                 && t.path in parsed && (t.className, t.methodName) in Resolve(parsed[t.path], {init[k].1});
        assert changes[k] == init[k];
      }
    }
  }

  // ----- business logic files -----

  /** Python's order on `str`: code point by code point, a proper prefix first. */
  predicate Before(a: string, b: string)
  {
    if a == [] then b != []
    else if b == [] then false
    else if a[0] != b[0] then a[0] < b[0]
    else Before(a[1..], b[1..])
  }

  lemma {:induction false} BeforeIrreflexive(a: string)
    ensures !Before(a, a)
  {
    if a != [] {
      BeforeIrreflexive(a[1..]);
    }
  }

  lemma {:induction false} BeforeTransitive(a: string, b: string, c: string)
    requires Before(a, b) && Before(b, c)
    ensures Before(a, c)
  {
    if a != [] && b != [] && c != [] && a[0] == b[0] && b[0] == c[0] {
      BeforeTransitive(a[1..], b[1..], c[1..]);
    }
  }

  lemma {:induction false} BeforeTotal(a: string, b: string)
    ensures a == b || Before(a, b) || Before(b, a)
  {
    if a != [] && b != [] && a[0] == b[0] {
      BeforeTotal(a[1..], b[1..]);
      if a[1..] == b[1..] {
        assert a == [a[0]] + a[1..] && b == [b[0]] + b[1..];
      }
    }
  }

  predicate IsLeast(m: string, s: set<string>)
  {
    m in s && forall p :: p in s && p != m ==> Before(m, p)
  }

  lemma {:induction false} LeastExists(s: set<string>)
    requires s != {}
    ensures exists m :: IsLeast(m, s)
    decreases |s|
  {
    var x :| x in s;
    if s - {x} == {} {
      assert s == {x};
      assert IsLeast(x, s);
    } else {
      LeastExists(s - {x});
      var m :| IsLeast(m, s - {x});
      BeforeTotal(x, m);
      if Before(x, m) {
        forall p | p in s && p != x ensures Before(x, p) {
          if p != m { BeforeTransitive(x, m, p); }
        }
        assert IsLeast(x, s);
      } else {
        assert IsLeast(m, s);
      }
    }
  }

  lemma LeastUnique(m: string, n: string, s: set<string>)
    requires IsLeast(m, s) && IsLeast(n, s)
    ensures m == n
  {
    if m != n {
      BeforeTransitive(m, n, m);
      BeforeIrreflexive(m);
    }
  }

  /** `sorted(s)` for a set of strings: its elements in increasing order. */
  function Sorted(s: set<string>): (r: seq<string>)
    ensures forall p :: p in r <==> p in s
    ensures forall a, b :: 0 <= a < b < |r| ==> Before(r[a], r[b])
    decreases |s|
  {
    if s == {} then []
    else
      LeastExists(s);
      forall m, n | IsLeast(m, s) && IsLeast(n, s) ensures m == n {
        LeastUnique(m, n, s);
      }
      var m :| IsLeast(m, s);
      [m] + Sorted(s - {m})
  }

  /** The changed Python files that are not test files (the set under
      `sorted` at lemontest/__init__.py:202). */
  function BusinessLogicPaths(changes: seq<(string, nat)>, testPaths: set<string>): set<string>
  {
    (set p | p in PathsThatChanged(changes) && EndsWithPy(p)) - testPaths
  }

  /** The `git checkout <revision> <path>` calls of step 3, in order. */
  function CheckoutCalls(revision: string, paths: seq<string>): (r: seq<(string, string)>)
    ensures |r| == |paths|
  {
    seq(|paths|, k requires 0 <= k < |paths| => (revision, paths[k]))
  }

  /** Step 3 checks a file out of `to_branch` exactly when it is a changed
      Python file outside the test paths; in particular no test file is ever
      reverted, and nothing is checked out of any other revision. */
  lemma CheckoutsAreChangedNonTestFiles(changes: seq<(string, nat)>, testPaths: set<string>,
                                        toBranch: string, revision: string, p: string)
    ensures (revision, p) in CheckoutCalls(toBranch, Sorted(BusinessLogicPaths(changes, testPaths)))
            <==> revision == toBranch && p !in testPaths && EndsWithPy(p)
                 && exists k :: 0 <= k < |changes| && changes[k].0 == p
  {
    CheckoutCallsMembers(toBranch, Sorted(BusinessLogicPaths(changes, testPaths)), revision, p);
    if exists k :: 0 <= k < |changes| && changes[k].0 == p {
      var k :| 0 <= k < |changes| && changes[k].0 == p;
      assert p in PathsThatChanged(changes);
    }
  }

  lemma CheckoutCallsMembers(revision: string, paths: seq<string>, r: string, p: string)
    ensures (r, p) in CheckoutCalls(revision, paths) <==> r == revision && p in paths
  {
    var calls := CheckoutCalls(revision, paths);
    if r == revision && p in paths {
      var j :| 0 <= j < |paths| && paths[j] == p;
      assert calls[j] == (r, p);
    }
  }

  // ----- LemonTestRunner.run, steps 1 to 4 -----

  class LemonTestRunner {
    const toBranch: string
    const fromBranch: string
    var expectedTests: set<Test>
    /** The `git checkout <revision> <path>` calls made, in order. */
    var checkouts: seq<(string, string)>

    constructor (toBranch: string, fromBranch: string)
      ensures this.toBranch == toBranch && this.fromBranch == fromBranch
      ensures expectedTests == {} && checkouts == []
    {
      this.toBranch := toBranch;
      this.fromBranch := fromBranch;
      expectedTests := {};
      checkouts := [];
    }

    /** Steps 1 to 4 of `run`: collect the test paths and the expected tests,
        check every business logic file out of `to_branch` in sorted order,
        then filter the suite.  `None` is an exception escaping `run`
        (a nested suite, or a test file that cannot be parsed), raised before
        anything is checked out. */
    method Select(suite: Suite, changes: seq<(string, nat)>, parsed: map<string, seq<Node>>)
      returns (selected: Option<(Suite, set<Test>)>)
      requires ParsedWellFormed(parsed)
      modifies this
      ensures selected.None? <==>
                !IsFlat(suite)
                || ExpectedTests(changes, parsed, set t | t in Identities(suite) :: t.path).None?
      ensures selected.None? ==> checkouts == old(checkouts) && expectedTests == old(expectedTests)
      ensures selected.Some? ==>
                var testPaths := set t | t in Identities(suite) :: t.path;
                var expected := ExpectedTests(changes, parsed, testPaths).value;
                var reverted := Sorted(BusinessLogicPaths(changes, testPaths));
                && expectedTests == expected
                && checkouts == old(checkouts) + CheckoutCalls(toBranch, reverted)
                && selected.value == (Composite(AsCases(Kept(Leaves(suite), expected))), Identities(suite) * expected)
    {
      // Step 1. relevant tests
      var testPaths := SuiteToPaths(suite);
      if testPaths.None? {
        return None;
      }
      var expected, _ := GetChangedTests(changes, parsed, testPaths.value);
      if expected.None? {
        return None;
      }
      expectedTests := expected.value;

      // Step 2. business logic files
      var businessLogicFiles := Sorted(BusinessLogicPaths(changes, testPaths.value));

      // Step 3. revert business logic code
      var k := 0;
      while k < |businessLogicFiles|
        invariant 0 <= k <= |businessLogicFiles|
        invariant expectedTests == expected.value
        invariant checkouts == old(checkouts)
                    + CheckoutCalls(toBranch, businessLogicFiles[..k])
      {
        assert CheckoutCalls(toBranch, businessLogicFiles[..k + 1])
               == CheckoutCalls(toBranch, businessLogicFiles[..k]) + [(toBranch, businessLogicFiles[k])];
        checkouts := checkouts + [(toBranch, businessLogicFiles[k])];
        k := k + 1;
      }
      assert businessLogicFiles[..k] == businessLogicFiles;

      // Step 4. run tests that changed
      var newSuite, inscopeTests := FilterOutTests(suite, expectedTests);
      selected := Some((newSuite, inscopeTests));
    }
  }
}
