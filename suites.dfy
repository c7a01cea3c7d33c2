/**
  Test identities and suite filtering: `Test` (lemontest/__init__.py:291-295),
  `filter_out_tests` (:266-288) and `suite2paths` (:254-263).

  A unittest suite is a closed variant: a composite holding an ordered
  sequence of members, or a test case known by its identity.  How the
  identity is obtained (`inspect.getsourcefile`, the working-directory
  prefix, `_testMethodName`) is left to the caller.
*/
module Suites {
  import opened Wrappers

  /** The identity of one test method; equality is structural, as for the
      source's namedtuple. */
  datatype Test = Test(path: string, className: string, methodName: string)

  datatype Suite = Composite(tests: seq<Suite>) | Case(id: Test)

  // ----- Test.__str__ -----

  /** `'{}:{}.{}'.format(path, class_name, method_name)`. */
  function TestToString(t: Test): string
  {
    t.path + ":" + t.className + "." + t.methodName
  }

  /** The position of the last `ch` in `s`, if any. */
  function LastIndexOf(s: string, ch: char): (r: Option<nat>)
    ensures r.Some? ==> r.value < |s| && s[r.value] == ch && ch !in s[r.value + 1..]
    ensures r.None? ==> ch !in s
  {
    if s == [] then None
    else if s[|s| - 1] == ch then Some(|s| - 1)
    else
      var r := LastIndexOf(s[..|s| - 1], ch);
      assert s == s[..|s| - 1] + [s[|s| - 1]];
      r
  }

  /** The position of the first `ch` in `s`, if any. */
  function FirstIndexOf(s: string, ch: char): (r: Option<nat>)
    ensures r.Some? ==> r.value < |s| && s[r.value] == ch && ch !in s[..r.value]
    ensures r.None? ==> ch !in s
  {
    if s == [] then None
    else if s[0] == ch then Some(0)
    else
      match FirstIndexOf(s[1..], ch)
      case Some(k) => assert s[..k + 1] == [s[0]] + s[1..][..k]; Some(k + 1)
      case None => None
  }

  /** Reads an identity back from its string form: the path is everything before
      the last ':', the class name what lies between it and the next '.'. */
  function ParseTest(s: string): Option<Test>
  {
    match LastIndexOf(s, ':')
    case None => None
    case Some(colon) =>
      var qualified := s[colon + 1..];
      match FirstIndexOf(qualified, '.')
      case None => None
      case Some(dot) => Some(Test(s[..colon], qualified[..dot], qualified[dot + 1..]))
  }

  /** The string form of an identity determines it, provided neither the class
      nor the method name contains ':' and the class name contains no '.'
      (true of Python identifiers; the path may contain both). */
  lemma TestStringRoundTrip(t: Test)
    requires ':' !in t.className && '.' !in t.className && ':' !in t.methodName
    ensures ParseTest(TestToString(t)) == Some(t)
  {
    StringFormSeparators(t);
    ParseSplit(TestToString(t), |t.path|, |t.className|);
  }

  /** Where the separators of the string form of `t` are, and what lies
      between them. */
  lemma StringFormSeparators(t: Test)
    requires ':' !in t.className && '.' !in t.className && ':' !in t.methodName
    ensures var s := TestToString(t);
            && |t.path| < |s| && LastIndexOf(s, ':') == Some(|t.path|) && s[..|t.path|] == t.path
            && FirstIndexOf(s[|t.path| + 1..], '.') == Some(|t.className|)
            && s[|t.path| + 1..][..|t.className|] == t.className
            && s[|t.path| + 1..][|t.className| + 1..] == t.methodName
  {
    var qualified := t.className + ['.'] + t.methodName;
    var s := t.path + [':'] + qualified;
    assert TestToString(t) == s;
    assert s[..|t.path|] == t.path && s[|t.path| + 1..] == qualified by {
      SplitAt(t.path, ':', qualified);
    }
    assert qualified[..|t.className|] == t.className && qualified[|t.className| + 1..] == t.methodName by {
      SplitAt(t.className, '.', t.methodName);
    }
    assert LastIndexOf(s, ':') == Some(|t.path|) by {
      LastIndexOfIsSeparator(t.path, ':', qualified);
    }
    assert FirstIndexOf(qualified, '.') == Some(|t.className|) by {
      FirstIndexOfIsSeparator(t.className, '.', t.methodName);
    }
  }

  /** The two sides of a separator. */
  lemma SplitAt(a: string, ch: char, b: string)
    ensures (a + [ch] + b)[..|a|] == a && (a + [ch] + b)[|a| + 1..] == b
  {
  }

  /** Parsing splits at the separators it finds. */
  lemma ParseSplit(s: string, colon: nat, dot: nat)
    requires LastIndexOf(s, ':') == Some(colon)
    requires FirstIndexOf(s[colon + 1..], '.') == Some(dot)
    ensures ParseTest(s) == Some(Test(s[..colon], s[colon + 1..][..dot], s[colon + 1..][dot + 1..]))
  {
  }

  /** The last `ch` of `a + [ch] + b` is the separator when `b` has none. */
  lemma {:induction false} LastIndexOfIsSeparator(a: string, ch: char, b: string)
    requires ch !in b
    ensures LastIndexOf(a + [ch] + b, ch) == Some(|a|)
  {
    if b != [] {
      var s := a + [ch] + b;
      assert s[|s| - 1] == b[|b| - 1];
      assert s[..|s| - 1] == a + [ch] + b[..|b| - 1];
      LastIndexOfIsSeparator(a, ch, b[..|b| - 1]);
    }
  }

  /** The first `ch` of `a + [ch] + b` is the separator when `a` has none. */
  lemma {:induction false} FirstIndexOfIsSeparator(a: string, ch: char, b: string)
    requires ch !in a
    ensures FirstIndexOf(a + [ch] + b, ch) == Some(|a|)
  {
    var s := a + [ch] + b;
    if a != [] {
      assert s[0] == a[0];
      assert s[1..] == a[1..] + [ch] + b;
      FirstIndexOfIsSeparator(a[1..], ch, b);
    } else {
      assert s[0] == ch;
    }
  }

  // ----- The identities a suite reaches -----

  /** The identities of the test cases of `s`, left to right. */
  function Leaves(s: Suite): seq<Test>
    decreases s, 1
  {
    match s
    case Case(id) => [id]
    case Composite(tests) => LeavesOf(tests)
  }

  function LeavesOf(tests: seq<Suite>): seq<Test>
    decreases tests, 0
  {
    if tests == [] then []
    else LeavesOf(tests[..|tests| - 1]) + Leaves(tests[|tests| - 1])
  }

  /** The identities in `ts`, as a set. */
  function Members(ts: seq<Test>): set<Test>
  {
    set t | t in ts
  }

  function Identities(s: Suite): set<Test>
  {
    Members(Leaves(s))
  }

  /** The identities of `ts` that are in `expected`, in their order. */
  function Kept(ts: seq<Test>, expected: set<Test>): seq<Test>
  {
    if ts == [] then []
    else Kept(ts[..|ts| - 1], expected) + (if ts[|ts| - 1] in expected then [ts[|ts| - 1]] else [])
  }

  function AsCases(ts: seq<Test>): (r: seq<Suite>)
    ensures |r| == |ts| && forall k :: 0 <= k < |ts| ==> r[k] == Case(ts[k])
  {
    seq(|ts|, k requires 0 <= k < |ts| => Case(ts[k]))
  }

  lemma {:induction false} KeptAppend(a: seq<Test>, b: seq<Test>, expected: set<Test>)
    ensures Kept(a + b, expected) == Kept(a, expected) + Kept(b, expected)
    decreases |b|
  {
    if b != [] {
      var b' := b[..|b| - 1];
      assert (a + b)[..|a + b| - 1] == a + b';
      KeptAppend(a, b', expected);
    } else {
      assert a + b == a;
    }
  }

  /** A test is kept exactly when it is a leaf and is expected. */
  lemma {:induction false} KeptMembers(ts: seq<Test>, expected: set<Test>, t: Test)
    ensures t in Kept(ts, expected) <==> t in ts && t in expected
  {
    if ts != [] {
      KeptMembers(ts[..|ts| - 1], expected, t);
      assert ts == ts[..|ts| - 1] + [ts[|ts| - 1]];
    }
  }

  /** With nothing expected, nothing is kept. */
  lemma {:induction false} KeptNone(ts: seq<Test>)
    ensures Kept(ts, {}) == []
  {
    if ts != [] {
      KeptNone(ts[..|ts| - 1]);
    }
  }

  /** When every leaf is expected, every leaf is kept, in order. */
  lemma {:induction false} KeptAll(ts: seq<Test>, expected: set<Test>)
    requires forall t :: t in ts ==> t in expected
    ensures Kept(ts, expected) == ts
  {
    if ts != [] {
      KeptAll(ts[..|ts| - 1], expected);
      assert ts == ts[..|ts| - 1] + [ts[|ts| - 1]];
    }
  }

  // ----- filter_out_tests -----

  /** The leaves of one more member: those of the member appended. */
  lemma LeavesOfStep(tests: seq<Suite>, k: nat, expected: set<Test>)
    requires k < |tests|
    ensures AsCases(Kept(LeavesOf(tests[..k + 1]), expected))
            == AsCases(Kept(LeavesOf(tests[..k]), expected)) + AsCases(Kept(Leaves(tests[k]), expected))
    ensures Members(LeavesOf(tests[..k + 1])) * expected
            == Members(LeavesOf(tests[..k])) * expected + Identities(tests[k]) * expected
  {
    assert tests[..k + 1][..k] == tests[..k];
    var before := LeavesOf(tests[..k]);
    assert LeavesOf(tests[..k + 1]) == before + Leaves(tests[k]);
    KeptAppend(before, Leaves(tests[k]), expected);
    AsCasesAppend(Kept(before, expected), Kept(Leaves(tests[k]), expected));
  }

  lemma AsCasesAppend(a: seq<Test>, b: seq<Test>)
    ensures AsCases(a + b) == AsCases(a) + AsCases(b)
  {
  }

  /** `filter_out_tests`: a flat suite of the leaves whose identity is expected,
      in their original order (a filtered member suite is added with
      `addTests`, which adds its members), and the set of those identities. */
  method FilterOutTests(suite: Suite, expected: set<Test>) returns (filtered: Suite, inscope: set<Test>)
    requires suite.Composite?
    ensures filtered == Composite(AsCases(Kept(Leaves(suite), expected)))
    ensures inscope == Identities(suite) * expected
    decreases suite, 1
  {
    var tests := suite.tests;
    var members: seq<Suite> := [];
    inscope := {};
    var k := 0;
    while k < |tests|
      invariant 0 <= k <= |tests|
      invariant members == AsCases(Kept(LeavesOf(tests[..k]), expected))
      invariant inscope == Members(LeavesOf(tests[..k])) * expected
    {
      var added, addedInscope := FilterMember(tests[k], expected);
      LeavesOfStep(tests, k, expected);
      members := members + added;
      inscope := inscope + addedInscope;
      k := k + 1;
    }
    assert tests[..k] == tests;
    filtered := Composite(members);
  }

  /** One iteration of `filter_out_tests`: the members a member of the suite
      contributes to the filtered suite, and the in-scope identities it adds. */
  method FilterMember(test: Suite, expected: set<Test>) returns (added: seq<Suite>, inscope: set<Test>)
    ensures added == AsCases(Kept(Leaves(test), expected))
    ensures inscope == Identities(test) * expected
    decreases test, 2
  {
    if test.Composite? {
      var sub, subInscope := FilterOutTests(test, expected);
      added, inscope := sub.tests, subInscope;
    } else {
      var testTest := test.id;
      assert Leaves(test) == [testTest];
      assert [testTest][..0] == [];
      if testTest in expected {
        added, inscope := [test], {testTest};
      } else {
        added, inscope := [], {};
      }
    }
  }

  /** The identities left in the filtered suite are exactly those reported as
      in scope: the suite's own identities that were expected. */
  lemma FilteredIdentities(suite: Suite, expected: set<Test>)
    ensures Members(Kept(Leaves(suite), expected)) == Identities(suite) * expected
  {
    forall t ensures t in Kept(Leaves(suite), expected) <==> t in Identities(suite) * expected {
      KeptMembers(Leaves(suite), expected, t);
    }
  }

  // ----- suite2paths -----

  predicate IsFlat(suite: Suite)
  {
    suite.Composite? && forall k :: 0 <= k < |suite.tests| ==> suite.tests[k].Case?
  }

  /** `suite2paths`: the source files of the suite's tests.  A member that is
      itself a suite raises `AttributeError` (a Python set has no `intersect`),
      and a bare test case is not iterable; both are `None`. */
  method SuiteToPaths(suite: Suite) returns (paths: Option<set<string>>)
    ensures paths.Some? <==> IsFlat(suite)
    ensures paths.Some? ==> paths.value == set t | t in Identities(suite) :: t.path
  {
    if suite.Case? {
      return None;
    }
    var tests := suite.tests;
    var found: set<string> := {};
    var k := 0;
    while k < |tests|
      invariant 0 <= k <= |tests|
      invariant forall j :: 0 <= j < k ==> tests[j].Case?
      invariant found == set j | 0 <= j < k :: tests[j].id.path
    {
      var test := tests[k];
      if test.Composite? {
        return None;
      }
      found := found + {test.id.path};
      k := k + 1;
    }
    FlatLeaves(tests);
    paths := Some(found);
  }

  /** The leaves of a sequence of test cases are their identities. */
  lemma {:induction false} FlatLeaves(tests: seq<Suite>)
    requires forall j :: 0 <= j < |tests| ==> tests[j].Case?
    ensures |LeavesOf(tests)| == |tests|
    ensures forall j :: 0 <= j < |tests| ==> LeavesOf(tests)[j] == tests[j].id
  {
    if tests != [] {
      FlatLeaves(tests[..|tests| - 1]);
    }
  }
}
