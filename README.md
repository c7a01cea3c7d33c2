# lemontest, modelled in Dafny

lemontest is a unittest runner that looks for "lemon" tests: tests that were
changed on a branch but still pass once the branch's business logic (the
changed Python files that are not test files) has been reverted with
`git checkout`.  For this to work, a runner has to:

1. number the lines that a diff adds to a file (`changed_lines`);
2. find the enclosing class and method of each changed line of a test file,
   by walking the syntax tree with `LineNumberVisitor`
   (`get_changed_tests`);
3. revert the business logic files and filter the suite down to the
   selected tests (`LemonTestRunner.run`, `filter_out_tests`, `suite2paths`);
4. run the suite with a result class that swaps failure and success
   (`LemonTestResult`).

The project has one module per concern:

- `DiffLines` (diff_lines.dfy): `changed_lines` over the output of
  `difflib.Differ`, given as its lines (`"  "`, `"+ "`, `"- "` or `"? "`
  followed by text).
- `Syntax` (syntax.dfy): a syntax tree as a sequence of nodes. A node's id is
  its index, the module is node 0, and a child always has a larger id than
  its parent. Also in this module:
  - the `.parent` attributes, as a map from child id to parent id;
  - `get_class_name` and `get_class_and_method_name`, as walks up that map;
  - `Resolve`, a top-down reference definition of the pairs a visit records.
- `Visitor` (visitor.dfy): the parsed module as an object whose parent map is
  updated in place, and `LineNumberVisitor` as a class. A visit is proved to
  record exactly `Resolve`.
- `Suites` (suites.dfy): the identity `Test`, suites as trees of cases,
  `filter_out_tests` and `suite2paths`.
- `Results` (result.dfy): `LemonTestResult` as a class with unittest's
  `failures`, `errors`, `shouldStop` and `_mirrorOutput` fields.
- `Selection` (selection.dfy) holds four parts:
  - `paths_that_changed`;
  - `get_changed_tests`, with the `asts_by_path` cache;
  - the sorted list of business logic files;
  - steps 1 to 4 of `LemonTestRunner.run`, with every `git checkout` recorded.

Git, the file system and the parser are not called. The model takes their
results as inputs:
- the changed lines, as a sequence of (path, line number) pairs in the order
  git yields them;
- the parsed test files, as a map from path to tree. A path missing from the
  map is a file that cannot be opened or parsed.
- each test's source path, class and method name.

Four behaviours of the source that a reader may not expect:
- `filter_out_tests` does not keep the nesting of the suite.
  `addTests(sub_suite)` adds the members of the filtered sub-suite, so the
  result is one flat suite of the kept cases, in suite order.
- `changed_lines` yields only the lines that the diff marks as added (`"+ "`).
  Unchanged lines are counted but not yielded.
- `suite2paths` on a suite that holds another suite calls `set.intersect`,
  which does not exist, so it raises `AttributeError`. The model returns
  `None` there, and `Select` then returns `None` before anything is checked
  out.
- `paths_that_changed` is built from the same walk as the changed lines. So it
  holds only the files with at least one added line. A business logic file
  that only lost lines is not reverted.

## Model

| member | source | states |
|---|---|---|
| DiffLines.StripLeft | lemontest/__init__.py:35 | the result is a suffix of the input; every removed character is Python whitespace; the result does not start with whitespace |
| DiffLines.StripRight | lemontest/__init__.py:35 | the result is a prefix of the input; every removed character is Python whitespace; the result does not end with whitespace |
| DiffLines.Strip | lemontest/__init__.py:35 | `str.strip()`: the result is no longer than the input, neither starts nor ends with whitespace, and is empty iff the input is all whitespace |
| DiffLines.StripIsInfix | lemontest/__init__.py:35 | `str.strip()` returns the input with its leading and trailing whitespace removed: a slice of the input with only whitespace before and after it |
| DiffLines.ChangedLines | lemontest/__init__.py:26-35 | the loop yields exactly `Added(diffs)`: each added line, stripped, with its 1-based number in the new file |
| DiffLines.LineCountIsNewTextLength | lemontest/__init__.py:29-33 | the counter is the number of lines of the new file, which are the unchanged and added lines |
| DiffLines.AddedNumbersIncreasing | lemontest/__init__.py:29-35 | every yielded number is between 1 and the number of new lines; the numbers are strictly increasing, so no line is yielded twice |
| DiffLines.AddedIffNumberedAddedLine | lemontest/__init__.py:26-35 | (n, text) is yielded iff line n of the new file is an added line whose stripped text is `text` |
| DiffLines.OnlyNewLinesCounted | lemontest/__init__.py:31-33 | removed lines and `?` hint lines do not move the counter |
| DiffLines.OnlyNewLinesMatter | lemontest/__init__.py:31-35 | removing the `"- "` and `"? "` lines from the diff changes nothing that is yielded |
| Syntax.GetClassName | lemontest/__init__.py:85-89 | `get_class_name` as a walk up the parent map; `None` is the `AttributeError` off the root. Its meaning is stated by `ClassNameIsNearestClass` |
| Syntax.GetClassAndMethodName | lemontest/__init__.py:92-96 | `get_class_and_method_name` as a walk up the parent map; its meaning is stated by `ResolutionIsNearestDefinitions` |
| Syntax.ClassNameIsNearestClass | lemontest/__init__.py:85-89 | `get_class_name` returns c iff the nearest class definition on the parent chain (the node included) is named c; it fails when there is none |
| Syntax.ClassNameSound | lemontest/__init__.py:85-89 | a name that `get_class_name` returns is that of the nearest class definition at or above the node |
| Syntax.ClassNameComplete | lemontest/__init__.py:85-89 | the nearest class definition at or above the node is what `get_class_name` returns |
| Syntax.ResolutionSound | lemontest/__init__.py:92-96 | when `get_class_and_method_name` returns (c, m), m is the nearest function definition on the chain and c is the nearest class definition above it |
| Syntax.ResolutionComplete | lemontest/__init__.py:92-96 | when the nearest function definition is m and the nearest class definition above it is c, the walk returns (c, m) |
| Syntax.ResolutionIsNearestDefinitions | lemontest/__init__.py:85-96 | both directions together: the walk returns (c, m) iff m is the nearest enclosing function and c is the nearest class that encloses it |
| Syntax.WalksReadOnlyBelow | lemontest/__init__.py:85-96 | the two walks from a node read only the parents of that node and its ancestors, all with smaller ids; changing other entries does not change the results |
| Syntax.Resolve | lemontest/__init__.py:106-119 | the pairs a visit records, defined top-down: a node on a recorded line contributes its resolution and hides its subtree. `Visit` is proved to record exactly this set |
| Syntax.NoLinesNoPairs | lemontest/__init__.py:106-119 | a visitor with no line numbers to record records nothing |
| Syntax.NoClassNoPairs | lemontest/__init__.py:110-117 | in a module with no class definition nothing is recorded, because `get_class_name` fails on every path |
| Syntax.RecordParent | lemontest/__init__.py:70-76 | setting a child's `.parent` to the node being visited keeps every recorded parent true, changes nothing at the node or its ancestors, and gives the walks from the child the context of the node entered through the child's kind |
| Visitor.ParsedModule.constructor | lemontest/__init__.py:314-315 | a freshly parsed module has no `.parent` attributes yet |
| Visitor.LineNumberVisitor.constructor | lemontest/__init__.py:106-108 | the visitor keeps the given line numbers and starts with an empty `class_methods` |
| Visitor.LineNumberVisitor.Visit | lemontest/__init__.py:62-82 | visiting a parsed module adds exactly `Resolve(tree, record_linenos)` to `class_methods`, and the parents it sets are the true ones |
| Visitor.LineNumberVisitor.GenericVisit | lemontest/__init__.py:110-119 | a node whose line is recorded adds its resolved (class, method) pair, if it has one, and is not descended into; any other node is descended into. The result is `Collect` of the node's subtree |
| Visitor.LineNumberVisitor.RecordParentsAndVisit | lemontest/__init__.py:67-82 | each child's `.parent` is set to the node before the child is visited; the visit adds the union of the children's subtrees' pairs and changes no parent of the node or its ancestors |
| Suites.TestToString | lemontest/__init__.py:294-295 | `Test.__str__`, `path:class.method`; `TestStringRoundTrip` states that it determines the identity |
| Suites.TestStringRoundTrip | lemontest/__init__.py:291-295 | `str(Test)` is `path:class.method`, and it can be parsed back into the same identity when the class name has no `:` or `.` and the method name has no `:` |
| Suites.KeptAppend | lemontest/__init__.py:275-285 | filtering a concatenation is the concatenation of the filtered parts, which is why the flattened filtering of sub-suites keeps suite order |
| Suites.KeptMembers | lemontest/__init__.py:283-285 | a test is kept iff it is in the suite and among the expected tests |
| Suites.KeptNone | lemontest/__init__.py:266-288 | with no expected tests the filtered suite is empty |
| Suites.KeptAll | lemontest/__init__.py:266-288 | when every test is expected, the filtered suite is every case of the suite, in order |
| Suites.FilterOutTests | lemontest/__init__.py:266-288 | the filtered suite is one flat suite of the expected cases in suite order; the in-scope set is the suite's identities that are expected |
| Suites.FilterMember | lemontest/__init__.py:275-285 | one member of the suite contributes its own filtered members when it is a suite, and itself when it is an expected case, plus the in-scope identities among its leaves |
| Suites.FilteredIdentities | lemontest/__init__.py:282-285 | the identities left in the filtered suite are exactly the in-scope tests |
| Suites.SuiteToPaths | lemontest/__init__.py:254-263 | a suite of test cases only gives the set of their source paths; a suite holding a sub-suite fails |
| Suites.FlatLeaves | lemontest/__init__.py:257-262 | the cases of a suite with no sub-suites are its members, in order |
| Results.LemonTestResult.constructor | lemontest/__init__.py:126-142 | a new result has no failures and no errors, and is not stopping |
| Results.LemonTestResult.WasSuccessful | lemontest/__init__.py:239 | `wasSuccessful()`: no failures and no errors recorded; `UnsuccessfulIffSomeTestPassed` and `RunVerdict` state what that means for a lemon run |
| Results.LemonTestResult.AddError | lemontest/__init__.py:132-134 | an error records nothing, and stops the run when failfast is set |
| Results.LemonTestResult.AddFailure | lemontest/__init__.py:136-138 | a failure records nothing, and stops the run when failfast is set |
| Results.LemonTestResult.AddSuccess | lemontest/__init__.py:140-142 | a passing test is appended to `failures` with an empty message, and output mirroring is turned on |
| Results.LemonTestResult.Report | lemontest/__init__.py:132-142 | after reporting a sequence of outcomes, `failures` holds exactly the passing tests in order, and the run stops iff failfast is set and some test did not pass |
| Results.PassedEntriesAreThePasses | lemontest/__init__.py:140-141 | an entry is in the recorded failures iff it is a passing test with an empty message |
| Results.UnsuccessfulIffSomeTestPassed | lemontest/__init__.py:126-142 | no failure is recorded iff no test passed |
| Results.RunVerdict | lemontest/__init__.py:238-239 | over outcomes that are each a pass, a failure or an error, the run is successful iff no test passed, so the lemon message is printed iff some selected test passes with the business logic reverted |
| Selection.PathsThatChanged | lemontest/__init__.py:298-299 | `paths_that_changed`: the paths of the changed lines; `CheckoutsAreChangedNonTestFiles` states what is reverted from it |
| Selection.ExpectedTests | lemontest/__init__.py:302-323 | what `get_changed_tests` returns, line by line; `ExpectedTestsAreResolvedLines` and `ExpectedTestsNoneIff` state its meaning |
| Selection.AddTests | lemontest/__init__.py:320-321 | every recorded (class, method) pair becomes a `Test` of the file, and nothing else is added |
| Selection.VisitLine | lemontest/__init__.py:317-321 | one changed line of a test file adds exactly the tests of that file that the line resolves to, and the tree stays valid for the next visit |
| Selection.GetChangedTests | lemontest/__init__.py:302-323 | the result is `ExpectedTests`; the files parsed are distinct and are changed test files, and on success they are exactly the changed `.py` test files, so each is parsed once |
| Selection.ExpectedTestsNoneIff | lemontest/__init__.py:309-315 | `get_changed_tests` raises iff some changed line lies in a `.py` test file that cannot be parsed |
| Selection.ChangedTestFilesAreTheTestFilesChanged | lemontest/__init__.py:309-315 | the files the loop has to parse are exactly the `.py` test files with at least one changed line |
| Selection.ExpectedTestsFailureStays | lemontest/__init__.py:311-314 | once a test file fails to parse, the whole call fails |
| Selection.ExpectedTestsAreResolvedLines | lemontest/__init__.py:309-321 | a test is selected iff some changed line of its `.py` test file resolves to its class and method in that file |
| Selection.BeforeIrreflexive | lemontest/__init__.py:202 | the string order that `sorted` uses is irreflexive |
| Selection.BeforeTransitive | lemontest/__init__.py:202 | that order is transitive |
| Selection.BeforeTotal | lemontest/__init__.py:202 | that order is total |
| Selection.LeastExists | lemontest/__init__.py:202 | every non-empty set of paths has a least element |
| Selection.LeastUnique | lemontest/__init__.py:202 | that least element is unique |
| Selection.Sorted | lemontest/__init__.py:202 | `sorted` of a set lists exactly its elements, in strictly increasing order |
| Selection.BusinessLogicPaths | lemontest/__init__.py:199-202 | the changed `.py` files minus the test paths, which `sorted` orders for step 3 |
| Selection.CheckoutsAreChangedNonTestFiles | lemontest/__init__.py:199-206 | step 3 runs `git checkout <revision> <path>` iff the revision is `to_branch` and the path is a changed `.py` file outside the test paths; so no test file is reverted |
| Selection.LemonTestRunner.constructor | lemontest/__init__.py:148-152 | a runner keeps its two branches and starts with no expected tests and no checkouts |
| Selection.LemonTestRunner.Select | lemontest/__init__.py:187-209 | at a verbosity below 3, `run` fails before any checkout, leaving `expected_tests` as it was, iff the suite is nested or a changed test file cannot be parsed; otherwise it checks out every business logic file from `to_branch` in sorted order and returns the filtered suite and the in-scope tests |

## Left out

- Git is not modelled. This covers `file_lines_that_changed` (lemontest/__init__.py:38-53), with the `'M'` change-type filter and blob decoding, and `merge_and_checkout` (:160-185). The changed lines are an input, and a checkout is recorded as a (revision, path) pair.
- `difflib.Differ`'s alignment of the two texts is not modelled; its output lines are the input of `ChangedLines`. So is splitting the two texts on newlines.
- `ast.parse`, opening the file and `inspect.getsourcefile` are not modelled. A parse failure is a path missing from the parsed map. A test's path, class and method name are inputs.
- The syntax tree keeps only what the visitor looks at: class and function definitions with their names, `lineno`, and child order. Python shares some child nodes (such as `Load()`) between parents; the model allows a node to be listed under several parents, and, as in Python, each visit overwrites its `parent` with the node being visited.
- The `try/except AttributeError` around setting `.parent` (:72-81) is not modelled; every node in the model accepts the attribute.
- The diagnostics written to the stream after step 4, the verbosity printing, and the lemon message (:188-190, :195-197, :212-249) are not modelled. Neither is logging.
- Selection.LemonTestRunner.Select: models a verbosity below 3. At verbosity 3 or more, the print at :197 joins `sorted(self.expected_tests)`, whose items are `Test` tuples and not strings, so `str.join` raises `TypeError` and `run` stops before step 2 whenever at least one test is selected. Django's `DiscoverRunner` passes its own verbosity to the runner that djangorunner.py:71-75 sets up, so `-v 3` reaches this.
- Results.LemonTestResult.WasSuccessful: reads only `failures` and `errors`. unittest's `wasSuccessful` also requires `unexpectedSuccesses` to be empty; that list, filled by `addUnexpectedSuccess` for an `@expectedFailure` test that passes, is not modelled.
- Results.LemonTestResult.Report: models only the `add*` callbacks. unittest's `startTest` and `stopTest`, which reset `_mirrorOutput` to false around every test, are not modelled, so the `mirrorOutput` clause describes the flag as the callbacks leave it, not its value after a whole run.
- Results.RunVerdict: does not model unittest's `TestSuite.run` loop, which stops calling tests once `shouldStop` is set. It also does not model subtests: `LemonTestResult` keeps unittest's `addSubTest`, which records a failed or erroring subtest in `failures` or `errors`, so such a subtest makes `wasSuccessful()` false and prints the lemon message although no test passed. Nor does it model `unexpectedSuccesses`, the third list `wasSuccessful` reads besides `failures` and `errors`. The verdict is stated over outcomes that are each a pass, a failure or an error.
- Suites.FilterOutTests: requires a suite (a `Composite`), as `filter_out_tests` iterates its argument. The class of each filtered suite (`type(suite)()`) is not modelled; every suite is a `Composite`.
- Suites: the `str(test)` fallback for a case without `_testMethodName` (:280) is not modelled; every case has a method name.
- The runner's `os.chdir` into the working tree (:156) and its `repo` and `original_from_branch` fields are not modelled; paths are compared as given.
- The Django runner (djangorunner.py) and the packaging script (setup.py) are not modelled. Step 5 of `run` is an empty TODO in the source.
