/**
  The line numbering of `changed_lines` (lemontest/__init__.py:26-35).

  `difflib.Differ` is not modelled: its output, one string per entry,
  each starting with a two-character code ("  ", "+ ", "- " or "? "),
  is the input.  The generator becomes a method that returns the whole
  sequence it would yield.
*/
module DiffLines {

  /** The characters for which Python's `str.isspace` holds. */
  predicate IsSpace(c: char)
  {
    c == ' ' || ('\t' <= c <= '\r') || ('\U{1c}' <= c <= '\U{1f}')
    || c == '\U{85}' || c == '\U{a0}' || c == '\U{1680}'
    || ('\U{2000}' <= c <= '\U{200a}') || c == '\U{2028}' || c == '\U{2029}'
    || c == '\U{202f}' || c == '\U{205f}' || c == '\U{3000}'
  }

  /** `s.lstrip()`: the longest suffix of `s` that does not start with whitespace. */
  function StripLeft(s: string): (r: string)
    ensures |r| <= |s| && r == s[|s| - |r|..]
    ensures r == [] || !IsSpace(r[0])
    ensures forall k :: 0 <= k < |s| - |r| ==> IsSpace(s[k])
  {
    if s != [] && IsSpace(s[0]) then StripLeft(s[1..]) else s
  }

  /** `s.rstrip()`: the longest prefix of `s` that does not end with whitespace. */
  function StripRight(s: string): (r: string)
    ensures |r| <= |s| && r == s[..|r|]
    ensures r == [] || !IsSpace(r[|r| - 1])
    ensures forall k :: |r| <= k < |s| ==> IsSpace(s[k])
  {
    if s != [] && IsSpace(s[|s| - 1]) then StripRight(s[..|s| - 1]) else s
  }

  /** `s.strip()`. */
  function Strip(s: string): (r: string)
    ensures |r| <= |s|
    ensures r == [] || (!IsSpace(r[0]) && !IsSpace(r[|r| - 1]))
    ensures r == [] <==> forall k :: 0 <= k < |s| ==> IsSpace(s[k])
  {
    StripRight(StripLeft(s))
  }

  /** `r` is the part of `s` that starts at `i`, and everything of `s` before
      and after it is whitespace. */
  ghost predicate StrippedAt(s: string, r: string, i: int)
  {
    0 <= i && i + |r| <= |s| && r == s[i..i + |r|]
    && (forall k :: 0 <= k < i ==> IsSpace(s[k]))
    && (forall k :: i + |r| <= k < |s| ==> IsSpace(s[k]))
  }

  /** `Strip(s)` is `s` with its leading and trailing whitespace removed:
      a slice of `s` with only whitespace around it and, by the contract of
      `Strip`, none at its own ends. */
  lemma StripIsInfix(s: string)
    ensures exists i :: StrippedAt(s, Strip(s), i)
  {
    var l := StripLeft(s);
    var r := Strip(s);
    var i := |s| - |l|;
    assert l == s[i..] && r == l[..|r|];
    forall k | i + |r| <= k < |s|
      ensures IsSpace(s[k])
    {
      assert s[k] == l[k - i];
    }
    assert StrippedAt(s, r, i);
  }

  /** `line[:2]`, the Differ code of an entry. */
  function Code(line: string): string
  {
    if |line| >= 2 then line[..2] else line
  }

  /** `line[2:]`, the text of an entry without its code. */
  function Text(line: string): string
  {
    if |line| >= 2 then line[2..] else []
  }

  /** An entry that is a line of the new text: unchanged ("  ") or added ("+ "). */
  predicate IsNewLine(line: string)
  {
    Code(line) == "  " || Code(line) == "+ "
  }

  predicate IsAdded(line: string)
  {
    Code(line) == "+ "
  }

  /** The value of `lineNum` after the loop has consumed `diffs`. */
  function LineCount(diffs: seq<string>): nat
  {
    if diffs == [] then 0
    else LineCount(diffs[..|diffs| - 1]) + (if IsNewLine(diffs[|diffs| - 1]) then 1 else 0)
  }

  /** What `changed_lines` yields for the Differ output `diffs`, in order. */
  function Added(diffs: seq<string>): seq<(nat, string)>
  {
    if diffs == [] then []
    else
      var last := diffs[|diffs| - 1];
      Added(diffs[..|diffs| - 1])
        + (if IsAdded(last) then [(LineCount(diffs), Strip(Text(last)))] else [])
  }

  /** The new text as the Differ output describes it: each of its lines,
      flagged with whether the line was added. */
  function NewText(diffs: seq<string>): seq<(bool, string)>
  {
    if diffs == [] then []
    else
      var last := diffs[|diffs| - 1];
      NewText(diffs[..|diffs| - 1])
        + (if IsNewLine(last) then [(IsAdded(last), Text(last))] else [])
  }

  /** The entries of `diffs` that are lines of the new text. */
  function NewLineEntries(diffs: seq<string>): seq<string>
  {
    if diffs == [] then []
    else
      NewLineEntries(diffs[..|diffs| - 1])
        + (if IsNewLine(diffs[|diffs| - 1]) then [diffs[|diffs| - 1]] else [])
  }

  /** `changed_lines` as a loop over the Differ output, with `lineNum` counting
      the lines of the new text seen so far. */
  method ChangedLines(diffs: seq<string>) returns (yielded: seq<(nat, string)>)
    ensures yielded == Added(diffs)
  {
    yielded := [];
    var lineNum: nat := 0;
    var i := 0;
    while i < |diffs|
      invariant 0 <= i <= |diffs|
      invariant lineNum == LineCount(diffs[..i])
      invariant yielded == Added(diffs[..i])
    {
      var line := diffs[i];
      ghost var seen := diffs[..i + 1];
      assert seen[..i] == diffs[..i] && seen[i] == line;
      var code := if |line| >= 2 then line[..2] else line;
      assert code == Code(line);
      if code == "  " || code == "+ " {
        lineNum := lineNum + 1;
      }
      assert lineNum == LineCount(seen);
      if code == "+ " {
        yielded := yielded + [(lineNum, Strip(if |line| >= 2 then line[2..] else []))];
      }
      assert yielded == Added(seen);
      i := i + 1;
    }
    assert diffs[..i] == diffs;
  }

  /** The counter counts exactly the lines of the new text. */
  lemma {:induction false} LineCountIsNewTextLength(diffs: seq<string>)
    ensures LineCount(diffs) == |NewText(diffs)|
  {
    if diffs != [] {
      LineCountIsNewTextLength(diffs[..|diffs| - 1]);
    }
  }

  /** The yielded numbers are positive, bounded by the number of lines of the
      new text, and strictly increasing. */
  lemma {:induction false} AddedNumbersIncreasing(diffs: seq<string>)
    ensures forall k :: 0 <= k < |Added(diffs)| ==> 1 <= Added(diffs)[k].0 <= LineCount(diffs)
    ensures forall j, k :: 0 <= j < k < |Added(diffs)| ==> Added(diffs)[j].0 < Added(diffs)[k].0
  {
    if diffs != [] {
      var init := diffs[..|diffs| - 1];
      AddedNumbersIncreasing(init);
      var a, b := Added(init), Added(diffs);
      assert b[..|a|] == a;
      assert LineCount(init) < LineCount(diffs) || b == a;
      forall k | 0 <= k < |b|
        ensures 1 <= b[k].0 <= LineCount(diffs)
      {
        if k < |a| { assert b[k] == a[k]; }
      }
      forall j, k | 0 <= j < k < |b|
        ensures b[j].0 < b[k].0
      {
        if k < |a| { assert b[j] == a[j] && b[k] == a[k]; }
        else { assert b[j] == a[j]; }
      }
    }
  }

  /** A pair is yielded exactly when it names an added line of the new text by
      its 1-based position, with that line's text stripped. */
  lemma {:induction false} AddedIffNumberedAddedLine(diffs: seq<string>, n: nat, c: string)
    ensures (n, c) in Added(diffs)
            <==> 1 <= n <= |NewText(diffs)| && NewText(diffs)[n - 1].0
                 && c == Strip(NewText(diffs)[n - 1].1)
  {
    if diffs != [] {
      var init := diffs[..|diffs| - 1];
      AddedIffNumberedAddedLine(init, n, c);
      LineCountIsNewTextLength(diffs);
      LineCountIsNewTextLength(init);
      if 1 <= n <= |NewText(init)| {
        assert NewText(diffs)[n - 1] == NewText(init)[n - 1];
      }
    }
  }

  /** Deleted ("- ") and hint ("? ") entries are not counted ... */
  lemma {:induction false} OnlyNewLinesCounted(diffs: seq<string>)
    ensures LineCount(NewLineEntries(diffs)) == LineCount(diffs)
  {
    if diffs != [] {
      var init := diffs[..|diffs| - 1];
      OnlyNewLinesCounted(init);
      var e := NewLineEntries(diffs);
      if IsNewLine(diffs[|diffs| - 1]) {
        assert e == NewLineEntries(init) + [diffs[|diffs| - 1]];
        assert e[..|e| - 1] == NewLineEntries(init) && IsNewLine(e[|e| - 1]);
        calc {
          LineCount(e);
          LineCount(NewLineEntries(init)) + 1;
          LineCount(init) + 1;
          LineCount(diffs);
        }
      } else {
        assert e == NewLineEntries(init);
      }
    }
  }

  /** ... and not yielded: dropping them changes nothing. */
  lemma {:induction false} OnlyNewLinesMatter(diffs: seq<string>)
    ensures Added(NewLineEntries(diffs)) == Added(diffs)
  {
    if diffs != [] {
      var init := diffs[..|diffs| - 1];
      var last := diffs[|diffs| - 1];
      OnlyNewLinesMatter(init);
      var e := NewLineEntries(diffs);
      if IsNewLine(last) {
        OnlyNewLinesCounted(diffs);
        assert e == NewLineEntries(init) + [last];
        assert e[..|e| - 1] == NewLineEntries(init) && e[|e| - 1] == last;
        var tail := if IsAdded(last) then [(LineCount(diffs), Strip(Text(last)))] else [];
        calc {
          Added(e);
          Added(NewLineEntries(init)) + tail;
          Added(init) + tail;
          Added(diffs);
        }
      } else {
        assert e == NewLineEntries(init) && !IsAdded(last);
      }
    }
  }
}
