/**
  The syntax tree of a test module and the upward resolution of a node to
  its enclosing test class and test method (lemontest/__init__.py:85-96).

  `ast.parse` is not modelled: a parsed module is given as a sequence of
  nodes.  A node's id is its position; the `Module` root is node 0 and
  every child has a larger id than its parent, which is how a traversal
  from the root can number any tree.  The `parent` attributes that the
  visitor assigns become an explicit map from a node id to its parent's id.
*/
module Syntax {
  import opened Wrappers

  /** The node classes the resolution tells apart; every other class is
      `OtherNode` (an `AsyncFunctionDef` among them, as `isinstance` against
      `ast.FunctionDef` does not match it). */
  datatype Kind = ModuleNode | ClassDef(name: string) | FunctionDef(name: string) | OtherNode

  /** A node: its class, its `lineno` attribute if it has one, and the ids of
      its child nodes in field order. */
  datatype Node = Node(kind: Kind, lineno: Option<int>, children: seq<nat>)

  /** Node 0 is the root and children are numbered after their parent. */
  predicate WellFormed(nodes: seq<Node>)
  {
    |nodes| > 0
    && forall i, c :: 0 <= i < |nodes| && c in nodes[i].children ==> i < c < |nodes|
  }

  /** A parent map whose every entry points to a smaller id, so that walking up
      it ends. */
  predicate Ranked(parent: map<nat, nat>)
  {
    forall x :: x in parent ==> parent[x] < x
  }

  /** Every recorded parent is a node that really has `x` among its children. */
  ghost predicate Truthful(nodes: seq<Node>, parent: map<nat, nat>)
  {
    forall x :: x in parent ==> parent[x] < x && parent[x] < |nodes| && x in nodes[parent[x]].children
  }

  /** `p1` and `p2` record the same parents for every id up to `x`. */
  ghost predicate AgreeUpTo(p1: map<nat, nat>, p2: map<nat, nat>, x: nat)
  {
    forall k :: 0 <= k <= x ==> (k in p1 <==> k in p2) && (k in p1 ==> p1[k] == p2[k])
  }

  /** `get_class_name`: the name of the nearest `ClassDef` at or above `x`;
      `None` when the walk runs off the root (the `AttributeError` raised by
      reading `parent` on a node that has none). */
  function GetClassName(nodes: seq<Node>, parent: map<nat, nat>, x: nat): Option<string>
    requires x < |nodes| && Ranked(parent)
    decreases x
  {
    if nodes[x].kind.ClassDef? then Some(nodes[x].kind.name)
    else if x in parent then GetClassName(nodes, parent, parent[x])
    else None
  }

  /** `get_class_and_method_name`: from the nearest `FunctionDef` at or above
      `x`, the name of the nearest `ClassDef` above it and its own name;
      `None` when either walk runs off the root. */
  function GetClassAndMethodName(nodes: seq<Node>, parent: map<nat, nat>, x: nat): Option<(string, string)>
    requires x < |nodes| && Ranked(parent)
    decreases x
  {
    if nodes[x].kind.FunctionDef? then
      match GetClassName(nodes, parent, x)
      case Some(c) => Some((c, nodes[x].kind.name))
      case None => None
    else if x in parent then GetClassAndMethodName(nodes, parent, parent[x])
    else None
  }

  /** The ids met by walking up from `x`: `x`, its parent, ..., the first id
      that has no parent. */
  function Ancestry(parent: map<nat, nat>, x: nat): (chain: seq<nat>)
    requires Ranked(parent)
    ensures |chain| > 0 && chain[0] == x
    decreases x
  {
    [x] + (if x in parent then Ancestry(parent, parent[x]) else [])
  }

  function KindOf(nodes: seq<Node>, id: nat): Kind
  {
    if id < |nodes| then nodes[id].kind else OtherNode
  }

  /** `chain[k]`, after position `after`, is a class named `c`, and no class
      comes between them. */
  ghost predicate NearestClassAfter(nodes: seq<Node>, chain: seq<nat>, after: int, k: int, c: string)
  {
    -1 <= after < k < |chain| && KindOf(nodes, chain[k]) == ClassDef(c)
    && forall q :: after < q < k ==> !KindOf(nodes, chain[q]).ClassDef?
  }

  /** `chain[j]` is a function named `m` and no function comes before it. */
  ghost predicate NearestFunction(nodes: seq<Node>, chain: seq<nat>, j: int, m: string)
  {
    0 <= j < |chain| && KindOf(nodes, chain[j]) == FunctionDef(m)
    && forall q :: 0 <= q < j ==> !KindOf(nodes, chain[q]).FunctionDef?
  }

  /** `get_class_name` finds exactly the nearest class on the way up. */
  lemma ClassNameIsNearestClass(nodes: seq<Node>, parent: map<nat, nat>, x: nat, c: string)
    requires x < |nodes| && Ranked(parent)
    ensures GetClassName(nodes, parent, x) == Some(c)
            <==> exists k :: NearestClassAfter(nodes, Ancestry(parent, x), -1, k, c)
  {
    if GetClassName(nodes, parent, x) == Some(c) {
      ClassNameSound(nodes, parent, x, c);
    }
    if k :| NearestClassAfter(nodes, Ancestry(parent, x), -1, k, c) {
      ClassNameComplete(nodes, parent, x, k, c);
    }
  }

  /** A name that `get_class_name` returns is that of the nearest class on the
      way up. */
  lemma {:induction false} ClassNameSound(nodes: seq<Node>, parent: map<nat, nat>, x: nat, c: string)
    requires x < |nodes| && Ranked(parent)
    requires GetClassName(nodes, parent, x) == Some(c)
    ensures exists k :: NearestClassAfter(nodes, Ancestry(parent, x), -1, k, c)
    decreases x
  {
    var chain := Ancestry(parent, x);
    if nodes[x].kind.ClassDef? {
      assert NearestClassAfter(nodes, chain, -1, 0, c);
    } else {
      var rest := Ancestry(parent, parent[x]);
      AncestryStep(parent, x);
      ClassNameSound(nodes, parent, parent[x], c);
      var k :| NearestClassAfter(nodes, rest, -1, k, c);
      ShiftClass(nodes, chain, rest, -1, k, c);
      assert NearestClassAfter(nodes, chain, -1, k + 1, c);
    }
  }

  /** Conversely, the nearest class on the way up is what `get_class_name`
      returns. */
  lemma {:induction false} ClassNameComplete(nodes: seq<Node>, parent: map<nat, nat>, x: nat, k: int, c: string)
    requires x < |nodes| && Ranked(parent)
    requires NearestClassAfter(nodes, Ancestry(parent, x), -1, k, c)
    ensures GetClassName(nodes, parent, x) == Some(c)
    decreases x
  {
    var chain := Ancestry(parent, x);
    if nodes[x].kind.ClassDef? {
      assert KindOf(nodes, chain[0]).ClassDef?;
      assert k == 0;
    } else if x !in parent {
      assert false;
    } else {
      var rest := Ancestry(parent, parent[x]);
      AncestryStep(parent, x);
      assert KindOf(nodes, chain[0]) == nodes[x].kind;
      ShiftClass(nodes, chain, rest, -1, k - 1, c);
      ClassNameComplete(nodes, parent, parent[x], k - 1, c);
    }
  }

  /** `chain` is `rest` with one more id in front. */
  ghost predicate OneAbove(chain: seq<nat>, rest: seq<nat>)
  {
    |chain| == |rest| + 1 && forall q :: 0 <= q < |rest| ==> chain[q + 1] == rest[q]
  }

  lemma AncestryStep(parent: map<nat, nat>, x: nat)
    requires Ranked(parent) && x in parent
    ensures OneAbove(Ancestry(parent, x), Ancestry(parent, parent[x]))
  {
    assert Ancestry(parent, x) == [x] + Ancestry(parent, parent[x]);
  }

  /** Searching for a class one position further up the longer chain is the
      same search on the shorter one. */
  lemma ShiftClass(nodes: seq<Node>, chain: seq<nat>, rest: seq<nat>, after: int, k: int, c: string)
    requires OneAbove(chain, rest) && after >= -1
    ensures NearestClassAfter(nodes, chain, after + 1, k + 1, c) <==> NearestClassAfter(nodes, rest, after, k, c)
  {
    if NearestClassAfter(nodes, rest, after, k, c) {
      forall q | after + 1 < q < k + 1 ensures !KindOf(nodes, chain[q]).ClassDef? {
        assert chain[q] == rest[q - 1];
      }
    }
    if NearestClassAfter(nodes, chain, after + 1, k + 1, c) {
      forall q | after < q < k ensures !KindOf(nodes, rest[q]).ClassDef? {
        assert rest[q] == chain[q + 1];
      }
    }
  }

  /** When the first id is not a function, the nearest function is the one of
      the shorter chain, one position further up. */
  lemma ShiftFunction(nodes: seq<Node>, chain: seq<nat>, rest: seq<nat>, j: int, m: string)
    requires OneAbove(chain, rest) && !KindOf(nodes, chain[0]).FunctionDef?
    ensures NearestFunction(nodes, chain, j, m) <==> j > 0 && NearestFunction(nodes, rest, j - 1, m)
  {
    if j > 0 && NearestFunction(nodes, rest, j - 1, m) {
      forall q | 0 <= q < j ensures !KindOf(nodes, chain[q]).FunctionDef? {
        if q > 0 { assert chain[q] == rest[q - 1]; }
      }
    }
    if NearestFunction(nodes, chain, j, m) {
      forall q | 0 <= q < j - 1 ensures !KindOf(nodes, rest[q]).FunctionDef? {
        assert rest[q] == chain[q + 1];
      }
    }
  }

  /** A pair that resolution returns names the nearest function at or above
      the node and the nearest class above that function. */
  lemma {:induction false} ResolutionSound(nodes: seq<Node>, parent: map<nat, nat>, x: nat, c: string, m: string)
    requires x < |nodes| && Ranked(parent)
    requires GetClassAndMethodName(nodes, parent, x) == Some((c, m))
    ensures exists j, k :: NearestFunction(nodes, Ancestry(parent, x), j, m)
                           && NearestClassAfter(nodes, Ancestry(parent, x), j, k, c)
    decreases x
  {
    var chain := Ancestry(parent, x);
    var rest := Ancestry(parent, parent[x]);
    AncestryStep(parent, x);
    if nodes[x].kind.FunctionDef? {
      ClassNameSound(nodes, parent, parent[x], c);
      var k :| NearestClassAfter(nodes, rest, -1, k, c);
      ShiftClass(nodes, chain, rest, -1, k, c);
      assert NearestFunction(nodes, chain, 0, m);
    } else {
      ResolutionSound(nodes, parent, parent[x], c, m);
      var j, k :| NearestFunction(nodes, rest, j, m) && NearestClassAfter(nodes, rest, j, k, c);
      ShiftFunction(nodes, chain, rest, j + 1, m);
      ShiftClass(nodes, chain, rest, j, k, c);
    }
  }

  /** Conversely, whenever such a function and class exist on the way up,
      resolution returns their names. */
  lemma {:induction false} ResolutionComplete(nodes: seq<Node>, parent: map<nat, nat>, x: nat, j: int, k: int, c: string, m: string)
    requires x < |nodes| && Ranked(parent)
    requires NearestFunction(nodes, Ancestry(parent, x), j, m)
    requires NearestClassAfter(nodes, Ancestry(parent, x), j, k, c)
    ensures GetClassAndMethodName(nodes, parent, x) == Some((c, m))
    decreases x
  {
    var chain := Ancestry(parent, x);
    if x !in parent {
      assert false;
    } else {
      var rest := Ancestry(parent, parent[x]);
      AncestryStep(parent, x);
      if nodes[x].kind.FunctionDef? {
        assert j == 0 && chain[0] == x && nodes[x].kind == FunctionDef(m);
        ShiftClass(nodes, chain, rest, -1, k - 1, c);
        ClassNameComplete(nodes, parent, parent[x], k - 1, c);
      } else {
        ShiftFunction(nodes, chain, rest, j, m);
        ShiftClass(nodes, chain, rest, j - 1, k - 1, c);
        ResolutionComplete(nodes, parent, parent[x], j - 1, k - 1, c, m);
      }
    }
  }

  /** Resolution returns `(c, m)` exactly when `m` names the nearest function
      at or above the node and `c` the nearest class above that function;
      when there is no such pair it returns `None` (the line is a miss). */
  lemma ResolutionIsNearestDefinitions(nodes: seq<Node>, parent: map<nat, nat>, x: nat, c: string, m: string)
    requires x < |nodes| && Ranked(parent)
    ensures GetClassAndMethodName(nodes, parent, x) == Some((c, m))
            <==> exists j, k :: NearestFunction(nodes, Ancestry(parent, x), j, m)
                                && NearestClassAfter(nodes, Ancestry(parent, x), j, k, c)
  {
    if GetClassAndMethodName(nodes, parent, x) == Some((c, m)) {
      ResolutionSound(nodes, parent, x, c, m);
    }
    if j, k :| NearestFunction(nodes, Ancestry(parent, x), j, m)
               && NearestClassAfter(nodes, Ancestry(parent, x), j, k, c) {
      ResolutionComplete(nodes, parent, x, j, k, c, m);
    }
  }

  /** The walks from `x` read the parent map only at ids up to `x`. */
  lemma {:induction false} WalksReadOnlyBelow(nodes: seq<Node>, p1: map<nat, nat>, p2: map<nat, nat>, x: nat)
    requires x < |nodes| && Ranked(p1) && Ranked(p2) && AgreeUpTo(p1, p2, x)
    ensures GetClassName(nodes, p1, x) == GetClassName(nodes, p2, x)
    ensures GetClassAndMethodName(nodes, p1, x) == GetClassAndMethodName(nodes, p2, x)
    decreases x
  {
    if x in p1 {
      WalksReadOnlyBelow(nodes, p1, p2, p1[x]);
    }
  }

  /** `p1` agrees with `p3` up to `x` when it agrees with `p2` that far and
      `p2` agrees with `p3` that far. */
  lemma AgreeUpToTrans(p1: map<nat, nat>, p2: map<nat, nat>, p3: map<nat, nat>, x: nat, y: nat)
    requires x <= y && AgreeUpTo(p1, p2, y) && AgreeUpTo(p2, p3, x)
    ensures AgreeUpTo(p1, p3, x)
  {
  }

  // ----- The same resolution computed top-down, as a reference -----

  /** What the two walks return at a node, as seen from above:
      `klass` is the nearest class at or above it, `resolved` the pair
      resolution yields there. */
  datatype Context = Context(klass: Option<string>, resolved: Option<(string, string)>)

  /** The context of a node of kind `kind` whose parent has context `outer`. */
  function Enter(outer: Context, kind: Kind): Context
  {
    match kind
    case ClassDef(n) => Context(Some(n), outer.resolved)
    case FunctionDef(n) =>
      Context(outer.klass, if outer.klass.Some? then Some((outer.klass.value, n)) else None)
    case _ => outer
  }

  /** The context above the root: both walks have run off the tree. */
  const Outside := Context(None, None)

  predicate Matches(node: Node, lines: set<int>)
  {
    node.lineno.Some? && node.lineno.value in lines
  }

  /** The pairs recorded for the subtree at `i` (context `ctx`): a node on one of
      `lines` contributes its resolution, if any, and hides its subtree;
      any other node contributes what its children do. */
  function Collect(nodes: seq<Node>, i: nat, ctx: Context, lines: set<int>): set<(string, string)>
    requires WellFormed(nodes) && i < |nodes|
    decreases |nodes| - i, 1, 0
  {
    if Matches(nodes[i], lines) then
      (if ctx.resolved.Some? then {ctx.resolved.value} else {})
    else CollectChildren(nodes, i, |nodes[i].children|, ctx, lines)
  }

  /** What the first `k` children of node `i` contribute. */
  function CollectChildren(nodes: seq<Node>, i: nat, k: nat, ctx: Context, lines: set<int>): set<(string, string)>
    requires WellFormed(nodes) && i < |nodes| && k <= |nodes[i].children|
    decreases |nodes| - i, 0, k
  {
    if k == 0 then {}
    else
      var c := nodes[i].children[k - 1];
      assert c in nodes[i].children;
      CollectChildren(nodes, i, k - 1, ctx, lines) + Collect(nodes, c, Enter(ctx, nodes[c].kind), lines)
  }

  /** The (class, method) pairs that a `LineNumberVisitor` for `lines` records
      on the module `nodes`. */
  function Resolve(nodes: seq<Node>, lines: set<int>): set<(string, string)>
    requires WellFormed(nodes)
  {
    Collect(nodes, 0, Enter(Outside, nodes[0].kind), lines)
  }

  /** With no line to look for, nothing is recorded. */
  lemma {:induction false} NoLinesNoPairs(nodes: seq<Node>, i: nat, ctx: Context)
    requires WellFormed(nodes) && i < |nodes|
    ensures Collect(nodes, i, ctx, {}) == {}
    decreases |nodes| - i, 1
  {
    NoLinesNoPairsChildren(nodes, i, |nodes[i].children|, ctx);
  }

  lemma {:induction false} NoLinesNoPairsChildren(nodes: seq<Node>, i: nat, k: nat, ctx: Context)
    requires WellFormed(nodes) && i < |nodes| && k <= |nodes[i].children|
    ensures CollectChildren(nodes, i, k, ctx, {}) == {}
    decreases |nodes| - i, 0, k
  {
    if k > 0 {
      var c := nodes[i].children[k - 1];
      assert c in nodes[i].children;
      NoLinesNoPairsChildren(nodes, i, k - 1, ctx);
      NoLinesNoPairs(nodes, c, Enter(ctx, nodes[c].kind));
    }
  }

  /** A pair is only ever recorded for a method inside a class: in a module
      with no class definition, every recorded line is a miss. */
  lemma {:induction false} NoClassNoPairs(nodes: seq<Node>, i: nat, ctx: Context, lines: set<int>)
    requires WellFormed(nodes) && i < |nodes|
    requires ctx.resolved.None? && ctx.klass.None?
    requires forall n :: 0 <= n < |nodes| ==> !nodes[n].kind.ClassDef?
    ensures Collect(nodes, i, ctx, lines) == {}
    decreases |nodes| - i, 1
  {
    if !Matches(nodes[i], lines) {
      NoClassNoPairsChildren(nodes, i, |nodes[i].children|, ctx, lines);
    }
  }

  lemma {:induction false} NoClassNoPairsChildren(nodes: seq<Node>, i: nat, k: nat, ctx: Context, lines: set<int>)
    requires WellFormed(nodes) && i < |nodes| && k <= |nodes[i].children|
    requires ctx.resolved.None? && ctx.klass.None?
    requires forall n :: 0 <= n < |nodes| ==> !nodes[n].kind.ClassDef?
    ensures CollectChildren(nodes, i, k, ctx, lines) == {}
    decreases |nodes| - i, 0, k
  {
    if k > 0 {
      var c := nodes[i].children[k - 1];
      assert c in nodes[i].children;
      NoClassNoPairsChildren(nodes, i, k - 1, ctx, lines);
      NoClassNoPairs(nodes, c, Enter(ctx, nodes[c].kind), lines);
    }
  }

  /** Recording `i` as the parent of its child `c` keeps the recorded parents
      true, leaves ids up to `i` alone, and makes the walks from `c` give the
      context of `i` entered through `c`'s kind. */
  lemma RecordParent(nodes: seq<Node>, parent: map<nat, nat>, i: nat, c: nat, ctx: Context)
    requires WellFormed(nodes) && Truthful(nodes, parent) && i < |nodes| && c in nodes[i].children
    requires GetClassName(nodes, parent, i) == ctx.klass
    requires GetClassAndMethodName(nodes, parent, i) == ctx.resolved
    ensures Truthful(nodes, parent[c := i]) && AgreeUpTo(parent[c := i], parent, i)
    ensures c < |nodes| && GetClassName(nodes, parent[c := i], c) == Enter(ctx, nodes[c].kind).klass
    ensures GetClassAndMethodName(nodes, parent[c := i], c) == Enter(ctx, nodes[c].kind).resolved
  {
    var recorded := parent[c := i];
    WalksReadOnlyBelow(nodes, recorded, parent, i);
  }
}
