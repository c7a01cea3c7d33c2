/**
  The traversal that records parents and collects (class, method) pairs:
  `VisitorParentRecorder.generic_visit` (lemontest/__init__.py:67-82) and
  `LineNumberVisitor` (lemontest/__init__.py:99-119).
*/
module Visitor {
  import opened Wrappers
  import opened Syntax

  /** A parsed module: its nodes, and the `parent` attributes that visits have
      assigned so far.  Parsed modules are cached and visited once per changed
      line, so the assignments of one visit are still there for the next. */
  class ParsedModule {
    const nodes: seq<Node>
    var parent: map<nat, nat>

    ghost predicate Valid()
      reads this
    {
      WellFormed(nodes) && Truthful(nodes, parent)
    }

    /** A module as `ast.parse` returns it: no node has a `parent` yet. */
    constructor (nodes: seq<Node>)
      requires WellFormed(nodes)
      ensures this.nodes == nodes && parent == map[] && Valid()
    {
      this.nodes := nodes;
      parent := map[];
    }
  }

  class LineNumberVisitor {
    const recordLinenos: set<int>
    var classMethods: set<(string, string)>

    constructor (recordLinenos: set<int>)
      ensures this.recordLinenos == recordLinenos && classMethods == {}
    {
      this.recordLinenos := recordLinenos;
      classMethods := {};
    }

    /** `visit(module_ast)`: every pair that resolution yields for the module and
        these line numbers is added, and nothing else. */
    method Visit(tree: ParsedModule)
      requires tree.Valid()
      modifies this, tree
      ensures tree.Valid()
      ensures classMethods == old(classMethods) + Resolve(tree.nodes, recordLinenos)
    {
      GenericVisit(tree, 0, Enter(Outside, tree.nodes[0].kind));
    }

    /** `LineNumberVisitor.generic_visit`: a node on a recorded line is resolved
        (a miss records nothing) and its subtree is not entered; any other node
        has its children visited by the parent recorder.  `ctx` is what the two
        upward walks give at `i`; the node has its parent recorded unless it is
        the root.  Only the parents of ids above `i` change. */
    method GenericVisit(tree: ParsedModule, i: nat, ghost ctx: Context)
      requires tree.Valid() && i < |tree.nodes|
      requires i == 0 || i in tree.parent
      requires GetClassName(tree.nodes, tree.parent, i) == ctx.klass
      requires GetClassAndMethodName(tree.nodes, tree.parent, i) == ctx.resolved
      modifies this, tree
      ensures tree.Valid() && AgreeUpTo(tree.parent, old(tree.parent), i)
      ensures classMethods == old(classMethods) + Collect(tree.nodes, i, ctx, recordLinenos)
      decreases |tree.nodes| - i, 1
    {
      var node := tree.nodes[i];
      if node.lineno.Some? && node.lineno.value in recordLinenos {
        var found := GetClassAndMethodName(tree.nodes, tree.parent, i);
        if found.Some? {
          classMethods := classMethods + {found.value};
        }
      } else {
        RecordParentsAndVisit(tree, i, ctx);
      }
    }

    /** `VisitorParentRecorder.generic_visit`: each child in turn gets `parent`
        set to node `i` and is then visited. */
    method RecordParentsAndVisit(tree: ParsedModule, i: nat, ghost ctx: Context)
      requires tree.Valid() && i < |tree.nodes|
      requires GetClassName(tree.nodes, tree.parent, i) == ctx.klass
      requires GetClassAndMethodName(tree.nodes, tree.parent, i) == ctx.resolved
      modifies this, tree
      ensures tree.Valid() && AgreeUpTo(tree.parent, old(tree.parent), i)
      ensures classMethods
              == old(classMethods) + CollectChildren(tree.nodes, i, |tree.nodes[i].children|, ctx, recordLinenos)
      decreases |tree.nodes| - i, 0
    {
      var children := tree.nodes[i].children;
      var k := 0;
      while k < |children|
        invariant 0 <= k <= |children|
        invariant tree.Valid() && AgreeUpTo(tree.parent, old(tree.parent), i)
        invariant classMethods == old(classMethods) + CollectChildren(tree.nodes, i, k, ctx, recordLinenos)
      {
        var c := children[k];
        assert c in tree.nodes[i].children;
        WalksReadOnlyBelow(tree.nodes, tree.parent, old(tree.parent), i);
        RecordParent(tree.nodes, tree.parent, i, c, ctx);
        ghost var before := tree.parent;
        tree.parent := tree.parent[c := i];
        ghost var recorded := tree.parent;
        GenericVisit(tree, c, Enter(ctx, tree.nodes[c].kind));
        AgreeUpToTrans(tree.parent, recorded, before, i, c);
        AgreeUpToTrans(tree.parent, before, old(tree.parent), i, i);
        k := k + 1;
      }
    }
  }
}
