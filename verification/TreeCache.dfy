/** A hierarchical cache: a tree of nodes, each holding a process context, whose children
    are found by key and created on demand. */
module TreeCache {
  import opened Frames

  class CacheNode {
    const value: ProcessContext
    var children: map<nat, CacheNode>
    /** The keys from the root down to this node. */
    ghost const path: seq<nat>

    constructor (ghost p: seq<nat>)
      ensures path == p && children == map[] && fresh(value)
    {
      children := map[];
      path := p;
      value := new ProcessContext();
    }
  }

  class FrameCache {
    const root: CacheNode
    /** The nodes of the tree, by path. */
    ghost var index: map<seq<nat>, CacheNode>
    /** All nodes that were ever in the tree, and their contexts. */
    ghost var nodes: set<CacheNode>
    ghost var values: set<ProcessContext>

    ghost predicate Holds(n: CacheNode)
      reads this`index, this`nodes
    {
      n in nodes && n.path in index && index[n.path] == n
    }

    /** The children of the node at p are the nodes one key further. */
    ghost predicate Linked(p: seq<nat>)
      requires p in index && index[p] in nodes
      reads this`index, this`nodes, nodes
    {
      var n := index[p];
      && n.path == p
      && (forall k | k in n.children :: p + [k] in index && n.children[k] == index[p + [k]])
      && (forall k | p + [k] in index :: k in n.children)
    }

    ghost predicate Rooted(p: seq<nat>)
      reads this`index
    {
      p == [] || p[..|p| - 1] in index
    }

    ghost predicate Shape()
      reads this, nodes
    {
      && [] in index && index[[]] == root
      && (forall p | p in index :: index[p] in nodes && index[p].value in values)
      && (forall p {:trigger Linked(p)} | p in index :: Linked(p))
      && (forall p {:trigger Rooted(p)} | p in index :: Rooted(p))
    }

    constructor ()
      ensures Shape() && index == map[[] := root] && nodes == {root} && values == {root.value} && fresh(root) && fresh(root.value)
    {
      var r := new CacheNode([]);
      root, index, nodes, values := r, map[[] := r], {r}, {r.value};
    }

    /** The existing child, or a new one whose context is not filled in yet. */
    method InsertFind(n: CacheNode, k: nat) returns (child: CacheNode, miss: bool)
      requires Shape() && Holds(n)
      modifies this, n
      ensures Shape() && Holds(child) && child.path == n.path + [k]
      ensures miss <==> child.path !in old(index)
      ensures !miss ==> unchanged(this) && unchanged(n)
      ensures miss ==> fresh(child) && fresh(child.value)
      ensures miss ==> index == old(index)[child.path := child]
      ensures miss ==> nodes == old(nodes) + {child} && values == old(values) + {child.value}
    {
      assert Linked(n.path);
      miss := k !in n.children;
      if miss {
        child := new CacheNode(n.path + [k]);
        n.children := n.children[k := child];
        index, nodes, values := index[child.path := child], nodes + {child}, values + {child.value};
        StepDown([], n.path, k);
        forall p | p in index
          ensures Linked(p) && Rooted(p)
        {
          if p == child.path {
            forall j
              ensures p + [j] !in index
            {
              StepDown([], p, j);
              assert p + [j] in old(index) ==> old(Rooted(p + [j]));
            }
          } else {
            assert old(Linked(p)) && old(Rooted(p));
            forall j | p + [j] == child.path
              ensures p == n.path && j == k
            {
              StepDown([], p, j);
            }
          }
        }
      } else {
        child := n.children[k];
        assert Linked(n.path + [k]);
      }
    }

    /** Children first, then each child is evicted with everything below it, or kept.  Which
        ones go depends on usage counts, so here any choice is allowed. */
    method Halve(n: CacheNode)
      requires Shape() && Holds(n)
      modifies this`index, nodes
      ensures Shape() && Holds(n) && Pruned(old(index), n.path)
      decreases Under(index.Keys, n.path), 0
    {
      hide Shape, Linked, Rooted, Under;
      ChildKeys(n);
      var keys := n.children.Keys;
      while keys != {}
        invariant Shape() && Holds(n) && Pruned(old(index), n.path)
        invariant forall j | j in keys :: n.path + [j] in index
        decreases keys
      {
        var k :| k in keys;
        keys := keys - {k};
        ChildInTree(n, k);
        UnderShrinks(index.Keys, old(index.Keys), n.path, k);
        HalveChild(n, k);
        forall j | j in keys
          ensures n.path + [j] in index
        {
          StepDown(n.path + [k], n.path, j);
        }
      }
    }

    method HalveChild(n: CacheNode, k: nat)
      requires Shape() && Holds(n) && n.path + [k] in index
      modifies this`index, nodes
      ensures Shape() && Holds(n)
      ensures index.Keys <= old(index.Keys) && forall q | q in index :: index[q] == old(index[q])
      ensures forall q | q in old(index) && q !in index :: n.path + [k] <= q
      decreases Under(index.Keys, n.path + [k]), 1
    {
      hide Shape, Linked, Rooted, Under;
      ChildInTree(n, k);
      Halve(n.children[k]);
      ChildInTree(n, k);
      // Eviction is decided by usage counts, which are not part of the model.
      var evict: bool := *;
      if evict {
        Evict(n, k);
      }
    }

    lemma ChildKeys(n: CacheNode)
      requires Shape() && Holds(n)
      ensures forall k | k in n.children :: n.path + [k] in index
    {
      assert Linked(n.path);
    }

    lemma ChildInTree(n: CacheNode, k: nat)
      requires Shape() && Holds(n) && n.path + [k] in index
      ensures k in n.children && Holds(n.children[k]) && n.children[k].path == n.path + [k]
    {
      assert Linked(n.path);
      assert Linked(n.path + [k]);
    }

    /** Only nodes strictly below the one at p have gone. */
    ghost predicate Pruned(before: map<seq<nat>, CacheNode>, p: seq<nat>)
      reads this`index
    {
      && index.Keys <= before.Keys
      && (forall q | q in index :: index[q] == before[q])
      && (forall q | q in before && q !in index :: p < q)
    }

    /** Erases a child, and with it everything below. */
    method Evict(n: CacheNode, k: nat)
      requires Shape() && Holds(n) && k in n.children
      modifies this`index, n
      ensures Shape() && n.children == old(n.children) - {k}
      ensures index.Keys <= old(index.Keys) && forall q | q in index :: index[q] == old(index[q])
      ensures forall q | q in old(index) :: q in index <==> !(n.path + [k] <= q)
    {
      ghost var gone := n.path + [k];
      StepDown([], n.path, k);
      assert Linked(n.path);
      n.children := n.children - {k};
      index := map q | q in index && !(gone <= q) :: index[q];
      forall p | p in index
        ensures Linked(p)
      {
        assert old(Linked(p));
        forall j | p + [j] in old(index)
          ensures gone <= p + [j] <==> p == n.path && j == k
        {
          StepDown(gone, p, j);
        }
      }
      forall p | p in index
        ensures Rooted(p)
      {
        assert old(Rooted(p));
        assert p != [] ==> p[..|p| - 1] <= p;
      }
    }
  }

  ghost function Under(paths: set<seq<nat>>, p: seq<nat>): set<seq<nat>> {
    set q | q in paths && p <= q
  }

  lemma UnderShrinks(paths: set<seq<nat>>, before: set<seq<nat>>, p: seq<nat>, k: nat)
    requires paths <= before && p in before
    ensures Under(paths, p + [k]) < Under(before, p)
  {
    assert p in Under(before, p) && p !in Under(paths, p + [k]);
  }

  /** One step further, the only new prefix is the whole path. */
  lemma StepDown(a: seq<nat>, p: seq<nat>, j: nat)
    ensures a <= p + [j] ==> a <= p || a == p + [j]
    ensures (p + [j])[..|p|] == p && (p + [j])[|p|] == j && |p + [j]| == |p| + 1
  {
    if a <= p + [j] && |a| <= |p| {
      assert a == (p + [j])[..|a|] == p[..|a|];
    }
  }
}
