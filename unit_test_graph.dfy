/**
 * The graph side of the unit-test builder: inverting the configured
 * transforms' `inputs` into output edges, the memoised `links_to_a_leaf`
 * check and `reduce_transforms`, which prunes the graph to the transforms
 * between the test input and the test outputs.
 */
module UnitTestGraph {
  import opened UnitTestConfig

  /** Transform name to the names of the transforms that read from it
      (a `HashMap<String, HashMap<String, ()>>`, the inner map used as a set). */
  type Graph = map<string, set<string>>

  /** `rank` witnesses that `g` has no cycle: every edge goes strictly down. */
  ghost predicate Ranked(g: Graph, rank: map<string, nat>)
  {
    forall u :: u in g ==> u in rank && forall v :: v in g[u] ==> v in rank && rank[v] < rank[u]
  }

  ghost function Height(rank: map<string, nat>, t: string): nat
  {
    if t in rank then rank[t] else 0
  }

  /** The output edges the configured `inputs` lists imply. */
  function OutputsOf(transforms: map<string, TransformConfig>): Graph
  {
    map i | i in transforms :: set k | k in transforms && i in transforms[k].inputs
  }

  /** The output map once the transforms in `done` have been inverted. */
  ghost function PartialOutputs(transforms: map<string, TransformConfig>, done: set<string>): Graph
  {
    map i | i in transforms :: set k | k in transforms && k in done && i in transforms[k].inputs
  }

  /** The inner loop: `k` becomes an output of every input it lists that is
      a key of the map. */
  method AddOutput(outputs: Graph, k: string, inputs: seq<string>) returns (outputs': Graph)
    ensures outputs'.Keys == outputs.Keys
    ensures forall i :: i in outputs ==> outputs'[i] == if i in inputs then outputs[i] + {k} else outputs[i]
  {
    outputs' := outputs;
    var j := 0;
    while j < |inputs|
      invariant 0 <= j <= |inputs|
      invariant outputs'.Keys == outputs.Keys
      invariant forall i :: i in outputs ==> outputs'[i] == if i in inputs[..j] then outputs[i] + {k} else outputs[i]
    {
      var i := inputs[j];
      if i in outputs' {
        outputs' := outputs'[i := outputs'[i] + {k}];
      }
      assert inputs[..j + 1] == inputs[..j] + [i];
      j := j + 1;
    }
    assert inputs[..j] == inputs;
  }

  lemma PartialOutputsNone(transforms: map<string, TransformConfig>)
    ensures PartialOutputs(transforms, {}) == map k | k in transforms :: {}
  {
    var p := PartialOutputs(transforms, {});
    forall i | i in transforms ensures p[i] == {} {
      assert forall k :: k !in p[i];
    }
  }

  /** Inverting one more transform `k` adds `k` to the outputs of each of
      its inputs. */
  lemma PartialOutputsStep(transforms: map<string, TransformConfig>, done: set<string>, k: string, outputs: Graph)
    requires k in transforms
    requires var before := PartialOutputs(transforms, done);
      && outputs.Keys == before.Keys
      && forall i :: i in before ==>
           outputs[i] == if i in transforms[k].inputs then before[i] + {k} else before[i]
    ensures outputs == PartialOutputs(transforms, done + {k})
  {
    var after := PartialOutputs(transforms, done + {k});
    forall i | i in after ensures outputs[i] == after[i] {
      assert forall x :: x in outputs[i] <==> x in after[i];
    }
  }

  lemma PartialOutputsAll(transforms: map<string, TransformConfig>)
    ensures PartialOutputs(transforms, transforms.Keys) == OutputsOf(transforms)
  {
    var p := PartialOutputs(transforms, transforms.Keys);
    forall i | i in transforms ensures p[i] == OutputsOf(transforms)[i] {
      assert forall k :: k in p[i] <==> k in OutputsOf(transforms)[i];
    }
  }

  /** Inverting the `inputs` lists (the first two statements of
      `build_unit_test`): one entry per configured transform, and `k` is an
      output of `i` exactly when transform `k` lists `i` as an input; an
      input that names no transform (a source) is dropped. */
  method InvertInputs(transforms: map<string, TransformConfig>) returns (outputs: Graph)
    ensures outputs.Keys == transforms.Keys
    ensures forall i, k :: i in outputs ==> (k in outputs[i] <==> k in transforms && i in transforms[k].inputs)
    ensures outputs == OutputsOf(transforms)
  {
    outputs := map k | k in transforms :: {};
    ghost var done: set<string> := {};
    PartialOutputsNone(transforms);
    var todo := transforms.Keys;
    while todo != {}
      invariant todo <= transforms.Keys && done == transforms.Keys - todo
      invariant outputs == PartialOutputs(transforms, done)
      decreases todo
    {
      var k :| k in todo;
      assert done + {k} == transforms.Keys - (todo - {k});
      var outputs' := AddOutput(outputs, k, transforms[k].inputs);
      PartialOutputsStep(transforms, done, k, outputs');
      outputs := outputs';
      todo := todo - {k};
      done := done + {k};
    }
    assert done == transforms.Keys;
    PartialOutputsAll(transforms);
  }

  // ---------------------------------------------------------------------
  // links_to_a_leaf

  /** `t` is a leaf or has an output that links to a leaf. */
  ghost predicate Links(g: Graph, leaves: set<string>, rank: map<string, nat>, t: string)
    requires Ranked(g, rank)
    decreases Height(rank, t)
  {
    t in leaves || (t in g && exists c :: c in g[t] && Links(g, leaves, rank, c))
  }

  /** `x` is a node `links_to_a_leaf(t)` visits when nothing is memoised: the
      `||` short-circuits, so the outputs of a leaf are not visited. */
  ghost predicate Explored(g: Graph, leaves: set<string>, rank: map<string, nat>, t: string, x: string)
    requires Ranked(g, rank)
    decreases Height(rank, t)
  {
    x == t || (t !in leaves && t in g && exists c :: c in g[t] && Explored(g, leaves, rank, c, x))
  }

  /** Every memo entry holds the true answer. */
  ghost predicate MemoSound(g: Graph, leaves: set<string>, rank: map<string, nat>, memo: map<string, bool>)
    requires Ranked(g, rank)
  {
    forall k :: k in memo ==> memo[k] == Links(g, leaves, rank, k)
  }

  /** A memoised node that is not a leaf has all its outputs memoised. */
  ghost predicate MemoClosed(g: Graph, leaves: set<string>, memo: map<string, bool>)
  {
    forall k, c :: k in memo && k !in leaves && k in g && c in g[k] ==> c in memo
  }

  lemma {:induction false} ExploredGoesDown(g: Graph, leaves: set<string>, rank: map<string, nat>, t: string, x: string)
    requires Ranked(g, rank) && Explored(g, leaves, rank, t, x)
    ensures Height(rank, x) <= Height(rank, t)
    ensures x != t ==> Height(rank, x) < Height(rank, t)
    decreases Height(rank, t)
  {
    if x != t {
      var c :| c in g[t] && Explored(g, leaves, rank, c, x);
      ExploredGoesDown(g, leaves, rank, c, x);
    }
  }

  lemma {:induction false} ClosedCoversExplored(g: Graph, leaves: set<string>, rank: map<string, nat>, memo: map<string, bool>, t: string, x: string)
    requires Ranked(g, rank) && MemoClosed(g, leaves, memo)
    requires t in memo && Explored(g, leaves, rank, t, x)
    ensures x in memo
    decreases Height(rank, t)
  {
    if x != t {
      var c :| c in g[t] && Explored(g, leaves, rank, c, x);
      ClosedCoversExplored(g, leaves, rank, memo, c, x);
    }
  }

  /** `links_to_a_leaf`: answers whether `t` links to a leaf, memoising the
      answer for every node it visits; a memoised node is answered at once.
      Every output of a non-leaf is visited (`filter(..).count()` does not
      stop at the first hit). */
  method LinksToALeaf(t: string, leaves: set<string>, memo: map<string, bool>, g: Graph, ghost rank: map<string, nat>)
    returns (linked: bool, memo': map<string, bool>)
    requires Ranked(g, rank)
    requires MemoSound(g, leaves, rank, memo) && MemoClosed(g, leaves, memo)
    ensures linked == Links(g, leaves, rank, t)
    ensures MemoSound(g, leaves, rank, memo') && MemoClosed(g, leaves, memo')
    ensures t in memo' && memo'[t] == linked
    ensures forall k :: k in memo' <==> k in memo || Explored(g, leaves, rank, t, k)
    ensures forall k :: k in memo ==> memo'[k] == memo[k]
    decreases Height(rank, t), 1
  {
    if t in memo {
      forall k | Explored(g, leaves, rank, t, k) ensures k in memo {
        ClosedCoversExplored(g, leaves, rank, memo, t, k);
      }
      return memo[t], memo;
    }
    memo' := memo;
    var count := 0;
    if t !in leaves && t in g {
      count, memo' := CountLinkedOutputs(t, leaves, memo, g, rank);
    }
    linked := t in leaves || count > 0;
    memo' := memo'[t := linked];
  }

  /** The count over the outputs of `t` once those outside `todo` have been
      checked, starting from `memo` and reaching `memo'`. */
  ghost predicate Counted(t: string, leaves: set<string>, g: Graph, rank: map<string, nat>, memo: map<string, bool>,
                          todo: set<string>, count: nat, memo': map<string, bool>)
    requires Ranked(g, rank) && t in g
  {
    && todo <= g[t]
    && MemoSound(g, leaves, rank, memo') && MemoClosed(g, leaves, memo')
    && t !in memo'
    && (forall k :: k in memo ==> k in memo' && memo'[k] == memo[k])
    && (forall c :: c in g[t] && c !in todo ==> c in memo')
    && (forall k :: k in memo' <==> k in memo || exists c :: c in g[t] && c !in todo && Explored(g, leaves, rank, c, k))
    && (count > 0 <==> exists c :: c in g[t] && c !in todo && Links(g, leaves, rank, c))
  }

  /** Checking one more output `child` of `t`, whose check answered `linked`
      and took the memo from `before` to `after`. */
  lemma CountedStep(t: string, leaves: set<string>, g: Graph, rank: map<string, nat>, memo: map<string, bool>,
                    todo: set<string>, count: nat, before: map<string, bool>, child: string, linked: bool,
                    after: map<string, bool>)
    requires Ranked(g, rank) && t in g && child in todo
    requires Counted(t, leaves, g, rank, memo, todo, count, before)
    requires linked == Links(g, leaves, rank, child)
    requires MemoSound(g, leaves, rank, after) && MemoClosed(g, leaves, after)
    requires child in after
    requires forall k :: k in after <==> k in before || Explored(g, leaves, rank, child, k)
    requires forall k :: k in before ==> after[k] == before[k]
    ensures Counted(t, leaves, g, rank, memo, todo - {child}, if linked then count + 1 else count, after)
  {
    if Explored(g, leaves, rank, child, t) {
      ExploredGoesDown(g, leaves, rank, child, t);
    }
  }

  /** The `filter(..).count()` over the outputs of a non-leaf `t`: how many
      of them link to a leaf, each one checked (and memoised) in turn. */
  method CountLinkedOutputs(t: string, leaves: set<string>, memo: map<string, bool>, g: Graph, ghost rank: map<string, nat>)
    returns (count: nat, memo': map<string, bool>)
    requires Ranked(g, rank) && t in g && t !in leaves && t !in memo
    requires MemoSound(g, leaves, rank, memo) && MemoClosed(g, leaves, memo)
    ensures count > 0 <==> exists c :: c in g[t] && Links(g, leaves, rank, c)
    ensures MemoSound(g, leaves, rank, memo') && MemoClosed(g, leaves, memo')
    ensures t !in memo'
    ensures forall k :: k in memo ==> k in memo' && memo'[k] == memo[k]
    ensures forall c :: c in g[t] ==> c in memo'
    ensures forall k :: k in memo' <==> k in memo || exists c :: c in g[t] && Explored(g, leaves, rank, c, k)
    decreases Height(rank, t), 0
  {
    memo' := memo;
    count := 0;
    var todo := g[t];
    while todo != {}
      invariant Counted(t, leaves, g, rank, memo, todo, count, memo')
      decreases todo
    {
      var child :| child in todo;
      var childLinked, after := LinksToALeaf(child, leaves, memo', g, rank);
      CountedStep(t, leaves, g, rank, memo, todo, count, memo', child, childLinked, after);
      if childLinked {
        count := count + 1;
      }
      memo' := after;
      todo := todo - {child};
    }
  }

  // ---------------------------------------------------------------------
  // reduce_transforms

  /** `link_checked.get(k).unwrap_or(false)`. */
  predicate Checked(memo: map<string, bool>, k: string)
  {
    k in memo && memo[k]
  }

  /** The pruned graph: empty when the root links to no leaf; otherwise the
      root with all its outputs, and each visited node that links to a leaf
      with only its visited, linking outputs. */
  ghost function Reduced(g: Graph, leaves: set<string>, rank: map<string, nat>, root: string): Graph
    requires Ranked(g, rank)
  {
    if !Links(g, leaves, rank, root) then map[]
    else
      map k | k in g && (k == root || (Explored(g, leaves, rank, root, k) && Links(g, leaves, rank, k)))
        :: if k == root then g[k]
           else set c | c in g[k] && Explored(g, leaves, rank, root, c) && Links(g, leaves, rank, c)
  }

  /** `reduce_transforms`: runs the memoised check from the root, clears the
      map if the root links to no leaf, then retains the root and the nodes
      marked linked, and in each kept non-root node only the children marked
      linked. */
  method ReduceTransforms(root: string, leaves: set<string>, g: Graph, ghost rank: map<string, nat>)
    returns (g': Graph)
    requires Ranked(g, rank)
    ensures g' == Reduced(g, leaves, rank, root)
  {
    var linked, memo := LinksToALeaf(root, leaves, map[], g, rank);
    assert forall k :: Checked(memo, k) <==> Explored(g, leaves, rank, root, k) && Links(g, leaves, rank, k);
    var outputs := g;
    if !linked {
      outputs := map[];
    }
    g' := map name | name in outputs && (name == root || Checked(memo, name))
      :: set child | child in outputs[name] && (name == root || Checked(memo, child));
    var spec := Reduced(g, leaves, rank, root);
    if linked {
      assert g'.Keys == spec.Keys;
      forall k | k in g' ensures g'[k] == spec[k] {
        if k != root {
          assert forall c :: c in g'[k] <==> c in spec[k];
        }
      }
    }
  }

  /** The pruned graph is a subgraph of the input, still acyclic, and every
      node in it is the root or links to a leaf. */
  lemma ReducedIsLinkedSubgraph(g: Graph, leaves: set<string>, rank: map<string, nat>, root: string)
    requires Ranked(g, rank)
    ensures var r := Reduced(g, leaves, rank, root);
      && r.Keys <= g.Keys
      && (forall k :: k in r ==> r[k] <= g[k])
      && (forall k :: k in r ==> k == root || Links(g, leaves, rank, k))
      && Ranked(r, rank)
  {
  }
}
