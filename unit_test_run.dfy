/**
 * A built unit test and how it runs: `walk` pushes events through the
 * pruned transforms from the test input, collecting each node's results,
 * and `UnitTest::run` reports the checks whose target produced nothing.
 */
module UnitTestRun {
  import opened Event
  import opened UnitTestConfig
  import opened UnitTestGraph

  datatype UnitTestTransform = UnitTestTransform(transform: Transform, next: seq<string>)

  datatype UnitTestCheck = UnitTestCheck(extractFrom: string, conditions: map<string, Condition>)

  datatype UnitTest = UnitTest(
    name: string,
    input: (string, LogEvent),
    transforms: map<string, UnitTestTransform>,
    checks: seq<UnitTestCheck>)

  /** The events collected per node. */
  type Results = map<string, seq<LogEvent>>

  /** `rank` witnesses that the `next` edges have no cycle. */
  ghost predicate WalkRanked(ts: map<string, UnitTestTransform>, rank: map<string, nat>)
  {
    forall u :: u in ts ==> u in rank && forall v :: v in ts[u].next ==> v in rank && rank[v] < rank[u]
  }

  /** The transform applied to each input in order, the outputs appended. */
  function Apply(f: Transform, inputs: seq<LogEvent>): seq<LogEvent>
  {
    if inputs == [] then [] else Apply(f, inputs[..|inputs| - 1]) + f(inputs[|inputs| - 1])
  }

  /** Applying to a concatenation of inputs concatenates the outputs. */
  lemma {:induction false} ApplyAppend(f: Transform, xs: seq<LogEvent>, ys: seq<LogEvent>)
    ensures Apply(f, xs + ys) == Apply(f, xs) + Apply(f, ys)
    decreases |ys|
  {
    if ys != [] {
      var ys' := ys[..|ys| - 1];
      assert (xs + ys)[..|xs + ys| - 1] == xs + ys';
      ApplyAppend(f, xs, ys');
    } else {
      assert xs + ys == xs;
    }
  }

  /** What a node yields for its inputs: nothing unless it is a transform. */
  function NodeResults(ts: map<string, UnitTestTransform>, node: string, inputs: seq<LogEvent>): seq<LogEvent>
  {
    if node in ts then Apply(ts[node].transform, inputs) else []
  }

  function Targets(ts: map<string, UnitTestTransform>, node: string): seq<string>
  {
    if node in ts then ts[node].next else []
  }

  /** The results map after `walk(node, inputs, ..)`. */
  ghost function WalkSpec(ts: map<string, UnitTestTransform>, rank: map<string, nat>, node: string,
                          inputs: seq<LogEvent>, agg: Results): Results
    requires WalkRanked(ts, rank)
    decreases Height(rank, node), 1
  {
    var results := NodeResults(ts, node, inputs);
    WalkChildren(ts, rank, node, Targets(ts, node), results, agg)[node := results]
  }

  /** The results map after walking each of `children`, in order, with `results`. */
  ghost function WalkChildren(ts: map<string, UnitTestTransform>, rank: map<string, nat>, node: string,
                              children: seq<string>, results: seq<LogEvent>, agg: Results): Results
    requires WalkRanked(ts, rank)
    requires forall c :: c in children ==> Height(rank, c) < Height(rank, node)
    decreases Height(rank, node), 0, |children|
  {
    if children == [] then agg
    else WalkChildren(ts, rank, node, children[1..], results, WalkSpec(ts, rank, children[0], results, agg))
  }

  /** `walk`: a transform node applies its transform to every input, walks
      every child with a copy of the results, and records its own results
      last; any other node records no results. */
  method Walk(node: string, inputs: seq<LogEvent>, ts: map<string, UnitTestTransform>, agg: Results,
              ghost rank: map<string, nat>)
    returns (agg': Results)
    requires WalkRanked(ts, rank)
    ensures agg' == WalkSpec(ts, rank, node, inputs, agg)
    ensures node in agg' && agg'[node] == NodeResults(ts, node, inputs)
    decreases Height(rank, node)
  {
    var results: seq<LogEvent> := [];
    var targets: seq<string> := [];
    if node in ts {
      var target := ts[node];
      var j := 0;
      while j < |inputs|
        invariant 0 <= j <= |inputs|
        invariant results == Apply(target.transform, inputs[..j])
      {
        assert inputs[..j + 1][..j] == inputs[..j];
        results := results + target.transform(inputs[j]);
        j := j + 1;
      }
      assert inputs[..j] == inputs;
      targets := target.next;
    }
    agg' := agg;
    var j := 0;
    while j < |targets|
      invariant 0 <= j <= |targets|
      invariant WalkChildren(ts, rank, node, targets[j..], results, agg')
             == WalkChildren(ts, rank, node, targets, results, agg)
    {
      assert targets[j..][1..] == targets[j + 1..];
      agg' := Walk(targets[j], results, ts, agg', rank);
      j := j + 1;
    }
    agg' := agg'[node := results];
  }

  // ---------------------------------------------------------------------
  // What a walk records.

  /** `x` is `node` or reached from it along `next` edges. */
  ghost predicate Visits(ts: map<string, UnitTestTransform>, rank: map<string, nat>, node: string, x: string)
    requires WalkRanked(ts, rank)
    decreases Height(rank, node)
  {
    x == node || (node in ts && exists c :: c in ts[node].next && Visits(ts, rank, c, x))
  }

  /** A walk records an entry for exactly the nodes it visits, leaves every
      other entry as it was, and records an empty list for every visited
      node that is not a transform. */
  lemma {:induction false} WalkRecords(ts: map<string, UnitTestTransform>, rank: map<string, nat>, node: string,
                                       inputs: seq<LogEvent>, agg: Results)
    requires WalkRanked(ts, rank)
    ensures var r := WalkSpec(ts, rank, node, inputs, agg);
      && (forall k :: k in r <==> k in agg || Visits(ts, rank, node, k))
      && (forall k :: k in agg && !Visits(ts, rank, node, k) ==> r[k] == agg[k])
      && (forall k :: k in r && k !in ts && (k !in agg || Visits(ts, rank, node, k)) ==> r[k] == [])
    decreases Height(rank, node), 1
  {
    WalkChildrenRecords(ts, rank, node, Targets(ts, node), NodeResults(ts, node, inputs), agg);
  }

  lemma {:induction false} WalkChildrenRecords(ts: map<string, UnitTestTransform>, rank: map<string, nat>, node: string,
                                               children: seq<string>, results: seq<LogEvent>, agg: Results)
    requires WalkRanked(ts, rank)
    requires forall c :: c in children ==> Height(rank, c) < Height(rank, node)
    ensures var r := WalkChildren(ts, rank, node, children, results, agg);
      && (forall k :: k in r <==> k in agg || exists c :: c in children && Visits(ts, rank, c, k))
      && (forall k :: k in agg && (forall c :: c in children ==> !Visits(ts, rank, c, k)) ==> r[k] == agg[k])
      && (forall k :: k in r && k !in ts && (k !in agg || exists c :: c in children && Visits(ts, rank, c, k)) ==> r[k] == [])
    decreases Height(rank, node), 0, |children|
  {
    if children != [] {
      var first := WalkSpec(ts, rank, children[0], results, agg);
      WalkRecords(ts, rank, children[0], results, agg);
      WalkChildrenRecords(ts, rank, node, children[1..], results, first);
      var r := WalkChildren(ts, rank, node, children, results, agg);
      assert r == WalkChildren(ts, rank, node, children[1..], results, first);
      forall c | c in children ensures c == children[0] || c in children[1..] { }
      forall k
        ensures k in r <==> k in agg || exists c :: c in children && Visits(ts, rank, c, k)
      {
        if exists c :: c in children[1..] && Visits(ts, rank, c, k) {
          var c :| c in children[1..] && Visits(ts, rank, c, k);
          assert c in children;
        }
        if exists c :: c in children && Visits(ts, rank, c, k) {
          var c :| c in children && Visits(ts, rank, c, k);
          assert c == children[0] || c in children[1..];
        }
      }
      forall k | k in agg && (forall c :: c in children ==> !Visits(ts, rank, c, k))
        ensures r[k] == agg[k]
      {
        assert !Visits(ts, rank, children[0], k);
        assert forall c :: c in children[1..] ==> c in children;
      }
    }
  }

  /** Walking a list of children is walking a prefix of it, then the rest. */
  lemma {:induction false} WalkChildrenSplit(ts: map<string, UnitTestTransform>, rank: map<string, nat>, node: string,
                                             children: seq<string>, results: seq<LogEvent>, agg: Results, i: nat)
    requires WalkRanked(ts, rank)
    requires forall c :: c in children ==> Height(rank, c) < Height(rank, node)
    requires i <= |children|
    ensures WalkChildren(ts, rank, node, children, results, agg)
         == WalkChildren(ts, rank, node, children[i..], results, WalkChildren(ts, rank, node, children[..i], results, agg))
    decreases i
  {
    if i == 0 {
      assert children[..0] == [] && children[0..] == children;
    } else {
      var first := WalkSpec(ts, rank, children[0], results, agg);
      assert children[..i][1..] == children[1..][..i - 1];
      assert children[i..] == children[1..][i - 1..];
      WalkChildrenSplit(ts, rank, node, children[1..], results, first, i - 1);
    }
  }

  /** When several children reach a node `k`, the entry of `k` after the
      walk is the one written by the last of them: later children that do
      not reach `k` leave it alone. */
  lemma LastWriteWins(ts: map<string, UnitTestTransform>, rank: map<string, nat>, node: string,
                      children: seq<string>, results: seq<LogEvent>, agg: Results, k: string, i: nat)
    requires WalkRanked(ts, rank)
    requires forall c :: c in children ==> Height(rank, c) < Height(rank, node)
    requires i < |children| && Visits(ts, rank, children[i], k)
    requires forall j :: i < j < |children| ==> !Visits(ts, rank, children[j], k)
    ensures var r := WalkChildren(ts, rank, node, children, results, agg);
      var written := WalkSpec(ts, rank, children[i], results, WalkChildren(ts, rank, node, children[..i], results, agg));
      && k in written && k in r
      && r[k] == written[k]
  {
    var before := WalkChildren(ts, rank, node, children[..i], results, agg);
    var mid := WalkSpec(ts, rank, children[i], results, before);
    WalkChildrenSplit(ts, rank, node, children, results, agg, i + 1);
    WalkChildrenPrefix(ts, rank, node, children, results, agg, i);
    WalkRecords(ts, rank, children[i], results, before);
    var rest := children[i + 1..];
    forall c | c in rest ensures !Visits(ts, rank, c, k) {
      var j :| 0 <= j < |rest| && rest[j] == c;
      assert children[i + 1 + j] == c;
    }
    WalkChildrenKeeps(ts, rank, node, rest, results, mid, k);
  }

  /** Walking the first `i + 1` children is walking the first `i`, then child `i`. */
  lemma WalkChildrenPrefix(ts: map<string, UnitTestTransform>, rank: map<string, nat>, node: string,
                           children: seq<string>, results: seq<LogEvent>, agg: Results, i: nat)
    requires WalkRanked(ts, rank)
    requires forall c :: c in children ==> Height(rank, c) < Height(rank, node)
    requires i < |children|
    ensures WalkChildren(ts, rank, node, children[..i + 1], results, agg)
         == WalkSpec(ts, rank, children[i], results, WalkChildren(ts, rank, node, children[..i], results, agg))
  {
    WalkChildrenSplit(ts, rank, node, children[..i + 1], results, agg, i);
    assert children[..i + 1][..i] == children[..i];
    assert children[..i + 1][i..] == [children[i]];
  }

  /** Children that do not reach `k` leave its entry as it was. */
  lemma WalkChildrenKeeps(ts: map<string, UnitTestTransform>, rank: map<string, nat>, node: string,
                          children: seq<string>, results: seq<LogEvent>, agg: Results, k: string)
    requires WalkRanked(ts, rank)
    requires forall c :: c in children ==> Height(rank, c) < Height(rank, node)
    requires k in agg && forall c :: c in children ==> !Visits(ts, rank, c, k)
    ensures var r := WalkChildren(ts, rank, node, children, results, agg); k in r && r[k] == agg[k]
  {
    WalkChildrenRecords(ts, rank, node, children, results, agg);
  }

  /** In a diamond a -> b, a -> c, b -> d, c -> d the shared node is walked
      twice, and the later walk (through c) is the one recorded. */
  lemma DiamondLastWriteWins(fa: Transform, fb: Transform, fc: Transform, fd: Transform, input: LogEvent)
    ensures var ts := map["a" := UnitTestTransform(fa, ["b", "c"]), "b" := UnitTestTransform(fb, ["d"]),
                          "c" := UnitTestTransform(fc, ["d"]), "d" := UnitTestTransform(fd, [])];
            var rank := map["a" := 3, "b" := 2, "c" := 2, "d" := 1];
            && WalkRanked(ts, rank)
            && WalkSpec(ts, rank, "a", [input], map[])["d"] == Apply(fd, Apply(fc, Apply(fa, [input])))
  {
    var ts := map["a" := UnitTestTransform(fa, ["b", "c"]), "b" := UnitTestTransform(fb, ["d"]),
                  "c" := UnitTestTransform(fc, ["d"]), "d" := UnitTestTransform(fd, [])];
    var rank := map["a" := 3, "b" := 2, "c" := 2, "d" := 1];
    assert WalkRanked(ts, rank);
    var ra := Apply(fa, [input]);
    var afterB := WalkSpec(ts, rank, "b", ra, map[]);
    var afterC := WalkSpec(ts, rank, "c", ra, afterB);
    assert WalkChildren(ts, rank, "a", ["b", "c"], ra, map[]) == WalkChildren(ts, rank, "a", ["c"], ra, afterB);
    assert WalkChildren(ts, rank, "a", ["c"], ra, afterB) == afterC;
    var rc := Apply(fc, ra);
    var afterD := WalkSpec(ts, rank, "d", rc, afterB);
    assert WalkChildren(ts, rank, "c", ["d"], rc, afterB) == afterD;
    assert afterD["d"] == Apply(fd, rc);
    assert afterC == afterD["c" := rc];
  }

  // ---------------------------------------------------------------------
  // UnitTest::run

  function FoundNone(extractFrom: string): string
  {
    "expected resulting events from transform '" + extractFrom + "', found none"
  }

  /** One report per check, in check order, whose target has no results. */
  function MissingReports(checks: seq<UnitTestCheck>, results: Results): seq<string>
  {
    if checks == [] then []
    else
      var last := checks[|checks| - 1];
      MissingReports(checks[..|checks| - 1], results)
        + (if last.extractFrom in results then [] else [FoundNone(last.extractFrom)])
  }

  /** `UnitTest::run`: walks from the test input with the input event, then
      reports, per check in order, a target that recorded no results. The
      conditions are evaluated by the source but their outcome is discarded. */
  method Run(test: UnitTest, ghost rank: map<string, nat>) returns (errors: seq<string>)
    requires WalkRanked(test.transforms, rank)
    ensures errors == MissingReports(test.checks,
                                     WalkSpec(test.transforms, rank, test.input.0, [test.input.1], map[]))
  {
    var results := Walk(test.input.0, [test.input.1], test.transforms, map[], rank);
    errors := [];
    var j := 0;
    while j < |test.checks|
      invariant 0 <= j <= |test.checks|
      invariant errors == MissingReports(test.checks[..j], results)
    {
      var check := test.checks[j];
      assert test.checks[..j + 1][..j] == test.checks[..j];
      if check.extractFrom !in results {
        errors := errors + [FoundNone(check.extractFrom)];
      }
      j := j + 1;
    }
    assert test.checks[..j] == test.checks;
  }

  /** The reports are exactly the checks whose target recorded nothing. */
  lemma {:induction false} MissingReportsExact(checks: seq<UnitTestCheck>, results: Results)
    ensures |MissingReports(checks, results)| <= |checks|
    ensures MissingReports(checks, results) == [] <==> forall j :: 0 <= j < |checks| ==> checks[j].extractFrom in results
  {
    if checks != [] {
      var init := checks[..|checks| - 1];
      MissingReportsExact(init, results);
      forall j | 0 <= j < |init| ensures init[j] == checks[j] { }
    }
  }

  /** A run reports nothing exactly when every check's target is reached
      from the test input. */
  lemma RunSucceedsIffTargetsReached(test: UnitTest, rank: map<string, nat>)
    requires WalkRanked(test.transforms, rank)
    ensures MissingReports(test.checks, WalkSpec(test.transforms, rank, test.input.0, [test.input.1], map[])) == []
        <==> forall j :: 0 <= j < |test.checks| ==> Visits(test.transforms, rank, test.input.0, test.checks[j].extractFrom)
  {
    WalkRecords(test.transforms, rank, test.input.0, [test.input.1], map[]);
    MissingReportsExact(test.checks, WalkSpec(test.transforms, rank, test.input.0, [test.input.1], map[]));
  }
}
