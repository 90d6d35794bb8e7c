/**
 * Building unit tests from the configuration: `build_unit_test` inverts
 * the transform inputs, prunes the graph to the part between the test
 * input and its outputs, builds those transforms, the input event and the
 * output checks, accumulating every error; `build_unit_tests` builds every
 * test and gathers one indented message per failing test.
 */
module UnitTestBuild {
  import opened Options
  import opened Results
  import opened Event
  import Text
  import opened UnitTestConfig
  import opened UnitTestGraph
  import opened UnitTestRun

  // ---------------------------------------------------------------------
  // Messages

  function UnableToLocate(insertAt: string): string
  {
    "unable to locate test target '" + insertAt + "'"
  }

  function FailedToBuild(name: string, err: string): string
  {
    "failed to build transform '" + name + "': " + err
  }

  function UnableToComplete(insertAt: string, extractFrom: string): string
  {
    "unable to complete topology between input target '" + insertAt + "' and '" + extractFrom + "'"
  }

  const RawNeedsValue: string := "input type 'raw' requires the field 'value'"

  function UnrecognizedInput(typeStr: string): string
  {
    "unrecognized input type '" + typeStr + "', expected one of: 'raw'"
  }

  function FailedCondition(key: string, err: string): string
  {
    "failed to create test condition '" + key + "': " + err
  }

  function StringConditionUnsupported(key: string): string
  {
    "failed to create test condition '" + key + "': string conditions are not yet supported"
  }

  function TestHeader(name: string): string
  {
    "Failed to build test '" + name + "':\n"
  }

  /** The message for one failing test: its errors joined by line breaks,
      every line break indented with a tab, under a header line. */
  function TestFailure(name: string, errors: seq<string>): string
  {
    TestHeader(name) + Text.Indent(Text.Join(errors, "\n"))
  }

  // ---------------------------------------------------------------------
  // Unspecified iteration order

  /** `order` lists every element of `s` exactly once: one possible
      iteration order of a hash map with key set `s`. */
  ghost predicate Enumerates(order: seq<string>, s: set<string>)
  {
    && (forall i, j :: 0 <= i < j < |order| ==> order[i] != order[j])
    && (forall x :: x in order <==> x in s)
  }

  /** An enumeration has as many entries as the set has elements. */
  lemma {:induction false} EnumerationSize(order: seq<string>, s: set<string>)
    requires Enumerates(order, s)
    ensures |order| == |s|
  {
    if order == [] {
      assert s == {};
    } else {
      var init, x := order[..|order| - 1], order[|order| - 1];
      assert order == init + [x];
      assert Enumerates(init, s - {x});
      EnumerationSize(init, s - {x});
    }
  }

  /** Appending a new element extends an enumeration. */
  lemma EnumeratesSnoc(order: seq<string>, s: set<string>, x: string)
    requires Enumerates(order, s) && x !in s
    ensures Enumerates(order + [x], s + {x})
  {
    assert forall y :: y in order + [x] <==> y in order || y == x;
  }

  /** Collecting the keys of a set-like map into a `Vec`, in iteration order. */
  method SetToSeq(s: set<string>) returns (xs: seq<string>)
    ensures Enumerates(xs, s)
  {
    xs := [];
    var todo := s;
    while todo != {}
      invariant todo <= s
      invariant Enumerates(xs, s - todo)
      decreases todo
    {
      var x :| x in todo;
      EnumeratesSnoc(xs, s - todo, x);
      assert s - todo + {x} == s - (todo - {x});
      xs := xs + [x];
      todo := todo - {x};
    }
  }

  // ---------------------------------------------------------------------
  // Building the pruned transforms

  /** One message per named transform whose `build()` failed, in the order given. */
  function BuildFailures(cfg: map<string, TransformConfig>, names: seq<string>): seq<string>
  {
    if names == [] then []
    else
      var n := names[|names| - 1];
      BuildFailures(cfg, names[..|names| - 1])
        + (if n in cfg && cfg[n].built.Err? then [FailedToBuild(n, cfg[n].built.error)] else [])
  }

  lemma {:induction false} BuildFailuresLength(cfg: map<string, TransformConfig>, names: seq<string>)
    requires forall n :: n in names ==> n in cfg && cfg[n].built.Err?
    ensures |BuildFailures(cfg, names)| == |names|
  {
    if names != [] {
      BuildFailuresLength(cfg, names[..|names| - 1]);
    }
  }

  /** The configured transforms among `done` that are pruned-in and whose
      build succeeded (`ok`) or failed (`!ok`). */
  ghost function Settled(cfg: map<string, TransformConfig>, reduced: Graph, done: set<string>, ok: bool): set<string>
  {
    set n | n in reduced && n in cfg && n in done && cfg[n].built.Ok? == ok
  }

  /** The pruned map once the configured transforms in `done` are removed. */
  function Unvisited(cfg: map<string, TransformConfig>, reduced: Graph, done: set<string>): Graph
  {
    map k | k in reduced && (k !in cfg || k !in done) :: reduced[k]
  }

  lemma SettledStep(cfg: map<string, TransformConfig>, reduced: Graph, done: set<string>, name: string, ok: bool)
    requires name in cfg
    ensures Settled(cfg, reduced, done + {name}, ok)
      == if name in reduced && cfg[name].built.Ok? == ok then Settled(cfg, reduced, done, ok) + {name}
         else Settled(cfg, reduced, done, ok)
  {
  }

  lemma UnvisitedStep(cfg: map<string, TransformConfig>, reduced: Graph, done: set<string>, name: string)
    requires name in cfg
    ensures Unvisited(cfg, reduced, done + {name}) == Unvisited(cfg, reduced, done) - {name}
  {
  }

  lemma SettledAll(cfg: map<string, TransformConfig>, reduced: Graph)
    ensures Settled(cfg, reduced, cfg.Keys, true) == set n | n in reduced && n in cfg && cfg[n].built.Ok?
    ensures Settled(cfg, reduced, cfg.Keys, false) == set n | n in reduced && n in cfg && cfg[n].built.Err?
    ensures Unvisited(cfg, reduced, cfg.Keys) == map k | k in reduced && k !in cfg :: reduced[k]
  {
  }

  /** `t` is the test transform built from `config`, its `next` listing `outputs`. */
  ghost predicate TransformFor(config: TransformConfig, outputs: set<string>, t: UnitTestTransform)
  {
    config.built == Ok(t.transform) && Enumerates(t.next, outputs)
  }

  /** The state of the build loop once the configured transforms in `done`
      have been visited. */
  ghost predicate BuiltUpTo(cfg: map<string, TransformConfig>, reduced: Graph, done: set<string>,
                            transforms: map<string, UnitTestTransform>, errors: seq<string>, remaining: Graph,
                            failed: seq<string>)
  {
    && remaining == Unvisited(cfg, reduced, done)
    && transforms.Keys == Settled(cfg, reduced, done, true)
    && (forall n :: n in transforms ==> n in cfg && n in reduced && TransformFor(cfg[n], reduced[n], transforms[n]))
    && Enumerates(failed, Settled(cfg, reduced, done, false))
    && errors == BuildFailures(cfg, failed)
  }

  /** Visiting a configured transform that is not pruned-in changes nothing. */
  lemma BuiltSkip(cfg: map<string, TransformConfig>, reduced: Graph, done: set<string>,
                  transforms: map<string, UnitTestTransform>, errors: seq<string>, remaining: Graph,
                  failed: seq<string>, name: string)
    requires BuiltUpTo(cfg, reduced, done, transforms, errors, remaining, failed)
    requires name in cfg && name !in done && name !in remaining
    ensures BuiltUpTo(cfg, reduced, done + {name}, transforms, errors, remaining, failed)
  {
    SettledStep(cfg, reduced, done, name, true);
    SettledStep(cfg, reduced, done, name, false);
    UnvisitedStep(cfg, reduced, done, name);
  }

  /** Visiting a pruned-in transform that builds adds it to the transforms. */
  lemma BuiltOk(cfg: map<string, TransformConfig>, reduced: Graph, done: set<string>,
                transforms: map<string, UnitTestTransform>, errors: seq<string>, remaining: Graph,
                failed: seq<string>, name: string, t: UnitTestTransform)
    requires BuiltUpTo(cfg, reduced, done, transforms, errors, remaining, failed)
    requires name in cfg && name !in done && name in remaining
    requires TransformFor(cfg[name], remaining[name], t)
    ensures BuiltUpTo(cfg, reduced, done + {name}, transforms[name := t], errors, remaining - {name}, failed)
  {
    SettledStep(cfg, reduced, done, name, true);
    SettledStep(cfg, reduced, done, name, false);
    UnvisitedStep(cfg, reduced, done, name);
  }

  /** Visiting a pruned-in transform whose build fails records its error. */
  lemma BuiltErr(cfg: map<string, TransformConfig>, reduced: Graph, done: set<string>,
                 transforms: map<string, UnitTestTransform>, errors: seq<string>, remaining: Graph,
                 failed: seq<string>, name: string, err: string)
    requires BuiltUpTo(cfg, reduced, done, transforms, errors, remaining, failed)
    requires name in cfg && name !in done && name in remaining && cfg[name].built == Err(err)
    ensures BuiltUpTo(cfg, reduced, done + {name}, transforms, errors + [FailedToBuild(name, err)],
                      remaining - {name}, failed + [name])
  {
    SettledStep(cfg, reduced, done, name, true);
    SettledStep(cfg, reduced, done, name, false);
    UnvisitedStep(cfg, reduced, done, name);
    EnumeratesSnoc(failed, Settled(cfg, reduced, done, false), name);
    assert (failed + [name])[..|failed|] == failed;
  }

  /** The loop over the configured transforms: each one still in the pruned
      map is removed from it and built; a successful build becomes a unit-test
      transform whose `next` lists its pruned outputs, a failed one an error. */
  method BuildTransforms(cfg: map<string, TransformConfig>, reduced: Graph)
    returns (transforms: map<string, UnitTestTransform>, errors: seq<string>, remaining: Graph,
             ghost failed: seq<string>)
    ensures remaining == map k | k in reduced && k !in cfg :: reduced[k]
    ensures transforms.Keys == set n | n in reduced && n in cfg && cfg[n].built.Ok?
    ensures forall n :: n in transforms ==> n in cfg && n in reduced && TransformFor(cfg[n], reduced[n], transforms[n])
    ensures Enumerates(failed, set n | n in reduced && n in cfg && cfg[n].built.Err?)
    ensures errors == BuildFailures(cfg, failed)
  {
    transforms, errors, remaining, failed := map[], [], reduced, [];
    ghost var done: set<string> := {};
    var todo := cfg.Keys;
    while todo != {}
      invariant todo <= cfg.Keys && done == cfg.Keys - todo
      invariant BuiltUpTo(cfg, reduced, done, transforms, errors, remaining, failed)
      decreases todo
    {
      var name :| name in todo;
      assert done + {name} == cfg.Keys - (todo - {name});
      if name in remaining {
        var outputs := remaining[name];
        match cfg[name].built {
          case Ok(transform) =>
            var next := SetToSeq(outputs);
            BuiltOk(cfg, reduced, done, transforms, errors, remaining, failed, name, UnitTestTransform(transform, next));
            transforms := transforms[name := UnitTestTransform(transform, next)];
          case Err(err) =>
            BuiltErr(cfg, reduced, done, transforms, errors, remaining, failed, name, err);
            errors := errors + [FailedToBuild(name, err)];
            failed := failed + [name];
        }
        remaining := remaining - {name};
      } else {
        BuiltSkip(cfg, reduced, done, transforms, errors, remaining, failed, name);
      }
      todo := todo - {name};
      done := done + {name};
    }
    assert done == cfg.Keys;
    SettledAll(cfg, reduced);
  }

  // ---------------------------------------------------------------------
  // Declared outputs, input event, checks

  /** The declared outputs' targets (the `leaves` map's keys). */
  function Leaves(outputs: seq<TestOutput>): set<string>
  {
    set j | 0 <= j < |outputs| :: outputs[j].extractFrom
  }

  /** One message per declared output, in order, whose target is not a key
      of `remaining`. */
  function TopologyReports(insertAt: string, outputs: seq<TestOutput>, remaining: Graph): seq<string>
  {
    if outputs == [] then []
    else
      var o := outputs[|outputs| - 1];
      TopologyReports(insertAt, outputs[..|outputs| - 1], remaining)
        + (if o.extractFrom in remaining then [] else [UnableToComplete(insertAt, o.extractFrom)])
  }

  /** The `for_each` over the declared outputs that reports an incomplete topology. */
  method ReportIncomplete(insertAt: string, outputs: seq<TestOutput>, remaining: Graph) returns (errors: seq<string>)
    ensures errors == TopologyReports(insertAt, outputs, remaining)
  {
    errors := [];
    var j := 0;
    while j < |outputs|
      invariant 0 <= j <= |outputs|
      invariant errors == TopologyReports(insertAt, outputs[..j], remaining)
    {
      assert outputs[..j + 1][..j] == outputs[..j];
      if outputs[j].extractFrom !in remaining {
        errors := errors + [UnableToComplete(insertAt, outputs[j].extractFrom)];
      }
      j := j + 1;
    }
    assert outputs[..j] == outputs;
  }

  /** The input event and the errors building it: only the `raw` type with
      a value is supported; otherwise the event is built from "". */
  function InputEvent(input: TestInput): (r: (LogEvent, seq<string>))
    ensures r.1 == [] <==> input.typeStr == "raw" && input.value.Some?
    ensures r.1 == [] ==> r.0 == FromMessage(input.value.value)
    ensures r.1 != [] ==> r.0 == FromMessage("") && |r.1| == 1
  {
    if input.typeStr == "raw" then
      match input.value
      case Some(v) => (FromMessage(v), [])
      case None => (FromMessage(""), [RawNeedsValue])
    else
      (FromMessage(""), [UnrecognizedInput(input.typeStr)])
  }

  /** The message, if any, for one test condition. */
  function ConditionReport(conditions: map<string, TestCondition>, key: string): seq<string>
  {
    if key !in conditions then []
    else
      match conditions[key]
      case Embedded(built) => if built.Err? then [FailedCondition(key, built.error)] else []
      case StringCondition(_) => [StringConditionUnsupported(key)]
  }

  /** The messages for one output's conditions, in the order given. */
  function ConditionReports(conditions: map<string, TestCondition>, order: seq<string>): seq<string>
  {
    if order == [] then []
    else ConditionReports(conditions, order[..|order| - 1]) + ConditionReport(conditions, order[|order| - 1])
  }

  /** The messages for every output's conditions, output by output. */
  function AllConditionReports(outputs: seq<TestOutput>, orders: seq<seq<string>>): seq<string>
    requires |orders| == |outputs|
  {
    if outputs == [] then []
    else
      AllConditionReports(outputs[..|outputs| - 1], orders[..|orders| - 1])
        + ConditionReports(outputs[|outputs| - 1].conditions, orders[|orders| - 1])
  }

  /** The conditions among `keys` that are embedded and built. */
  function BuiltConditions(conditions: map<string, TestCondition>, keys: set<string>): map<string, Condition>
  {
    map k | k in conditions && k in keys && conditions[k].Embedded? && conditions[k].built.Ok?
      :: conditions[k].built.value
  }

  /** Building one output's conditions, in iteration order: a built
      embedded condition is kept, a failing one and every string condition
      are reported. */
  method BuildConditions(conditions: map<string, TestCondition>)
    returns (built: map<string, Condition>, errors: seq<string>, ghost order: seq<string>)
    ensures Enumerates(order, conditions.Keys)
    ensures built == BuiltConditions(conditions, conditions.Keys)
    ensures errors == ConditionReports(conditions, order)
  {
    built, errors, order := map[], [], [];
    ghost var done: set<string> := {};
    var todo := conditions.Keys;
    while todo != {}
      invariant todo <= conditions.Keys && done == conditions.Keys - todo
      invariant Enumerates(order, done)
      invariant built == BuiltConditions(conditions, done)
      invariant errors == ConditionReports(conditions, order)
      decreases todo
    {
      var k :| k in todo;
      assert done + {k} == conditions.Keys - (todo - {k});
      EnumeratesSnoc(order, done, k);
      BuiltConditionsStep(conditions, done, k);
      ConditionReportsSnoc(conditions, order, k);
      built, errors := AddCondition(conditions, k, built, errors);
      order := order + [k];
      todo := todo - {k};
      done := done + {k};
    }
  }

  /** One pass of the loop over the conditions: a built embedded condition
      is kept, a failing one and a string condition add their message. */
  method AddCondition(conditions: map<string, TestCondition>, k: string, built: map<string, Condition>, errors: seq<string>)
    returns (built': map<string, Condition>, errors': seq<string>)
    requires k in conditions
    ensures built' == if conditions[k].Embedded? && conditions[k].built.Ok? then built[k := conditions[k].built.value] else built
    ensures errors' == errors + ConditionReport(conditions, k)
  {
    built', errors' := built, errors;
    match conditions[k] {
      case Embedded(b) =>
        match b {
          case Ok(c) => built' := built[k := c];
          case Err(e) => errors' := errors + [FailedCondition(k, e)];
        }
      case StringCondition(_) =>
        errors' := errors + [StringConditionUnsupported(k)];
    }
  }

  lemma ConditionReportsSnoc(conditions: map<string, TestCondition>, order: seq<string>, k: string)
    ensures ConditionReports(conditions, order + [k]) == ConditionReports(conditions, order) + ConditionReport(conditions, k)
  {
    assert (order + [k])[..|order|] == order;
  }

  lemma BuiltConditionsStep(conditions: map<string, TestCondition>, keys: set<string>, k: string)
    requires k in conditions && k !in keys
    ensures BuiltConditions(conditions, keys + {k})
      == if conditions[k].Embedded? && conditions[k].built.Ok?
         then BuiltConditions(conditions, keys)[k := conditions[k].built.value]
         else BuiltConditions(conditions, keys)
  {
  }


  /** `check` is the check built for `output`, its conditions taken in `order`. */
  ghost predicate CheckFor(output: TestOutput, check: UnitTestCheck, order: seq<string>)
  {
    && check == UnitTestCheck(output.extractFrom, BuiltConditions(output.conditions, output.conditions.Keys))
    && Enumerates(order, output.conditions.Keys)
  }

  /** The first `j` outputs have their checks, condition orders and
      reports. */
  ghost predicate ChecksUpTo(outputs: seq<TestOutput>, j: nat, checks: seq<UnitTestCheck>, errors: seq<string>,
                             orders: seq<seq<string>>)
    requires j <= |outputs|
  {
    && |checks| == j && |orders| == j
    && (forall i :: 0 <= i < j ==> CheckFor(outputs[i], checks[i], orders[i]))
    && errors == AllConditionReports(outputs[..j], orders)
  }

  lemma ChecksUpToStep(outputs: seq<TestOutput>, j: nat, checks: seq<UnitTestCheck>, errors: seq<string>,
                       orders: seq<seq<string>>, check: UnitTestCheck, errs: seq<string>, order: seq<string>)
    requires j < |outputs| && ChecksUpTo(outputs, j, checks, errors, orders)
    requires CheckFor(outputs[j], check, order) && errs == ConditionReports(outputs[j].conditions, order)
    ensures ChecksUpTo(outputs, j + 1, checks + [check], errors + errs, orders + [order])
  {
    assert outputs[..j + 1][..j] == outputs[..j];
    assert (orders + [order])[..j] == orders;
  }

  /** Building the output checks, output by output. */
  method BuildChecks(outputs: seq<TestOutput>)
    returns (checks: seq<UnitTestCheck>, errors: seq<string>, ghost orders: seq<seq<string>>)
    ensures |checks| == |outputs| && |orders| == |outputs|
    ensures forall j :: 0 <= j < |outputs| ==> CheckFor(outputs[j], checks[j], orders[j])
    ensures errors == AllConditionReports(outputs, orders)
  {
    checks, errors, orders := [], [], [];
    for j := 0 to |outputs|
      invariant ChecksUpTo(outputs, j, checks, errors, orders)
    {
      var conditions, errs, order := BuildConditions(outputs[j].conditions);
      var check := UnitTestCheck(outputs[j].extractFrom, conditions);
      ChecksUpToStep(outputs, j, checks, errors, orders, check, errs, order);
      checks, errors, orders := checks + [check], errors + errs, orders + [order];
    }
    assert outputs[..|outputs|] == outputs;
  }

  // ---------------------------------------------------------------------
  // build_unit_test

  /** The transform graph pruned to the part between the test input and
      its declared outputs. */
  ghost function Pruned(def: TestDefinition, cfg: Config, rank: map<string, nat>): Graph
    requires Ranked(OutputsOf(cfg.transforms), rank)
  {
    Reduced(OutputsOf(cfg.transforms), Leaves(def.outputs), rank, def.input.insertAt)
  }

  /** The pruned-in transforms whose build fails. */
  ghost function FailingBuilds(def: TestDefinition, cfg: Config, rank: map<string, nat>): set<string>
    requires Ranked(OutputsOf(cfg.transforms), rank)
  {
    var p := Pruned(def, cfg, rank);
    set n | n in p && n in cfg.transforms && cfg.transforms[n].built.Err?
  }

  /** What is left of the pruned map after the build loop has removed every
      configured transform from it. */
  ghost function Remaining(def: TestDefinition, cfg: Config, rank: map<string, nat>): Graph
    requires Ranked(OutputsOf(cfg.transforms), rank)
  {
    var p := Pruned(def, cfg, rank);
    map k | k in p && k !in cfg.transforms :: p[k]
  }

  /** `failed` and `orders` are iteration orders `build_unit_test` can take:
      the failing builds in the order met, and each output's condition keys. */
  ghost predicate Iteration(def: TestDefinition, cfg: Config, rank: map<string, nat>,
                            failed: seq<string>, orders: seq<seq<string>>)
    requires Ranked(OutputsOf(cfg.transforms), rank)
  {
    && |orders| == |def.outputs|
    && (def.input.insertAt in cfg.transforms ==> Enumerates(failed, FailingBuilds(def, cfg, rank)))
    && (def.input.insertAt in cfg.transforms && BuildFailures(cfg.transforms, failed) == [] ==>
          forall j :: 0 <= j < |def.outputs| ==> Enumerates(orders[j], def.outputs[j].conditions.Keys))
  }

  /** The errors `build_unit_test` reports, for the given iteration orders:
      an unknown input target alone; otherwise the failed builds alone;
      otherwise the incomplete topologies, the input event's error and the
      conditions' errors, in that order. */
  ghost function ExpectedErrors(def: TestDefinition, cfg: Config, rank: map<string, nat>,
                                failed: seq<string>, orders: seq<seq<string>>): seq<string>
    requires Ranked(OutputsOf(cfg.transforms), rank)
    requires |orders| == |def.outputs|
  {
    if def.input.insertAt !in cfg.transforms then [UnableToLocate(def.input.insertAt)]
    else
      var builds := BuildFailures(cfg.transforms, failed);
      if builds != [] then builds
      else
        TopologyReports(def.input.insertAt, def.outputs, Remaining(def, cfg, rank))
          + InputEvent(def.input).1
          + AllConditionReports(def.outputs, orders)
  }

  /** A test that builds: its input target exists, it declares no output
      and its input is a `raw` event with a value. */
  ghost predicate Builds(def: TestDefinition, cfg: Config)
  {
    && def.input.insertAt in cfg.transforms
    && def.outputs == []
    && def.input.typeStr == "raw"
    && def.input.value.Some?
  }

  /** The second half of `build_unit_test`, once the transforms are built:
      the declared outputs checked against `remaining`, the input event and
      the checks; the test if none of these reported an error. */
  method Assemble(def: TestDefinition, transforms: map<string, UnitTestTransform>, remaining: Graph)
    returns (r: Result<UnitTest, seq<string>>, ghost orders: seq<seq<string>>)
    ensures |orders| == |def.outputs|
    ensures forall j :: 0 <= j < |def.outputs| ==> Enumerates(orders[j], def.outputs[j].conditions.Keys)
    ensures var errors := TopologyReports(def.input.insertAt, def.outputs, remaining)
                          + InputEvent(def.input).1 + AllConditionReports(def.outputs, orders);
      && (errors != [] ==> r == Err(errors))
      && (errors == [] ==>
            && r.Ok?
            && r.value.name == def.name
            && r.value.input == (def.input.insertAt, InputEvent(def.input).0)
            && r.value.transforms == transforms
            && |r.value.checks| == |def.outputs|)
  {
    var errors := ReportIncomplete(def.input.insertAt, def.outputs, remaining);
    var input := InputEvent(def.input);
    errors := errors + input.1;
    var checks, conditionErrors;
    checks, conditionErrors, orders := BuildChecks(def.outputs);
    errors := errors + conditionErrors;
    if errors != [] {
      r := Err(errors);
    } else {
      r := Ok(UnitTest(def.name, (def.input.insertAt, input.0), transforms, checks));
    }
  }

  method BuildUnitTest(def: TestDefinition, cfg: Config, ghost rank: map<string, nat>)
    returns (r: Result<UnitTest, seq<string>>, ghost failed: seq<string>, ghost orders: seq<seq<string>>)
    requires Ranked(OutputsOf(cfg.transforms), rank)
    ensures Iteration(def, cfg, rank, failed, orders)
    ensures r.Err? <==> ExpectedErrors(def, cfg, rank, failed, orders) != []
    ensures r.Err? ==> r.error == ExpectedErrors(def, cfg, rank, failed, orders)
    ensures r.Ok? <==> Builds(def, cfg)
    ensures r.Ok? ==>
      && r.value.name == def.name
      && r.value.input == (def.input.insertAt, InputEvent(def.input).0)
      && r.value.transforms.Keys == Pruned(def, cfg, rank).Keys
      && (forall n :: n in r.value.transforms ==>
            && n in cfg.transforms && cfg.transforms[n].built == Ok(r.value.transforms[n].transform)
            && n in Pruned(def, cfg, rank) && Enumerates(r.value.transforms[n].next, Pruned(def, cfg, rank)[n]))
      && WalkRanked(r.value.transforms, rank)
      && |r.value.checks| == |def.outputs|
  {
    failed := [];
    orders := seq(|def.outputs|, _ => []);
    var outputs := InvertInputs(cfg.transforms);
    if def.input.insertAt !in outputs {
      r := Err([UnableToLocate(def.input.insertAt)]);
      return;
    }
    var leaves := Leaves(def.outputs);
    var reduced := ReduceTransforms(def.input.insertAt, leaves, outputs, rank);
    ghost var pruned := Pruned(def, cfg, rank);
    assert reduced == pruned;
    var transforms, errors, remaining;
    transforms, errors, remaining, failed := BuildTransforms(cfg.transforms, reduced);
    assert Enumerates(failed, FailingBuilds(def, cfg, rank));
    if errors != [] {
      r := Err(errors);
      BuildsExactly(def, cfg, rank, failed, orders);
      return;
    }
    BuildFailuresLength(cfg.transforms, failed);
    EnumerationSize(failed, FailingBuilds(def, cfg, rank));
    assert remaining == Remaining(def, cfg, rank);
    r, orders := Assemble(def, transforms, remaining);
    BuildsExactly(def, cfg, rank, failed, orders);
    if r.Ok? {
      ReducedIsLinkedSubgraph(outputs, leaves, rank, def.input.insertAt);
      assert transforms.Keys == pruned.Keys by {
        forall n | n in pruned ensures n in transforms {
          assert n !in FailingBuilds(def, cfg, rank);
        }
      }
    }
  }

  /** With no declared output there are no leaves, so nothing links. */
  lemma {:induction false} NoLeavesNoLinks(g: Graph, rank: map<string, nat>, t: string)
    requires Ranked(g, rank)
    ensures !Links(g, {}, rank, t)
    decreases Height(rank, t)
  {
    if t in g {
      forall c | c in g[t] ensures !Links(g, {}, rank, c) {
        NoLeavesNoLinks(g, rank, c);
      }
    }
  }

  /** Every declared output is reported when nothing remains. */
  lemma {:induction false} AllReported(insertAt: string, outputs: seq<TestOutput>)
    ensures TopologyReports(insertAt, outputs, map[])
      == seq(|outputs|, j requires 0 <= j < |outputs| => UnableToComplete(insertAt, outputs[j].extractFrom))
  {
    if outputs != [] {
      var init := outputs[..|outputs| - 1];
      AllReported(insertAt, init);
    }
  }

  /** The build loop removes every configured transform from the pruned
      map, and the pruned map only holds configured transforms, so the
      topology check runs against an empty map: once the input target exists
      and every pruned-in transform builds, every declared output is
      reported as an incomplete topology. */
  lemma TopologyCheckSeesEmptyMap(def: TestDefinition, cfg: Config, rank: map<string, nat>)
    requires Ranked(OutputsOf(cfg.transforms), rank)
    ensures Remaining(def, cfg, rank) == map[]
    ensures TopologyReports(def.input.insertAt, def.outputs, Remaining(def, cfg, rank))
      == seq(|def.outputs|, j requires 0 <= j < |def.outputs| => UnableToComplete(def.input.insertAt, def.outputs[j].extractFrom))
  {
    ReducedIsLinkedSubgraph(OutputsOf(cfg.transforms), Leaves(def.outputs), rank, def.input.insertAt);
    AllReported(def.input.insertAt, def.outputs);
  }

  /** A test that declares no output has nothing to prune towards, so its
      pruned graph is empty. */
  lemma PrunedEmptyWithoutOutputs(def: TestDefinition, cfg: Config, rank: map<string, nat>)
    requires Ranked(OutputsOf(cfg.transforms), rank)
    requires def.outputs == []
    ensures Pruned(def, cfg, rank) == map[]
  {
    assert Leaves(def.outputs) == {};
    NoLeavesNoLinks(OutputsOf(cfg.transforms), rank, def.input.insertAt);
  }

  /** A test builds exactly when its input target exists, it declares no
      output and its input is a `raw` event with a value. */
  lemma BuildsExactly(def: TestDefinition, cfg: Config, rank: map<string, nat>,
                      failed: seq<string>, orders: seq<seq<string>>)
    requires Ranked(OutputsOf(cfg.transforms), rank)
    requires Iteration(def, cfg, rank, failed, orders)
    ensures ExpectedErrors(def, cfg, rank, failed, orders) == [] <==> Builds(def, cfg)
  {
    if def.input.insertAt in cfg.transforms {
      TopologyCheckSeesEmptyMap(def, cfg, rank);
      var failing := FailingBuilds(def, cfg, rank);
      if def.outputs == [] {
        PrunedEmptyWithoutOutputs(def, cfg, rank);
        assert failing == {};
        EnumerationSize(failed, failing);
      } else if failing != {} {
        var n :| n in failing;
        BuildFailuresLength(cfg.transforms, failed);
        assert n in failed;
      } else {
        EnumerationSize(failed, failing);
        assert |TopologyReports(def.input.insertAt, def.outputs, Remaining(def, cfg, rank))| > 0;
      }
    }
  }

  // ---------------------------------------------------------------------
  // build_unit_tests

  /** A failing test's message gives back its header and, once unindented,
      its errors joined by line breaks. */
  lemma TestFailureRecoversErrors(name: string, errors: seq<string>)
    ensures var m := TestFailure(name, errors);
      && |TestHeader(name)| <= |m|
      && m[..|TestHeader(name)|] == TestHeader(name)
      && Text.Unindent(m[|TestHeader(name)|..]) == Text.Join(errors, "\n")
  {
    var h, body := TestHeader(name), Text.Indent(Text.Join(errors, "\n"));
    assert (h + body)[..|h|] == h;
    assert (h + body)[|h|..] == body;
    Text.UnindentIndent(Text.Join(errors, "\n"));
  }

  /** The tests that do not build, in order. */
  ghost function FailingTests(tests: seq<TestDefinition>, cfg: Config): seq<TestDefinition>
  {
    if tests == [] then []
    else
      var t := tests[|tests| - 1];
      FailingTests(tests[..|tests| - 1], cfg) + (if Builds(t, cfg) then [] else [t])
  }

  lemma {:induction false} NoFailingTests(tests: seq<TestDefinition>, cfg: Config)
    ensures FailingTests(tests, cfg) == [] <==> forall j :: 0 <= j < |tests| ==> Builds(tests[j], cfg)
  {
    if tests != [] {
      var init := tests[..|tests| - 1];
      NoFailingTests(init, cfg);
      assert forall j :: 0 <= j < |init| ==> init[j] == tests[j];
    }
  }

  lemma FailingTestsSnoc(tests: seq<TestDefinition>, i: nat, cfg: Config)
    requires i < |tests|
    ensures FailingTests(tests[..i + 1], cfg)
      == FailingTests(tests[..i], cfg) + (if Builds(tests[i], cfg) then [] else [tests[i]])
  {
    assert tests[..i + 1][..i] == tests[..i];
  }

  /** The test `build_unit_test` returns for a definition that builds: a
      building test declares no output, so the pruned graph, and with it
      the transform map, is empty and there are no checks; the input event
      carries the `raw` value. */
  function BuiltTest(def: TestDefinition): UnitTest
  {
    UnitTest(def.name, (def.input.insertAt, FromMessage(def.input.value.UnwrapOr(""))), map[], [])
  }

  /** `message` is what `build_unit_tests` reports for `def`, for some
      iteration orders `build_unit_test` can take. */
  ghost predicate FailureReport(message: string, def: TestDefinition, cfg: Config, rank: map<string, nat>)
    requires Ranked(OutputsOf(cfg.transforms), rank)
  {
    exists failed, orders :: Iteration(def, cfg, rank, failed, orders)
      && message == TestFailure(def.name, ExpectedErrors(def, cfg, rank, failed, orders))
  }

  /** The body of the loop over the tests: the built test, or its failure
      message. */
  method BuildOrReport(test: TestDefinition, cfg: Config, ghost rank: map<string, nat>)
    returns (r: Result<UnitTest, string>)
    requires Ranked(OutputsOf(cfg.transforms), rank)
    ensures r.Ok? <==> Builds(test, cfg)
    ensures r.Ok? ==> r.value == BuiltTest(test)
    ensures r.Err? ==> FailureReport(r.error, test, cfg, rank)
  {
    var res;
    ghost var failed, orders;
    res, failed, orders := BuildUnitTest(test, cfg, rank);
    match res {
      case Ok(t) =>
        PrunedEmptyWithoutOutputs(test, cfg, rank);
        assert t.transforms == map[];
        r := Ok(t);
      case Err(errs) =>
        r := Err(TestFailure(test.name, errs));
    }
  }

  /** Each message is the failure report of the test at the same position. */
  ghost predicate ReportsFor(messages: seq<string>, failing: seq<TestDefinition>, cfg: Config, rank: map<string, nat>)
    requires Ranked(OutputsOf(cfg.transforms), rank)
  {
    |messages| == |failing| && forall j :: 0 <= j < |failing| ==> FailureReport(messages[j], failing[j], cfg, rank)
  }

  lemma ReportsForSnoc(messages: seq<string>, failing: seq<TestDefinition>, cfg: Config, rank: map<string, nat>,
                       message: string, test: TestDefinition)
    requires Ranked(OutputsOf(cfg.transforms), rank)
    requires ReportsFor(messages, failing, cfg, rank) && FailureReport(message, test, cfg, rank)
    ensures ReportsFor(messages + [message], failing + [test], cfg, rank)
  {
  }

  /** Each built test is the one its definition builds. */
  ghost predicate BuiltFrom(tests: seq<UnitTest>, defs: seq<TestDefinition>)
  {
    |tests| == |defs| && forall j :: 0 <= j < |defs| ==> tests[j] == BuiltTest(defs[j])
  }

  /** After the first `n` tests: the tests built so far, one message per
      failing test, and which tests those are. */
  ghost predicate Collected(cfg: Config, rank: map<string, nat>, n: nat,
                            tests: seq<UnitTest>, errors: seq<string>, failing: seq<TestDefinition>)
    requires Ranked(OutputsOf(cfg.transforms), rank)
    requires n <= |cfg.tests|
  {
    && failing == FailingTests(cfg.tests[..n], cfg)
    && (failing == [] ==> BuiltFrom(tests, cfg.tests[..n]))
    && ReportsFor(errors, failing, cfg, rank)
  }

  /** The closure given to `for_each`: build the next test and push it, or
      push its failure message. */
  method Collect(cfg: Config, ghost rank: map<string, nat>, i: nat, tests: seq<UnitTest>, errors: seq<string>,
                 ghost failing: seq<TestDefinition>)
    returns (tests': seq<UnitTest>, errors': seq<string>, ghost failing': seq<TestDefinition>)
    requires Ranked(OutputsOf(cfg.transforms), rank)
    requires i < |cfg.tests|
    requires Collected(cfg, rank, i, tests, errors, failing)
    ensures Collected(cfg, rank, i + 1, tests', errors', failing')
  {
    var test := cfg.tests[i];
    FailingTestsSnoc(cfg.tests, i, cfg);
    var res := BuildOrReport(test, cfg, rank);
    match res {
      case Ok(t) =>
        assert cfg.tests[..i + 1] == cfg.tests[..i] + [test];
        tests', errors', failing' := tests + [t], errors, failing;
      case Err(message) =>
        ReportsForSnoc(errors, failing, cfg, rank, message, test);
        tests', errors', failing' := tests, errors + [message], failing + [test];
    }
  }

  /** The `for_each` over the tests: the tests built and one message per
      failing test, both in test order. */
  method BuildEach(cfg: Config, ghost rank: map<string, nat>) returns (tests: seq<UnitTest>, errors: seq<string>)
    requires Ranked(OutputsOf(cfg.transforms), rank)
    ensures FailingTests(cfg.tests, cfg) == [] ==> BuiltFrom(tests, cfg.tests)
    ensures ReportsFor(errors, FailingTests(cfg.tests, cfg), cfg, rank)
  {
    tests, errors := [], [];
    ghost var failing: seq<TestDefinition> := [];
    for i := 0 to |cfg.tests|
      invariant Collected(cfg, rank, i, tests, errors, failing)
    {
      tests, errors, failing := Collect(cfg, rank, i, tests, errors, failing);
    }
    assert cfg.tests[..|cfg.tests|] == cfg.tests;
  }

  method BuildUnitTests(cfg: Config, ghost rank: map<string, nat>) returns (r: Result<seq<UnitTest>, seq<string>>)
    requires Ranked(OutputsOf(cfg.transforms), rank)
    ensures r.Ok? <==> forall j :: 0 <= j < |cfg.tests| ==> Builds(cfg.tests[j], cfg)
    ensures r.Ok? ==> BuiltFrom(r.value, cfg.tests)
    ensures r.Err? ==> ReportsFor(r.error, FailingTests(cfg.tests, cfg), cfg, rank)
  {
    var tests, errors := BuildEach(cfg, rank);
    NoFailingTests(cfg.tests, cfg);
    if errors == [] {
      r := Ok(tests);
    } else {
      r := Err(errors);
    }
  }


}
