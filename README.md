# Vector unit-test topology and concat transform, in Dafny

This project models two pieces of the vector log pipeline and proves properties of them.

**Unit-test topology** (`src/topology/unit_test.rs`). A unit test names:
- an input target, where an event is inserted;
- a list of outputs, each with a target to extract from and some conditions.

Building a test goes through these steps:
1. Invert the configured transforms' `inputs` lists into an output-adjacency graph.
2. Prune that graph to the transforms between the input target and the declared outputs (`links_to_a_leaf` with its memo, then `reduce_transforms`).
3. Build each kept transform.
4. Check that every declared output is still reachable.
5. Build the input event and the output checks.

Every error is accumulated with its exact message. Running a test walks the pruned graph from the input target, recording each node's results. It reports every check whose target produced no entry. `build_unit_tests` builds all tests. It gathers one indented message per failing test.

**Concat transform** (`src/transforms/concat.rs`):
- `Substring::new` parses item specs of the form `field` or `field[start..end]`, with `u8` bounds.
- `ConcatConfig::build` parses every item, all or nothing.
- `Concat::transform` slices each present field's bytes, joins the slices with the joiner and writes the result to the target field.

## Modelling choices

- A log event is a `map<string, seq<byte>>`. `Event::from(s)` is defined outside the files modelled here. The model takes it to be the event with one field, `message`, holding the UTF-8 bytes of `s`.
- Transforms and conditions are trait objects whose code is not part of this model:
  - A transform is a function from one event to the events it appends.
  - A condition is a predicate on an event.
  - What each config's `build()` returns is recorded in the config as a `Result`.
- Hash-map iteration order is unspecified. The loops over maps and sets pick their next key by nondeterministic choice (`:|`). Where an error list or a `next` list depends on that order, the contract quantifies over the order:
  - a ghost out-parameter records the order taken;
  - `Enumerates` says that it lists each key exactly once.
- The source assumes the transform graph is acyclic. A ghost `rank` map stands for that assumption: every edge goes to a strictly lower rank. It serves as the termination measure of the recursive walks.
- Panics become an explicit `Panic` outcome. This covers the `assert!`/`unwrap` on a lone `.` inside brackets and an out-of-range `Bytes::slice`.
- `links_to_a_leaf` short-circuits with `||`. The children of a leaf are therefore never visited, so the memo it leaves holds the nodes `Explored` from the target: the target itself, plus the explored nodes of each non-leaf's outputs. That is not every node reachable from the target.
- The build loop removes every configured transform from the pruned map. The pruned map only ever holds configured transforms, so the later topology check always runs against an empty map. The model follows the code as written:
  - `UnitTestBuild.TopologyCheckSeesEmptyMap` proves that every declared output is reported as an incomplete topology.
  - `UnitTestBuild.BuildsExactly` proves the consequence: a test builds exactly when its input target exists, it declares no output, and its input is `raw` with a value.

## Model

| member | source | states |
|---|---|---|
| Event.FromMessage | src/topology/unit_test.rs:207-221 | the modelled `Event::from(s)` has the single field `message`, holding the string's UTF-8 bytes |
| Event.Utf8 | src/transforms/concat.rs:162 | the byte form of a string is no shorter than the string, and is empty exactly when the string is |
| Text.JoinLength | src/transforms/concat.rs:161-162 | a join is as long as its pieces plus one separator between each pair; the join of no pieces is empty |
| Text.UnindentIndent | src/topology/unit_test.rs:278-280 | replacing each line break by a line break and a tab can be undone, so the indented text determines the original |
| Text.IndentTabsEveryBreak | src/topology/unit_test.rs:279-280 | indenting adds exactly one character per line break, and every line break of the result is followed by a tab |
| ConcatSubstring.New | src/transforms/concat.rs:57-121 | the two nested peeking loops compute exactly the parser function `Parse` |
| ConcatSubstring.PlainName | src/transforms/concat.rs:107-120 | an input without `[` is a plain field name with no bounds; the empty input is rejected with "invalid format" |
| ConcatSubstring.BracketedRange | src/transforms/concat.rs:65-100 | `name[a..b]` gives the name and both bounds, each `None` when its digit run is empty or above 255; text after `]` is ignored |
| ConcatSubstring.BracketedEnd | src/transforms/concat.rs:86-100 | `name[b]` gives the name, no start and `b` as the end |
| ConcatSubstring.TrailingIgnored | src/transforms/concat.rs:90-100 | everything after the `]` that closes a well-formed range is ignored; the result is the name before `[`, the start bound parsed at the last `..` and the end bound parsed from the digits after it |
| ConcatSubstring.BadBracketChar | src/transforms/concat.rs:101-103 | inside brackets, any character other than a digit, `.` or `]` gives "invalid format, missing ']'" |
| ConcatSubstring.LonePeriodPanics | src/transforms/concat.rs:71-84 | a `.` inside brackets that is not followed by a second `.` panics |
| ConcatSubstring.Unterminated | src/transforms/concat.rs:63-120 | without `]`, the digits after the last `..` (or after `[`) become the field name, and the input is rejected when there are none |
| Concat.ParseItems | src/transforms/concat.rs:24-28 | the items parse iff each one does; then the result lists one parse per item in order; otherwise it is the failure of the first item that fails |
| Concat.Build | src/transforms/concat.rs:23-34 | building succeeds iff every item parses; then it keeps target and joiner and one substring per item in order; otherwise it returns the first item's failure |
| Concat.Present | src/transforms/concat.rs:146-160 | the items kept are exactly those whose source field exists in the event |
| Concat.Transform | src/transforms/concat.rs:142-170 | the transform never fails with an error; when it returns, the event gains the target field and every other field is unchanged |
| Concat.SlicesArePresentSlices | src/transforms/concat.rs:146-161 | slicing succeeds iff every present item's bounds lie within its field, and then yields the present items' slices in order |
| Concat.TransformJoinsPresentSlices | src/transforms/concat.rs:142-169 | the transform returns iff all present bounds are in range, and then sets the target to the present slices joined by the joiner's bytes |
| Concat.TargetLength | src/transforms/concat.rs:161-165 | the target holds the total length of the present slices plus one joiner between each pair of present pieces |
| Concat.MissingFieldSkipped | src/transforms/concat.rs:147-159 | an item whose field is missing has no effect: removing it does not change the transform's outcome |
| Concat.SlicesSkip | src/transforms/concat.rs:146-160 | removing an item whose field is missing does not change the slices |
| UnitTestGraph.InvertInputs | src/topology/unit_test.rs:141-153 | the output map has exactly the configured transform names as keys, and `k` is an output of `i` iff transform `k` lists `i` as an input |
| UnitTestGraph.AddOutput | src/topology/unit_test.rs:148-152 | `k` joins the output set of each listed input that is a key of the map; the keys and every other set are unchanged |
| UnitTestGraph.PartialOutputsStep | src/topology/unit_test.rs:147-153 | inverting one more transform adds it to the output sets of exactly the inputs it lists |
| UnitTestGraph.LinksToALeaf | src/topology/unit_test.rs:85-106 | the answer is whether the target is a leaf or has an output that links to one; the memo stays correct and closed, records the answer for the target, keeps its old entries and gains exactly the explored nodes |
| UnitTestGraph.CountLinkedOutputs | src/topology/unit_test.rs:95-100 | the count is positive iff some output of the target links to a leaf; every output ends up memoised, the memo stays correct, keeps its old entries, gains exactly the nodes explored from the outputs and never the target |
| UnitTestGraph.ReduceTransforms | src/topology/unit_test.rs:110-131 | the graph becomes empty when the root links to no leaf; otherwise it keeps the root with all its outputs and every explored linked node with only its linked outputs |
| UnitTestGraph.ReducedIsLinkedSubgraph | src/topology/unit_test.rs:115-130 | the pruned graph is a subgraph of the original whose nodes are the root or link to a leaf, and it stays acyclic |
| UnitTestRun.ApplyAppend | src/topology/unit_test.rs:40-42 | applying a transform to a concatenation of inputs gives the concatenation of the outputs |
| UnitTestRun.Walk | src/topology/unit_test.rs:30-50 | the recursive walk computes the walk function, and the node's own entry holds its transform's outputs for the inputs, appended in order |
| UnitTestRun.WalkRecords | src/topology/unit_test.rs:30-50 | after a walk, the results have an entry for every node reached from the start and keep every other entry; a reached node that is not a transform gets no events |
| UnitTestRun.WalkChildrenRecords | src/topology/unit_test.rs:46-48 | walking a list of children records every node reached from any of them and leaves the other entries unchanged |
| UnitTestRun.LastWriteWins | src/topology/unit_test.rs:46-49 | when several children reach a node, its entry after the walk is the one written by the last child that reaches it |
| UnitTestRun.DiamondLastWriteWins | src/topology/unit_test.rs:46-49 | in a diamond a to b and c to d, the entry of d is the one written by the last walk through c |
| UnitTestRun.Run | src/topology/unit_test.rs:53-80 | the errors are exactly one "found none" message per check, in order, whose target has no entry in the walk results |
| UnitTestRun.MissingReportsExact | src/topology/unit_test.rs:64-77 | there is at most one message per check, and none iff every check's target has an entry |
| UnitTestRun.RunSucceedsIffTargetsReached | src/topology/unit_test.rs:57-79 | a run reports nothing iff the walk from the input target reaches every check's target |
| UnitTestBuild.SetToSeq | src/topology/unit_test.rs:183 | collecting a set's keys lists each exactly once |
| UnitTestBuild.EnumerationSize | src/topology/unit_test.rs:183 | a list of a set's keys that holds each exactly once is as long as the set |
| UnitTestBuild.BuildFailuresLength | src/topology/unit_test.rs:187-189 | every failed transform build contributes exactly one message |
| UnitTestBuild.BuildTransforms | src/topology/unit_test.rs:172-192 | every configured name is removed from the pruned map; each kept transform whose build succeeds becomes a test transform listing its outputs; each failed one adds one message |
| UnitTestBuild.ReportIncomplete | src/topology/unit_test.rs:197-204 | one "unable to complete topology" message per declared output, in order, whose target is not in the remaining map |
| UnitTestBuild.InputEvent | src/topology/unit_test.rs:207-221 | the input adds no error iff its type is `raw` with a value, and then the event carries that value; otherwise exactly one error and the event built from "" |
| UnitTestBuild.BuildConditions | src/topology/unit_test.rs:227-251 | the built conditions are exactly the embedded ones whose build succeeds; each failing or string condition adds its message, in iteration order |
| UnitTestBuild.AddCondition | src/topology/unit_test.rs:229-246 | an embedded condition that builds is inserted under its key; a failing embedded condition or a string condition leaves the map alone and appends its one message |
| UnitTestBuild.BuildChecks | src/topology/unit_test.rs:226-256 | one check per declared output, in order, with its target and its built conditions; the errors are the outputs' condition errors, output by output |
| UnitTestBuild.Assemble | src/topology/unit_test.rs:197-264 | the topology, input and condition errors are gathered in that order; the test is returned iff there are none |
| UnitTestBuild.BuildUnitTest | src/topology/unit_test.rs:133-265 | the errors are exactly the expected ones for the iteration orders taken; success comes iff the test builds, and the built test keeps the pruned transforms with their outputs and stays acyclic |
| UnitTestBuild.NoLeavesNoLinks | src/topology/unit_test.rs:162-170 | with no declared output, no node links to a leaf, so the pruned graph is empty |
| UnitTestBuild.AllReported | src/topology/unit_test.rs:197-204 | against an empty map, every declared output is reported, in order |
| UnitTestBuild.TopologyCheckSeesEmptyMap | src/topology/unit_test.rs:172-204 | after the build loop nothing remains of the pruned map, so every declared output is reported as an incomplete topology |
| UnitTestBuild.PrunedEmptyWithoutOutputs | src/topology/unit_test.rs:162-170 | a test that declares no output has an empty pruned graph |
| UnitTestBuild.BuildsExactly | src/topology/unit_test.rs:155-264 | a test yields no error iff its input target exists, it declares no output and its input is `raw` with a value |
| UnitTestBuild.TestFailureRecoversErrors | src/topology/unit_test.rs:276-280 | a failing test's message starts with its header, and unindenting the rest gives back its errors joined by line breaks |
| UnitTestBuild.NoFailingTests | src/topology/unit_test.rs:286-289 | no test fails iff every test builds |
| UnitTestBuild.BuildOrReport | src/topology/unit_test.rs:273-284 | a test builds iff it meets the build condition, and then yields the whole built test: its name, its input target with the event of its `raw` value, no transforms and no checks; otherwise it yields its failure message |
| UnitTestBuild.Collect | src/topology/unit_test.rs:274-283 | after one more test, the built tests (each the whole test its definition builds, when none failed so far), the messages and the list of failing tests still match the tests seen |
| UnitTestBuild.BuildEach | src/topology/unit_test.rs:271-284 | when no test fails there is one built test per test, in order, each the whole test its definition builds; there is one message per failing test, in order, each the failure report of that test |
| UnitTestBuild.BuildUnitTests | src/topology/unit_test.rs:267-290 | the tests are returned iff every test builds, one per test in order, each with its name, its input target and event, no transforms and no checks; otherwise there is exactly one message per failing test, in order, made of its header and its indented errors |

## Left out

- The `println!` dump of every field at the end of `Concat::transform` is I/O.
- The bodies of `Transform::transform_into`, `Condition::check` and of the transform and condition configs' `build()` are not part of this model. They are parameters: functions and recorded outcomes.
- Transforms are pure functions here. A stateful transform, which `walk` reaches through `&mut`, can behave differently on each call. That is not captured.
- `UnitTest` is a value, not an object updated in place. `run` borrows it mutably only to reach the transforms. `walk` takes the results map and returns the updated map instead of mutating it through `&mut`.
- `UnitTestRun.Run`: the condition checks inside `run` add no error in the source, so their outcomes are not modelled.
- `Event.FromMessage`: any default field other than `message` that `Event::from` may add is not modelled. That includes a timestamp taken from the clock.
- `Event`/`LogEvent` internals, `ValueKind` and `Atom` interning are not modelled. Field values are byte sequences.
- The serde/typetag/`inventory` registration is framework glue. So are the constant `input_type`, `output_type` and `transform_type` methods.
- Cyclic transform graphs are excluded by the rank precondition, which asks more than the source needs. `links_to_a_leaf` has no cycle guard, so it runs forever only on a cycle it reaches from the input target through non-leaf nodes. The precondition also excludes configurations the source handles: a cycle among transforms no test reaches, and a cycle reached only through a declared output's target, where the `||` stops before the leaf's outputs.
- The `TestDefinition`/`Config` deserialisation is not part of this model. Neither is the `Atom` type of concat items.
- `UnitTestGraph.LinksToALeaf`: the memo gains the explored nodes, not every node reachable from the target. A leaf's outputs are never visited because of the short-circuiting `||`.
- `UnitTestBuild.Assemble`: on success it states how many checks there are, not their contents. `UnitTestBuild.BuildChecks` states those.
