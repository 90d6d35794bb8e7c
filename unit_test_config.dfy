/**
 * The parts of the topology configuration the unit-test builder reads.
 * Transforms and conditions are foreign trait objects: a transform is the
 * function from one input event to the events `transform_into` appends,
 * a condition the predicate `check` computes, and each config's `build()`
 * is recorded as the outcome it returns.
 */
module UnitTestConfig {
  import opened Options
  import opened Results
  import opened Event

  /** `Box<dyn Transform>`: the events appended for one input. */
  type Transform = LogEvent -> seq<LogEvent>

  /** `Box<dyn Condition>`. */
  type Condition = LogEvent -> bool

  /** A configured transform: its `inputs` and what `inner.build()` returns. */
  datatype TransformConfig = TransformConfig(inputs: seq<string>, built: Result<Transform, string>)

  /** A test output condition: embedded (with what its `build()` returns) or a bare string. */
  datatype TestCondition =
    | Embedded(built: Result<Condition, string>)
    | StringCondition(text: string)

  datatype TestInput = TestInput(insertAt: string, typeStr: string, value: Option<string>)

  datatype TestOutput = TestOutput(extractFrom: string, conditions: map<string, TestCondition>)

  datatype TestDefinition = TestDefinition(name: string, input: TestInput, outputs: seq<TestOutput>)

  datatype Config = Config(transforms: map<string, TransformConfig>, tests: seq<TestDefinition>)
}
