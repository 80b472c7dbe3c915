/**
 * The records the benchmark passes around (`Algorithm`, `BenchmarkExecutionResult`,
 * `BenchmarkResult`, `TestCase`, `ExternalAlgorithmDefinition`), and the abstract
 * shape of the user-supplied routines that the loader and the single-run mode call.
 *
 * JavaScript numbers are modelled as `real` where they are measured times and as
 * `int` where they are counts or sizes.
 */
module Types {
  import opened Wrappers

  /** `BenchmarkExecutionResult`: what one run of an algorithm reports. */
  datatype ExecutionResult = ExecutionResult(time: real, result: seq<int>, operations: int)

  /**
   * `BenchmarkResult`: one measured (algorithm, test case) row. `inputSize` is
   * optional in the source, so it is `None` when the row has no numeric size.
   */
  datatype Sample = Sample(
    algorithm: string,
    testCase: string,
    inputSize: Option<int>,
    time: real,
    operations: int,
    timeComplexity: string,
    spaceComplexity: string)

  /** `TestCase`; the optional `sorted`/`reversed` flags are read as `flag || false`. */
  datatype TestCase = TestCase(name: string, size: nat, sorted: bool, reversed: bool)

  /** The five built-in sorting routines. */
  datatype SortKind = Bubble | Quick | Merge | Insertion | Selection

  /**
   * The value a user-supplied routine returns, as the wrappers tell values apart:
   * - `Thenable`: any value with a callable `then` member (a Promise);
   * - `Record`: any other non-array object; each field is present only when it has
   *   the type the wrappers test for (`time` and `operations` numbers, `result` an
   *   array, `spaceComplexity` a string);
   * - `BareArray`: an array returned directly;
   * - `Primitive`: `undefined`, `null`, numbers, strings, booleans and functions.
   */
  datatype Output =
    | Thenable
    | Record(time: Option<real>, operations: Option<int>, result: Option<seq<int>>, spaceComplexity: Option<string>)
    | BareArray(items: seq<int>)
    | Primitive

  /**
   * One call of a user routine on an array: either it returned, and then the
   * call holds the contents the array has afterwards (the routine may sort it in
   * place) and the value it returned; or it threw an error with `message`.
   */
  datatype Invocation =
    | Invocation(argumentAfter: seq<int>, output: Output)
    | Raised(message: string)

  /** A call ends the run that made it: the routine threw, or it returned a thenable. */
  predicate Stops(call: Invocation) {
    call.Raised? || call.output.Thenable?
  }

  /** The error a stopping call ends the run with: the routine's own, or `asyncMessage` for a thenable. */
  function StopError(call: Invocation, asyncMessage: string): (error: string)
    requires Stops(call)
    ensures call.Raised? ==> error == call.message
    ensures call.Invocation? ==> error == asyncMessage
  {
    if call.Raised? then call.message else asyncMessage
  }

  /** A user routine, seen from outside: a deterministic function of its argument. */
  type UserRoutine = seq<int> -> Invocation

  /** The `code` member of an `Algorithm`: a built-in sort or a wrapped user routine. */
  datatype Runner = BuiltIn(kind: SortKind) | Wrapped(routine: UserRoutine)

  datatype Origin = BuiltInOrigin | ExternalOrigin

  /** `Algorithm`: a catalogue entry. */
  datatype Algorithm = Algorithm(
    name: string,
    code: Runner,
    timeComplexity: string,
    spaceComplexity: string,
    source: Option<Origin>)

  /** A member of a definition record that should hold a routine. */
  datatype Member = Missing | Callable(routine: UserRoutine) | NotCallable(truthy: bool) {
    /** JavaScript truthiness of the member's value. */
    predicate Truthy() {
      match this
      case Missing => false
      case Callable(_) => true
      case NotCallable(t) => t
    }
  }

  /** `ExternalAlgorithmDefinition`; absent optional members are `None`/`Missing`. */
  datatype ExternalAlgorithmDefinition = ExternalAlgorithmDefinition(
    key: Option<string>,
    name: Option<string>,
    run: Member,
    code: Member,
    timeComplexity: Option<string>,
    spaceComplexity: Option<string>)

  /** JavaScript truthiness of an optional string: absent and `""` are falsy. */
  predicate TruthyString(s: Option<string>) {
    s.Some? && s.value != ""
  }

  /**
   * The property names a plain object literal `{}` inherits from
   * `Object.prototype`. Reading `acc[k]` for one of these on an empty
   * accumulator yields a function or an object, never `undefined`.
   */
  const ObjectPrototypeKeys: set<string> := {
    "constructor", "hasOwnProperty", "isPrototypeOf", "propertyIsEnumerable",
    "toLocaleString", "toString", "valueOf", "__proto__",
    "__defineGetter__", "__defineSetter__", "__lookupGetter__", "__lookupSetter__"
  }
}
