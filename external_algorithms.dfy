/**
 * Loading user-supplied algorithms: turning the value that the user's code
 * evaluates to into a registry of catalogue entries under unique keys, and the
 * wrapper that runs a user routine as a benchmark routine.
 *
 * Evaluating the user's text is outside the model: its outcome is an input
 * (`Evaluation`), and the routines it defines are `UserRoutine` values.
 */
module ExternalAlgorithms {
  import opened Wrappers
  import opened Types
  import opened Strings
  import opened Seqs

  /** Why loading failed; `Message` renders the text of the error the loader throws. */
  datatype LoadError =
    | EmptySource
    | EvaluationFailure(reason: string)
    | NotDefinitions
    | NoAlgorithms
    | MissingRunnable(ordinal: nat)
    | MissingName(ordinal: nat)
    | DuplicateKey(key: string)
  {
    function Message(): string {
      match this
      case EmptySource => "External code is empty."
      case EvaluationFailure(reason) => "Could not evaluate external code: " + reason
      case NotDefinitions =>
        "External code must return an array of algorithm definitions or an object map of definitions."
      case NoAlgorithms => "No algorithms found in external code."
      case MissingRunnable(n) =>
        "External algorithm #" + NatToString(n) + " is missing a runnable function (use \"run\" or \"code\")."
      case MissingName(n) => "External algorithm #" + NatToString(n) + " is missing a valid \"name\"."
      case DuplicateKey(key) => "Duplicate external algorithm key \"" + key + "\"."
    }
  }

  /** The value the user's code returns. */
  datatype Evaluated =
    | ArrayValue(items: seq<ExternalAlgorithmDefinition>)
    | ObjectValue(entries: seq<(string, ExternalAlgorithmDefinition)>)
    | OtherValue

  /** Running the user's code either throws with a message or returns a value. */
  datatype Evaluation = Threw(message: string) | Returned(value: Evaluated)

  // ---------------------------------------------------------------- keys

  /** The characters `[a-z0-9]` that survive in a derived key. */
  predicate IsSlugChar(c: char) {
    'a' <= c <= 'z' || '0' <= c <= '9'
  }

  predicate IsSlugOrDash(c: char) {
    IsSlugChar(c) || c == '-'
  }

  /** `toLowerCase` on the ASCII letters; every other character is left as it is. */
  function ToLowerAscii(s: string): (r: string)
    ensures |r| == |s|
    ensures forall i :: 0 <= i < |s| ==> r[i] == if 'A' <= s[i] <= 'Z' then (s[i] as int + 32) as char else s[i]
  {
    seq(|s|, i requires 0 <= i < |s| => if 'A' <= s[i] <= 'Z' then (s[i] as int + 32) as char else s[i])
  }

  /** No two adjacent dashes. */
  predicate NoDoubleDash(s: string) {
    forall i, j :: 0 <= i < |s| && 0 <= j < |s| && j == i + 1 ==> !(s[i] == '-' && s[j] == '-')
  }

  /**
   * `replace(/[^a-z0-9]+/g, '-')`: every maximal run of characters outside
   * `[a-z0-9]` becomes a single dash.
   */
  function ReplaceRuns(s: string): (r: string)
    ensures |s| > 0 ==> |r| > 0
  {
    if |s| == 0 then ""
    else
      var init, last := s[..|s| - 1], s[|s| - 1];
      var r := ReplaceRuns(init);
      if IsSlugChar(last) then r + [last]
      else if |r| > 0 && r[|r| - 1] == '-' then r
      else r + ['-']
  }

  /**
   * The replaced text holds only letters, digits and single dashes, keeps exactly
   * the letters and digits of `s` as a set (`ReplaceRunsKeepsOrder` adds their
   * order and number), and ends in a dash exactly when `s` ends outside `[a-z0-9]`.
   */
  lemma {:induction false} ReplaceRunsShape(s: string)
    ensures forall i :: 0 <= i < |ReplaceRuns(s)| ==> IsSlugOrDash(ReplaceRuns(s)[i])
    ensures NoDoubleDash(ReplaceRuns(s))
    ensures forall c :: IsSlugChar(c) ==> (c in ReplaceRuns(s) <==> c in s)
    ensures |s| > 0 ==> (ReplaceRuns(s)[|ReplaceRuns(s)| - 1] == '-' <==> !IsSlugChar(s[|s| - 1]))
    decreases |s|
  {
    if |s| > 0 {
      var init, last := s[..|s| - 1], s[|s| - 1];
      ReplaceRunsShape(init);
      assert forall c :: c in s <==> c in init || c == last by {
        assert s == init + [last];
      }
      var r := ReplaceRuns(init);
      if IsSlugChar(last) {
        NoDoubleDashSnoc(r, last);
      } else if !(|r| > 0 && r[|r| - 1] == '-') {
        NoDoubleDashSnoc(r, '-');
      }
    }
  }

  /** The letters and digits of the replaced text are those of `s`, in order and number. */
  lemma {:induction false} ReplaceRunsKeepsOrder(s: string)
    ensures Filter(ReplaceRuns(s), IsSlugChar) == Filter(s, IsSlugChar)
    decreases |s|
  {
    if |s| > 0 {
      var init, last := s[..|s| - 1], s[|s| - 1];
      ReplaceRunsKeepsOrder(init);
      var r := ReplaceRuns(init);
      if IsSlugChar(last) {
        FilterAppend(r, [last], IsSlugChar);
      } else if !(|r| > 0 && r[|r| - 1] == '-') {
        FilterAppend(r, ['-'], IsSlugChar);
      }
    }
  }

  /** Appending a character keeps the text free of double dashes unless it doubles a final dash. */
  lemma NoDoubleDashSnoc(r: string, c: char)
    requires NoDoubleDash(r)
    requires c == '-' ==> |r| == 0 || r[|r| - 1] != '-'
    ensures NoDoubleDash(r + [c])
  {
    var t := r + [c];
    forall i, j | 0 <= i < |t| && 0 <= j < |t| && j == i + 1
      ensures !(t[i] == '-' && t[j] == '-')
    {
      if j < |r| {
        assert t[i] == r[i] && t[j] == r[j];
      } else {
        assert t[i] == r[|r| - 1];
      }
    }
  }

  /** The end of the run of dashes that starts at `k`. */
  function DashRunEnd(s: string, k: nat): (n: nat)
    requires k <= |s|
    ensures k <= n <= |s|
    ensures forall i :: k <= i < n ==> s[i] == '-'
    ensures n < |s| ==> s[n] != '-'
    decreases |s| - k
  {
    if k < |s| && s[k] == '-' then DashRunEnd(s, k + 1) else k
  }

  /** The start of the run of dashes that ends just before `k`. */
  function DashRunStart(s: string, k: nat): (n: nat)
    requires k <= |s|
    ensures n <= k
    ensures forall i :: n <= i < k ==> s[i] == '-'
    ensures n > 0 ==> s[n - 1] != '-'
  {
    if k > 0 && s[k - 1] == '-' then DashRunStart(s, k - 1) else k
  }

  /** `replace(/^-+/, '')`. */
  function StripLeadingDashes(s: string): (r: string)
    ensures |r| <= |s|
    ensures forall i :: 0 <= i < |r| ==> r[i] == s[|s| - |r| + i]
    ensures |r| > 0 ==> r[0] != '-'
    ensures forall i :: 0 <= i < |s| - |r| ==> s[i] == '-'
  {
    s[DashRunEnd(s, 0)..]
  }

  /** `replace(/-+$/, '')`. */
  function StripTrailingDashes(s: string): (r: string)
    ensures |r| <= |s|
    ensures forall i :: 0 <= i < |r| ==> r[i] == s[i]
    ensures |r| > 0 ==> r[|r| - 1] != '-'
    ensures forall i :: |r| <= i < |s| ==> s[i] == '-'
  {
    s[..DashRunStart(s, |s|)]
  }

  /** The slug of a name: trimmed, lower-cased, runs replaced, edge dashes removed. */
  function Slug(name: string): string {
    StripTrailingDashes(StripLeadingDashes(ReplaceRuns(ToLowerAscii(Trim(name)))))
  }

  /** `toKey`: `ext-` and the slug, or `ext-algorithm-<fallback>` when the slug is empty. */
  function ToKey(name: string, fallback: nat): string {
    var slug := Slug(name);
    if slug != "" then "ext-" + slug else "ext-algorithm-" + NatToString(fallback)
  }

  /** The shape every derived key has after its `ext-` prefix. */
  predicate ValidSlug(k: string) {
    && |k| > 0
    && (forall i :: 0 <= i < |k| ==> IsSlugOrDash(k[i]))
    && k[0] != '-' && k[|k| - 1] != '-'
    && NoDoubleDash(k)
  }

  /** Whether some character of `s` is in `[a-z0-9]`. */
  predicate HasSlugChar(s: string) {
    exists i :: 0 <= i < |s| && IsSlugChar(s[i])
  }

  /** Removing edge dashes from slug text leaves it empty exactly when it had no letter or digit. */
  lemma StripDashesKeepsSlugChars(r: string)
    requires forall i :: 0 <= i < |r| ==> IsSlugOrDash(r[i])
    ensures StripTrailingDashes(StripLeadingDashes(r)) != "" <==> HasSlugChar(r)
  {
    if HasSlugChar(r) {
      var j :| 0 <= j < |r| && IsSlugChar(r[j]);
      SlugCharSurvives(r, j);
    }
    var leading := StripLeadingDashes(r);
    if StripTrailingDashes(leading) != "" {
      assert IsSlugChar(leading[0]);
      assert leading[0] == r[|r| - |leading|];
    }
  }

  /** A letter or digit is never an edge dash, so it survives the stripping. */
  lemma SlugCharSurvives(r: string, j: int)
    requires 0 <= j < |r| && IsSlugChar(r[j])
    ensures StripTrailingDashes(StripLeadingDashes(r)) != ""
  {
    var leading := StripLeadingDashes(r);
    var a := |r| - |leading|;
    assert j >= a;
    assert leading[j - a] == r[j];
  }

  /** Removing edge dashes from slug text without double dashes gives a valid slug, if anything. */
  lemma StripDashesIsValid(r: string)
    requires forall i :: 0 <= i < |r| ==> IsSlugOrDash(r[i])
    requires NoDoubleDash(r)
    ensures StripTrailingDashes(StripLeadingDashes(r)) != "" ==> ValidSlug(StripTrailingDashes(StripLeadingDashes(r)))
  {
    var leading := StripLeadingDashes(r);
    var slug := StripTrailingDashes(leading);
    var a := |r| - |leading|;
    forall i | 0 <= i < |slug|
      ensures slug[i] == r[a + i] && IsSlugOrDash(slug[i])
    {
      assert slug[i] == leading[i];
    }
    NoDoubleDashShift(r, slug, a);
  }

  /** Text read off other text without double dashes, from some offset on, has none either. */
  lemma NoDoubleDashShift(s: string, t: string, a: nat)
    requires a + |t| <= |s| && NoDoubleDash(s)
    requires forall i :: 0 <= i < |t| ==> t[i] == s[a + i]
    ensures NoDoubleDash(t)
  {
    forall i, j | 0 <= i < |t| && 0 <= j < |t| && j == i + 1
      ensures !(t[i] == '-' && t[j] == '-')
    {
      assert t[i] == s[a + i] && t[j] == s[a + j];
    }
  }

  /** Slugs are non-empty exactly when the lower-cased name has a letter or digit, and then valid. */
  lemma SlugShape(name: string)
    ensures Slug(name) != "" <==> HasSlugChar(ToLowerAscii(Trim(name)))
    ensures Slug(name) != "" ==> ValidSlug(Slug(name))
  {
    var lowered := ToLowerAscii(Trim(name));
    var replaced := ReplaceRuns(lowered);
    ReplaceRunsShape(lowered);
    assert HasSlugChar(replaced) <==> HasSlugChar(lowered) by {
      if HasSlugChar(replaced) {
        var j :| 0 <= j < |replaced| && IsSlugChar(replaced[j]);
        assert replaced[j] in replaced;
        assert replaced[j] in lowered;
      }
      if HasSlugChar(lowered) {
        var j :| 0 <= j < |lowered| && IsSlugChar(lowered[j]);
        assert lowered[j] in lowered;
        assert lowered[j] in replaced;
      }
    }
    ReplaceRunsShape(lowered);
    StripDashesKeepsSlugChars(replaced);
    StripDashesIsValid(replaced);
  }

  /** The fallback text `algorithm-<n>` is a valid slug. */
  lemma FallbackIsValidSlug(fallback: nat)
    ensures ValidSlug("algorithm-" + NatToString(fallback))
  {
    var digits := NatToString(fallback);
    var k := "algorithm-" + digits;
    forall i | 10 <= i < |k|
      ensures k[i] == digits[i - 10] && IsSlugChar(k[i])
    {
    }
    assert k[9] == '-' && k[10] == digits[0];
  }

  /** `ext-` followed by a valid slug splits back into `ext-` and that slug. */
  lemma ExtKeyShape(rest: string)
    requires ValidSlug(rest)
    ensures |"ext-" + rest| > 4 && ("ext-" + rest)[..4] == "ext-"
    ensures ValidSlug(("ext-" + rest)[4..])
  {
    assert ("ext-" + rest)[4..] == rest;
  }

  /** The fallback key is `ext-` followed by the fallback slug. */
  lemma FallbackKeyParts(fallback: nat)
    ensures "ext-algorithm-" + NatToString(fallback) == "ext-" + ("algorithm-" + NatToString(fallback))
  {
  }

  /** A derived key is always `ext-` followed by a valid slug. */
  lemma ToKeyShape(name: string, fallback: nat)
    ensures |ToKey(name, fallback)| > 4 && ToKey(name, fallback)[..4] == "ext-"
    ensures ValidSlug(ToKey(name, fallback)[4..])
  {
    if Slug(name) == "" {
      var rest := "algorithm-" + NatToString(fallback);
      FallbackIsValidSlug(fallback);
      ExtKeyShape(rest);
      FallbackKeyParts(fallback);
    } else {
      SlugShape(name);
      ExtKeyShape(Slug(name));
    }
  }

  /**
   * When the name has no ASCII letter or digit, the key is the ordinal fallback
   * `ext-algorithm-<fallback>`.
   */
  lemma ToKeyFallback(name: string, fallback: nat)
    requires !HasSlugChar(ToLowerAscii(Trim(name)))
    ensures ToKey(name, fallback) == "ext-algorithm-" + NatToString(fallback)
  {
    SlugShape(name);
  }

  lemma {:induction false} ReplaceRunsOfSlugText(s: string)
    requires forall i :: 0 <= i < |s| ==> IsSlugOrDash(s[i])
    requires NoDoubleDash(s)
    ensures ReplaceRuns(s) == s
    decreases |s|
  {
    if |s| > 0 {
      var init := s[..|s| - 1];
      ReplaceRunsOfSlugText(init);
      if |init| > 0 {
        assert init[|init| - 1] == s[|s| - 2];
      }
    }
  }

  /** A name that is already a valid slug keeps its spelling: the derivation is idempotent. */
  lemma ToKeyOfSlug(k: string, fallback: nat)
    requires ValidSlug(k)
    ensures ToKey(k, fallback) == "ext-" + k
  {
    TrimOfTrimmed(k);
    assert ToLowerAscii(k) == k;
    ReplaceRunsOfSlugText(k);
  }

  // ---------------------------------------------------------------- running

  /** `isBenchmarkExecutionResult`: an object with numeric `time` and `operations` and an array `result`. */
  predicate IsBenchmarkExecutionResult(output: Output) {
    output.Record? && output.time.Some? && output.operations.Some? && output.result.Some?
  }

  /** The error `wrappedCode` throws for an asynchronous routine. */
  function AsyncMessage(name: string): string {
    "\"" + name + "\" returned a Promise. Async algorithms are not supported."
  }

  /**
   * What `wrappedCode` makes of one call of the user routine: the routine ran
   * on a copy of the input, `elapsed` is the measured time, `call` holds the
   * copy as the routine left it and the value the routine returned, or the
   * error it threw (which the wrapper does not catch).
   */
  function WrapOutcome(name: string, call: Invocation, elapsed: real): (r: Result<ExecutionResult, string>)
    ensures r.Failure? <==> Stops(call)
    ensures call.Raised? ==> r == Failure(call.message)
    ensures call.Invocation? && call.output.Thenable? ==> r == Failure(AsyncMessage(name))
    ensures r.Success? ==> r.value.time == elapsed
    ensures r.Success? ==>
      && r.value.operations == (if call.output.Record? then call.output.operations.GetOr(0) else 0)
      && r.value.result == (if call.output.Record? then call.output.result.GetOr(call.argumentAfter) else call.argumentAfter)
    ensures call.Invocation? && IsBenchmarkExecutionResult(call.output) ==>
      r == Success(ExecutionResult(elapsed, call.output.result.value, call.output.operations.value))
  {
    match call
    case Raised(message) => Failure(message)
    case Invocation(argumentAfter, output) =>
      match output
      case Thenable => Failure(AsyncMessage(name))
      case Record(time, operations, result, _) =>
        if time.Some? && operations.Some? && result.Some? then
          Success(ExecutionResult(elapsed, result.value, operations.value))
        else
          Success(ExecutionResult(elapsed, result.GetOr(argumentAfter), operations.GetOr(0)))
      case BareArray(_) => Success(ExecutionResult(elapsed, argumentAfter, 0))
      case Primitive => Success(ExecutionResult(elapsed, argumentAfter, 0))
  }

  /**
   * A routine that returns an array directly gets no credit for it: the
   * wrapper reports the input copy as the routine left it, with 0 operations.
   */
  lemma BareArrayIsIgnored(name: string, after: seq<int>, returned: seq<int>, elapsed: real)
    ensures WrapOutcome(name, Invocation(after, BareArray(returned)), elapsed) ==
      Success(ExecutionResult(elapsed, after, 0))
  {
  }

  // ---------------------------------------------------------------- definitions

  /** `value || fallback` for an optional string. */
  function OrDefault(value: Option<string>, fallback: string): (r: string)
    ensures TruthyString(value) ==> r == value.value
    ensures !TruthyString(value) ==> r == fallback
  {
    if TruthyString(value) then value.value else fallback
  }

  /** The routine member `normalizeExternalAlgorithm` picks: `run`, unless it is falsy, else `code`. */
  function Runner(definition: ExternalAlgorithmDefinition): Member {
    if definition.run.Truthy() then definition.run else definition.code
  }

  /**
   * `normalizeExternalAlgorithm`: the registry key and catalogue entry for the
   * definition at position `index`, or the first problem with it.
   */
  function Normalize(definition: ExternalAlgorithmDefinition, index: nat): Result<(string, Algorithm), LoadError>
  {
    var runner := Runner(definition);
    if !runner.Callable? then Failure(MissingRunnable(index + 1))
    else if definition.name.None? || Trim(definition.name.value) == "" then Failure(MissingName(index + 1))
    else
      var name := Trim(definition.name.value);
      var key := if definition.key.Some? && Trim(definition.key.value) != "" then Trim(definition.key.value)
                 else ToKey(name, index + 1);
      Success((key, Algorithm(name, Wrapped(runner.routine),
        OrDefault(definition.timeComplexity, "Unknown"), OrDefault(definition.spaceComplexity, "Unknown"),
        Some(ExternalOrigin))))
  }

  /**
   * The runnable check comes first: a definition fails with the ordinal
   * `index + 1` for its missing routine exactly when the member it picks is not
   * a function; `run` wins over `code` whenever it is truthy.
   */
  lemma NormalizeChecksRunnerFirst(definition: ExternalAlgorithmDefinition, index: nat)
    ensures Normalize(definition, index) == Failure(MissingRunnable(index + 1)) <==> !Runner(definition).Callable?
    ensures definition.run.Truthy() ==> Runner(definition) == definition.run
    ensures !definition.run.Truthy() ==> Runner(definition) == definition.code
  {
  }

  /** With a routine present, a missing or blank name fails with the ordinal `index + 1`. */
  lemma NormalizeChecksName(definition: ExternalAlgorithmDefinition, index: nat)
    requires Runner(definition).Callable?
    ensures Normalize(definition, index) == Failure(MissingName(index + 1)) <==>
      definition.name.None? || IsBlank(definition.name.value)
  {
  }

  /**
   * A definition that normalizes yields an external entry with the trimmed,
   * non-blank name, the picked routine, and `'Unknown'` for missing complexities.
   */
  lemma NormalizedEntry(definition: ExternalAlgorithmDefinition, index: nat)
    requires Normalize(definition, index).Success?
    ensures Runner(definition).Callable? && definition.name.Some? && !IsBlank(definition.name.value)
    ensures Normalize(definition, index).value.1 == Algorithm(
      Trim(definition.name.value), Wrapped(Runner(definition).routine),
      OrDefault(definition.timeComplexity, "Unknown"), OrDefault(definition.spaceComplexity, "Unknown"),
      Some(ExternalOrigin))
  {
  }

  /**
   * The key of a normalized definition: the explicit key, trimmed, when it is
   * not blank; otherwise `ext-` and a valid slug derived from the name.
   */
  lemma NormalizedKey(definition: ExternalAlgorithmDefinition, index: nat)
    requires Normalize(definition, index).Success?
    ensures var key := Normalize(definition, index).value.0;
      if definition.key.Some? && !IsBlank(definition.key.value) then key == Trim(definition.key.value)
      else key == ToKey(Trim(definition.name.value), index + 1) && key[..4] == "ext-" && ValidSlug(key[4..])
  {
    ToKeyShape(Trim(definition.name.value), index + 1);
  }

  /** The entry a definition's map key yields: its own `key`/`name` when truthy, else the map key. */
  function FromEntry(entry: (string, ExternalAlgorithmDefinition)): (d: ExternalAlgorithmDefinition)
    ensures d.key == Some(OrDefault(entry.1.key, entry.0))
    ensures d.name == Some(OrDefault(entry.1.name, entry.0))
    ensures d.run == entry.1.run && d.code == entry.1.code
    ensures d.timeComplexity == entry.1.timeComplexity && d.spaceComplexity == entry.1.spaceComplexity
  {
    entry.1.(key := Some(OrDefault(entry.1.key, entry.0)), name := Some(OrDefault(entry.1.name, entry.0)))
  }

  /** `toDefinitions`: an array as it is, an object map entry by entry, anything else rejected. */
  function ToDefinitions(value: Evaluated): (r: Result<seq<ExternalAlgorithmDefinition>, LoadError>)
    ensures value.ArrayValue? ==> r == Success(value.items)
    ensures value.ObjectValue? ==>
      r.Success? && |r.value| == |value.entries| &&
      forall i :: 0 <= i < |value.entries| ==> r.value[i] == FromEntry(value.entries[i])
    ensures value.OtherValue? ==> r == Failure(NotDefinitions)
  {
    match value
    case ArrayValue(items) => Success(items)
    case ObjectValue(entries) => Success(seq(|entries|, i requires 0 <= i < |entries| => FromEntry(entries[i])))
    case OtherValue => Failure(NotDefinitions)
  }

  // ---------------------------------------------------------------- loading

  /** A normalized definition: its key and its catalogue entry, or why it was refused. */
  type Normalized = Result<(string, Algorithm), LoadError>

  /** Every definition normalized at its own position. */
  function NormalizeAll(definitions: seq<ExternalAlgorithmDefinition>): (r: seq<Normalized>)
    ensures |r| == |definitions|
    ensures forall i :: 0 <= i < |r| ==> r[i] == Normalize(definitions[i], i)
  {
    seq(|definitions|, i requires 0 <= i < |definitions| => Normalize(definitions[i], i))
  }

  /**
   * The `reduce` over normalized definitions: adds each entry to the registry,
   * stopping at the first refused definition or key already taken.
   */
  function Accumulate<V>(results: seq<Result<(string, V), LoadError>>): Result<map<string, V>, LoadError>
  {
    if |results| == 0 then Success(map[])
    else
      var n := |results| - 1;
      match Accumulate(results[..n])
      case Failure(e) => Failure(e)
      case Success(acc) =>
        match results[n]
        case Failure(e) => Failure(e)
        case Success(entry) =>
          if entry.0 in acc then Failure(DuplicateKey(entry.0)) else Success(acc[entry.0 := entry.1])
  }

  /** The registry built from `definitions`. */
  function Registry(definitions: seq<ExternalAlgorithmDefinition>): Result<map<string, Algorithm>, LoadError>
  {
    Accumulate(NormalizeAll(definitions))
  }

  /** Every result is a success. */
  predicate AllSucceed<V>(results: seq<Result<(string, V), LoadError>>) {
    forall i :: 0 <= i < |results| ==> results[i].Success?
  }

  /** No two successful results share a key. */
  predicate KeysDistinct<V>(results: seq<Result<(string, V), LoadError>>)
    requires AllSucceed(results)
  {
    forall i, j :: 0 <= i < j < |results| ==> results[i].value.0 != results[j].value.0
  }

  /** A successful accumulation is the accumulation of all but the last result, plus its fresh entry. */
  lemma AccumulateLast<V>(results: seq<Result<(string, V), LoadError>>)
    requires |results| > 0 && Accumulate(results).Success?
    ensures var n := |results| - 1;
      && Accumulate(results[..n]).Success? && results[n].Success?
      && results[n].value.0 !in Accumulate(results[..n]).value
      && Accumulate(results).value == Accumulate(results[..n]).value[results[n].value.0 := results[n].value.1]
  {
  }

  /** The keys of results that all succeeded, in order. */
  function KeysOf<V>(results: seq<Result<(string, V), LoadError>>): (keys: seq<string>)
    requires AllSucceed(results)
    ensures |keys| == |results|
    ensures forall i :: 0 <= i < |results| ==> keys[i] == results[i].value.0
  {
    seq(|results|, i requires 0 <= i < |results| && AllSucceed(results) => results[i].value.0)
  }

  /**
   * A successful accumulation holds one entry per result, under its key, and
   * nothing else.
   */
  lemma AccumulateContents<V>(results: seq<Result<(string, V), LoadError>>)
    requires Accumulate(results).Success?
    ensures AllSucceed(results) && KeysDistinct(results)
    ensures |Accumulate(results).value| == |results|
    ensures forall k :: k in Accumulate(results).value <==> k in KeysOf(results)
    ensures forall i :: 0 <= i < |results| ==>
      Accumulate(results).value[results[i].value.0] == results[i].value.1
  {
    AccumulateKeys(results);
    AccumulateValues(results);
  }

  /** The keys of a successful accumulation are those of its results, all distinct. */
  lemma {:induction false} AccumulateKeys<V>(results: seq<Result<(string, V), LoadError>>)
    requires Accumulate(results).Success?
    ensures AllSucceed(results) && KeysDistinct(results)
    ensures |Accumulate(results).value| == |results|
    ensures forall k :: k in Accumulate(results).value <==> k in KeysOf(results)
    decreases |results|
  {
    if |results| > 0 {
      var n := |results| - 1;
      var init := results[..n];
      AccumulateLast(results);
      AccumulateKeys(init);
      var acc := Accumulate(init).value;
      var key := results[n].value.0;
      assert forall i :: 0 <= i < n ==> results[i] == init[i];
      assert AllSucceed(results);
      assert KeysOf(results) == KeysOf(init) + [key];
      forall i | 0 <= i < n
        ensures results[i].value.0 != key
      {
        assert KeysOf(init)[i] in acc;
      }
    }
  }

  /** Each result's entry is stored under its key. */
  lemma {:induction false} AccumulateValues<V>(results: seq<Result<(string, V), LoadError>>)
    requires Accumulate(results).Success?
    ensures AllSucceed(results)
    ensures forall i :: 0 <= i < |results| ==>
      results[i].value.0 in Accumulate(results).value &&
      Accumulate(results).value[results[i].value.0] == results[i].value.1
    decreases |results|
  {
    AccumulateKeys(results);
    if |results| > 0 {
      var n := |results| - 1;
      var init := results[..n];
      AccumulateLast(results);
      AccumulateValues(init);
      assert forall i :: 0 <= i < n ==> results[i] == init[i];
    }
  }

  /** Accumulation succeeds exactly when every result succeeds and the keys are distinct. */
  lemma {:induction false} AccumulateSucceedsIff<V>(results: seq<Result<(string, V), LoadError>>)
    ensures Accumulate(results).Success? <==> AllSucceed(results) && KeysDistinct(results)
    decreases |results|
  {
    if Accumulate(results).Success? {
      AccumulateKeys(results);
    } else if |results| > 0 && AllSucceed(results) {
      var n := |results| - 1;
      var init := results[..n];
      assert forall i :: 0 <= i < n ==> init[i] == results[i];
      AccumulateSucceedsIff(init);
      if Accumulate(init).Success? {
        AccumulateKeys(init);
        var k := results[n].value.0;
        assert k in KeysOf(init);
        var i :| 0 <= i < n && KeysOf(init)[i] == k;
        assert results[i].value.0 == results[n].value.0;
      }
    }
  }

  /** Once the accumulation of a prefix fails, the whole accumulation fails with the same error. */
  lemma {:induction false} AccumulateFailurePersists<V>(results: seq<Result<(string, V), LoadError>>, k: nat)
    requires k <= |results| && Accumulate(results[..k]).Failure?
    ensures Accumulate(results) == Accumulate(results[..k])
    decreases |results| - k
  {
    if k < |results| {
      assert results[..k + 1][..k] == results[..k];
      AccumulateFailurePersists(results, k + 1);
    } else {
      assert results[..k] == results;
    }
  }

  /** Every definition normalizes. */
  predicate AllNormalize(definitions: seq<ExternalAlgorithmDefinition>) {
    forall i :: 0 <= i < |definitions| ==> Normalize(definitions[i], i).Success?
  }

  /** The key of definition `i`, which normalizes. */
  function KeyAt(definitions: seq<ExternalAlgorithmDefinition>, i: int): string
    requires 0 <= i < |definitions| && Normalize(definitions[i], i).Success?
  {
    Normalize(definitions[i], i).value.0
  }

  /** The keys of definitions that all normalize, in order. */
  function Keys(definitions: seq<ExternalAlgorithmDefinition>): (keys: seq<string>)
    requires AllNormalize(definitions)
    ensures |keys| == |definitions|
    ensures forall i :: 0 <= i < |definitions| ==> keys[i] == KeyAt(definitions, i)
  {
    KeysOf(NormalizeAll(definitions))
  }

  /** No two definitions produce the same key. */
  predicate DistinctKeys(definitions: seq<ExternalAlgorithmDefinition>)
    requires AllNormalize(definitions)
  {
    forall i, j :: 0 <= i < j < |definitions| ==> Keys(definitions)[i] != Keys(definitions)[j]
  }

  /**
   * A successful registry holds one entry per definition, under its key, and
   * nothing else.
   */
  lemma RegistryContents(definitions: seq<ExternalAlgorithmDefinition>)
    requires Registry(definitions).Success?
    ensures AllNormalize(definitions) && DistinctKeys(definitions)
    ensures |Registry(definitions).value| == |definitions|
    ensures forall k :: k in Registry(definitions).value <==> k in Keys(definitions)
    ensures forall i :: 0 <= i < |definitions| ==>
      Registry(definitions).value[Keys(definitions)[i]] == Normalize(definitions[i], i).value.1
  {
    var results := NormalizeAll(definitions);
    AccumulateContents(results);
    assert AllNormalize(definitions);
    assert Keys(definitions) == KeysOf(results);
  }

  /** Loading succeeds exactly when every definition normalizes and the keys are distinct. */
  lemma RegistrySucceedsIff(definitions: seq<ExternalAlgorithmDefinition>)
    ensures Registry(definitions).Success? <==> AllNormalize(definitions) && DistinctKeys(definitions)
  {
    var results := NormalizeAll(definitions);
    AccumulateSucceedsIff(results);
    if AllNormalize(definitions) {
      assert AllSucceed(results);
      assert Keys(definitions) == KeysOf(results);
    }
  }

  /** Normalizing a prefix of the definitions gives the prefix of the results. */
  lemma PrefixResults(definitions: seq<ExternalAlgorithmDefinition>, k: nat)
    requires k < |definitions|
    ensures NormalizeAll(definitions[..k]) == NormalizeAll(definitions)[..k]
    ensures NormalizeAll(definitions)[..k + 1][..k] == NormalizeAll(definitions)[..k]
  {
  }

  /** A definition that fails on its own fails the whole load, whatever comes after it. */
  lemma RegistryFailsAt(definitions: seq<ExternalAlgorithmDefinition>, k: nat)
    requires k < |definitions| && Registry(definitions[..k]).Success? && Normalize(definitions[k], k).Failure?
    ensures Registry(definitions) == Failure(Normalize(definitions[k], k).error)
  {
    var results := NormalizeAll(definitions);
    PrefixResults(definitions, k);
    AccumulateFailurePersists(results, k + 1);
  }

  /** A definition whose key is already taken fails the whole load with that key. */
  lemma RegistryDuplicateAt(definitions: seq<ExternalAlgorithmDefinition>, k: nat)
    requires k < |definitions| && Registry(definitions[..k]).Success? && Normalize(definitions[k], k).Success?
    requires KeyAt(definitions, k) in Registry(definitions[..k]).value
    ensures Registry(definitions) == Failure(DuplicateKey(KeyAt(definitions, k)))
  {
    var results := NormalizeAll(definitions);
    PrefixResults(definitions, k);
    AccumulateFailurePersists(results, k + 1);
  }

  /** A definition with a fresh key extends the registry of the definitions before it. */
  lemma RegistryExtends(definitions: seq<ExternalAlgorithmDefinition>, k: nat)
    requires k < |definitions| && Registry(definitions[..k]).Success? && Normalize(definitions[k], k).Success?
    requires KeyAt(definitions, k) !in Registry(definitions[..k]).value
    ensures Registry(definitions[..k + 1]) ==
      Success(Registry(definitions[..k]).value[KeyAt(definitions, k) := Normalize(definitions[k], k).value.1])
  {
    var results := NormalizeAll(definitions[..k + 1]);
    assert NormalizeAll(definitions[..k]) == results[..k];
  }

  /**
   * `loadExternalAlgorithms`, as a specification: the checks on the source text,
   * the evaluation and the definitions, then the registry.
   */
  function Load(source: string, evaluation: Evaluation): (r: Result<map<string, Algorithm>, LoadError>)
    ensures IsBlank(source) ==> r == Failure(EmptySource)
    ensures !IsBlank(source) && evaluation.Threw? ==> r == Failure(EvaluationFailure(evaluation.message))
    ensures !IsBlank(source) && evaluation == Returned(OtherValue) ==> r == Failure(NotDefinitions)
    ensures !IsBlank(source) && evaluation.Returned? && ToDefinitions(evaluation.value).Failure? ==>
      r == Failure(ToDefinitions(evaluation.value).error)
    ensures !IsBlank(source) && evaluation.Returned? && ToDefinitions(evaluation.value) == Success([]) ==>
      r == Failure(NoAlgorithms)
    ensures !IsBlank(source) && evaluation.Returned? && ToDefinitions(evaluation.value).Success?
            && |ToDefinitions(evaluation.value).value| > 0 ==>
      r == Registry(ToDefinitions(evaluation.value).value)
    ensures r.Success? ==>
      && evaluation.Returned? && ToDefinitions(evaluation.value).Success?
      && |ToDefinitions(evaluation.value).value| > 0
      && r == Registry(ToDefinitions(evaluation.value).value)
  {
    if Trim(source) == "" then Failure(EmptySource)
    else
      match evaluation
      case Threw(message) => Failure(EvaluationFailure(message))
      case Returned(value) =>
        match ToDefinitions(value)
        case Failure(e) => Failure(e)
        case Success(definitions) =>
          if |definitions| == 0 then Failure(NoAlgorithms) else Registry(definitions)
  }

  /**
   * `loadExternalAlgorithms`: builds the registry one definition at a time in an
   * accumulator, throwing (returning `Failure`) at the first bad definition or
   * repeated key.
   */
  method LoadExternalAlgorithms(source: string, evaluation: Evaluation)
    returns (r: Result<map<string, Algorithm>, LoadError>)
    ensures r == Load(source, evaluation)
  {
    if Trim(source) == "" {
      return Failure(EmptySource);
    }
    if evaluation.Threw? {
      return Failure(EvaluationFailure(evaluation.message));
    }
    var converted := ToDefinitions(evaluation.value);
    if converted.Failure? {
      return Failure(converted.error);
    }
    var definitions := converted.value;
    if |definitions| == 0 {
      return Failure(NoAlgorithms);
    }
    var acc: map<string, Algorithm> := map[];
    var index := 0;
    while index < |definitions|
      invariant 0 <= index <= |definitions|
      invariant Registry(definitions[..index]) == Success(acc)
    {
      var normalized := Normalize(definitions[index], index);
      if normalized.Failure? {
        RegistryFailsAt(definitions, index);
        return Failure(normalized.error);
      }
      var (key, algorithm) := normalized.value;
      if key in acc {
        RegistryDuplicateAt(definitions, index);
        return Failure(DuplicateKey(key));
      }
      RegistryExtends(definitions, index);
      acc := acc[key := algorithm];
      index := index + 1;
    }
    assert definitions[..index] == definitions;
    r := Success(acc);
  }

  /** On success the registry has exactly one entry per definition. */
  lemma LoadedEntryCount(source: string, value: Evaluated)
    requires Load(source, Returned(value)).Success?
    ensures ToDefinitions(value).Success?
    ensures |Load(source, Returned(value)).value| == |ToDefinitions(value).value| > 0
  {
    RegistryContents(ToDefinitions(value).value);
  }

  // ---------------------------------------------------------------- as written

  /**
   * The duplicate test as written: `acc[key]` on a plain object literal also
   * finds the members every object inherits, so such a key reads as taken.
   */
  predicate TakenAsWritten(acc: map<string, Algorithm>, key: string) {
    key in acc || key in ObjectPrototypeKeys
  }

  /** `Accumulate` with the duplicate test as written. */
  function AccumulateAsWritten(results: seq<Normalized>): Result<map<string, Algorithm>, LoadError>
  {
    if |results| == 0 then Success(map[])
    else
      var n := |results| - 1;
      match AccumulateAsWritten(results[..n])
      case Failure(e) => Failure(e)
      case Success(acc) =>
        match results[n]
        case Failure(e) => Failure(e)
        case Success(entry) =>
          if TakenAsWritten(acc, entry.0) then Failure(DuplicateKey(entry.0)) else Success(acc[entry.0 := entry.1])
  }

  /** The registry built from `definitions` with the duplicate test as written. */
  function RegistryAsWritten(definitions: seq<ExternalAlgorithmDefinition>): Result<map<string, Algorithm>, LoadError>
  {
    AccumulateAsWritten(NormalizeAll(definitions))
  }

  /** The key of the example below is its own trim. */
  lemma ConstructorIsTrimmed()
    ensures Trim("constructor") == "constructor"
  {
    var s := "constructor";
    assert s[0] == 'c' && s[|s| - 1] == 'r';
    TrimOfTrimmed(s);
  }

  /** The name of the example below is its own trim. */
  lemma MineIsTrimmed()
    ensures Trim("Mine") == "Mine"
  {
    var s := "Mine";
    assert s[0] == 'M' && s[|s| - 1] == 'e';
    TrimOfTrimmed(s);
  }

  /** The definition `{ key: 'constructor', name: 'Mine', run }` normalizes to the key "constructor". */
  lemma NormalizeConstructorKey(run: UserRoutine)
    ensures Normalize(ExternalAlgorithmDefinition(Some("constructor"), Some("Mine"), Callable(run), Missing, None, None), 0)
      == Success(("constructor", Algorithm("Mine", Wrapped(run), "Unknown", "Unknown", Some(ExternalOrigin))))
  {
    ConstructorIsTrimmed();
    MineIsTrimmed();
  }

  /** A single entry is refused as written exactly when its key is an inherited member name. */
  lemma AccumulateSingle(entry: (string, Algorithm))
    ensures Accumulate([Success(entry)]) == Success(map[entry.0 := entry.1])
    ensures AccumulateAsWritten([Success(entry)]) ==
      if entry.0 in ObjectPrototypeKeys then Failure(DuplicateKey(entry.0)) else Success(map[entry.0 := entry.1])
  {
    var results: seq<Normalized> := [Success(entry)];
    assert results[..0] == [];
  }

  lemma ConstructorIsInherited()
    ensures "constructor" in ObjectPrototypeKeys
  {
  }

  /** A single definition with the explicit key "constructor" is reported as a duplicate. */
  lemma InheritedKeyIsReportedDuplicate(run: UserRoutine)
    ensures var definition := ExternalAlgorithmDefinition(Some("constructor"), Some("Mine"), Callable(run), Missing, None, None);
      && RegistryAsWritten([definition]) == Failure(DuplicateKey("constructor"))
      && Registry([definition]).Success?
  {
    var definition := ExternalAlgorithmDefinition(Some("constructor"), Some("Mine"), Callable(run), Missing, None, None);
    var entry := ("constructor", Algorithm("Mine", Wrapped(run), "Unknown", "Unknown", Some(ExternalOrigin)));
    NormalizeConstructorKey(run);
    assert NormalizeAll([definition]) == [Success(entry)];
    ConstructorIsInherited();
    AccumulateSingle(entry);
  }

  /** Away from inherited member names, the test as written agrees with the own-key test. */
  lemma {:induction false} AccumulateAsWrittenAgrees(results: seq<Normalized>)
    requires forall i :: 0 <= i < |results| && results[i].Success? ==> results[i].value.0 !in ObjectPrototypeKeys
    ensures AccumulateAsWritten(results) == Accumulate(results)
    decreases |results|
  {
    if |results| > 0 {
      var n := |results| - 1;
      assert forall i :: 0 <= i < n ==> results[..n][i] == results[i];
      AccumulateAsWrittenAgrees(results[..n]);
    }
  }

  /** Away from inherited member names, the loader as written agrees with the corrected one. */
  lemma RegistryAsWrittenAgrees(definitions: seq<ExternalAlgorithmDefinition>)
    requires forall i :: 0 <= i < |definitions| && Normalize(definitions[i], i).Success? ==>
      Normalize(definitions[i], i).value.0 !in ObjectPrototypeKeys
    ensures RegistryAsWritten(definitions) == Registry(definitions)
  {
    AccumulateAsWrittenAgrees(NormalizeAll(definitions));
  }
}
