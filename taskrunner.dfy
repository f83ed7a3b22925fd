/** TaskRunner (TaskRunner.cs:27-218): the task-instance properties, and RunAsync up to
    the point where the chosen handler is created — legacy PowerShell rule, handler
    choice, input resolution, file-path rewriting, handler-input expansion and output
    variables. */
module Tasks {
  import opened Base
  import opened Platform
  import opened Context
  import opened Handlers
  import opened Inputs
  import opened FilePaths

  datatype JobRunStage = PreJob | Main | PostJob

  /** The parts of a TaskInstance the runner reads. `inputs` is the instance's input
      dictionary in enumeration order; a null dictionary reads as an empty one. */
  datatype TaskInstance = TaskInstance(
    displayName: NString,
    enabled: bool,
    continueOnError: bool,
    timeoutInMinutes: int,
    inputs: seq<(NString, NString)>)

  /** `TaskInputType.FilePath` */
  const FilePathInputType: string := "filePath"

  /** An output-variable declaration: `None` is a null entry, else its possibly-null name. */
  type OutputVariable = Option<NString>

  /** The loaded task definition's data. A null input or output-variable list reads as an
      empty one; the three stages' ExecutionData may each be null. */
  datatype DefinitionData = DefinitionData(
    inputs: seq<Option<TaskInputDefinition>>,
    outputVariables: seq<OutputVariable>,
    preJobExecution: ExecutionData?,
    execution: ExecutionData?,
    postJobExecution: ExecutionData?)

  datatype Definition = Definition(directory: NString, data: Option<DefinitionData>)

  /** Variable expansion, environment expansion, and the expansion of a handler input
      against the resolved inputs: each rewrites one value and keeps the keys. */
  datatype Expanders = Expanders(
    variables: string -> string,
    environment: string -> string,
    fromInputs: (CiDict, string) -> string)

  /** What `handlerFactory.Create` receives (TaskRunner.cs:153-158). */
  datatype HandlerInvocation = HandlerInvocation(
    handler: HandlerData,
    inputs: CiDict,
    taskDirectory: NString,
    filePathInputRootDirectory: string)

  // ---------------------------------------------------------------------------
  // File-path inputs (TaskRunner.cs:128-136)

  function Translator(os: Os, extensions: seq<JobExtension>, hostType: HostTypes, artifactsDirectory: NString): string -> string {
    s => TranslatedPath(os, extensions, hostType, artifactsDirectory, s)
  }

  predicate IsFilePathInput(input: Option<TaskInputDefinition>) {
    input.Some? && NEqualsIgnoreCase(input.value.inputType, FilePathInputType)
  }

  /** One declaration's effect on the input dictionary: a null declaration throws when
      its type is read; a file-path input's value is looked up under the declared
      (untrimmed) name and replaced by its translation. */
  function TranslateOne(d: CiDict, input: Option<TaskInputDefinition>, translate: string -> string): (r: Result<CiDict, Exn>)
    ensures r.Ok? && IsFilePathInput(input) ==>
      (input.value.name.Some? && Get(d, input.value.name.value).Some?
       && r.value == Put(d, input.value.name.value, translate(Get(d, input.value.name.value).value)))
    ensures r.Ok? && !IsFilePathInput(input) ==> r.value == d
    ensures r.Err? <==> input.None? || (IsFilePathInput(input) && (input.value.name.None? || Get(d, input.value.name.value).None?))
  {
    if input.None? then Err(NullReference)
    else if !NEqualsIgnoreCase(input.value.inputType, FilePathInputType) then Ok(d)
    else if input.value.name.None? then Err(ArgumentError("key"))
    else
      var name := input.value.name.value;
      var current := Get(d, name);
      if current.None? then Err(KeyNotFound(name))
      else Ok(Put(d, name, translate(current.value)))
  }

  /** The declarations applied in order, stopping at the first exception. */
  function TranslateAll(d: CiDict, inputs: seq<Option<TaskInputDefinition>>, translate: string -> string): Result<CiDict, Exn>
    decreases |inputs|
  {
    if inputs == [] then Ok(d)
    else
      var prev := TranslateAll(d, inputs[..|inputs| - 1], translate);
      if prev.Err? then prev else TranslateOne(prev.value, inputs[|inputs| - 1], translate)
  }

  /** The rewrite keeps every key, touches only names declared as file paths (compared
      ignoring case), and leaves every declared file-path input present. */
  lemma {:induction false} TranslateAllScope(d: CiDict, inputs: seq<Option<TaskInputDefinition>>, translate: string -> string)
    ensures var r := TranslateAll(d, inputs, translate);
      r.Ok? ==>
        && r.value.entries.Keys == d.entries.Keys
        && (WellKeyed(d) ==> WellKeyed(r.value))
        && (forall n :: (forall k :: 0 <= k < |inputs| && IsFilePathInput(inputs[k]) ==>
                           Fold(inputs[k].value.name.GetOr("")) != Fold(n))
              ==> Get(r.value, n) == Get(d, n))
        && (forall k :: 0 <= k < |inputs| && IsFilePathInput(inputs[k]) ==>
              inputs[k].value.name.Some? && Get(r.value, inputs[k].value.name.value).Some?)
    decreases |inputs|
  {
    if inputs != [] {
      var init := inputs[..|inputs| - 1];
      var last := inputs[|inputs| - 1];
      TranslateAllScope(d, init, translate);
      var prev := TranslateAll(d, init, translate);
      var r := TranslateAll(d, inputs, translate);
      if r.Ok? {
        assert prev.Ok?;
        forall k | 0 <= k < |inputs| - 1
          ensures inputs[k] == init[k]
        {
        }
        if IsFilePathInput(last) {
          var name := last.value.name.value;
          assert Fold(name) in prev.value.entries;
          forall k | 0 <= k < |inputs| && IsFilePathInput(inputs[k])
            ensures inputs[k].value.name.Some? && Get(r.value, inputs[k].value.name.value).Some?
          {
            if k < |inputs| - 1 {
              var n := inputs[k].value.name.value;
              if Fold(n) != Fold(name) {
                assert Get(r.value, n) == Get(prev.value, n);
              }
            }
          }
        }
      }
    }
  }

  /** A file-path input declared once (its name compared ignoring case) ends up holding
      the translation of the value it had before the rewrite. */
  lemma {:induction false} TranslateAllTranslatesOnce(d: CiDict, inputs: seq<Option<TaskInputDefinition>>,
                                                      translate: string -> string, k: nat)
    requires k < |inputs| && IsFilePathInput(inputs[k]) && inputs[k].value.name.Some?
    requires forall j :: 0 <= j < |inputs| && j != k && IsFilePathInput(inputs[j]) ==>
      Fold(inputs[j].value.name.GetOr("")) != Fold(inputs[k].value.name.value)
    requires TranslateAll(d, inputs, translate).Ok?
    ensures var name := inputs[k].value.name.value;
      Get(d, name).Some? && Get(TranslateAll(d, inputs, translate).value, name) == Some(translate(Get(d, name).value))
    decreases |inputs|
  {
    var name := inputs[k].value.name.value;
    var init := inputs[..|inputs| - 1];
    var last := inputs[|inputs| - 1];
    var prev := TranslateAll(d, init, translate);
    assert prev.Ok?;
    if k == |inputs| - 1 {
      TranslateAllScope(d, init, translate);
      forall j | 0 <= j < |init| && IsFilePathInput(init[j])
        ensures Fold(init[j].value.name.GetOr("")) != Fold(name)
      {
        assert init[j] == inputs[j];
      }
      assert Get(prev.value, name) == Get(d, name);
    } else {
      TranslateAllTranslatesOnce(d, init, translate, k);
    }
  }

  lemma TranslateAllSnoc(d: CiDict, inputs: seq<Option<TaskInputDefinition>>, translate: string -> string, i: nat)
    requires i < |inputs|
    ensures var prev := TranslateAll(d, inputs[..i], translate);
      TranslateAll(d, inputs[..i + 1], translate)
        == if prev.Err? then prev else TranslateOne(prev.value, inputs[i], translate)
  {
    assert inputs[..i + 1][..i] == inputs[..i];
  }

  /** The first exception ends the rewrite: later declarations are not looked at. */
  lemma {:induction false} TranslateAllStopsAtError(d: CiDict, inputs: seq<Option<TaskInputDefinition>>, translate: string -> string, i: nat)
    requires i <= |inputs| && TranslateAll(d, inputs[..i], translate).Err?
    ensures TranslateAll(d, inputs, translate) == TranslateAll(d, inputs[..i], translate)
    decreases |inputs| - i
  {
    if i < |inputs| {
      TranslateAllSnoc(d, inputs, translate, i);
      TranslateAllStopsAtError(d, inputs, translate, i + 1);
    } else {
      assert inputs[..i] == inputs;
    }
  }

  // ---------------------------------------------------------------------------
  // Output variables (TaskRunner.cs:144-150)

  /** A declaration's name, with "" standing for a null declaration or a null name. */
  function OutputName(o: OutputVariable): string {
    if o.Some? && o.value.Some? then o.value.value else ""
  }

  /** Each declaration's name, in declaration order. */
  function OutputNameOrEmpty(outputs: seq<OutputVariable>): (r: seq<string>)
    ensures |r| == |outputs|
    decreases |outputs|
  {
    if outputs == [] then []
    else OutputNameOrEmpty(outputs[..|outputs| - 1]) + [OutputName(outputs[|outputs| - 1])]
  }

  /** The names of the declared output variables that are non-null and non-empty, in
      declaration order; `DeclaredOutputNamesInOrder` and `DeclaredOutputNamesCounts`
      state the order and multiplicity. */
  function DeclaredOutputNames(outputs: seq<OutputVariable>): (r: seq<string>)
    ensures forall i :: 0 <= i < |r| ==> r[i] != ""
    ensures forall n :: n in r <==> n != "" && exists i :: 0 <= i < |outputs| && outputs[i] == Some(Some(n))
    ensures |r| <= |outputs|
    decreases |outputs|
  {
    if outputs == [] then []
    else
      var init := outputs[..|outputs| - 1];
      var rest := DeclaredOutputNames(init);
      var last := outputs[|outputs| - 1];
      assert forall i :: 0 <= i < |init| ==> outputs[i] == init[i];
      if last.Some? && !IsNullOrEmpty(last.value) then rest + [last.value.value] else rest
  }

  /** The registered names keep declaration order: they are the declared names with
      the null and empty ones deleted. */
  lemma {:induction false} DeclaredOutputNamesInOrder(outputs: seq<OutputVariable>)
    ensures IsSubsequence(DeclaredOutputNames(outputs), OutputNameOrEmpty(outputs))
    decreases |outputs|
  {
    if outputs != [] {
      var init := outputs[..|outputs| - 1];
      var last := outputs[|outputs| - 1];
      var name := OutputName(last);
      DeclaredOutputNamesInOrder(init);
      SubsequenceSnoc(DeclaredOutputNames(init), OutputNameOrEmpty(init), name);
      if last.Some? && !IsNullOrEmpty(last.value) {
        assert DeclaredOutputNames(outputs) == DeclaredOutputNames(init) + [name];
      }
    }
  }

  /** One entry per declaration that carries a non-empty name: each such name is
      registered as often as it is declared. */
  lemma {:induction false} DeclaredOutputNamesCounts(outputs: seq<OutputVariable>)
    ensures forall n :: n != "" ==>
      multiset(DeclaredOutputNames(outputs))[n] == multiset(OutputNameOrEmpty(outputs))[n]
    decreases |outputs|
  {
    if outputs != [] {
      var init := outputs[..|outputs| - 1];
      var last := outputs[|outputs| - 1];
      var rest := DeclaredOutputNames(init);
      var name := OutputName(last);
      DeclaredOutputNamesCounts(init);
      assert multiset(OutputNameOrEmpty(outputs)) == multiset(OutputNameOrEmpty(init)) + multiset{name};
      if last.Some? && !IsNullOrEmpty(last.value) {
        assert DeclaredOutputNames(outputs) == rest + [name];
        assert multiset(rest + [name]) == multiset(rest) + multiset{name};
      } else {
        assert name == "";
      }
    }
  }

  // ---------------------------------------------------------------------------
  // Handler inputs (TaskRunner.cs:140-141)

  /** The handler's own inputs, each expanded against the resolved inputs and then
      against the variables; the keys stay as they are. The expanders are parameters,
      so this order and the unchanged keys are all there is to state. */
  function ExpandHandlerInputs(handlerInputs: map<string, string>, inputs: CiDict, e: Expanders): (r: map<string, string>)
    ensures r.Keys == handlerInputs.Keys
    ensures forall k :: k in r ==> r[k] == e.variables(e.fromInputs(inputs, handlerInputs[k]))
  {
    map k | k in handlerInputs :: e.variables(e.fromInputs(inputs, handlerInputs[k]))
  }

  /** TaskRunner.cs:99-125: the merged inputs after variable and environment expansion. */
  function ExpandedInputs(defs: seq<Option<TaskInputDefinition>>, inst: seq<(NString, NString)>, e: Expanders): (r: CiDict)
    ensures forall n :: (Get(r, n) ==
      if Get(MergedInputs(defs, inst), n).Some?
      then Some(e.environment(e.variables(Get(MergedInputs(defs, inst), n).value)))
      else None)
  {
    ExpandValues(ExpandValues(MergedInputs(defs, inst), e.variables), e.environment)
  }

  /** The ExecutionData of the stage, or null when the definition has none for it. */
  function StageExecution(stage: JobRunStage, data: DefinitionData): ExecutionData? {
    match stage
    case PreJob => data.preJobExecution
    case Main => data.execution
    case PostJob => data.postJobExecution
  }

  function StageObjects(stage: JobRunStage, definition: Option<Definition>): set<object> {
    if definition.None? || definition.value.data.None? then {}
    else
      var x := StageExecution(stage, definition.value.data.value);
      if x == null then {} else {x}
  }

  class TaskRunner {
    var stage: JobRunStage
    var taskInstance: Option<TaskInstance>
    var executionContext: ExecutionContext?

    constructor (stage: JobRunStage, taskInstance: Option<TaskInstance>, executionContext: ExecutionContext?)
      ensures this.stage == stage && this.taskInstance == taskInstance && this.executionContext == executionContext
    {
      this.stage := stage;
      this.taskInstance := taskInstance;
      this.executionContext := executionContext;
    }

    /** TaskRunner.cs:33 */
    function ContinueOnError(): (r: bool)
      reads this
      ensures r <==> taskInstance.Some? && taskInstance.value.continueOnError
    {
      taskInstance.Some? && taskInstance.value.continueOnError
    }

    /** TaskRunner.cs:35 */
    function DisplayName(): (r: NString)
      reads this
      ensures taskInstance.None? ==> r.None?
      ensures taskInstance.Some? ==> r == taskInstance.value.displayName
    {
      if taskInstance.None? then None else taskInstance.value.displayName
    }

    /** TaskRunner.cs:37 */
    function Enabled(): (r: bool)
      reads this
      ensures r <==> taskInstance.Some? && taskInstance.value.enabled
    {
      taskInstance.Some? && taskInstance.value.enabled
    }

    /** TaskRunner.cs:43: the timeout in minutes, when the instance sets a positive one. */
    function Timeout(): (r: Option<int>)
      reads this
      ensures r.Some? <==> taskInstance.Some? && taskInstance.value.timeoutInMinutes > 0
      ensures r.Some? ==> r.value == taskInstance.value.timeoutInMinutes && r.value > 0
    {
      if taskInstance.Some? && taskInstance.value.timeoutInMinutes > 0 then Some(taskInstance.value.timeoutInMinutes)
      else None
    }

    /** TaskRunner.cs:164-218 */
    method TranslateFilePathInput(os: Os, extensions: seq<JobExtension>, inputValue: string) returns (r: string)
      requires executionContext != null
      ensures r == TranslatedPath(os, extensions, executionContext.hostType, executionContext.Get(ArtifactsDirectory), inputValue)
    {
      var value := inputValue;
      if os.isWindows && value != "" {
        value := TrimChars(value, {'"'});
        value := ReplaceChar(value, AltDirectorySeparatorChar, DirectorySeparatorChar);
      }
      assert value == Normalized(os, inputValue);
      if IsValidRooted(os, value) {
        var fullPath := os.getFullPath(value);
        if fullPath.Some? {
          return fullPath.value;
        }
        return value;
      }
      var artifactsDirectory := executionContext.Get(ArtifactsDirectory);
      var matching := Matching(extensions, executionContext.hostType);
      var i := 0;
      while i < |matching|
        invariant 0 <= i <= |matching|
        invariant forall k :: 0 <= k < i ==> IsNullOrEmpty(ExtensionRoot(matching[k], os, artifactsDirectory, value))
      {
        var fullPath := ExtensionRoot(matching[i], os, artifactsDirectory, value);
        if !IsNullOrEmpty(fullPath) {
          assert FirstRooting(matching, os, artifactsDirectory, value) == Some(i);
          return fullPath.value;
        }
        i := i + 1;
      }
      assert FirstRooting(matching, os, artifactsDirectory, value).None?;
      return value;
    }

    /** TaskRunner.cs:128-136 */
    method TranslateFilePathInputs(os: Os, extensions: seq<JobExtension>, inputs: CiDict,
                                   declared: seq<Option<TaskInputDefinition>>)
      returns (r: Result<CiDict, Exn>)
      requires executionContext != null
      ensures r == TranslateAll(inputs, declared,
        Translator(os, extensions, executionContext.hostType, executionContext.Get(ArtifactsDirectory)))
    {
      ghost var translate := Translator(os, extensions, executionContext.hostType, executionContext.Get(ArtifactsDirectory));
      var current := inputs;
      var i := 0;
      assert declared[..0] == [];
      while i < |declared|
        invariant 0 <= i <= |declared|
        invariant TranslateAll(inputs, declared[..i], translate) == Ok(current)
      {
        TranslateAllSnoc(inputs, declared, translate, i);
        var input := declared[i];
        if input.None? {
          TranslateAllStopsAtError(inputs, declared, translate, i + 1);
          return Err(NullReference);
        }
        if NEqualsIgnoreCase(input.value.inputType, FilePathInputType) {
          if input.value.name.None? {
            TranslateAllStopsAtError(inputs, declared, translate, i + 1);
            return Err(ArgumentError("key"));
          }
          var name := input.value.name.value;
          var value := Get(current, name);
          if value.None? {
            TranslateAllStopsAtError(inputs, declared, translate, i + 1);
            return Err(KeyNotFound(name));
          }
          var translated := TranslateFilePathInput(os, extensions, value.value);
          assert translated == translate(value.value);
          assert TranslateOne(current, input, translate) == Ok(Put(current, name, translated));
          current := Put(current, name, translated);
        }
        i := i + 1;
      }
      assert declared[..i] == declared;
      return Ok(current);
    }

    /** TaskRunner.cs:144-150 */
    method AddOutputVariables(outputs: seq<OutputVariable>)
      requires executionContext != null
      modifies executionContext
      ensures executionContext.outputVariables == old(executionContext.outputVariables) + DeclaredOutputNames(outputs)
      ensures executionContext.variables == old(executionContext.variables)
      ensures executionContext.hostType == old(executionContext.hostType) && executionContext.issues == old(executionContext.issues)
    {
      var i := 0;
      assert outputs[..0] == [];
      while i < |outputs|
        invariant 0 <= i <= |outputs|
        invariant executionContext.outputVariables == old(executionContext.outputVariables) + DeclaredOutputNames(outputs[..i])
        invariant executionContext.variables == old(executionContext.variables)
        invariant executionContext.hostType == old(executionContext.hostType) && executionContext.issues == old(executionContext.issues)
      {
        assert outputs[..i + 1][..i] == outputs[..i];
        var outputVar := outputs[i];
        if outputVar.Some? && !IsNullOrEmpty(outputVar.value) {
          executionContext.AddOutputVariable(outputVar.value.value);
        }
        i := i + 1;
      }
      assert outputs[..i] == outputs;
    }

    /** TaskRunner.cs:45-158 and 222-223, up to the creation of the handler: the task definition is
        given as loaded, and the handler's run is not part of the model. */
    method RunAsync(definition: Option<Definition>, os: Os, extensions: seq<JobExtension>, e: Expanders)
      returns (r: Result<HandlerInvocation, Exn>)
      modifies executionContext, StageObjects(stage, definition)
      ensures executionContext == null ==> r == Err(ArgumentError("ExecutionContext"))
      ensures executionContext != null && taskInstance.None? ==>
        r == Err(ArgumentError("TaskInstance")) && executionContext.variables == old(executionContext.variables)
      ensures executionContext != null ==>
        executionContext.hostType == old(executionContext.hostType) && executionContext.issues == old(executionContext.issues)
      ensures executionContext != null && taskInstance.Some? ==>
        executionContext.variables == old(executionContext.variables)[TaskDisplayName := DisplayName()]
      ensures executionContext != null && taskInstance.Some? && definition.None? ==> r == Err(ArgumentError("definition"))
      ensures executionContext != null && taskInstance.Some? && definition.Some? && definition.value.data.None? ==>
        r == Err(ArgumentError("Data"))
      ensures (executionContext != null && taskInstance.Some? && definition.Some? && definition.value.data.Some?
               && StageExecution(stage, definition.value.data.value) == null) ==> r == Err(NullableWithoutValue)
      ensures r.Err? && executionContext != null ==> executionContext.outputVariables == old(executionContext.outputVariables)
      ensures (executionContext != null && taskInstance.Some? && definition.Some? && definition.value.data.Some?
               && StageExecution(stage, definition.value.data.value) != null) ==>
        var data := definition.value.data.value;
        var x := StageExecution(stage, data);
        var all := LegacyUnpinned(old(x.all));
        var selected := SelectHandler(all, os);
        var resolved := TranslateAll(ExpandedInputs(data.inputs, taskInstance.value.inputs, e), data.inputs,
          Translator(os, extensions, executionContext.hostType, executionContext.Get(ArtifactsDirectory)));
        && (selected.None? ==> r == Err(SupportedTaskHandlerNotFound) && x.all == all)
        && (selected.Some? && resolved.Err? ==> r == Err(resolved.error) && x.all == all)
        && (selected.Some? && resolved.Ok? ==>
              var i := selected.value;
              && x.all == all[i := all[i].(inputs := ExpandHandlerInputs(all[i].inputs, resolved.value, e))]
              && r == Ok(HandlerInvocation(x.all[i], resolved.value, definition.value.directory,
                   TranslatedPath(os, extensions, executionContext.hostType, executionContext.Get(ArtifactsDirectory), "")))
              && executionContext.outputVariables == old(executionContext.outputVariables) + DeclaredOutputNames(data.outputVariables))
    {
      if executionContext == null {
        return Err(ArgumentError("ExecutionContext"));
      }
      if taskInstance.None? {
        return Err(ArgumentError("TaskInstance"));
      }
      executionContext.Set(TaskDisplayName, DisplayName());
      if definition.None? {
        return Err(ArgumentError("definition"));
      }
      if definition.value.data.None? {
        // PrintTaskMetaData (TaskRunner.cs:223)
        return Err(ArgumentError("Data"));
      }
      var data := definition.value.data.value;
      var currentExecution := StageExecution(stage, data);
      if currentExecution == null {
        return Err(NullableWithoutValue);
      }
      currentExecution.ApplyLegacyRule();
      var selected := SelectHandler(currentExecution.all, os);
      if selected.None? {
        return Err(SupportedTaskHandlerNotFound);
      }
      var handlerIndex := selected.value;
      var inputs := LoadInputs(data.inputs, taskInstance.value.inputs);
      inputs := ExpandValues(inputs, e.variables);
      inputs := ExpandValues(inputs, e.environment);
      var translated := TranslateFilePathInputs(os, extensions, inputs, data.inputs);
      if translated.Err? {
        return Err(translated.error);
      }
      inputs := translated.value;
      var handlerData := currentExecution.all[handlerIndex];
      currentExecution.SetHandlerInputs(handlerIndex, ExpandHandlerInputs(handlerData.inputs, inputs, e));
      AddOutputVariables(data.outputVariables);
      var root := TranslateFilePathInput(os, extensions, "");
      return Ok(HandlerInvocation(currentExecution.all[handlerIndex], inputs, definition.value.directory, root));
    }
  }
}
