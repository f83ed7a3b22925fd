/** The job's execution context as the two components use it: its variable store, the
    output-variable names it accepts, and the issues it records. */
module Context {
  import opened Base
  import opened Platform

  /** The variables the modelled code reads or writes, by their role (their literal names
      live in the agent's constants, which the model does not need). */
  datatype Var =
    | TaskDisplayName
    | ReleaseId
    | TeamProjectId
    | SkipArtifactsDownload
    | ReleaseDefinitionName
    | ReleaseDefinitionId
    | AgentReleaseDirectory
    | ArtifactsDirectory
    | DefaultWorkingDirectory

  datatype IssueType = Error | Warning

  /** An issue: its type, the resource key of its message, the exception the message
      formats, and its data dictionary. */
  datatype Issue = Issue(issueType: IssueType, messageKey: string, error: Exn, data: map<string, string>)

  class ExecutionContext {
    var variables: map<Var, NString>
    var hostType: HostTypes              // Variables.System_HostType
    var outputVariables: seq<string>
    var issues: seq<Issue>

    constructor (variables: map<Var, NString>, hostType: HostTypes)
      ensures this.variables == variables && this.hostType == hostType
      ensures outputVariables == [] && issues == []
    {
      this.variables := variables;
      this.hostType := hostType;
      outputVariables := [];
      issues := [];
    }

    /** `Variables.Get(name)`: null when the variable is not set. */
    function Get(name: Var): NString
      reads this
    {
      if name in variables then variables[name] else None
    }

    /** `Variables.Set(name, value)` */
    method Set(name: Var, value: NString)
      modifies this
      ensures variables == old(variables)[name := value]
      ensures hostType == old(hostType) && outputVariables == old(outputVariables) && issues == old(issues)
    {
      variables := variables[name := value];
    }

    /** `OutputVariables.Add(name)` */
    method AddOutputVariable(name: string)
      modifies this
      ensures outputVariables == old(outputVariables) + [name]
      ensures variables == old(variables) && hostType == old(hostType) && issues == old(issues)
    {
      outputVariables := outputVariables + [name];
    }

    /** `AddIssue(issue)` */
    method AddIssue(issue: Issue)
      modifies this
      ensures issues == old(issues) + [issue]
      ensures variables == old(variables) && hostType == old(hostType) && outputVariables == old(outputVariables)
    {
      issues := issues + [issue];
    }
  }
}
