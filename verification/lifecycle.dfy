/** Project lifecycle: the argument guards of `projectExists`,
    `findProject` and `deleteProject`, and the loop in `createProject` that
    waits for a newly requested project to become visible. The cluster's
    answers are inputs. */
module Lifecycle {
  import opened Base
  import opened Projects

  /** What `client.projects().withName(name).get()` does: return the project,
      return null, or raise a `KubernetesClientException`. */
  datatype Lookup = Present | Absent | ClientError(detail: string)

  /** `projectExists`: a null or empty name is rejected; a client exception
      counts as "does not exist". */
  function ProjectExists(name: Option<string>, lookup: Lookup): (r: Result<bool>)
    ensures r.Failure? <==> IsNullOrEmpty(name)
    ensures r.Failure? ==> r.error == IllegalArgument("Project name cannot be empty")
    ensures r.Success? ==> (r.value <==> lookup.Present?)
  {
    if IsNullOrEmpty(name) then Failure(IllegalArgument("Project name cannot be empty"))
    else
      match lookup
      case Present => Success(true)
      case Absent => Success(false)
      case ClientError(_) => Success(false)
  }

  /** `findProject`: the same guard as `projectExists`, then a handle on the
      console exactly when the project exists. */
  function FindProject(name: Option<string>, lookup: Lookup, console: string): (r: Result<Option<OpenShiftProject>>)
    ensures r.Failure? <==> IsNullOrEmpty(name)
    ensures r.Failure? ==> r.error == IllegalArgument("Project name cannot be empty")
    ensures r.Success? && r.value.Some? ==> r.value.value == OpenShiftProject(name.value, console, [])
  {
    if IsNullOrEmpty(name) then Failure(IllegalArgument("Project name cannot be empty"))
    else
      var present := ProjectExists(name, lookup).value;
      Success(if present then Some(OpenShiftProject(name.value, console, [])) else None)
  }

  /** `findProject` finds a project exactly when `projectExists` says it
      exists, and fails exactly when it fails. */
  lemma FindProjectAgrees(name: Option<string>, lookup: Lookup, console: string)
    ensures FindProject(name, lookup, console).Success? == ProjectExists(name, lookup).Success?
    ensures FindProject(name, lookup, console).Success? ==>
              (FindProject(name, lookup, console).value.Some? <==> ProjectExists(name, lookup).value)
  {
  }

  /** `deleteProject(String)`: a null or empty name is rejected; otherwise
      the client's answer to `delete()` is returned, and a client exception
      it raises (`answer` a failure) propagates unchanged. */
  function DeleteProject(name: Option<string>, answer: Result<bool>): (r: Result<bool>)
    ensures r.Failure? <==> IsNullOrEmpty(name) || answer.Failure?
    ensures IsNullOrEmpty(name) ==> r.error == IllegalArgument("project name must be specified")
    ensures !IsNullOrEmpty(name) ==> r == answer
  {
    if IsNullOrEmpty(name) then Failure(IllegalArgument("project name must be specified"))
    else answer
  }

  /** `deleteProject(OpenShiftProject)`: a null project is rejected; otherwise
      the project is deleted by name. */
  function DeleteProjectOf(project: Option<OpenShiftProject>, answer: Result<bool>): (r: Result<bool>)
    ensures project.None? ==> r == Failure(IllegalArgument("project must be specified"))
    ensures project.Some? && |project.value.name| == 0 ==> r == Failure(IllegalArgument("project name must be specified"))
    ensures project.Some? && |project.value.name| > 0 ==> r == answer
  {
    if project.None? then Failure(IllegalArgument("project must be specified"))
    else DeleteProject(Some(project.value.name), answer)
  }

  /** The three name guards reject the same names: null and empty ones.
      Past the guard, `projectExists` swallows a client exception while
      `deleteProject` lets it through. */
  lemma GuardsAgree(name: Option<string>, lookup: Lookup, console: string, deleted: bool, detail: string)
    ensures ProjectExists(name, lookup).Failure? == FindProject(name, lookup, console).Failure?
    ensures ProjectExists(name, lookup).Failure? == DeleteProject(name, Success(deleted)).Failure?
    ensures ProjectExists(name, lookup).Failure? <==> name.None? || name.value == ""
    ensures !IsNullOrEmpty(name) ==>
              ProjectExists(name, ClientError(detail)) == Success(false)
              && DeleteProject(name, Failure(ClientFailure(detail))) == Failure(ClientFailure(detail))
  {
  }

  /** What `projectrequests().createNew()...done()` does: return the request
      with the name the server recorded, or raise an exception that
      `ExceptionMapper` maps. */
  datatype Request = Accepted(roundtripName: string) | Rejected(detail: string)

  /** The number of existence checks `createProject` makes before giving up. */
  const MaxChecks: nat := 10

  /** The exception raised when the project never shows up. */
  function NotFound(name: string): Error {
    IllegalState("Newly-created project " + name + " could not be found ")
  }

  /** `createProject`: request the project, then check up to `MaxChecks`
      times whether it exists, sleeping between checks. `lookups[k]` is the
      answer to check `k + 1`; `checks` and `sleeps` count what the loop
      did. */
  method CreateProject(name: Option<string>, request: Request, lookups: seq<Lookup>, console: string)
    returns (r: Result<OpenShiftProject>, checks: nat, sleeps: nat)
    requires |lookups| >= MaxChecks
    ensures checks <= MaxChecks
    ensures sleeps == if checks == 0 then 0 else checks - 1
    ensures request.Rejected? ==> r == Failure(ProjectRequestRejected(request.detail)) && checks == 0
    ensures request.Accepted? && IsNullOrEmpty(name) ==>
              r == Failure(IllegalArgument("Project name cannot be empty")) && checks == 1
    ensures request.Accepted? && !IsNullOrEmpty(name) ==>
              1 <= checks && forall k :: 0 <= k < checks - 1 ==> !lookups[k].Present?
    ensures request.Accepted? && !IsNullOrEmpty(name) ==>
              (r.Success? <==> exists k :: 0 <= k < MaxChecks && lookups[k].Present?)
    ensures r.Success? ==> r.value == OpenShiftProject(request.roundtripName, console, []) && lookups[checks - 1].Present?
    ensures request.Accepted? && !IsNullOrEmpty(name) && r.Failure? ==>
              checks == MaxChecks && r.error == NotFound(name.value)
  {
    checks := 0;
    sleeps := 0;
    if request.Rejected? {
      r := Failure(ProjectRequestRejected(request.detail));
      return;
    }
    while true
      invariant checks < MaxChecks
      invariant sleeps == checks
      invariant IsNullOrEmpty(name) ==> checks == 0
      invariant forall k :: 0 <= k < checks ==> !lookups[k].Present?
      decreases MaxChecks - checks
    {
      checks := checks + 1;
      var present := ProjectExists(name, lookups[checks - 1]);
      if present.Failure? {
        r := Failure(present.error);
        return;
      }
      if present.value {
        break;
      }
      if checks == MaxChecks {
        r := Failure(NotFound(name.value));
        return;
      }
      sleeps := sleeps + 1;
    }
    r := Success(OpenShiftProject(request.roundtripName, console, []));
  }
}
