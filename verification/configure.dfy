/** The private `configureProject`: resolve the parameters, build their value
    map, process the template, then apply the processed items to the project
    with up to ten attempts. While the items are applied, a visitor records
    every build config on the project; the record is only ever appended to,
    and what a failed attempt recorded stays. */
module Configure {
  import opened Base
  import Parameters
  import Resolver
  import Projects
  import Webhooks
  import Urls

  /** A trigger of a build config: the secret of its GitHub part, when it
      has one (which may itself be null). */
  datatype Trigger = Trigger(github: Option<Option<string>>)

  /** A processed template item: its name, its kind and, for a build
      config, its triggers. */
  datatype Item = Item(name: string, kind: string, triggers: seq<Trigger>)

  /** What one call to `createOrReplace` does once the items are visited. */
  datatype Outcome = Applied | Refused(detail: string)

  /** Trigger `k` is the first with a GitHub part. */
  predicate FirstGitHub(triggers: seq<Trigger>, k: int) {
    0 <= k < |triggers| && triggers[k].github.Some?
    && forall j :: 0 <= j < k ==> triggers[j].github.None?
  }

  /** The secret of the first trigger with a GitHub part:
      `filter(r -> r.getGithub() != null).findFirst().get().getGithub().getSecret()`;
      `None` is the `NoSuchElementException` of `get()`. */
  function GitHubSecret(triggers: seq<Trigger>): (r: Option<Option<string>>)
    ensures r.None? <==> forall k :: 0 <= k < |triggers| ==> triggers[k].github.None?
    ensures r.Some? ==> exists k :: FirstGitHub(triggers, k) && triggers[k].github == r
    decreases |triggers|
  {
    if |triggers| == 0 then None
    else if triggers[0].github.Some? then
      assert FirstGitHub(triggers, 0);
      triggers[0].github
    else
      var r := GitHubSecret(triggers[1..]);
      assert forall k :: 1 <= k < |triggers| ==> triggers[k] == triggers[1..][k - 1];
      assert r.Some? ==> exists k :: FirstGitHub(triggers, k) && triggers[k].github == r by {
        if r.Some? {
          var k :| FirstGitHub(triggers[1..], k) && triggers[1..][k].github == r;
          assert FirstGitHub(triggers, k + 1);
        }
      }
      r
  }

  /** An item the typed visitor visits. */
  predicate IsBuildConfig(item: Item) {
    item.kind == Webhooks.BuildConfigKind
  }

  /** A build config the visitor can record: one with a GitHub trigger. */
  predicate Recordable(item: Item) {
    !IsBuildConfig(item) || GitHubSecret(item.triggers).Some?
  }

  /** The resource the visitor records for a build config: its name, its
      kind and the secret of its first trigger with a GitHub part. */
  function ResourceOf(item: Item): (r: Projects.Resource)
    requires IsBuildConfig(item) && GitHubSecret(item.triggers).Some?
    ensures r.name == item.name && r.kind == Webhooks.BuildConfigKind
    ensures exists k :: FirstGitHub(item.triggers, k) && item.triggers[k].github == Some(r.secret)
  {
    Projects.Resource(item.name, item.kind, GitHubSecret(item.triggers).value)
  }

  /** One visit of the items: the resources recorded, in order, and whether
      the visit stopped at a build config without a GitHub trigger. */
  datatype Visit = Visit(recorded: seq<Projects.Resource>, stopped: bool)

  /** The visitor run over the items in order. */
  function VisitItems(items: seq<Item>): (v: Visit)
    ensures |v.recorded| <= |items|
    ensures forall k :: 0 <= k < |v.recorded| ==> v.recorded[k].kind == Webhooks.BuildConfigKind
    decreases |items|
  {
    if |items| == 0 then Visit([], false)
    else
      var item := items[0];
      if !IsBuildConfig(item) then VisitItems(items[1..])
      else if GitHubSecret(item.triggers).None? then Visit([], true)
      else
        var rest := VisitItems(items[1..]);
        Visit([ResourceOf(item)] + rest.recorded, rest.stopped)
  }

  /** The resources of all build configs of fully recordable items. */
  function AllRecorded(items: seq<Item>): seq<Projects.Resource>
    requires forall k :: 0 <= k < |items| ==> Recordable(items[k])
    decreases |items|
  {
    if |items| == 0 then []
    else
      assert Recordable(items[0]);
      assert forall k :: 1 <= k < |items| ==> items[1..][k - 1] == items[k];
      if IsBuildConfig(items[0]) then [ResourceOf(items[0])] + AllRecorded(items[1..])
      else AllRecorded(items[1..])
  }

  /** A visit stops exactly when some build config has no GitHub trigger;
      otherwise it records every build config, in order. */
  lemma {:induction false} VisitStopsIff(items: seq<Item>)
    ensures VisitItems(items).stopped <==> exists k :: 0 <= k < |items| && !Recordable(items[k])
    ensures (forall k :: 0 <= k < |items| ==> Recordable(items[k])) ==> VisitItems(items).recorded == AllRecorded(items)
    decreases |items|
  {
    if |items| > 0 {
      VisitStopsIff(items[1..]);
      assert forall k :: 1 <= k < |items| ==> items[k] == items[1..][k - 1];
      if exists k :: 1 <= k < |items| && !Recordable(items[k]) {
        var k :| 1 <= k < |items| && !Recordable(items[k]);
        assert !Recordable(items[1..][k - 1]);
      }
    }
  }

  /** A visit that meets a build config without a GitHub trigger stops
      there, keeping what it recorded from the items before it. */
  lemma {:induction false} VisitStopsAt(items: seq<Item>, k: nat)
    requires k < |items| && !Recordable(items[k])
    requires forall j :: 0 <= j < k ==> Recordable(items[j])
    ensures VisitItems(items) == Visit(AllRecorded(items[..k]), true)
    decreases k
  {
    if k > 0 {
      assert Recordable(items[0]);
      var rest := items[1..];
      assert forall j :: 0 <= j < k - 1 ==> rest[j] == items[j + 1];
      VisitStopsAt(rest, k - 1);
      assert items[..k][1..] == rest[..k - 1];
    }
  }

  /** `n` copies of `s`, one after another. */
  function Repeat<T>(s: seq<T>, n: nat): (r: seq<T>)
    ensures |r| == n * |s|
  {
    if n == 0 then [] else Repeat(s, n - 1) + s
  }

  /** One more copy appended after a prefix. */
  lemma RepeatStep<T>(prefix: seq<T>, s: seq<T>, n: nat)
    ensures prefix + Repeat(s, n) + s == prefix + Repeat(s, n + 1)
  {
    assert Repeat(s, n + 1) == Repeat(s, n) + s;
  }

  const MaxAttempts: nat := 10
  const PipelineFailure: string := "Could not create OpenShift pipeline"

  /** Whether attempt `k` (from 0) succeeds: the visit completes and the
      cluster applies the items. */
  predicate AttemptSucceeds(items: seq<Item>, outcomes: seq<Outcome>, k: nat)
    requires k < |outcomes|
  {
    !VisitItems(items).stopped && outcomes[k].Applied?
  }

  /** The error of a failed attempt: the visitor's `NoSuchElementException`
      or the cluster's refusal. */
  function AttemptError(items: seq<Item>, outcome: Outcome): Error {
    if VisitItems(items).stopped then NoSuchElement
    else if outcome.Refused? then ClientFailure(outcome.detail)
    else NoSuchElement
  }

  /** No attempt before attempt `n` succeeds. */
  predicate FailedBefore(items: seq<Item>, outcomes: seq<Outcome>, n: nat)
    requires n <= |outcomes|
  {
    forall k :: 0 <= k < n ==> !AttemptSucceeds(items, outcomes, k)
  }

  /** One of the first `MaxAttempts` attempts succeeds. */
  predicate CanSucceed(items: seq<Item>, outcomes: seq<Outcome>)
    requires |outcomes| >= MaxAttempts
  {
    exists k :: 0 <= k < MaxAttempts && AttemptSucceeds(items, outcomes, k)
  }

  lemma FailedThroughout(items: seq<Item>, outcomes: seq<Outcome>)
    requires |outcomes| >= MaxAttempts && FailedBefore(items, outcomes, MaxAttempts)
    ensures !CanSucceed(items, outcomes)
  {
  }

  /** The retry loop: at most `MaxAttempts` attempts, each visiting the items
      (recording build configs on the project) and then applying them; it
      stops at the first success, sleeps after every failed attempt but the
      last, and after the last failure raises the last error, wrapped. */
  method ApplyWithRetry(items: seq<Item>, outcomes: seq<Outcome>, resources: seq<Projects.Resource>)
    returns (r: Result<()>, recorded: seq<Projects.Resource>, attempts: nat, sleeps: nat)
    requires |outcomes| >= MaxAttempts
    ensures 1 <= attempts <= MaxAttempts && sleeps == attempts - 1
    ensures recorded == resources + Repeat(VisitItems(items).recorded, attempts)
    ensures FailedBefore(items, outcomes, attempts - 1)
    ensures r.Success? <==> CanSucceed(items, outcomes)
    ensures r.Success? ==> AttemptSucceeds(items, outcomes, attempts - 1)
    ensures r.Failure? ==>
              attempts == MaxAttempts
              && r.error == Wrapped(PipelineFailure, AttemptError(items, outcomes[MaxAttempts - 1]))
  {
    recorded := resources;
    attempts := 0;
    sleeps := 0;
    var visit := VisitItems(items);
    while true
      invariant attempts < MaxAttempts && sleeps == attempts
      invariant recorded == resources + Repeat(visit.recorded, attempts)
      invariant FailedBefore(items, outcomes, attempts)
      decreases MaxAttempts - attempts
    {
      RepeatStep(resources, visit.recorded, attempts);
      attempts := attempts + 1;
      recorded := recorded + visit.recorded;
      if !visit.stopped && outcomes[attempts - 1].Applied? {
        assert AttemptSucceeds(items, outcomes, attempts - 1);
        r := Success(());
        return;
      }
      assert FailedBefore(items, outcomes, attempts);
      if attempts == MaxAttempts {
        FailedThroughout(items, outcomes);
        r := Failure(Wrapped(PipelineFailure, AttemptError(items, outcomes[attempts - 1])));
        return;
      }
      sleeps := sleeps + 1;
    }
  }

  /** The value map of the resolved parameters: `toMap` after
      `applyParameterValueProperties`. */
  function ParameterValues(parameters: seq<Parameters.Parameter>, routes: seq<Resolver.Route>)
    : Result<map<string, string>>
  {
    Parameters.ToValueMap(Resolver.ApplyParameterValueProperties(parameters, routes))
  }

  /** The value map when the route listing is an answer of the client:
      a listing that raises fails the same way. */
  function ValueMap(parameters: seq<Parameters.Parameter>, routes: Result<seq<Resolver.Route>>)
    : Result<map<string, string>>
  {
    if routes.Failure? then Failure(routes.error) else ParameterValues(parameters, routes.value)
  }

  /** What `configureProject` does once the value map is built (or has
      failed): process the template with it and apply the processed items
      with retries. Every failure is wrapped; nothing is recorded unless the
      retry loop is reached. */
  method ProcessAndApply(values: Result<map<string, string>>, process: map<string, string> -> Result<seq<Item>>,
                         outcomes: seq<Outcome>, resources: seq<Projects.Resource>)
    returns (r: Result<()>, recorded: seq<Projects.Resource>, attempts: nat, sleeps: nat)
    requires |outcomes| >= MaxAttempts
    ensures r.Failure? ==> r.error.Wrapped? && r.error.message == PipelineFailure
    ensures |resources| <= |recorded| && recorded[..|resources|] == resources
    ensures attempts <= MaxAttempts && sleeps == if attempts == 0 then 0 else attempts - 1
    ensures r.Success? <==>
              values.Success? && process(values.value).Success? && CanSucceed(process(values.value).value, outcomes)
    ensures values.Failure? ==>
              r == Failure(Wrapped(PipelineFailure, values.error)) && attempts == 0 && recorded == resources
    ensures values.Success? && process(values.value).Failure? ==>
              r == Failure(Wrapped(PipelineFailure, process(values.value).error))
              && attempts == 0 && recorded == resources
    ensures values.Success? && process(values.value).Success? ==>
              var items := process(values.value).value;
              1 <= attempts
              && recorded == resources + Repeat(VisitItems(items).recorded, attempts)
              && FailedBefore(items, outcomes, attempts - 1)
              && (r.Success? ==> AttemptSucceeds(items, outcomes, attempts - 1))
              && (r.Failure? ==> attempts == MaxAttempts
                                 && r.error == Wrapped(PipelineFailure, AttemptError(items, outcomes[MaxAttempts - 1])))
  {
    if values.Failure? {
      r, recorded, attempts, sleeps := Failure(Wrapped(PipelineFailure, values.error)), resources, 0, 0;
      return;
    }
    var items := process(values.value);
    if items.Failure? {
      r, recorded, attempts, sleeps := Failure(Wrapped(PipelineFailure, items.error)), resources, 0, 0;
      return;
    }
    r, recorded, attempts, sleeps := ApplyWithRetry(items.value, outcomes, resources);
    assert recorded[..|resources|] == resources;
  }

  /** The private `configureProject` on a project whose recorded resources
      are `resources`. `routes` is the client's answer to listing the
      project's routes, `process` stands for loading and processing the
      template with the value map, and `outcomes` for the cluster's answers
      to the attempts. It succeeds exactly when the value map is built, the
      template is processed and one of the first ten attempts goes through;
      every failure surfaces wrapped in the same message, and only a call
      that reaches the retry loop records anything. */
  method ConfigureProject(parameters: seq<Parameters.Parameter>, routes: Result<seq<Resolver.Route>>,
                          process: map<string, string> -> Result<seq<Item>>,
                          outcomes: seq<Outcome>, resources: seq<Projects.Resource>)
    returns (r: Result<()>, recorded: seq<Projects.Resource>, attempts: nat, sleeps: nat)
    requires |outcomes| >= MaxAttempts
    ensures r.Failure? ==> r.error.Wrapped? && r.error.message == PipelineFailure
    ensures |resources| <= |recorded| && recorded[..|resources|] == resources
    ensures attempts <= MaxAttempts && sleeps == if attempts == 0 then 0 else attempts - 1
    ensures r.Success? <==>
              ValueMap(parameters, routes).Success?
              && process(ValueMap(parameters, routes).value).Success?
              && CanSucceed(process(ValueMap(parameters, routes).value).value, outcomes)
    ensures routes.Failure? ==>
              r == Failure(Wrapped(PipelineFailure, routes.error)) && attempts == 0 && recorded == resources
    ensures ValueMap(parameters, routes).Failure? ==>
              r == Failure(Wrapped(PipelineFailure, ValueMap(parameters, routes).error))
              && attempts == 0 && recorded == resources
    ensures ValueMap(parameters, routes).Success? && process(ValueMap(parameters, routes).value).Failure? ==>
              r == Failure(Wrapped(PipelineFailure, process(ValueMap(parameters, routes).value).error))
              && attempts == 0 && recorded == resources
    ensures ValueMap(parameters, routes).Success? && process(ValueMap(parameters, routes).value).Success? ==>
              var items := process(ValueMap(parameters, routes).value).value;
              1 <= attempts
              && recorded == resources + Repeat(VisitItems(items).recorded, attempts)
              && FailedBefore(items, outcomes, attempts - 1)
              && (r.Success? ==> AttemptSucceeds(items, outcomes, attempts - 1))
              && (r.Failure? ==> attempts == MaxAttempts
                                 && r.error == Wrapped(PipelineFailure, AttemptError(items, outcomes[MaxAttempts - 1])))
  {
    var values := ValueMap(parameters, routes);
    r, recorded, attempts, sleeps := ProcessAndApply(values, process, outcomes, resources);
  }

  /** On the list `getParameters` builds, resolution and `toMap` always
      succeed, with one entry per parameter name. */
  lemma BaseParameterValues(project: string, source: Parameters.SourceUri, contextDir: Option<string>,
                            console: Urls.Url, millis: nat, routes: seq<Resolver.Route>)
    requires source.path.Some?
    ensures var ps := Parameters.GetParameters(project, source, contextDir, console, millis).value;
            ParameterValues(ps, routes).Success? && ParameterValues(ps, routes).value.Keys == Parameters.Names(ps)
  {
    Resolver.ApplyToBaseParameters(project, source, contextDir, console, millis, routes);
    Parameters.GetParametersMap(project, source, contextDir, console, millis);
  }
}
