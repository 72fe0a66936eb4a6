/** Template parameters and the base list `getParameters` builds for a
    project: repository name, repository URL, optional context directory,
    project name, console URL and webhook secret, in that order. */
module Parameters {
  import opened Base
  import Decimal
  import Repository
  import Urls

  /** A template `Parameter`: its name, its value (null in Java when unset)
      and the additional properties the template attaches to it, rendered
      as strings. */
  datatype Parameter = Parameter(name: string, value: Option<string>, properties: map<string, string>)

  /** `createParameter`: a name and a value, no additional properties. */
  function CreateParameter(name: string, value: string): Parameter {
    Parameter(name, Some(value), map[])
  }

  const SourceRepositoryName: string := "SOURCE_REPOSITORY_NAME"
  const SourceRepositoryUrl: string := "SOURCE_REPOSITORY_URL"
  const SourceRepositoryDir: string := "SOURCE_REPOSITORY_DIR"
  const ProjectName: string := "PROJECT"
  const OpenShiftConsoleUrl: string := "OPENSHIFT_CONSOLE_URL"
  const GitHubWebhookSecret: string := "GITHUB_WEBHOOK_SECRET"

  /** The position of a base parameter name in the order `getParameters`
      adds them; 6 for any other name. */
  function Rank(name: string): nat {
    if name == SourceRepositoryName then 0
    else if name == SourceRepositoryUrl then 1
    else if name == SourceRepositoryDir then 2
    else if name == ProjectName then 3
    else if name == OpenShiftConsoleUrl then 4
    else if name == GitHubWebhookSecret then 5
    else 6
  }

  /** Only base names, each at most once, in the fixed order. */
  predicate InBaseOrder(ps: seq<Parameter>) {
    (forall i :: 0 <= i < |ps| ==> Rank(ps[i].name) < 6)
    && (forall i, j :: 0 <= i < j < |ps| ==> Rank(ps[i].name) < Rank(ps[j].name))
  }

  /** The first parameter called `name`, if any. */
  function Find(ps: seq<Parameter>, name: string): (r: Option<Parameter>)
    ensures r.Some? ==> r.value.name == name && r.value in ps
    ensures r.None? <==> forall i :: 0 <= i < |ps| ==> ps[i].name != name
  {
    if |ps| == 0 then None
    else if ps[0].name == name then Some(ps[0])
    else Find(ps[1..], name)
  }

  /** `Character.isWhitespace`: the ASCII controls tab to carriage return and
      file to unit separator, and the Unicode space, line and paragraph
      separators other than the no-break spaces U+00A0, U+2007 and U+202F. */
  predicate IsJavaWhitespace(c: char) {
    var n := c as int;
    (0x09 <= n <= 0x0D) || (0x1C <= n <= 0x20) || n == 0x1680
    || (0x2000 <= n <= 0x2006) || (0x2008 <= n <= 0x200A)
    || n == 0x2028 || n == 0x2029 || n == 0x205F || n == 0x3000
  }

  /** `StringUtils.isNotBlank` on a non-null string. */
  predicate IsNotBlank(s: string) {
    exists k :: 0 <= k < |s| && !IsJavaWhitespace(s[k])
  }

  /** A source repository `URI`: its `toString()` and its `getPath()`, which
      is null for an opaque URI such as `mailto:a@b`. */
  datatype SourceUri = SourceUri(text: string, path: Option<string>)

  /** A parameter added only when its value is present. */
  function Optional(name: string, value: Option<string>): seq<Parameter> {
    if value.Some? then [CreateParameter(name, value.value)] else []
  }

  /** The six base parameters in order, the two optional ones only when
      their value is present. */
  function BaseList(repository: Option<string>, url: string, contextDir: Option<string>,
                    project: string, console: string, secret: string): seq<Parameter>
  {
    Optional(SourceRepositoryName, repository)
    + [CreateParameter(SourceRepositoryUrl, url)]
    + Optional(SourceRepositoryDir, contextDir)
    + [CreateParameter(ProjectName, project)]
    + [CreateParameter(OpenShiftConsoleUrl, console)]
    + [CreateParameter(GitHubWebhookSecret, secret)]
  }

  /** `getParameters`. The project name, the console URL and the current
      time in milliseconds are inputs. A URI without a path makes
      `getRepositoryName` raise a `NullPointerException`; a blank repository
      name is left out. */
  function GetParameters(project: string, source: SourceUri, contextDir: Option<string>,
                         console: Urls.Url, millis: nat): (r: Result<seq<Parameter>>)
    ensures r.Failure? <==> source.path.None?
    ensures r.Failure? ==> r.error == NullPointer
    ensures r.Success? ==> 4 <= |r.value| <= 6
    ensures r.Success? ==> r.value[|r.value| - 1] == CreateParameter(GitHubWebhookSecret, Decimal.NatToDecimal(millis))
  {
    var repository :- Repository.RepositoryName(source.path);
    Success(BaseList(if IsNotBlank(repository) then Some(repository) else None, source.text, contextDir,
                     project, Urls.ExternalForm(console), Decimal.NatToDecimal(millis)))
  }

  lemma RanksOfBaseNames()
    ensures Rank(SourceRepositoryName) == 0 && Rank(SourceRepositoryUrl) == 1
    ensures Rank(SourceRepositoryDir) == 2 && Rank(ProjectName) == 3
    ensures Rank(OpenShiftConsoleUrl) == 4 && Rank(GitHubWebhookSecret) == 5
  {
    assert SourceRepositoryUrl[18] != SourceRepositoryName[18];
    assert SourceRepositoryDir[18] != SourceRepositoryName[18];
    assert SourceRepositoryDir[18] != SourceRepositoryUrl[18];
    assert OpenShiftConsoleUrl[0] != SourceRepositoryName[0];
    assert OpenShiftConsoleUrl[0] != SourceRepositoryUrl[0];
    assert OpenShiftConsoleUrl[0] != SourceRepositoryDir[0];
    assert GitHubWebhookSecret[0] != SourceRepositoryName[0];
    assert GitHubWebhookSecret[0] != SourceRepositoryUrl[0];
    assert GitHubWebhookSecret[0] != SourceRepositoryDir[0];
    assert GitHubWebhookSecret[0] != OpenShiftConsoleUrl[0];
  }

  /** Ordered, with every rank in `[lo, hi)`. */
  predicate RanksWithin(ps: seq<Parameter>, lo: nat, hi: nat) {
    InBaseOrder(ps) && forall i :: 0 <= i < |ps| ==> lo <= Rank(ps[i].name) < hi
  }

  /** Two ordered lists whose ranks lie in adjacent ranges concatenate to an
      ordered list. */
  lemma AppendInBaseOrder(a: seq<Parameter>, b: seq<Parameter>, lo: nat, mid: nat, hi: nat)
    requires lo <= mid <= hi
    requires RanksWithin(a, lo, mid) && RanksWithin(b, mid, hi)
    ensures RanksWithin(a + b, lo, hi)
  {
    forall i | 0 <= i < |a + b|
      ensures lo <= Rank((a + b)[i].name) < hi
    {
      if i < |a| {
        assert (a + b)[i] == a[i];
      } else {
        assert (a + b)[i] == b[i - |a|];
      }
    }
  }

  /** An optional parameter is ordered and has the rank of its name. */
  lemma OptionalInBaseOrder(name: string, value: Option<string>)
    requires Rank(name) < 6
    ensures RanksWithin(Optional(name, value), Rank(name), Rank(name) + 1)
  {
  }

  /** The base list holds only base names, each once, in the fixed order. */
  lemma BaseListInBaseOrder(repository: Option<string>, url: string, contextDir: Option<string>,
                            project: string, console: string, secret: string)
    ensures InBaseOrder(BaseList(repository, url, contextDir, project, console, secret))
  {
    RanksOfBaseNames();
    var first := Optional(SourceRepositoryName, repository);
    var second := Optional(SourceRepositoryUrl, Some(url));
    var third := Optional(SourceRepositoryDir, contextDir);
    var p3 := Optional(ProjectName, Some(project));
    var p4 := Optional(OpenShiftConsoleUrl, Some(console));
    var p5 := Optional(GitHubWebhookSecret, Some(secret));
    OptionalInBaseOrder(SourceRepositoryName, repository);
    OptionalInBaseOrder(SourceRepositoryUrl, Some(url));
    OptionalInBaseOrder(SourceRepositoryDir, contextDir);
    OptionalInBaseOrder(ProjectName, Some(project));
    OptionalInBaseOrder(OpenShiftConsoleUrl, Some(console));
    OptionalInBaseOrder(GitHubWebhookSecret, Some(secret));
    AppendInBaseOrder(first, second, 0, 1, 2);
    AppendInBaseOrder(first + second, third, 0, 2, 3);
    AppendInBaseOrder(first + second + third, p3, 0, 3, 4);
    AppendInBaseOrder(first + second + third + p3, p4, 0, 4, 5);
    AppendInBaseOrder(first + second + third + p3 + p4, p5, 0, 5, 6);
  }

  /** The list `getParameters` builds holds only base names, each once, in
      the fixed order. */
  lemma GetParametersOrder(project: string, source: SourceUri, contextDir: Option<string>,
                           console: Urls.Url, millis: nat)
    requires source.path.Some?
    ensures InBaseOrder(GetParameters(project, source, contextDir, console, millis).value)
  {
    var repository := Repository.RepositoryName(source.path).value;
    BaseListInBaseOrder(if IsNotBlank(repository) then Some(repository) else None, source.text, contextDir,
                        project, Urls.ExternalForm(console), Decimal.NatToDecimal(millis));
  }

  /** Looking a name up in a concatenation looks in the first part first. */
  lemma {:induction false} FindAppend(a: seq<Parameter>, b: seq<Parameter>, name: string)
    ensures Find(a + b, name) == if Find(a, name).Some? then Find(a, name) else Find(b, name)
    decreases |a|
  {
    if |a| > 0 {
      assert (a + b)[1..] == a[1..] + b;
      FindAppend(a[1..], b, name);
    } else {
      assert a + b == b;
    }
  }

  /** The value a base-list parameter of rank `k` has, if it is present. */
  function BaseValue(k: nat, repository: Option<string>, url: string, contextDir: Option<string>,
                     project: string, console: string, secret: string): Option<string>
  {
    match k
    case 0 => repository
    case 1 => Some(url)
    case 2 => contextDir
    case 3 => Some(project)
    case 4 => Some(console)
    case 5 => Some(secret)
    case _ => None
  }

  /** Base names are told apart by their rank. */
  lemma RankInjective(a: string, b: string)
    requires Rank(a) < 6 && Rank(a) == Rank(b)
    ensures a == b
  {
  }

  /** Looking a base name up in a single parameter. */
  lemma FindSingle(p: Parameter, name: string)
    requires Rank(p.name) < 6 && Rank(name) < 6
    ensures Find([p], name) == if Rank(p.name) == Rank(name) then Some(p) else None
  {
    if Rank(p.name) == Rank(name) {
      RankInjective(p.name, name);
    }
  }

  /** Looking a base name up in an optional parameter. */
  lemma FindOptional(key: string, value: Option<string>, name: string)
    requires Rank(key) < 6 && Rank(name) < 6
    ensures Find(Optional(key, value), name)
         == if value.Some? && Rank(key) == Rank(name) then Some(CreateParameter(name, value.value)) else None
  {
    if value.Some? {
      FindSingle(CreateParameter(key, value.value), name);
      if Rank(key) == Rank(name) {
        RankInjective(key, name);
      }
    }
  }

  /** Each base name is found in a base list exactly when its value is
      present, and then with that value and no properties. */
  lemma BaseListFind(repository: Option<string>, url: string, contextDir: Option<string>,
                     project: string, console: string, secret: string, name: string)
    requires Rank(name) < 6
    ensures var found := Find(BaseList(repository, url, contextDir, project, console, secret), name);
            var value := BaseValue(Rank(name), repository, url, contextDir, project, console, secret);
            found == if value.Some? then Some(CreateParameter(name, value.value)) else None
  {
    RanksOfBaseNames();
    var first := Optional(SourceRepositoryName, repository);
    var second := Optional(SourceRepositoryUrl, Some(url));
    var third := Optional(SourceRepositoryDir, contextDir);
    var p3 := Optional(ProjectName, Some(project));
    var p4 := Optional(OpenShiftConsoleUrl, Some(console));
    var p5 := Optional(GitHubWebhookSecret, Some(secret));
    FindAppend(first + second + third + p3 + p4, p5, name);
    FindAppend(first + second + third + p3, p4, name);
    FindAppend(first + second + third, p3, name);
    FindAppend(first + second, third, name);
    FindAppend(first, second, name);
    FindOptional(SourceRepositoryName, repository, name);
    FindOptional(SourceRepositoryUrl, Some(url), name);
    FindOptional(SourceRepositoryDir, contextDir, name);
    FindOptional(ProjectName, Some(project), name);
    FindOptional(OpenShiftConsoleUrl, Some(console), name);
    FindOptional(GitHubWebhookSecret, Some(secret), name);
  }

  /** Every base name is found in the list `getParameters` builds exactly
      when its value is present, with that value and no properties: the
      repository name when it is not blank, the context directory when it is
      not null, the other four always. */
  lemma GetParametersValues(project: string, source: SourceUri, contextDir: Option<string>,
                            console: Urls.Url, millis: nat, name: string)
    requires source.path.Some?
    requires Rank(name) < 6
    ensures var repository := Repository.RepositoryName(source.path).value;
            var value := BaseValue(Rank(name), if IsNotBlank(repository) then Some(repository) else None,
                                   source.text, contextDir, project, Urls.ExternalForm(console),
                                   Decimal.NatToDecimal(millis));
            Find(GetParameters(project, source, contextDir, console, millis).value, name)
              == if value.Some? then Some(CreateParameter(name, value.value)) else None
  {
    var repository := Repository.RepositoryName(source.path).value;
    BaseListFind(if IsNotBlank(repository) then Some(repository) else None, source.text, contextDir,
                 project, Urls.ExternalForm(console), Decimal.NatToDecimal(millis), name);
  }

  /** No two parameters share a name. */
  predicate DistinctNames(ps: seq<Parameter>) {
    forall i, j :: 0 <= i < j < |ps| ==> ps[i].name != ps[j].name
  }

  /** Every parameter has a (non-null) value. */
  predicate AllValued(ps: seq<Parameter>) {
    forall i :: 0 <= i < |ps| ==> ps[i].value.Some?
  }

  /** The names of a parameter list. */
  function Names(ps: seq<Parameter>): set<string> {
    set i | 0 <= i < |ps| :: ps[i].name
  }

  /** `Collectors.toMap(Parameter::getName, Parameter::getValue)`, fed the
      parameters in order: a null value raises a `NullPointerException`, a
      name seen before raises an `IllegalStateException`. */
  function ToValueMap(ps: seq<Parameter>): (r: Result<map<string, string>>)
    ensures r.Failure? ==> r.error == NullPointer || r.error.DuplicateKey?
    decreases |ps|
  {
    if |ps| == 0 then Success(map[])
    else
      var last := ps[|ps| - 1];
      var m :- ToValueMap(ps[..|ps| - 1]);
      if last.value.None? then Failure(NullPointer)
      else if last.name in m then Failure(DuplicateKey(last.name))
      else Success(m[last.name := last.value.value])
  }

  /** The map is built exactly when every parameter has a value and no name
      repeats. */
  lemma {:induction false} ToValueMapDefined(ps: seq<Parameter>)
    ensures ToValueMap(ps).Success? <==> AllValued(ps) && DistinctNames(ps)
    ensures ToValueMap(ps).Success? ==> ToValueMap(ps).value.Keys == Names(ps)
    decreases |ps|
  {
    if |ps| > 0 {
      var n := |ps| - 1;
      var init := ps[..n];
      var last := ps[n];
      ToValueMapDefined(init);
      assert forall i :: 0 <= i < n ==> init[i] == ps[i];
      if ToValueMap(init).Success? && last.value.Some? {
        var m := ToValueMap(init).value;
        if last.name in m {
          var i :| 0 <= i < n && init[i].name == last.name;
          assert ps[i].name == ps[n].name;
        } else {
          assert Names(ps) == Names(init) + {last.name} by {
            forall x | x in Names(ps) ensures x in Names(init) + {last.name} {
              var i :| 0 <= i < |ps| && ps[i].name == x;
              if i < n { assert init[i].name == x; }
            }
          }
        }
      }
    }
  }

  /** A built map sends each name to its parameter's value. */
  lemma {:induction false} ToValueMapValues(ps: seq<Parameter>)
    requires ToValueMap(ps).Success?
    ensures forall i :: 0 <= i < |ps| ==>
              ps[i].name in ToValueMap(ps).value && ps[i].value == Some(ToValueMap(ps).value[ps[i].name])
    decreases |ps|
  {
    if |ps| > 0 {
      var n := |ps| - 1;
      var init := ps[..n];
      ToValueMapValues(init);
      ToValueMapDefined(init);
      assert forall i :: 0 <= i < n ==> init[i] == ps[i];
    }
  }

  /** Once a prefix fails, the whole list fails with the same error. */
  lemma {:induction false} ToValueMapFailureStays(ps: seq<Parameter>, k: nat)
    requires k <= |ps| && ToValueMap(ps[..k]).Failure?
    ensures ToValueMap(ps) == ToValueMap(ps[..k])
    decreases |ps| - k
  {
    if k == |ps| {
      assert ps[..k] == ps;
    } else {
      var init := ps[..|ps| - 1];
      assert init[..k] == ps[..k];
      ToValueMapFailureStays(init, k);
    }
  }

  /** The error is decided by the first parameter that has no value or
      repeats an earlier name. */
  lemma ToValueMapError(ps: seq<Parameter>, k: nat)
    requires k < |ps|
    requires AllValued(ps[..k]) && DistinctNames(ps[..k])
    requires ps[k].value.None? || ps[k].name in Names(ps[..k])
    ensures ToValueMap(ps) == Failure(if ps[k].value.None? then NullPointer else DuplicateKey(ps[k].name))
  {
    ToValueMapDefined(ps[..k]);
    assert ps[..k + 1][..k] == ps[..k];
    ToValueMapFailureStays(ps, k + 1);
  }

  /** Every parameter has a value and no additional properties, as
      `createParameter` makes them. */
  predicate Plain(ps: seq<Parameter>) {
    forall i :: 0 <= i < |ps| ==> ps[i].value.Some? && ps[i].properties == map[]
  }

  /** The list `getParameters` builds holds only plain parameters. */
  lemma GetParametersPlain(project: string, source: SourceUri, contextDir: Option<string>,
                           console: Urls.Url, millis: nat)
    requires source.path.Some?
    ensures Plain(GetParameters(project, source, contextDir, console, millis).value)
  {
    var repository := Repository.RepositoryName(source.path).value;
    BaseListPlain(if IsNotBlank(repository) then Some(repository) else None, source.text, contextDir,
                  project, Urls.ExternalForm(console), Decimal.NatToDecimal(millis));
  }

  lemma PlainAppend(a: seq<Parameter>, b: seq<Parameter>)
    requires Plain(a) && Plain(b)
    ensures Plain(a + b)
  {
    forall i | 0 <= i < |a + b|
      ensures (a + b)[i].value.Some? && (a + b)[i].properties == map[]
    {
      if i >= |a| {
        assert (a + b)[i] == b[i - |a|];
      }
    }
  }

  lemma BaseListPlain(repository: Option<string>, url: string, contextDir: Option<string>,
                      project: string, console: string, secret: string)
    ensures Plain(BaseList(repository, url, contextDir, project, console, secret))
  {
    var first := Optional(SourceRepositoryName, repository);
    var second := [CreateParameter(SourceRepositoryUrl, url)];
    var third := Optional(SourceRepositoryDir, contextDir);
    var p3 := [CreateParameter(ProjectName, project)];
    var p4 := [CreateParameter(OpenShiftConsoleUrl, console)];
    var p5 := [CreateParameter(GitHubWebhookSecret, secret)];
    PlainAppend(first, second);
    PlainAppend(first + second, third);
    PlainAppend(first + second + third, p3);
    PlainAppend(first + second + third + p3, p4);
    PlainAppend(first + second + third + p3 + p4, p5);
  }

  /** `toMap` never fails on the list `getParameters` builds: its values are
      all set and its names are distinct, since their ranks increase. */
  lemma GetParametersMap(project: string, source: SourceUri, contextDir: Option<string>,
                         console: Urls.Url, millis: nat)
    requires source.path.Some?
    ensures var ps := GetParameters(project, source, contextDir, console, millis).value;
            ToValueMap(ps).Success? && ToValueMap(ps).value.Keys == Names(ps)
  {
    var ps := GetParameters(project, source, contextDir, console, millis).value;
    GetParametersOrder(project, source, contextDir, console, millis);
    GetParametersPlain(project, source, contextDir, console, millis);
    assert DistinctNames(ps) by {
      forall i, j | 0 <= i < j < |ps|
        ensures ps[i].name != ps[j].name
      {
        assert Rank(ps[i].name) < Rank(ps[j].name);
      }
    }
    ToValueMapDefined(ps);
  }
}
