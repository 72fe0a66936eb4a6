/** `getWebhookUrls`: one GitHub webhook URL per build config of a project,
    on the console's protocol, host and port. */
module Webhooks {
  import opened Base
  import opened Projects
  import Urls

  const BuildConfigKind: string := "BuildConfig"
  const NamespacesPrefix: string := "/oapi/v1/namespaces/"
  const GitHubSuffix: string := "/github"

  /** Java string concatenation writes a null reference as `null`. */
  function Concatenated(s: Option<string>): string {
    s.GetOr("null")
  }

  /** The resources of kind `BuildConfig`, in order; the filter looks at the
      kind only. */
  function BuildConfigs(rs: seq<Resource>): (r: seq<Resource>)
    ensures |r| <= |rs|
    ensures forall k :: 0 <= k < |r| ==> r[k].kind == BuildConfigKind && r[k] in rs
    decreases |rs|
  {
    if |rs| == 0 then []
    else
      var last := rs[|rs| - 1];
      BuildConfigs(rs[..|rs| - 1]) + (if last.kind == BuildConfigKind then [last] else [])
  }

  /** The positions of the build configs in `rs`: an independent description
      of the filter as strictly increasing indices that cover every build
      config and nothing else. */
  function Positions(rs: seq<Resource>): (idx: seq<nat>)
    ensures forall k :: 0 <= k < |idx| ==> idx[k] < |rs| && rs[idx[k]].kind == BuildConfigKind
    ensures forall k, l :: 0 <= k < l < |idx| ==> idx[k] < idx[l]
    ensures forall i :: 0 <= i < |rs| && rs[i].kind == BuildConfigKind ==> i in idx
    decreases |rs|
  {
    if |rs| == 0 then []
    else
      var init := rs[..|rs| - 1];
      var before := Positions(init);
      assert forall i :: 0 <= i < |init| ==> init[i] == rs[i];
      before + (if rs[|rs| - 1].kind == BuildConfigKind then [|rs| - 1] else [])
  }

  /** The filter keeps exactly the resources at `Positions`, in that order. */
  lemma {:induction false} BuildConfigsAtPositions(rs: seq<Resource>)
    ensures |BuildConfigs(rs)| == |Positions(rs)|
    ensures forall k :: 0 <= k < |Positions(rs)| ==> BuildConfigs(rs)[k] == rs[Positions(rs)[k]]
    decreases |rs|
  {
    if |rs| > 0 {
      var init := rs[..|rs| - 1];
      BuildConfigsAtPositions(init);
      var last := rs[|rs| - 1];
      var tail := if last.kind == BuildConfigKind then [last] else [];
      var at := if last.kind == BuildConfigKind then [|rs| - 1] else [];
      assert BuildConfigs(rs) == BuildConfigs(init) + tail;
      assert Positions(rs) == Positions(init) + at;
      forall k | 0 <= k < |Positions(rs)|
        ensures BuildConfigs(rs)[k] == rs[Positions(rs)[k]]
      {
        if k < |Positions(init)| {
          assert BuildConfigs(rs)[k] == BuildConfigs(init)[k];
          assert Positions(rs)[k] == Positions(init)[k];
          assert init[Positions(init)[k]] == rs[Positions(init)[k]];
        } else {
          assert last.kind == BuildConfigKind && k == |Positions(init)|;
          assert BuildConfigs(rs)[k] == last;
          assert Positions(rs)[k] == |rs| - 1;
        }
      }
    }
  }

  /** Filtering a concatenation filters each part. */
  lemma {:induction false} BuildConfigsAppend(a: seq<Resource>, b: seq<Resource>)
    ensures BuildConfigs(a + b) == BuildConfigs(a) + BuildConfigs(b)
    decreases |b|
  {
    if |b| == 0 {
      assert a + b == a;
    } else {
      var shorter := b[..|b| - 1];
      assert (a + b)[..|a + b| - 1] == a + shorter;
      BuildConfigsAppend(a, shorter);
    }
  }

  /** The webhook context of a build config of project `project`:
      `/oapi/v1/namespaces/<project>/buildconfigs/<name>/webhooks/<secret>/github`. */
  function WebhookPath(project: string, r: Resource): (p: string)
    ensures |p| == 51 + |project| + |r.name| + |Concatenated(r.secret)|
    ensures p[..20] == NamespacesPrefix && p[20..20 + |project|] == project
    ensures p[|p| - 7..] == GitHubSuffix
  {
    NamespacesPrefix + project + "/buildconfigs/" + r.name + "/webhooks/" + Concatenated(r.secret) + GitHubSuffix
  }

  /** The context of build config `bc` of project `p` with secret `s`. */
  lemma WebhookPathExample()
    ensures WebhookPath("p", Resource("bc", BuildConfigKind, Some("s")))
         == "/oapi/v1/namespaces/p/buildconfigs/bc/webhooks/s/github"
  {
    var upToProject := NamespacesPrefix + "p";
    assert upToProject == "/oapi/v1/namespaces/p";
    var upToName := upToProject + "/buildconfigs/" + "bc";
    assert upToName == "/oapi/v1/namespaces/p/buildconfigs/bc";
    var upToSecret := upToName + "/webhooks/" + "s";
    assert upToSecret == "/oapi/v1/namespaces/p/buildconfigs/bc/webhooks/s";
    assert upToSecret + GitHubSuffix == "/oapi/v1/namespaces/p/buildconfigs/bc/webhooks/s/github";
  }

  /** A null secret is written as `null` in the context. */
  lemma WebhookPathNullSecret(project: string, name: string)
    ensures WebhookPath(project, Resource(name, BuildConfigKind, None))
         == NamespacesPrefix + project + "/buildconfigs/" + name + "/webhooks/null" + GitHubSuffix
  {
  }

  /** `new URL(protocol, host, port, webhookContext)` on the console URL. */
  function WebhookUrl(console: Urls.Url, project: string, r: Resource): (u: Urls.Url)
    ensures u.protocol == console.protocol && u.host == console.host && u.port == console.port
    ensures u.file == WebhookPath(project, r)
  {
    Urls.Url(console.protocol, console.host, console.port, WebhookPath(project, r))
  }

  /** The webhook URLs of a list of build configs, in order. */
  function UrlsOf(console: Urls.Url, project: string, rs: seq<Resource>): (us: seq<Urls.Url>)
    ensures |us| == |rs|
    ensures forall k :: 0 <= k < |rs| ==> us[k] == WebhookUrl(console, project, rs[k])
    decreases |rs|
  {
    if |rs| == 0 then [] else [WebhookUrl(console, project, rs[0])] + UrlsOf(console, project, rs[1..])
  }

  /** `getWebhookUrls`: a null project is rejected; otherwise one URL per
      build config, in the order of the project's resources. */
  function GetWebhookUrls(console: Urls.Url, project: Option<OpenShiftProject>): (r: Result<seq<Urls.Url>>)
    ensures r.Failure? <==> project.None?
    ensures r.Failure? ==> r.error == IllegalArgument("project must be specified")
    ensures r.Success? ==>
              var configs := Positions(project.value.resources);
              |r.value| == |configs|
              && forall k :: 0 <= k < |configs| ==>
                   r.value[k] == WebhookUrl(console, project.value.name, project.value.resources[configs[k]])
    ensures r.Success? ==>
              forall k :: 0 <= k < |r.value| ==>
                r.value[k].protocol == console.protocol && r.value[k].host == console.host
                && r.value[k].port == console.port
                && r.value[k].file == WebhookPath(project.value.name, project.value.resources[Positions(project.value.resources)[k]])
  {
    match project
    case None => Failure(IllegalArgument("project must be specified"))
    case Some(p) =>
      BuildConfigsAtPositions(p.resources);
      Success(UrlsOf(console, p.name, BuildConfigs(p.resources)))
  }

  /** The URLs of a concatenation are those of each part. */
  lemma {:induction false} UrlsOfAppend(console: Urls.Url, name: string, a: seq<Resource>, b: seq<Resource>)
    ensures UrlsOf(console, name, a + b) == UrlsOf(console, name, a) + UrlsOf(console, name, b)
    decreases |a|
  {
    if |a| == 0 {
      assert a + b == b;
    } else {
      assert (a + b)[1..] == a[1..] + b;
      UrlsOfAppend(console, name, a[1..], b);
    }
  }

  /** Resources of other kinds add no URL: once more resources are recorded
      on a project, its URLs are the old URLs followed by those of the new
      build configs. */
  lemma WebhookUrlsAppend(console: Urls.Url, p: OpenShiftProject, added: seq<Resource>)
    ensures GetWebhookUrls(console, Some(p.(resources := p.resources + added))).value
         == GetWebhookUrls(console, Some(p)).value + UrlsOf(console, p.name, BuildConfigs(added))
  {
    BuildConfigsAppend(p.resources, added);
    UrlsOfAppend(console, p.name, BuildConfigs(p.resources), BuildConfigs(added));
  }
}
