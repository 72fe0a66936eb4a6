# Fabric8 OpenShift service: a Dafny model of its provisioning core

`Fabric8OpenShiftServiceImpl` is the launcher's adapter to an OpenShift
cluster. It creates projects (namespaces) and waits for them to become
visible. It builds the parameter list of a pipeline template and resolves
`fabric8-value` variables against the project's routes. It applies the
processed template with bounded retry while recording every build config on
the project. It also derives GitHub webhook URLs from those build configs and
sanitises names for config maps.

This project models that logic as pure functions and short methods. Every
answer of the cluster client is an input. One module covers each piece:

- `Base`: `Option`, `Result` and the exceptions as data.
- `Projects`: `OpenShiftProjectImpl` (name, console URL, recorded resources)
  and the resources recorded on it.
- `Decimal`: `Long.toString` on non-negative values.
- `Urls`: `java.net.URL` reduced to (protocol, host, port, file).
- `Sanitizer`: `convertToKubernetesName` and the config-map name built from it.
- `Repository`: `getRepositoryName`, with commons-lang `stripEnd` semantics.
- `Parameters`: `createParameter`, `getParameters` and the
  `Collectors.toMap` that turns the list into a value map.
- `VariablePattern`: the pattern `\{\{(.*?)/(.*?)\[(.*)\]\}\}` as
  `Matcher.find` applies it.
  - The start is the leftmost one that admits a match.
  - Groups 1 and 2 are lazy; group 3 is greedy.
  - `.` stops at `\n`, `\r`, U+0085, U+2028 and U+2029.
  - `find()` resumes after the previous match.
- `Resolver`: `replaceParameterVariable` and `applyParameterValueProperties`.
- `Webhooks`: `getWebhookUrls`.
- `Lifecycle`: `projectExists`, `findProject`, both `deleteProject`
  overloads, and the polling loop of `createProject`.
- `Configure`: the private `configureProject`.
  - Resolution and `toMap` come first.
  - Template processing is an input function.
  - The retry loop runs the build-config visitor, then the cluster call.
  - Every failure is wrapped as "Could not create OpenShift pipeline".

The two loops count their sleeps and do not perform them.

Four behaviours of the code are easy to misread. The model follows the code:

- **Sanitiser idempotence.** One might expect sanitising a sanitised name to
  change nothing. It does change: `"a!!"` becomes `"a-"`, and `"a-"` becomes
  `"a"` (`Sanitizer.NotIdempotent`).
- **Optional base parameters.** One might expect every base parameter with
  an empty source value to be skipped. The code skips only a blank
  repository name and a null context directory. The other four are always
  added.
- **Retried attempts.** One might expect a failed apply attempt to leave the
  project as it found it. The code's visitor appends the build configs to
  the project on every attempt, including failed ones. A project configured
  after `n` attempts holds `n` copies (`Configure.ApplyWithRetry`,
  `Configure.VisitStopsAt`).
- **Route lookup.** The host lookup skips routes whose host is null.
  `findAny` on this sequential stream is taken to be the first remaining
  route.

## Model

| member | source | states |
|---|---|---|
| Sanitizer.ConvertToKubernetesName | services/openshift-service-impl/src/main/java/io/fabric8/launcher/service/openshift/impl/Fabric8OpenShiftServiceImpl.java:538-568 | The loop computes the piecewise reference name of the lower-cased text. Its output uses only letters, digits, `-`, and `.` when dots are allowed. It starts with a letter. It is empty exactly when the input has no letter or digit. No two separators are adjacent. |
| Sanitizer.Step | services/openshift-service-impl/src/main/java/io/fabric8/launcher/service/openshift/impl/Fabric8OpenShiftServiceImpl.java:544-566 | One turn of the loop appends exactly the piece that character contributes to the name. It keeps `started` true exactly when a letter or digit has been seen. `lastCh` stays the last character written, and it is a separator whenever something has been written and the previous input character (not the last one) was neither a letter nor a digit. |
| Sanitizer.Separator | services/openshift-service-impl/src/main/java/io/fabric8/launcher/service/openshift/impl/Fabric8OpenShiftServiceImpl.java:550-558 | A character other than a letter or digit becomes `.` exactly when dots are allowed and it is `/` or `.`, and `-` otherwise. |
| Sanitizer.NameProperties | services/openshift-service-impl/src/main/java/io/fabric8/launcher/service/openshift/impl/Fabric8OpenShiftServiceImpl.java:538-568 | A whole sanitised name uses only the allowed alphabet and starts with a letter. It is non-empty exactly when the input has a letter or digit. No two separators in it are adjacent. |
| Sanitizer.ConfigMapName | services/openshift-service-impl/src/main/java/io/fabric8/launcher/service/openshift/impl/Fabric8OpenShiftServiceImpl.java:525-536 | A config-map name is the sanitised owner name without dots. |
| Sanitizer.NameAlphabet | services/openshift-service-impl/src/main/java/io/fabric8/launcher/service/openshift/impl/Fabric8OpenShiftServiceImpl.java:550-558 | Every character of the name is a letter, a digit or `-`, or a `.` when dots are allowed. |
| Sanitizer.NameStart | services/openshift-service-impl/src/main/java/io/fabric8/launcher/service/openshift/impl/Fabric8OpenShiftServiceImpl.java:545-549 | The name is non-empty exactly when the input holds a letter or digit. It then starts with a letter: a leading digit gets an `n`, and a leading separator is dropped. |
| Sanitizer.NoAdjacentSeparators | services/openshift-service-impl/src/main/java/io/fabric8/launcher/service/openshift/impl/Fabric8OpenShiftServiceImpl.java:559-561 | No two separators are adjacent. After an input letter or digit, the name ends in a letter or digit. |
| Sanitizer.AlnumOrder | services/openshift-service-impl/src/main/java/io/fabric8/launcher/service/openshift/impl/Fabric8OpenShiftServiceImpl.java:543-566 | The letters and digits of the name are exactly those of the input, in order. The only addition is the `n` before a leading digit. |
| Sanitizer.TrailingSeparator | services/openshift-service-impl/src/main/java/io/fabric8/launcher/service/openshift/impl/Fabric8OpenShiftServiceImpl.java:559-561 | The name ends in a separator exactly when the input ends in a run of two or more other characters after a letter or digit. The last input character is never kept as a separator. |
| Sanitizer.NotIdempotent | services/openshift-service-impl/src/main/java/io/fabric8/launcher/service/openshift/impl/Fabric8OpenShiftServiceImpl.java:538-568 | Sanitising `"a!!"` gives `"a-"`, and sanitising that again gives `"a"`. |
| Sanitizer.ExampleName | services/openshift-service-impl/src/main/java/io/fabric8/launcher/service/openshift/impl/Fabric8OpenShiftServiceImpl.java:538-568 | `"123 foo!!bar"` sanitises to `"n123-foo-bar"`. |
| Sanitizer.EmptyName | services/openshift-service-impl/src/main/java/io/fabric8/launcher/service/openshift/impl/Fabric8OpenShiftServiceImpl.java:543 | The empty text sanitises to the empty name. |
| Sanitizer.Lower | services/openshift-service-impl/src/main/java/io/fabric8/launcher/service/openshift/impl/Fabric8OpenShiftServiceImpl.java:539 | Lower-casing keeps the length and leaves no upper-case ASCII letter. Each of `A`..`Z` becomes the matching letter of `a`..`z`, and every other character is unchanged. |
| Decimal.NatToDecimal | services/openshift-service-impl/src/main/java/io/fabric8/launcher/service/openshift/impl/Fabric8OpenShiftServiceImpl.java:212 | The timestamp's numeral is non-empty and all digits, with no leading zero. It has one digit exactly when the value is below ten. |
| Decimal.DecimalRoundTrip | services/openshift-service-impl/src/main/java/io/fabric8/launcher/service/openshift/impl/Fabric8OpenShiftServiceImpl.java:212 | Reading the numeral back gives the number, so different timestamps give different secrets. |
| Repository.StripEnd | services/openshift-service-impl/src/main/java/io/fabric8/launcher/service/openshift/impl/Fabric8OpenShiftServiceImpl.java:234 | `stripEnd` returns a prefix whose last character is not in the set. Every character it removes is in the set. |
| Repository.LastIndexOf | services/openshift-service-impl/src/main/java/io/fabric8/launcher/service/openshift/impl/Fabric8OpenShiftServiceImpl.java:235 | `lastIndexOf` is -1 or a position of the character. The character does not occur after it. |
| Repository.LastSegment | services/openshift-service-impl/src/main/java/io/fabric8/launcher/service/openshift/impl/Fabric8OpenShiftServiceImpl.java:234-235 | The text after the last slash, once trailing slashes are stripped, holds no slash. |
| Repository.RepositoryName | services/openshift-service-impl/src/main/java/io/fabric8/launcher/service/openshift/impl/Fabric8OpenShiftServiceImpl.java:227-237 | A null path raises a NullPointerException. Any other path gives a name with no `/` that does not end in `.`, `g`, `i` or `t`. |
| Repository.RepositoryNameOf | services/openshift-service-impl/src/main/java/io/fabric8/launcher/service/openshift/impl/Fabric8OpenShiftServiceImpl.java:233-237 | Take a path `dir/` + name + a tail of `.git` characters + trailing slashes. It yields exactly the name, when the name has no slash and does not end in a `.git` character. |
| Repository.RepositoryNameWithoutSlash | services/openshift-service-impl/src/main/java/io/fabric8/launcher/service/openshift/impl/Fabric8OpenShiftServiceImpl.java:233-237 | A path with no slash is its own last segment: `lastIndexOf` gives -1 and `substring(0)` keeps the whole path. Only its trailing `.git` characters are stripped. |
| Repository.RepositoryNameOfSlashes | services/openshift-service-impl/src/main/java/io/fabric8/launcher/service/openshift/impl/Fabric8OpenShiftServiceImpl.java:233-237 | An empty path, or one made only of slashes, gives the empty name. |
| Repository.StripTail | services/openshift-service-impl/src/main/java/io/fabric8/launcher/service/openshift/impl/Fabric8OpenShiftServiceImpl.java:236 | Stripping a tail made only of characters in the set gives back the body before it. |
| Repository.LastSegmentOf | services/openshift-service-impl/src/main/java/io/fabric8/launcher/service/openshift/impl/Fabric8OpenShiftServiceImpl.java:234-235 | Stripping slashes and cutting at the last slash recovers a slash-free final segment. |
| Repository.RepositoryNameOfDocumentedExample | services/openshift-service-impl/src/main/java/io/fabric8/launcher/service/openshift/impl/Fabric8OpenShiftServiceImpl.java:227-231 | The documented example `https://github.com/foo/bar`, path `/foo/bar`, gives `bar`. |
| Repository.RepositoryNameOfGitUri | services/openshift-service-impl/src/main/java/io/fabric8/launcher/service/openshift/impl/Fabric8OpenShiftServiceImpl.java:233-237 | `/org/app.git/` gives `app`. |
| Repository.RepositoryNameOverStrips | services/openshift-service-impl/src/main/java/io/fabric8/launcher/service/openshift/impl/Fabric8OpenShiftServiceImpl.java:236 | `/org/digit` gives `d`: the character set also eats into the name. |
| Parameters.GetParameters | services/openshift-service-impl/src/main/java/io/fabric8/launcher/service/openshift/impl/Fabric8OpenShiftServiceImpl.java:200-214 | The list fails exactly when the URI has no path, with a NullPointerException. Otherwise it holds 4 to 6 parameters and ends with the secret, the decimal timestamp. |
| Parameters.GetParametersOrder | services/openshift-service-impl/src/main/java/io/fabric8/launcher/service/openshift/impl/Fabric8OpenShiftServiceImpl.java:200-214 | Only the six base names occur, each at most once, in the fixed order. |
| Parameters.GetParametersValues | services/openshift-service-impl/src/main/java/io/fabric8/launcher/service/openshift/impl/Fabric8OpenShiftServiceImpl.java:202-212 | Looking up each base name finds the value `createParameter` (`Parameters.CreateParameter`) was given. The repository name is found only when it is not blank (`isNotBlank`, `Parameters.IsNotBlank`), the context directory only when it is not null, and the other four always. |
| Parameters.GetParametersPlain | services/openshift-service-impl/src/main/java/io/fabric8/launcher/service/openshift/impl/Fabric8OpenShiftServiceImpl.java:328-333 | Every parameter built by `createParameter` (`Parameters.CreateParameter`) has a value and no additional properties. |
| Parameters.GetParametersMap | services/openshift-service-impl/src/main/java/io/fabric8/launcher/service/openshift/impl/Fabric8OpenShiftServiceImpl.java:339-341 | `toMap` always succeeds on the built list, with one key per parameter name. |
| Parameters.ToValueMap | services/openshift-service-impl/src/main/java/io/fabric8/launcher/service/openshift/impl/Fabric8OpenShiftServiceImpl.java:339-341 | `toMap` fails only with a NullPointerException or a duplicate-key error. (Which inputs succeed, and with which entries, is stated by the three lemmas below.) |
| Parameters.ToValueMapDefined | services/openshift-service-impl/src/main/java/io/fabric8/launcher/service/openshift/impl/Fabric8OpenShiftServiceImpl.java:339-341 | `toMap` succeeds exactly when every value is non-null and the names are distinct. Its keys are then the names. |
| Parameters.ToValueMapValues | services/openshift-service-impl/src/main/java/io/fabric8/launcher/service/openshift/impl/Fabric8OpenShiftServiceImpl.java:339-341 | Each parameter's name maps to its value. |
| Parameters.ToValueMapError | services/openshift-service-impl/src/main/java/io/fabric8/launcher/service/openshift/impl/Fabric8OpenShiftServiceImpl.java:339-341 | The first bad parameter decides the error: a null value gives a NullPointerException, a repeated name gives a duplicate-key error. |
| VariablePattern.MatchAt | services/openshift-service-impl/src/main/java/io/fabric8/launcher/service/openshift/impl/Fabric8OpenShiftServiceImpl.java:79 | A match reported at a position is a real match of the pattern starting there, on one line. |
| VariablePattern.MatchAtPreferred | services/openshift-service-impl/src/main/java/io/fabric8/launcher/service/openshift/impl/Fabric8OpenShiftServiceImpl.java:79 | If any match starts at a position, one is reported there. It is the first in the backtracking order: shortest group 1, then shortest group 2, then longest group 3. |
| VariablePattern.FindFrom | services/openshift-service-impl/src/main/java/io/fabric8/launcher/service/openshift/impl/Fabric8OpenShiftServiceImpl.java:427 | What `find()` reports is a real match at or after the resume position. |
| VariablePattern.FindFromFirst | services/openshift-service-impl/src/main/java/io/fabric8/launcher/service/openshift/impl/Fabric8OpenShiftServiceImpl.java:427 | `find()` reports a match whenever one exists. It reports the leftmost one, and the most preferred one at that start. |
| VariablePattern.LineEnd | services/openshift-service-impl/src/main/java/io/fabric8/launcher/service/openshift/impl/Fabric8OpenShiftServiceImpl.java:79 | The line's end is the first line terminator, and no terminator lies before it. |
| VariablePattern.LastClose | services/openshift-service-impl/src/main/java/io/fabric8/launcher/service/openshift/impl/Fabric8OpenShiftServiceImpl.java:79 | The greedy group 3 ends at the last `]}}` of the line, and no later one exists. |
| Resolver.RouteHost | services/openshift-service-impl/src/main/java/io/fabric8/launcher/service/openshift/impl/Fabric8OpenShiftServiceImpl.java:435-440 | A found host is that of the first route of that name with a non-null host (`Resolver.FirstHosted`), the sequential reading of `findAny`. None is found exactly when every route of that name has a null host. |
| Resolver.TokenizeRoundTrip | services/openshift-service-impl/src/main/java/io/fabric8/launcher/service/openshift/impl/Fabric8OpenShiftServiceImpl.java:425-444 | Cutting the text at its matches loses nothing: literal text plus variable texts give back the input. Text outside matches is therefore copied verbatim. |
| Resolver.VariableValue | services/openshift-service-impl/src/main/java/io/fabric8/launcher/service/openshift/impl/Fabric8OpenShiftServiceImpl.java:430-440 | A variable other than `route/NAME[.spec.host]` is replaced by the empty string. A `route/NAME[.spec.host]` variable is replaced by the host of the first route called NAME that has one, and by the empty string when there is none. A non-empty replacement is always the host of a route called NAME. |
| Resolver.Resolve | services/openshift-service-impl/src/main/java/io/fabric8/launcher/service/openshift/impl/Fabric8OpenShiftServiceImpl.java:425-445 | This is the reference that `ReplaceVariables` is proved equal to. A text in which `find()` reports no match is unchanged. Otherwise the text before the first match is kept. |
| Resolver.ReplaceVariables | services/openshift-service-impl/src/main/java/io/fabric8/launcher/service/openshift/impl/Fabric8OpenShiftServiceImpl.java:425-445 | The `find`/`appendReplacement`/`appendTail` loop renders every match by its value and keeps the text between matches. It never fails. |
| Resolver.ResolveWithoutVariables | services/openshift-service-impl/src/main/java/io/fabric8/launcher/service/openshift/impl/Fabric8OpenShiftServiceImpl.java:427 | A text with no `{{` resolves to itself. |
| Resolver.NothingFound | services/openshift-service-impl/src/main/java/io/fabric8/launcher/service/openshift/impl/Fabric8OpenShiftServiceImpl.java:427 | Without a `{{`, `find()` reports no match. |
| Resolver.VariableTextFound | services/openshift-service-impl/src/main/java/io/fabric8/launcher/service/openshift/impl/Fabric8OpenShiftServiceImpl.java:427-430 | On a variable's own text, `find()` reports a match spanning the text. Its three groups are the variable's parts, when group 1 has no `/`, group 2 no `[`, and nothing spans lines. |
| Resolver.SingleVariable | services/openshift-service-impl/src/main/java/io/fabric8/launcher/service/openshift/impl/Fabric8OpenShiftServiceImpl.java:427-442 | Such a variable's text resolves to its value. That is the host of the first route of that name with a host, for `route` with `.spec.host`. Otherwise it is the empty string. |
| Resolver.RouteHostExample | services/openshift-service-impl/src/main/java/io/fabric8/launcher/service/openshift/impl/Fabric8OpenShiftServiceImpl.java:435-440 | A route of another name and a same-named route with a null host are skipped. |
| Resolver.RouteVariableExample | services/openshift-service-impl/src/main/java/io/fabric8/launcher/service/openshift/impl/Fabric8OpenShiftServiceImpl.java:434-442 | `{{route/a[.spec.host]}}` becomes the host of route `a`. |
| Resolver.TwoVariablesOnOneLine | services/openshift-service-impl/src/main/java/io/fabric8/launcher/service/openshift/impl/Fabric8OpenShiftServiceImpl.java:79 | Two variables on one line are read as one variable. Group 3 runs greedily to the last `]}}`, so the merged path differs from the first variable's. |
| Resolver.TwoRouteVariablesVanish | services/openshift-service-impl/src/main/java/io/fabric8/launcher/service/openshift/impl/Fabric8OpenShiftServiceImpl.java:79 | `{{route/a[.spec.host]}}{{route/b[.spec.host]}}` resolves to the empty string, whatever the routes. |
| Resolver.ReplaceParameterVariable | services/openshift-service-impl/src/main/java/io/fabric8/launcher/service/openshift/impl/Fabric8OpenShiftServiceImpl.java:420-449 | A set value is returned unchanged. A null value with a `fabric8-value` property gets the property's resolved text. A null value without one stays null. |
| Resolver.ApplyParameterValueProperties | services/openshift-service-impl/src/main/java/io/fabric8/launcher/service/openshift/impl/Fabric8OpenShiftServiceImpl.java:412-418 | The list keeps its length, order, names and properties. Parameters with values are unchanged. A parameter ends up with a value exactly when it had one or had the property. |
| Resolver.ApplyKeepsUnresolvable | services/openshift-service-impl/src/main/java/io/fabric8/launcher/service/openshift/impl/Fabric8OpenShiftServiceImpl.java:422-423 | A parameter without the property, or with a value, comes out as it went in. |
| Resolver.ApplyResolves | services/openshift-service-impl/src/main/java/io/fabric8/launcher/service/openshift/impl/Fabric8OpenShiftServiceImpl.java:414-415 | A parameter with the property and no value gets the resolved property text at its own position. |
| Resolver.ApplyIdempotent | services/openshift-service-impl/src/main/java/io/fabric8/launcher/service/openshift/impl/Fabric8OpenShiftServiceImpl.java:412-418 | Applying the properties twice gives the same list as applying them once. |
| Resolver.ApplyThenMap | services/openshift-service-impl/src/main/java/io/fabric8/launcher/service/openshift/impl/Fabric8OpenShiftServiceImpl.java:339-341 | After resolution, `toMap` succeeds exactly when every parameter had a value or a `fabric8-value` property and the names are distinct. |
| Resolver.ApplyToPlain | services/openshift-service-impl/src/main/java/io/fabric8/launcher/service/openshift/impl/Fabric8OpenShiftServiceImpl.java:412-418 | Parameters with values and no properties are left as they are. |
| Resolver.ApplyToBaseParameters | services/openshift-service-impl/src/main/java/io/fabric8/launcher/service/openshift/impl/Fabric8OpenShiftServiceImpl.java:200-214 | Resolution leaves the list `getParameters` builds unchanged. |
| Webhooks.BuildConfigs | services/openshift-service-impl/src/main/java/io/fabric8/launcher/service/openshift/impl/Fabric8OpenShiftServiceImpl.java:248-249 | The filter keeps only resources of kind `BuildConfig`, taken from the input, and never more than the input. |
| Webhooks.Positions | services/openshift-service-impl/src/main/java/io/fabric8/launcher/service/openshift/impl/Fabric8OpenShiftServiceImpl.java:249 | The positions of the build configs are strictly increasing, and each holds a build config. Every build config's position is among them. |
| Webhooks.BuildConfigsAtPositions | services/openshift-service-impl/src/main/java/io/fabric8/launcher/service/openshift/impl/Fabric8OpenShiftServiceImpl.java:248-249 | The filter keeps exactly the resources at those positions, in order. |
| Webhooks.BuildConfigsAppend | services/openshift-service-impl/src/main/java/io/fabric8/launcher/service/openshift/impl/Fabric8OpenShiftServiceImpl.java:248-249 | Filtering a concatenation filters each part. |
| Webhooks.WebhookPath | services/openshift-service-impl/src/main/java/io/fabric8/launcher/service/openshift/impl/Fabric8OpenShiftServiceImpl.java:253-256 | The webhook context is `/oapi/v1/namespaces/` followed by the project name, and ends in `/github`. Its length is 51 plus the lengths of the project name, the build config's name and the secret, with a null secret written as `null`. |
| Webhooks.WebhookPathExample | services/openshift-service-impl/src/main/java/io/fabric8/launcher/service/openshift/impl/Fabric8OpenShiftServiceImpl.java:253-256 | Build config `bc` of project `p` with secret `s` has the context `/oapi/v1/namespaces/p/buildconfigs/bc/webhooks/s/github`. |
| Webhooks.WebhookPathNullSecret | services/openshift-service-impl/src/main/java/io/fabric8/launcher/service/openshift/impl/Fabric8OpenShiftServiceImpl.java:253-256 | A null secret appears in the context as the text `null`, between `/webhooks/` and `/github`. |
| Webhooks.WebhookUrl | services/openshift-service-impl/src/main/java/io/fabric8/launcher/service/openshift/impl/Fabric8OpenShiftServiceImpl.java:258-259 | A webhook URL keeps the console's protocol, host and port, and its file is the resource's webhook path. |
| Webhooks.UrlsOf | services/openshift-service-impl/src/main/java/io/fabric8/launcher/service/openshift/impl/Fabric8OpenShiftServiceImpl.java:250-266 | There is one URL per build config, in order. |
| Webhooks.GetWebhookUrls | services/openshift-service-impl/src/main/java/io/fabric8/launcher/service/openshift/impl/Fabric8OpenShiftServiceImpl.java:243-267 | A null project is rejected with "project must be specified". Otherwise the result holds one URL per `BuildConfig` resource, in resource order, on the console's protocol, host and port. Each URL's file is that resource's webhook path, `/oapi/v1/namespaces/<project>/buildconfigs/<name>/webhooks/<secret>/github`. |
| Webhooks.WebhookUrlsAppend | services/openshift-service-impl/src/main/java/io/fabric8/launcher/service/openshift/impl/Fabric8OpenShiftServiceImpl.java:248-266 | Adding resources appends the URLs of the added build configs only. Other kinds add nothing. |
| Lifecycle.ProjectExists | services/openshift-service-impl/src/main/java/io/fabric8/launcher/service/openshift/impl/Fabric8OpenShiftServiceImpl.java:298-309 | A null or empty name is rejected with "Project name cannot be empty". Otherwise the answer is true exactly when the lookup finds the project, so a client exception counts as false. |
| Lifecycle.FindProject | services/openshift-service-impl/src/main/java/io/fabric8/launcher/service/openshift/impl/Fabric8OpenShiftServiceImpl.java:178-184 | A null or empty name is rejected. A found project carries the name and the console URL. |
| Lifecycle.FindProjectAgrees | services/openshift-service-impl/src/main/java/io/fabric8/launcher/service/openshift/impl/Fabric8OpenShiftServiceImpl.java:178-184 | `findProject` fails exactly when `projectExists` fails. It finds the project exactly when `projectExists` is true. |
| Lifecycle.DeleteProject | services/openshift-service-impl/src/main/java/io/fabric8/launcher/service/openshift/impl/Fabric8OpenShiftServiceImpl.java:285-296 | A null or empty name is rejected with "project name must be specified". Otherwise the client's answer to `delete()` is returned. A client exception from it propagates, so the call fails exactly on a bad name or a client exception. |
| Lifecycle.DeleteProjectOf | services/openshift-service-impl/src/main/java/io/fabric8/launcher/service/openshift/impl/Fabric8OpenShiftServiceImpl.java:272-279 | A null project is rejected with "project must be specified". A project with an empty name meets the name guard. For any other project the result is the client's answer, or its exception. |
| Lifecycle.GuardsAgree | services/openshift-service-impl/src/main/java/io/fabric8/launcher/service/openshift/impl/Fabric8OpenShiftServiceImpl.java:178-309 | The guards of `projectExists`, `findProject` and `deleteProject` reject the same names: null and empty ones. Past the guard, `projectExists` turns a client exception into false, while `deleteProject` lets it through. |
| Lifecycle.CreateProject | services/openshift-service-impl/src/main/java/io/fabric8/launcher/service/openshift/impl/Fabric8OpenShiftServiceImpl.java:135-176 | A rejected request fails before any check. Otherwise there are at most 10 checks and one sleep fewer than checks. The project is returned, under the server's name, at the first check that finds it. It succeeds exactly when one of the first 10 checks does. Else the 10th miss raises "Newly-created project ... could not be found". An empty name fails at the first check. |
| Configure.GitHubSecret | services/openshift-service-impl/src/main/java/io/fabric8/launcher/service/openshift/impl/Fabric8OpenShiftServiceImpl.java:360-364 | The secret comes from the first trigger with a GitHub part (`findFirst`). There is none exactly when no trigger has one, which is the `NoSuchElementException`. |
| Configure.ResourceOf | services/openshift-service-impl/src/main/java/io/fabric8/launcher/service/openshift/impl/Fabric8OpenShiftServiceImpl.java:360-375 | The recorded resource carries the build config's name and the `BuildConfig` kind. Its secret is that of the first trigger with a GitHub part. |
| Configure.VisitItems | services/openshift-service-impl/src/main/java/io/fabric8/launcher/service/openshift/impl/Fabric8OpenShiftServiceImpl.java:357-377 | The visitor records only build configs, at most one per item. |
| Configure.VisitStopsAt | services/openshift-service-impl/src/main/java/io/fabric8/launcher/service/openshift/impl/Fabric8OpenShiftServiceImpl.java:357-377 | A visit that meets a build config without a GitHub trigger stops there. What it recorded is every build config before that one, in order, and that record stays on the project. |
| Configure.VisitStopsIff | services/openshift-service-impl/src/main/java/io/fabric8/launcher/service/openshift/impl/Fabric8OpenShiftServiceImpl.java:357-377 | A visit stops exactly when some build config lacks a GitHub trigger. Otherwise it records every build config, in order, with its secret. |
| Configure.ApplyWithRetry | services/openshift-service-impl/src/main/java/io/fabric8/launcher/service/openshift/impl/Fabric8OpenShiftServiceImpl.java:353-400 | The loop makes 1 to 10 attempts with one sleep fewer, and no attempt before the last succeeds. It succeeds exactly when one of the first 10 attempts can. Otherwise the 10th error is raised, wrapped in "Could not create OpenShift pipeline". Each attempt appends its visit to the recorded resources, and nothing is removed. |
| Configure.ProcessAndApply | services/openshift-service-impl/src/main/java/io/fabric8/launcher/service/openshift/impl/Fabric8OpenShiftServiceImpl.java:343-401 | After the value map, these hold. A failed value map or template processing is wrapped in "Could not create OpenShift pipeline", makes no attempt and records nothing. Otherwise the retry loop runs: the call succeeds exactly when one of the first ten attempts can, and each attempt's visit is appended to the recorded resources. |
| Configure.ConfigureProject | services/openshift-service-impl/src/main/java/io/fabric8/launcher/service/openshift/impl/Fabric8OpenShiftServiceImpl.java:335-401 | The value map is `toMap` after resolution (`Configure.ParameterValues`), or the route listing's failure (`Configure.ValueMap`). The call succeeds exactly when the route listing, the value map and the template processing succeed and one of the first ten attempts can. Every failure is wrapped in "Could not create OpenShift pipeline". A failed route listing, `toMap` or processing surfaces before any attempt and records nothing. Once the items are processed there is at least one attempt, and each appends its visit to the recorded resources. A failure then comes after all 10 attempts, carrying the 10th attempt's error. |
| Urls.ExternalForm | services/openshift-service-impl/src/main/java/io/fabric8/launcher/service/openshift/impl/Fabric8OpenShiftServiceImpl.java:211 | `URL.toString()` is the protocol, then `:`, then `//` and the authority when the authority is not empty, then the file. With an empty authority nothing stands between the `:` and the file. |
| Urls.ExternalFormExample | services/openshift-service-impl/src/main/java/io/fabric8/launcher/service/openshift/impl/Fabric8OpenShiftServiceImpl.java:211 | A console on `https`, host `console.io`, port 8443 and an empty file prints as `https://console.io:8443`. |
| Configure.BaseParameterValues | services/openshift-service-impl/src/main/java/io/fabric8/launcher/service/openshift/impl/Fabric8OpenShiftServiceImpl.java:339-341 | On the list `getParameters` builds, resolution and `toMap` always succeed, with one entry per name. |

## Left out

- Client construction (the system property, the identity visitor and `DefaultOpenShiftClient`) is configuration plumbing and is not modelled.
- Every call into the cluster client is an input, not a model. Each input can carry the client's failure:
  - project requests (`Rejected`);
  - existence lookups (`ClientError`);
  - deletion and route listing (a failed `Result`);
  - template loading and processing (one function returning a `Result`);
  - `createOrReplace` (`Refused`).
  `ExceptionMapper` is not part of this model: a rejected request is carried as its detail.
- `fixJenkinsServiceAccount`, `getServiceURL`, `triggerBuild` and the build-config and config-map CRUD calls are client calls with no logic of their own.
- The public `configureProject(project, stream, Map)` overload is not modelled: its list order is the hash map's iteration order.
- The null checks of the public overloads on the project, template and map are not modelled.
- `Thread.sleep` and interruption handling are not modelled: sleeps are counted, and an interrupt cannot be expressed.
- Logging is not modelled.
- Java's general regex engine and `java.net.URL` parsing are not modelled. Only the one pattern and a (protocol, host, port, file) tuple are.
- `MalformedURLException` in `getWebhookUrls` cannot happen for a URL built from an existing URL's parts, so it is not modelled.
- Sanitizer.Lower: lower-cases ASCII letters only, where `String.toLowerCase` is locale- and Unicode-aware.
- Parameters.IsJavaWhitespace: `isNotBlank` is modelled with the `Character.isWhitespace` set, minus U+180E.
- Java strings are UTF-16 while Dafny strings are sequences of characters, so surrogate pairs are not modelled.
- `toString()` of a null `fabric8-value` property, a NullPointerException, is not modelled: properties are strings.
- A null project name, resource name or `getRepositoryName` URI argument is not modelled. A null webhook secret is modelled, and concatenation writes it as `null`.
